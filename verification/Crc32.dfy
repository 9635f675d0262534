/** `gxc  // ----- What fixes the seed and the polynomial -----

  lemma EightSteps()
    ensures Eight(0xFFFFFFFF ^ 0x31) == 0x7C231048
    ensures Eight(0x7C231048 ^ 0x32) == 0xB0ACBB32
    ensures Eight(0xB0ACBB32 ^ 0x33) == 0x77B79C2D
    ensures Eight(0x77B79C2D ^ 0x34) == 0x641C1F5C
    ensures Eight(0x641C1F5C ^ 0x35) == 0x340AC5E3
    ensures Eight(0x340AC5E3 ^ 0x36) == 0xF68D2C9E
    ensures Eight(0xF68D2C9E ^ 0x37) == 0xAFFC9660
    ensures Eight(0xAFFC9660 ^ 0x38) == 0x651F2550
    ensures Eight(0x651F2550 ^ 0x39) == 0x340BC6D9
  {
  }

  /** One byte, by eight steps. */
  lemma ByteStep(crc: Word, b: Byte, data: seq<Byte>, next: Word)
    requires Eight(Xor(crc, Widen(b))) == next
    ensures UpdateAll(crc, [b] + data) == UpdateAll(next, data)
  {
    hide Lookup, Eight, Xor, Widen;
    LookupIsEightSteps(crc, Widen(b));
    assert ([b] + data)[1..] == data;
  }

  /** The check value: the checksum of the digits "123456789". */
  lemma CheckValue()
    ensures Continue(0, [0x31, 0x32, 0x33, 0x34, 0x35, 0x36, 0x37, 0x38, 0x39]) == 0xCBF43926
  {
    EightSteps();
    hide Eight, UpdateAll;
    ByteStep(0xFFFFFFFF, 0x31, [0x32, 0x33, 0x34, 0x35, 0x36, 0x37, 0x38, 0x39], 0x7C231048);
    assert [0x31] + [0x32, 0x33, 0x34, 0x35, 0x36, 0x37, 0x38, 0x39] ==
      [0x31, 0x32, 0x33, 0x34, 0x35, 0x36, 0x37, 0x38, 0x39];
    ByteStep(0x7C231048, 0x32, [0x33, 0x34, 0x35, 0x36, 0x37, 0x38, 0x39], 0xB0ACBB32);
    assert [0x32] + [0x33, 0x34, 0x35, 0x36, 0x37, 0x38, 0x39] == [0x32, 0x33, 0x34, 0x35, 0x36, 0x37, 0x38, 0x39];
    ByteStep(0xB0ACBB32, 0x33, [0x34, 0x35, 0x36, 0x37, 0x38, 0x39], 0x77B79C2D);
    assert [0x33] + [0x34, 0x35, 0x36, 0x37, 0x38, 0x39] == [0x33, 0x34, 0x35, 0x36, 0x37, 0x38, 0x39];
    ByteStep(0x77B79C2D, 0x34, [0x35, 0x36, 0x37, 0x38, 0x39], 0x641C1F5C);
    assert [0x34] + [0x35, 0x36, 0x37, 0x38, 0x39] == [0x34, 0x35, 0x36, 0x37, 0x38, 0x39];
    ByteStep(0x641C1F5C, 0x35, [0x36, 0x37, 0x38, 0x39], 0x340AC5E3);
    assert [0x35] + [0x36, 0x37, 0x38, 0x39] == [0x35, 0x36, 0x37, 0x38, 0x39];
    ByteStep(0x340AC5E3, 0x36, [0x37, 0x38, 0x39], 0xF68D2C9E);
    assert [0x36] + [0x37, 0x38, 0x39] == [0x36, 0x37, 0x38, 0x39];
    ByteStep(0xF68D2C9E, 0x37, [0x38, 0x39], 0xAFFC9660);
    assert [0x37] + [0x38, 0x39] == [0x37, 0x38, 0x39];
    ByteStep(0xAFFC9660, 0x38, [0x39], 0x651F2550);
    assert [0x38] + [0x39] == [0x38, 0x39];
    ByteStep(0x651F2550, 0x39, [], 0x340BC6D9);
    assert [0x39] + [] == [0x39];
    assert UpdateAll(0x340BC6D9, []) == 0x340BC6D9 by {
      NoBytes(0x340BC6D9);
    }
  }

  lemma NoBytes(crc: Word)
    ensures UpdateAll(crc, []) == crc
  {
  }

  /** A zero byte in front of a message changes its checksum, which it would not
      with a seed of zero. */
  lemma LeadingZeroMatters(data: seq<Byte>)
    ensures Continue(0, [0] + data) != Continue(0, data)
  {
    var s := Xor(0, Seed());
    assert Eight(s) == 0x2DFD1072 && Xor(s, Widen(0)) == s;
    ByteStep(s, 0, data, Eight(s));
    hide Eight, UpdateAll, Xor, Seed;
    if Continue(0, [0] + data) == Continue(0, data) {
      SeedTwice(UpdateAll(s, [0] + data));
      SeedTwice(UpdateAll(s, data));
      UpdateAllInjective(Eight(s), s, data);
    }
  }

rc32`: the checksum over byte sequences and its error detection. */
module Crc32 {
  import opened Crc32Table

  type Byte = bv8

  /** `CRC_SEED` */
  function Seed(): Word { 0xFFFF_FFFF }

  function Widen(b: Byte): (r: Word)
    ensures r < 256
  {
    b as Word
  }

  /** `CRC_TABLE[(crc ^ b) & 0xFF] ^ (crc >> 8)` */
  function Lookup(crc: Word, b: Word): Word {
    Xor(Table(Low(Xor(crc, b))), High(crc))
  }

  /** The body of the update loops, on the inverted checksum. */
  function Update(crc: Word, b: Byte): Word {
    Lookup(crc, Widen(b))
  }

  function UpdateAll(crc: Word, data: seq<Byte>): Word
    decreases |data|
  {
    if data == [] then crc else UpdateAll(Update(crc, data[0]), data[1..])
  }

  /** The checksum after `data`, from a checksum so far. */
  function Continue(crc: Word, data: seq<Byte>): Word {
    Xor(UpdateAll(Xor(crc, Seed()), data), Seed())
  }

  // ----- The table-driven update is polynomial division -----

  lemma LookupIsEightSteps(crc: Word, b: Word)
    requires b < 256
    ensures Lookup(crc, b) == Eight(Xor(crc, b))
  {
    hide Table, Eight, Xor, Low, High, Up;
    var x := Xor(crc, b);
    SplitWord(x);
    HighIgnoresByte(crc, b);
    TableIsEightSteps(Low(x));
    EightLinear(Low(x), Up(High(x)));
    EightShifts(High(x));
  }

  /** The division one message bit a time, lowest bit of a byte first. */
  function SerialBits(crc: Word, b: Word, n: nat): Word
    decreases n
  {
    if n == 0 then crc else SerialBits(Step(Xor(crc, LowBit(b))), Half(b), n - 1)
  }

  function StepTimes(x: Word, n: nat): Word
    decreases n
  {
    if n == 0 then x else StepTimes(Step(x), n - 1)
  }

  function HalfTimes(x: Word, n: nat): Word
    decreases n
  {
    if n == 0 then x else HalfTimes(Half(x), n - 1)
  }

  lemma {:induction false} SerialIsDelayed(crc: Word, b: Word, n: nat)
    ensures StepTimes(Xor(crc, b), n) == Xor(SerialBits(crc, b, n), HalfTimes(b, n))
    decreases n
  {
    hide Step, Xor, LowBit, Half, Even;
    if n > 0 {
      SplitBit(b);
      XorAssociative(crc, LowBit(b), Even(b));
      StepLinear(Xor(crc, LowBit(b)), Even(b));
      SerialIsDelayed(Step(Xor(crc, LowBit(b))), Half(b), n - 1);
    }
  }

  lemma EightIsStepTimes(x: Word)
    ensures Eight(x) == StepTimes(x, 8)
  {
    hide Step;
    var y := Step(Step(Step(Step(x))));
    assert StepTimes(x, 8) == StepTimes(y, 4);
    assert StepTimes(y, 4) == Step(Step(Step(Step(y))));
  }

  lemma ByteRunsOut(b: Word)
    requires b < 256
    ensures HalfTimes(b, 8) == 0
  {
    assert HalfTimes(b, 8) == HalfTimes(b >> 1, 7) == HalfTimes(b >> 2, 6);
    assert HalfTimes(b >> 2, 6) == HalfTimes(b >> 3, 5) == HalfTimes(b >> 4, 4);
    assert b >> 4 < 16;
    var c := b >> 4;
    assert HalfTimes(c, 4) == HalfTimes(c >> 1, 3) == HalfTimes(c >> 2, 2);
    assert HalfTimes(c >> 2, 2) == HalfTimes(c >> 3, 1) == HalfTimes(c >> 4, 0);
  }

  /** One table lookup does the work of eight message bits. */
  lemma LookupIsSerial(crc: Word, b: Word)
    requires b < 256
    ensures Lookup(crc, b) == SerialBits(crc, b, 8)
  {
    hide Lookup, Eight, Xor, SerialBits, StepTimes, HalfTimes;
    LookupIsEightSteps(crc, b);
    EightIsStepTimes(Xor(crc, b));
    SerialIsDelayed(crc, b, 8);
    ByteRunsOut(b);
    XorSelf(SerialBits(crc, b, 8));
  }

  // ----- Splitting -----

  lemma {:induction false} UpdateConcat(crc: Word, a: seq<Byte>, b: seq<Byte>)
    ensures UpdateAll(crc, a + b) == UpdateAll(UpdateAll(crc, a), b)
    decreases |a|
  {
    hide Update;
    if a == [] {
      assert a + b == b;
    } else {
      assert (a + b)[1..] == a[1..] + b;
      UpdateConcat(Update(crc, a[0]), a[1..], b);
    }
  }

  lemma SeedTwice(x: Word)
    ensures Xor(Xor(x, Seed()), Seed()) == x
  {
    hide Xor, Seed;
    XorAssociative(x, Seed(), Seed());
    XorSelf(Seed());
    XorSelf(x);
  }

  /** Two updates in a row amount to one update with both parts. */
  lemma ContinueConcat(crc: Word, a: seq<Byte>, b: seq<Byte>)
    ensures Continue(crc, a + b) == Continue(Continue(crc, a), b)
  {
    hide UpdateAll, Xor, Seed;
    UpdateConcat(Xor(crc, Seed()), a, b);
    SeedTwice(UpdateAll(Xor(crc, Seed()), a));
  }

  // ----- Error detection -----

  /** A byte step is a bijection on states: it keeps them apart ... */
  lemma UpdateInjective(x: Word, y: Word, b: Byte)
    requires Update(x, b) == Update(y, b)
    ensures x == y
  {
    hide Lookup, Eight, Xor, Widen;
    var w := Widen(b);
    LookupIsEightSteps(x, w);
    LookupIsEightSteps(y, w);
    EightInjective(Xor(x, w), Xor(y, w));
    XorMoves(x, w, Xor(y, w));
    XorMoves(y, w, Xor(x, w));
  }

  lemma {:induction false} UpdateAllInjective(x: Word, y: Word, data: seq<Byte>)
    requires UpdateAll(x, data) == UpdateAll(y, data)
    ensures x == y
    decreases |data|
  {
    hide Update;
    if data != [] {
      UpdateAllInjective(Update(x, data[0]), Update(y, data[0]), data[1..]);
      UpdateInjective(x, y, data[0]);
    }
  }

  /** ... onto all of them: every state has a predecessor for every byte. */
  lemma UpdateSurjective(y: Word, b: Byte) returns (x: Word)
    ensures Update(x, b) == y
  {
    hide Lookup, Eight, EightBack, Xor, Widen;
    var w := Widen(b);
    x := Xor(EightBack(y), w);
    LookupIsEightSteps(x, w);
    XorAssociative(EightBack(y), w, w);
    XorSelf(w);
    XorSelf(EightBack(y));
    EightOfBack(y);
  }

  lemma {:induction false} UpdateAllSurjective(y: Word, data: seq<Byte>) returns (x: Word)
    ensures UpdateAll(x, data) == y
    decreases |data|
  {
    hide Update;
    if data == [] {
      x := y;
    } else {
      var next := UpdateAllSurjective(y, data[1..]);
      x := UpdateSurjective(next, data[0]);
    }
  }

  // ----- The division bit by bit, and bursts -----

  function UpdateBits(crc: Word, bits: seq<bool>): Word
    decreases |bits|
  {
    if bits == [] then crc else UpdateBits(Step(Xor(crc, BitWord(bits[0]))), bits[1..])
  }

  /** The lowest `n` bits of a word, lowest first. */
  function BitsOf(b: Word, n: nat): (r: seq<bool>)
    ensures |r| == n
    decreases n
  {
    if n == 0 then [] else [LowBit(b) != 0] + BitsOf(Half(b), n - 1)
  }

  /** A message as bits in the order of the division. */
  function MessageBits(data: seq<Byte>): (r: seq<bool>)
    ensures |r| == 8 * |data|
    decreases |data|
  {
    if data == [] then [] else BitsOf(Widen(data[0]), 8) + MessageBits(data[1..])
  }

  lemma LowBitIsBit(b: Word)
    ensures BitWord(LowBit(b) != 0) == LowBit(b)
  {
  }

  lemma {:induction false} SerialIsBits(crc: Word, b: Word, n: nat)
    ensures SerialBits(crc, b, n) == UpdateBits(crc, BitsOf(b, n))
    decreases n
  {
    hide Step, Xor, LowBit, Half, BitWord;
    if n > 0 {
      var bits := BitsOf(b, n);
      LowBitIsBit(b);
      assert bits[1..] == BitsOf(Half(b), n - 1);
      SerialIsBits(Step(Xor(crc, LowBit(b))), Half(b), n - 1);
    }
  }

  lemma {:induction false} UpdateBitsConcat(crc: Word, a: seq<bool>, b: seq<bool>)
    ensures UpdateBits(crc, a + b) == UpdateBits(UpdateBits(crc, a), b)
    decreases |a|
  {
    hide Step, Xor, BitWord;
    if a == [] {
      assert a + b == b;
    } else {
      assert (a + b)[1..] == a[1..] + b;
      UpdateBitsConcat(Step(Xor(crc, BitWord(a[0]))), a[1..], b);
    }
  }

  /** The byte-wise update is the division of the message bits. */
  lemma {:induction false} UpdateIsBits(crc: Word, data: seq<Byte>)
    ensures UpdateAll(crc, data) == UpdateBits(crc, MessageBits(data))
    decreases |data|
  {
    hide Lookup, Widen, BitsOf, SerialBits;
    if data != [] {
      var b := Widen(data[0]);
      LookupIsSerial(crc, b);
      SerialIsBits(crc, b, 8);
      UpdateBitsConcat(crc, BitsOf(b, 8), MessageBits(data[1..]));
      hide UpdateBits;
      UpdateIsBits(Update(crc, data[0]), data[1..]);
    }
  }

  lemma {:induction false} UpdateBitsInjective(x: Word, y: Word, bits: seq<bool>)
    requires UpdateBits(x, bits) == UpdateBits(y, bits)
    ensures x == y
    decreases |bits|
  {
    hide Step, Xor, BitWord;
    if bits != [] {
      var b := BitWord(bits[0]);
      UpdateBitsInjective(Step(Xor(x, b)), Step(Xor(y, b)), bits[1..]);
      StepInjective(Xor(x, b), Xor(y, b));
      XorMoves(x, b, Xor(y, b));
      XorMoves(y, b, Xor(x, b));
    }
  }

  /** Up to 32 bits as a word, the first bit lowest. */
  function Packed(bits: seq<bool>): Word {
    if bits == [] then 0 else Xor(BitWord(bits[0]), Twice(Packed(bits[1..])))
  }

  lemma {:induction false} PackedInside(bits: seq<bool>)
    ensures Outside(Packed(bits), Ones(|bits|)) == 0
  {
    if bits != [] {
      PackedInside(bits[1..]);
      OutsideStep(BitWord(bits[0]), Packed(bits[1..]), Ones(|bits| - 1));
    }
  }

  lemma PackedIsSmall(bits: seq<bool>)
    requires |bits| <= 31
    ensures Packed(bits) < 0x80000000
  {
    hide Packed, Ones, Outside;
    PackedInside(bits);
    OnesFit(|bits|);
    InsideIsSmall(Packed(bits), Ones(|bits|));
  }

  lemma {:induction false} PackedInjective(x: seq<bool>, y: seq<bool>)
    requires |x| == |y| <= 32 && Packed(x) == Packed(y)
    ensures x == y
  {
    hide Xor, Twice;
    if x != [] {
      PackedIsSmall(x[1..]);
      PackedIsSmall(y[1..]);
      PackedBit(BitWord(x[0]), Packed(x[1..]), BitWord(y[0]), Packed(y[1..]));
      PackedInjective(x[1..], y[1..]);
      assert x == [x[0]] + x[1..] && y == [y[0]] + y[1..];
    }
  }

  /** If two states agree again after up to 32 bits each, the difference of the
      states is the difference of the bits. */
  lemma {:induction false} DifferencesCancel(s: Word, t: Word, x: seq<bool>, y: seq<bool>)
    requires |x| == |y| <= 32 && UpdateBits(s, x) == UpdateBits(t, y)
    ensures Xor(s, t) == Xor(Packed(x), Packed(y))
    decreases |x|
  {
    hide Step, Xor, Twice, BitWord;
    if x == [] {
      XorSelf(s);
      XorSelf(0);
    } else {
      var a, b := BitWord(x[0]), BitWord(y[0]);
      DifferencesCancel(Step(Xor(s, a)), Step(Xor(t, b)), x[1..], y[1..]);
      PackedIsSmall(x[1..]);
      PackedIsSmall(y[1..]);
      OneBitBack(s, t, a, b, Packed(x[1..]), Packed(y[1..]));
    }
  }

  lemma OneBitBack(s: Word, t: Word, a: Word, b: Word, p: Word, q: Word)
    requires p < 0x80000000 && q < 0x80000000
    requires Xor(Step(Xor(s, a)), Step(Xor(t, b))) == Xor(p, q)
    ensures Xor(s, t) == Xor(Xor(a, Twice(p)), Xor(b, Twice(q)))
  {
    hide Step, Xor, Twice;
    var w := Xor(Xor(s, a), Xor(t, b));
    StepLinear(Xor(s, a), Xor(t, b));
    XorSmall(p, q);
    StepOntoSmall(w);
    XorExchange(s, a, t, b);
    XorMoves(Xor(s, t), Xor(a, b), Twice(Xor(p, q)));
    TwiceLinear(p, q);
    XorExchange(a, b, Twice(p), Twice(q));
  }

  /** Messages of equal length that differ only inside 32 consecutive bits, at
      any alignment, have different checksums. */
  lemma BurstsAreDetected(crc: Word, m: seq<Byte>, n: seq<Byte>, p: seq<bool>, x: seq<bool>, y: seq<bool>, q: seq<bool>)
    requires MessageBits(m) == p + x + q && MessageBits(n) == p + y + q
    requires |x| == |y| <= 32 && x != y
    ensures Continue(crc, m) != Continue(crc, n)
  {
    hide UpdateAll, UpdateBits, MessageBits, Packed, Xor, Seed;
    var c := Xor(crc, Seed());
    var s := UpdateBits(c, p);
    UpdateIsBits(c, m);
    UpdateIsBits(c, n);
    UpdateBitsConcat(c, p + x, q);
    UpdateBitsConcat(c, p, x);
    UpdateBitsConcat(c, p + y, q);
    UpdateBitsConcat(c, p, y);
    if Continue(crc, m) == Continue(crc, n) {
      SeedTwice(UpdateAll(c, m));
      SeedTwice(UpdateAll(c, n));
      UpdateBitsInjective(UpdateBits(s, x), UpdateBits(s, y), q);
      DifferencesCancel(s, s, x, y);
      XorSelf(s);
      XorZero(Packed(x), Packed(y));
      PackedInjective(x, y);
    }
  }

  lemma {:induction false} MessageBitsConcat(a: seq<Byte>, b: seq<Byte>)
    ensures MessageBits(a + b) == MessageBits(a) + MessageBits(b)
    decreases |a|
  {
    hide BitsOf;
    if a == [] {
      assert a + b == b;
    } else {
      assert (a + b)[1..] == a[1..] + b;
      MessageBitsConcat(a[1..], b);
    }
  }

  lemma {:induction false} WordFromBits(x: Word, n: nat)
    requires HalfTimes(x, n) == 0
    ensures Packed(BitsOf(x, n)) == x
    decreases n
  {
    hide LowBit, Half, Twice, Xor, BitWord;
    if n > 0 {
      var bits := BitsOf(x, n);
      assert bits[1..] == BitsOf(Half(x), n - 1);
      WordFromBits(Half(x), n - 1);
      LowBitIsBit(x);
      HalvesRejoin(x);
    }
  }

  lemma HalvesRejoin(x: Word)
    ensures Xor(LowBit(x), Twice(Half(x))) == x
  {
  }

  lemma {:induction false} MessageBitsInjective(x: seq<Byte>, y: seq<Byte>)
    requires |x| == |y| && MessageBits(x) == MessageBits(y)
    ensures x == y
  {
    hide Widen, BitsOf, HalfTimes, Packed;
    if x != [] {
      var a, b := Widen(x[0]), Widen(y[0]);
      assert BitsOf(a, 8) == MessageBits(x)[..8] && BitsOf(b, 8) == MessageBits(y)[..8];
      assert MessageBits(x[1..]) == MessageBits(x)[8..] && MessageBits(y[1..]) == MessageBits(y)[8..];
      ByteRunsOut(a);
      ByteRunsOut(b);
      WordFromBits(a, 8);
      WordFromBits(b, 8);
      WidenInjective(x[0], y[0]);
      MessageBitsInjective(x[1..], y[1..]);
      assert x == [x[0]] + x[1..] && y == [y[0]] + y[1..];
    }
  }

  lemma WidenInjective(a: Byte, b: Byte)
    requires Widen(a) == Widen(b)
    ensures a == b
  {
  }

  /** In particular, if they differ only inside four consecutive bytes. */
  lemma FourBytesAreDetected(crc: Word, p: seq<Byte>, x: seq<Byte>, y: seq<Byte>, q: seq<Byte>)
    requires |x| == |y| <= 4 && x != y
    ensures Continue(crc, p + x + q) != Continue(crc, p + y + q)
  {
    hide MessageBits, Continue;
    MessageBitsConcat(p + x, q);
    MessageBitsConcat(p, x);
    MessageBitsConcat(p + y, q);
    MessageBitsConcat(p, y);
    if MessageBits(x) == MessageBits(y) {
      MessageBitsInjective(x, y);
    }
    BurstsAreDetected(crc, p + x + q, p + y + q, MessageBits(p), MessageBits(x), MessageBits(y), MessageBits(q));
  }

  // ----- The class -----

  /** `strlen` */
  function StrLen(s: seq<Byte>): (n: nat)
    requires 0 in s
    ensures n < |s| && s[n] == 0 && 0 !in s[..n]
  {
    if s[0] == 0 then 0 else 1 + StrLen(s[1..])
  }

  const INT_MAX: int := 0x7FFF_FFFF

  /** `(int) strlen`, on 32-bit integers. */
  function IntLen(s: seq<Byte>): (n: int)
    requires 0 in s
    ensures n <= INT_MAX && n <= StrLen(s)
  {
    var low := StrLen(s) % 0x1_0000_0000;
    if low <= INT_MAX then low else low - 0x1_0000_0000
  }

  /** The cast keeps the length of a text exactly if it fits. */
  lemma IntLenExactly(s: seq<Byte>)
    requires 0 in s
    ensures IntLen(s) == StrLen(s) <==> StrLen(s) <= INT_MAX
  {
    hide StrLen;
  }

  datatype Buffer = NullPointer | At(memory: seq<Byte>)

  class Checksum {
    var crcData: Word

    constructor ()
      ensures crcData == 0
    {
      crcData := 0;
    }

    /** `update(int)`; `bval` is the argument as a bit pattern. */
    method UpdateByte(bval: Word, ghost b: Byte)
      requires Low(bval) == Widen(b)
      modifies this
      ensures crcData == Continue(old(crcData), [b])
    {
      hide Lookup, Widen, Xor, Seed, Low;
      ghost var c := Xor(crcData, Seed());
      assert UpdateAll(c, [b]) == Update(c, b) by {
        assert [b][1..] == [];
      }
      LowByteOnly(c, bval);
      crcData := Xor(crcData, Seed());
      crcData := Lookup(crcData, bval);
      crcData := Xor(crcData, Seed());
    }

    /** `update(buf, off, len, is_binary)`.  Binary callers answer for the size
        of the buffer; text is checked against its terminator. */
    method UpdateRange(buf: Buffer, off: int, len: int, isBinary: bool)
      requires off <= INT_MAX && len <= INT_MAX && (off >= 0 && len >= 0 ==> off + len <= INT_MAX)
      requires buf.At? ==> if isBinary then off >= 0 && len >= 0 ==> off + len <= |buf.memory| else 0 in buf.memory
      modifies this
      ensures Rejects(buf, off, len, isBinary) ==> crcData == old(crcData)
      ensures !Rejects(buf, off, len, isBinary) ==>
        crcData == Continue(old(crcData), buf.memory[off..off + len])
    {
      hide IntLen, UpdateAll, Update, Xor, Seed;
      if buf.NullPointer? {
        return;
      }
      if off < 0 || len < 0 || (!isBinary && off + len > IntLen(buf.memory)) {
        return;
      }
      crcData := Xor(crcData, Seed());
      UpdateLoop(buf.memory, off, len);
      crcData := Xor(crcData, Seed());
    }

    method UpdateLoop(memory: seq<Byte>, off: nat, len: nat)
      requires off + len <= |memory|
      modifies this
      ensures crcData == UpdateAll(old(crcData), memory[off..off + len])
    {
      hide Update;
      ghost var start := crcData;
      var pos, rest := off, len - 1;
      while rest >= 0
        invariant -1 <= rest && pos + rest + 1 == off + len && pos >= off
        invariant crcData == UpdateAll(start, memory[off..pos])
      {
        UpdateConcat(start, memory[off..pos], [memory[pos]]);
        assert memory[off..pos + 1] == memory[off..pos] + [memory[pos]];
        assert [memory[pos]][1..] == [];
        crcData := Update(crcData, memory[pos]);
        pos := pos + 1;
        rest := rest - 1;
      }
    }

    /** `update(buffer)`: nothing happens if the cast length is negative. */
    method UpdateText(data: seq<Byte>)
      requires 0 in data
      modifies this
      ensures crcData == if IntLen(data) < 0 then old(crcData) else Continue(old(crcData), data[..IntLen(data)])
    {
      hide IntLen, UpdateAll, Xor, Seed;
      UpdateRange(At(data), 0, IntLen(data), false);
      assert IntLen(data) >= 0 ==> data[0..IntLen(data)] == data[..IntLen(data)];
    }

    /** `calc(data)` */
    method CalcText(data: seq<Byte>) returns (crc: Word)
      requires 0 in data
      modifies this
      ensures crc == if IntLen(data) < 0 then 0 else Continue(0, data[..IntLen(data)])
      ensures StrLen(data) <= INT_MAX ==> crc == Continue(0, data[..StrLen(data)])
    {
      hide StrLen, IntLen, UpdateAll, Xor, Seed;
      IntLenExactly(data);
      if IntLen(data) == 0 {
        EmptyChecksum();
        assert data[..0] == [];
        return 0;
      }
      crcData := 0;
      UpdateText(data);
      crc := crcData;
    }

    /** `calc(data, offset, len, is_binary)` */
    method Calc(buf: Buffer, off: int, len: int, isBinary: bool) returns (crc: Word)
      requires off <= INT_MAX && len <= INT_MAX && (off >= 0 && len >= 0 ==> off + len <= INT_MAX)
      requires buf.At? ==> if isBinary then off >= 0 && len >= 0 ==> off + len <= |buf.memory| else 0 in buf.memory
      modifies this
      ensures crc == if Rejects(buf, off, len, isBinary) then 0 else Continue(0, buf.memory[off..off + len])
    {
      hide IntLen, UpdateAll, Xor, Seed;
      crcData := 0;
      UpdateRange(buf, off, len, isBinary);
      crc := crcData;
    }
  }

  predicate Rejects(buf: Buffer, off: int, len: int, isBinary: bool)
    requires buf.At? && !isBinary ==> 0 in buf.memory
    ensures !Rejects(buf, off, len, isBinary) ==>
      buf.At? && 0 <= off && 0 <= len && (!isBinary ==> off + len <= |buf.memory|)
  {
    buf.NullPointer? || off < 0 || len < 0 || (!isBinary && off + len > IntLen(buf.memory))
  }

  lemma EmptyChecksum()
    ensures Continue(0, []) == 0
  {
    hide Xor, Seed;
    SeedTwice(0);
  }

  lemma LowByteOnly(crc: Word, bval: Word)
    ensures Lookup(crc, bval) == Lookup(crc, Low(bval))
  {
    assert (crc ^ bval) & 0xFF == (crc ^ (bval & 0xFF)) & 0xFF;
    assert Low(Xor(crc, bval)) == Low(Xor(crc, Low(bval)));
    hide Table;
  }
}
