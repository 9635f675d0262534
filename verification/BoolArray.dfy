/** `nvwa::bool_array`: a packed array of booleans.  Bit `p` is bit `p % 8` of
    byte `p / 8`; the unused bits of the last byte are kept zero. */
module BoolArray {
  import opened Bits

  const NPOS: nat := 0xFFFF_FFFF_FFFF_FFFF

  /** `get_num_bytes_from_bits` */
  function NumBytes(bits: nat): nat { (bits + 7) / 8 }

  /** `(_M_length - 1) % 8 + 1` */
  function ValidBits(length: nat): (r: nat)
    requires length > 0
    ensures 1 <= r <= 8 && length == 8 * (NumBytes(length) - 1) + r
  {
    (length - 1) % 8 + 1
  }

  /** The bits at and above `length` are zero. */
  ghost predicate Padded(s: seq<bv8>, length: nat) {
    |s| == NumBytes(length) && forall p :: length <= p < 8 * |s| ==> !BitAt(s, p)
  }

  /** `&= ~(~0U << valid_bits_in_last_byte)` on the last byte. */
  function Trimmed(s: seq<bv8>, length: nat): seq<bv8>
    requires length > 0 && |s| == NumBytes(length)
  {
    s[|s| - 1 := s[|s| - 1] & LowMask(ValidBits(length))]
  }

  lemma TrimmedBits(s: seq<bv8>, length: nat)
    requires length > 0 && |s| == NumBytes(length)
    ensures Padded(Trimmed(s, length), length)
    ensures BitsOf(Trimmed(s, length), length) == BitsOf(s, length)
  {
    hide Bit, Shl;
    var t := Trimmed(s, length);
    forall p | 0 <= p < 8 * |s| ensures BitAt(t, p) <==> p < length && BitAt(s, p) {
      if p / 8 == |s| - 1 {
        BitAnd(s[|s| - 1], LowMask(ValidBits(length)), p % 8);
        BitOfMasks(ValidBits(length), p % 8);
      }
    }
  }

  lemma PrefixBits(s: seq<bv8>, length: nat)
    requires NumBytes(length) <= |s|
    ensures BitsOf(s[..NumBytes(length)], length) == BitsOf(s, length)
  {
    hide Bit;
  }

  /** `get_8bits`: bits `offset` and up, of which those at or beyond `end` are
      not specified. */
  function Get8Bits(s: seq<bv8>, offset: nat, end: nat): (r: bv8)
    requires offset < end <= 8 * |s|
  {
    var byteOffset, bitOffset := offset / 8, offset % 8;
    var low := Shr(s[byteOffset], bitOffset);
    if bitOffset != 0 && byteOffset < (end - 1) / 8 then
      low | Shl(s[byteOffset + 1], 8 - bitOffset)
    else low
  }

  lemma Get8BitsAt(s: seq<bv8>, offset: nat, end: nat, j: nat)
    requires offset < end <= 8 * |s| && j < 8 && offset + j < end
    ensures Bit(Get8Bits(s, offset, end), j) <==> BitAt(s, offset + j)
  {
    hide Bit, Shl, Shr;
    var i, k := offset / 8, offset % 8;
    BitShr(s[i], k, j);
    if k != 0 && i < (end - 1) / 8 {
      BitShl(s[i + 1], 8 - k, j);
      BitOr(Shr(s[i], k), Shl(s[i + 1], 8 - k), j);
    }
    if j + k < 8 {
      assert (offset + j) / 8 == i && (offset + j) % 8 == j + k;
    } else {
      assert (offset + j) / 8 == i + 1 && (offset + j) % 8 == j + k - 8;
    }
  }

  // ----- Merging -----

  function Combined(and: bool, x: bool, y: bool): bool { if and then x && y else x || y }

  function ByteOp(and: bool, x: bv8, y: bv8): bv8 { if and then x & y else x | y }

  lemma ByteOpBit(and: bool, x: bv8, y: bv8, j: nat)
    requires j < 8
    ensures Bit(ByteOp(and, x, y), j) == Combined(and, Bit(x, j), Bit(y, j))
  {
    hide Bit;
    if and {
      BitAnd(x, y, j);
    } else {
      BitOr(x, y, j);
    }
  }

  /** `d` is `d0` with the first `m` bits from `offset` on combined with those of
      `src` from `begin` on, and nothing else changed. */
  ghost predicate Merged(and: bool, d: seq<bv8>, d0: seq<bv8>, src: seq<bv8>, begin: nat, m: nat, offset: nat)
    requires begin + m <= 8 * |src|
  {
    |d| == |d0| &&
    forall p :: 0 <= p < 8 * |d0| ==>
      (BitAt(d, p) <==>
       if offset <= p < offset + m then Combined(and, BitAt(d0, p), BitAt(src, begin + (p - offset)))
       else BitAt(d0, p))
  }

  /** A byte that carries `n` source bits from position `lo` on and the neutral
      bit elsewhere. */
  ghost predicate Carries(and: bool, v: bv8, lo: nat, n: nat, src: seq<bv8>, from: nat)
    requires from + n <= 8 * |src|
  {
    forall j :: 0 <= j < 8 ==> (Bit(v, j) <==> if lo <= j < lo + n then BitAt(src, from + (j - lo)) else and)
  }

  lemma MergeByte(and: bool, d: seq<bv8>, d0: seq<bv8>, src: seq<bv8>, begin: nat, m: nat, offset: nat,
                  i: nat, lo: nat, n: nat, v: bv8)
    requires begin + m + n <= 8 * |src| && Merged(and, d, d0, src, begin, m, offset)
    requires i < |d| && offset + m == 8 * i + lo && lo + n <= 8
    requires Carries(and, v, lo, n, src, begin + m)
    ensures Merged(and, d[i := ByteOp(and, d[i], v)], d0, src, begin, m + n, offset)
  {
    hide Bit, ByteOp;
    var d' := d[i := ByteOp(and, d[i], v)];
    forall p | 0 <= p < 8 * |d0|
      ensures BitAt(d', p) <==>
        if offset <= p < offset + m + n then Combined(and, BitAt(d0, p), BitAt(src, begin + (p - offset)))
        else BitAt(d0, p)
    {
      if p / 8 == i {
        ByteOpBit(and, d[i], v, p % 8);
      } else {
        assert BitAt(d', p) == BitAt(d, p);
      }
    }
  }

  /** The first, partial destination byte, for either operation. */
  function FirstByte(and: bool, g: bv8, k: nat): bv8 {
    if and then !Shl(!g, k) else Shl(g, k)
  }

  lemma FirstByteBit(and: bool, g: bv8, k: nat, j: nat)
    requires j < 8
    ensures Bit(FirstByte(and, g, k), j) <==> if k <= j then Bit(g, j - k) else and
  {
    hide Bit, Shl;
    if and {
      BitNot(Shl(!g, k), j);
      BitShl(!g, k, j);
      if k <= j {
        BitNot(g, j - k);
      }
    } else {
      BitShl(g, k, j);
    }
  }

  lemma FirstCarries(and: bool, src: seq<bv8>, begin: nat, end: nat, k: nat)
    requires 0 < k < 8 && begin + 8 - k <= end <= 8 * |src|
    ensures Carries(and, FirstByte(and, Get8Bits(src, begin, end), k), k, 8 - k, src, begin)
  {
    hide Bit, BitAt, Get8Bits, FirstByte;
    var v := FirstByte(and, Get8Bits(src, begin, end), k);
    forall j | 0 <= j < 8 ensures Bit(v, j) <==> if k <= j < 8 then BitAt(src, begin + (j - k)) else and {
      FirstByteBit(and, Get8Bits(src, begin, end), k, j);
      if k <= j {
        Get8BitsAt(src, begin, end, j - k);
      }
    }
  }

  lemma FullCarries(and: bool, src: seq<bv8>, begin: nat, end: nat)
    requires begin + 8 <= end <= 8 * |src|
    ensures Carries(and, Get8Bits(src, begin, end), 0, 8, src, begin)
  {
    hide Bit, Get8Bits;
    forall j | 0 <= j < 8 ensures Bit(Get8Bits(src, begin, end), j) <==> BitAt(src, begin + (j - 0)) {
      Get8BitsAt(src, begin, end, j);
    }
  }

  /** The remaining bits, fewer than eight; `k` is zero or they still belong to
      the first destination byte. */
  function RestByte(and: bool, g: bv8, n: nat, k: nat): bv8 {
    var value := if and then g | HighMask(n) else g & LowMask(n);
    if k != 0 then FirstByte(and, value, k) else value
  }

  lemma ShiftByNothing(and: bool, g: bv8)
    ensures FirstByte(and, g, 0) == g
  {
    assert !!g == g;
  }

  lemma RestByteBit(and: bool, g: bv8, n: nat, k: nat, j: nat)
    requires j < 8 && k + n <= 8
    ensures Bit(RestByte(and, g, n, k), j) <==> if k <= j < k + n then Bit(g, j - k) else and
  {
    hide Bit, Shl, HighMask, LowMask, FirstByte;
    var kept := if and then g | HighMask(n) else g & LowMask(n);
    ShiftByNothing(and, kept);
    assert RestByte(and, g, n, k) == FirstByte(and, kept, k);
    FirstByteBit(and, kept, k, j);
    if k <= j {
      BitOr(g, HighMask(n), j - k);
      BitAnd(g, LowMask(n), j - k);
      BitOfMasks(n, j - k);
    }
  }

  lemma RestCarries(and: bool, src: seq<bv8>, begin: nat, end: nat, k: nat)
    requires begin < end <= 8 * |src| && k + (end - begin) <= 8
    ensures Carries(and, RestByte(and, Get8Bits(src, begin, end), end - begin, k), k, end - begin, src, begin)
  {
    hide Bit, BitAt, Get8Bits, RestByte;
    var n := end - begin;
    var v := RestByte(and, Get8Bits(src, begin, end), n, k);
    forall j | 0 <= j < 8 ensures Bit(v, j) <==> if k <= j < k + n then BitAt(src, begin + (j - k)) else and {
      RestByteBit(and, Get8Bits(src, begin, end), n, k, j);
      if k <= j < k + n {
        Get8BitsAt(src, begin, end, j - k);
      }
    }
  }

  /** `OutOfBounds` stands for an access behind the array, which the code does
      not report; the model stops before it. */
  datatype Status = Done | InvalidRange | DestinationOverflown | OutOfBounds

  /** The overflow check of the merges, `offset + (end - begin) > _M_length`, on
      64-bit integers. */
  predicate TooLong(offset: nat, n: nat, length: nat) {
    (offset + n) % (NPOS + 1) > length
  }

  /** It is exact unless the sum wraps around to at most the length. */
  lemma TooLongExactly(offset: nat, n: nat, length: nat)
    requires offset <= NPOS && n <= NPOS && length <= NPOS
    ensures (TooLong(offset, n, length) <==> offset + n > length) <==>
      !(NPOS < offset + n <= NPOS + 1 + length)
  {
    if offset + n > NPOS {
      assert (offset + n) % (NPOS + 1) == offset + n - (NPOS + 1);
    }
  }

  /** One bit merged at the largest offset passes the check, and its byte is far
      behind an array of eight bits. */
  lemma WrappedOffsetPasses()
    ensures !TooLong(NPOS, 1, 8) && NPOS / 8 >= NumBytes(8)
  {
  }

  class Array {
    var bytes: array<bv8>
    var length: nat

    /** The shape that `create` establishes ... */
    ghost predicate Shaped()
      reads this
    {
      0 < length < NPOS && bytes.Length == NumBytes(length)
    }

    /** ... and the invariant of an initialized array. */
    ghost predicate Valid()
      reads this, bytes
    {
      Shaped() && Padded(bytes[..], length)
    }

    ghost function Bools(): seq<bool>
      reads this, bytes
      requires Shaped()
    {
      BitsOf(bytes[..], length)
    }

    /** `bool_array(size)`: the contents are not initialized. */
    constructor (size: nat)
      requires 0 < size < NPOS
      ensures Shaped() && length == size && fresh(bytes)
    {
      bytes := new bv8[NumBytes(size)];
      length := size;
    }

    /** `bool_array(ptr, size)` */
    constructor FromBitmap(ptr: seq<bv8>, size: nat)
      requires 0 < size < NPOS && |ptr| >= NumBytes(size)
      ensures Valid() && length == size && fresh(bytes)
      ensures Bools() == BitsOf(ptr, size)
    {
      var byteCnt := NumBytes(size);
      var copy := new bv8[byteCnt](i requires 0 <= i < byteCnt => ptr[i]);
      bytes := copy;
      length := size;
      new;
      hide BitAt, LowMask, Padded;
      ghost var s := bytes[..];
      assert s == ptr[..byteCnt];
      PrefixBits(ptr, size);
      TrimmedBits(s, size);
      bytes[byteCnt - 1] := bytes[byteCnt - 1] & LowMask(ValidBits(length));
      assert bytes[..] == Trimmed(s, size);
    }

    method Initialize(value: bool)
      requires Shaped()
      modifies bytes
      ensures Valid()
      ensures forall p :: 0 <= p < length ==> Bools()[p] == value
    {
      var byteCnt := NumBytes(length);
      var fill: bv8 := if value then 0xFF else 0;
      for i := 0 to byteCnt
        invariant forall j :: 0 <= j < i ==> bytes[j] == fill
      {
        bytes[i] := fill;
      }
      ghost var s := bytes[..];
      assert forall p :: 0 <= p < 8 * |s| ==> BitAt(s, p) == value;
      if value {
        TrimmedBits(s, length);
        bytes[byteCnt - 1] := bytes[byteCnt - 1] & LowMask(ValidBits(length));
        assert bytes[..] == Trimmed(s, length);
        assert forall p :: 0 <= p < length ==> BitsOf(s, length)[p];
      }
    }

    /** `at` */
    method At(pos: nat) returns (value: bool, status: Status)
      requires Shaped()
      ensures status == if pos < length then Done else InvalidRange
      ensures status == Done ==> value == Bools()[pos]
    {
      if pos >= length {
        return false, InvalidRange;
      }
      value, status := Bit(bytes[pos / 8], pos % 8), Done;
    }

    /** `set` (true), `reset` (false) and the assignment to a reference. */
    method Assign(pos: nat, value: bool) returns (status: Status)
      requires Valid()
      modifies bytes
      ensures Valid()
      ensures status == if pos < length then Done else InvalidRange
      ensures Bools() == if pos < length then old(Bools())[pos := value] else old(Bools())
    {
      if pos >= length {
        return InvalidRange;
      }
      hide Bit, BitAt, WithBit;
      ghost var s := bytes[..];
      AssignedBits(s, length, pos, value);
      bytes[pos / 8] := WithBit(bytes[pos / 8], pos % 8, value);
      assert bytes[..] == s[pos / 8 := WithBit(s[pos / 8], pos % 8, value)];
      status := Done;
    }

    method InvertBytes()
      modifies bytes
      ensures forall i :: 0 <= i < bytes.Length ==> bytes[i] == !old(bytes[i])
    {
      for i := 0 to bytes.Length
        invariant forall j :: 0 <= j < bytes.Length ==> bytes[j] == if j < i then !old(bytes[j]) else old(bytes[j])
      {
        bytes[i] := !bytes[i];
      }
    }

    /** `flip` */
    method Flip()
      requires Shaped()
      modifies bytes
      ensures Valid()
      ensures forall p :: 0 <= p < length ==> Bools()[p] == !old(Bools())[p]
    {
      hide BitAt, LowMask, Padded;
      ghost var before := bytes[..];
      InvertBytes();
      ghost var s := bytes[..];
      InvertedBits(before, s, length);
      TrimmedBits(s, length);
      bytes[bytes.Length - 1] := bytes[bytes.Length - 1] & LowMask(ValidBits(length));
      assert bytes[..] == Trimmed(s, length);
    }

    /** `merge_and` (`and`) and `merge_or`, which differ in the byte operation
        and the neutral bits only.  The source is another array. */
    method Merge(and: bool, rhs: Array, begin0: nat, end0: nat, offset: nat) returns (status: Status)
      requires Valid() && rhs.Valid() && rhs.bytes != bytes
      requires begin0 <= NPOS && end0 <= NPOS && offset <= NPOS
      modifies bytes
      ensures Valid()
      ensures var end := if end0 == NPOS then rhs.length else end0;
        status ==
          if begin0 == end0 then Done
          else if begin0 > end || end > rhs.length then InvalidRange
          else if TooLong(offset, end - begin0, length) then DestinationOverflown
          else if offset + (end - begin0) > NPOS then OutOfBounds
          else Done
      ensures status == InvalidRange || status == DestinationOverflown || begin0 == end0 ==>
        bytes[..] == old(bytes[..])
      ensures status == Done && begin0 != end0 ==>
        var end := if end0 == NPOS then rhs.length else end0;
        forall p :: 0 <= p < length ==>
          Bools()[p] ==
            if !(offset <= p < offset + (end - begin0)) then old(Bools())[p]
            else if and then old(Bools())[p] && rhs.Bools()[begin0 + (p - offset)]
            else old(Bools())[p] || rhs.Bools()[begin0 + (p - offset)]
    {
      if begin0 == end0 {
        return Done;
      }
      var end := if end0 == NPOS then rhs.length else end0;
      if begin0 > end || end > rhs.length {
        return InvalidRange;
      }
      if TooLong(offset, end - begin0, length) {
        return DestinationOverflown;
      }
      if offset + (end - begin0) > NPOS {
        return OutOfBounds;
      }
      MergeRange(and, rhs, begin0, end, offset);
      return Done;
    }

    method MergeRange(and: bool, rhs: Array, begin0: nat, end: nat, offset: nat)
      requires Shaped() && rhs.Shaped() && rhs.bytes != bytes
      requires begin0 <= end <= rhs.length && offset + (end - begin0) <= length
      modifies bytes
      ensures Merged(and, bytes[..], old(bytes[..]), rhs.bytes[..], begin0, end - begin0, offset)
    {
      hide Bit, BitAt, Get8Bits, Merged, Carries, FirstByte, RestByte, ByteOp;
      ghost var d0, src := bytes[..], rhs.bytes[..];
      var begin, byteOffset, bitOffset := begin0, offset / 8, offset % 8;
      NothingMerged(and, d0, src, begin0, offset);
      if bitOffset != 0 && begin + 8 - bitOffset <= end {
        var value := Get8Bits(rhs.bytes[..], begin, end);
        value := FirstByte(and, value, bitOffset);
        FirstCarries(and, src, begin, end, bitOffset);
        MergeByte(and, bytes[..], d0, src, begin0, 0, offset, byteOffset, bitOffset, 8 - bitOffset, value);
        bytes[byteOffset] := ByteOp(and, bytes[byteOffset], value);
        begin := begin + 8 - bitOffset;
        byteOffset := byteOffset + 1;
        bitOffset := 0;
      }
      while begin + 8 <= end
        invariant begin0 <= begin <= end
        invariant offset + (begin - begin0) == 8 * byteOffset + bitOffset && bitOffset < 8
        invariant bitOffset != 0 ==> bitOffset + (end - begin) < 8
        invariant Merged(and, bytes[..], d0, src, begin0, begin - begin0, offset)
      {
        var value := Get8Bits(rhs.bytes[..], begin, end);
        FullCarries(and, src, begin, end);
        MergeByte(and, bytes[..], d0, src, begin0, begin - begin0, offset, byteOffset, 0, 8, value);
        bytes[byteOffset] := ByteOp(and, bytes[byteOffset], value);
        byteOffset := byteOffset + 1;
        begin := begin + 8;
      }
      if begin < end {
        var value := RestByte(and, Get8Bits(rhs.bytes[..], begin, end), end - begin, bitOffset);
        RestCarries(and, src, begin, end, bitOffset);
        MergeByte(and, bytes[..], d0, src, begin0, begin - begin0, offset, byteOffset, bitOffset, end - begin, value);
        bytes[byteOffset] := ByteOp(and, bytes[byteOffset], value);
      }
    }
  }

  /** `Merged` in the operators of the language. */
  lemma MergedMeans(and: bool, d: seq<bv8>, d0: seq<bv8>, src: seq<bv8>, begin: nat, m: nat, offset: nat)
    requires begin + m <= 8 * |src| && Merged(and, d, d0, src, begin, m, offset)
    ensures |d| == |d0|
    ensures forall p :: 0 <= p < 8 * |d| && offset <= p < offset + m ==>
      BitAt(d, p) ==
        if and then BitAt(d0, p) && BitAt(src, begin + (p - offset))
        else BitAt(d0, p) || BitAt(src, begin + (p - offset))
    ensures forall p :: 0 <= p < 8 * |d| && !(offset <= p < offset + m) ==> BitAt(d, p) == BitAt(d0, p)
  {
    hide BitAt;
  }

  lemma InvertedBits(s: seq<bv8>, t: seq<bv8>, length: nat)
    requires |s| == |t| && length <= 8 * |s| && forall i :: 0 <= i < |s| ==> t[i] == !s[i]
    ensures forall p :: 0 <= p < length ==> BitsOf(t, length)[p] == !BitsOf(s, length)[p]
  {
    hide Bit;
    forall p | 0 <= p < length ensures BitsOf(t, length)[p] == !BitsOf(s, length)[p] {
      BitNot(s[p / 8], p % 8);
    }
  }

  lemma NothingMerged(and: bool, d0: seq<bv8>, src: seq<bv8>, begin: nat, offset: nat)
    requires begin <= 8 * |src|
    ensures Merged(and, d0, d0, src, begin, 0, offset)
  {
  }

  function WithBit(b: bv8, k: nat, value: bool): bv8 {
    if value then SetMask(b, Shl(1, k)) else ClearMask(b, Shl(1, k))
  }

  function SetMask(b: bv8, m: bv8): bv8 { b | m }

  function ClearMask(b: bv8, m: bv8): bv8 { b & !m }

  lemma OneBit(k: nat, j: nat)
    requires j < 8
    ensures Bit(Shl(1, k), j) <==> j == k
  {
    assert forall i :: Bit(1, i) <==> i == 0;
    hide Bit, Shl;
    BitShl(1, k, j);
  }

  lemma MaskBits(b: bv8, m: bv8, j: nat)
    requires j < 8
    ensures Bit(SetMask(b, m), j) <==> Bit(b, j) || Bit(m, j)
    ensures Bit(ClearMask(b, m), j) <==> Bit(b, j) && !Bit(m, j)
  {
    hide Bit;
    BitOr(b, m, j);
    BitNot(m, j);
    BitAnd(b, !m, j);
  }

  lemma WithBitBits(b: bv8, k: nat, value: bool, j: nat)
    requires j < 8
    ensures Bit(WithBit(b, k, value), j) <==> if j == k then value else Bit(b, j)
  {
    hide Bit, Shl, SetMask, ClearMask;
    OneBit(k, j);
    MaskBits(b, Shl(1, k), j);
  }

  lemma AssignedBits(s: seq<bv8>, length: nat, pos: nat, value: bool)
    requires pos < length && Padded(s, length)
    ensures var t := s[pos / 8 := WithBit(s[pos / 8], pos % 8, value)];
      Padded(t, length) && BitsOf(t, length) == BitsOf(s, length)[pos := value]
  {
    hide Bit, WithBit;
    var t := s[pos / 8 := WithBit(s[pos / 8], pos % 8, value)];
    forall p | 0 <= p < 8 * |s| ensures BitAt(t, p) <==> if p == pos then value else BitAt(s, p) {
      WithBitBits(s[pos / 8], pos % 8, value, p % 8);
    }
  }
}
