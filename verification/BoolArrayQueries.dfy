/** Counting, searching and exporting of `nvwa::bool_array`. */
module BoolArrayQueries {
  import opened Bits
  import opened BoolArray

  /** `popcount` of a machine word, given by its bytes. */
  function PopCount(word: seq<bv8>): nat {
    if word == [] then 0 else CountBits(word[0]) + PopCount(word[1..])
  }

  lemma {:induction false} PopCountCounts(s: seq<bv8>, i: nat, n: nat)
    requires i + n <= |s|
    ensures PopCount(s[i..i + n]) == CountRange(s, 8 * i, 8 * (i + n))
    decreases n
  {
    hide Bit, BitAt;
    if n > 0 {
      assert s[i..i + n][1..] == s[i + 1..i + n];
      PopCountCounts(s, i + 1, n - 1);
      CountByte(s, i);
      CountSplits(s, 8 * i, 8 * (i + 1), 8 * (i + n));
    }
  }

  /** `while` over words from byte `from` on, as long as they end by `to`. */
  method CountWords(s: seq<bv8>, from: nat, to: nat) returns (count: nat, next: nat)
    requires from <= to <= |s| && to >= 8
    ensures from <= next <= to && count == CountRange(s, 8 * from, 8 * next)
  {
    hide Bit, BitAt;
    count, next := 0, from;
    while next <= to - 8
      invariant from <= next <= to && count == CountRange(s, 8 * from, 8 * next)
    {
      PopCountCounts(s, next, 8);
      CountSplits(s, 8 * from, 8 * next, 8 * (next + 8));
      count := count + PopCount(s[next..next + 8]);
      next := next + 8;
    }
  }

  /** `for` over bytes with one table lookup each. */
  method CountBytes(s: seq<bv8>, from: nat, to: nat) returns (count: nat)
    requires from <= to <= |s|
    ensures count == CountRange(s, 8 * from, 8 * to)
  {
    hide Bit, BitAt;
    count := 0;
    for i := from to to
      invariant count == CountRange(s, 8 * from, 8 * i)
    {
      CountByte(s, i);
      CountSplits(s, 8 * from, 8 * i, 8 * (i + 1));
      count := count + CountBits(s[i]);
    }
  }

  lemma {:induction false} NoneCounted(s: seq<bv8>, a: nat, b: nat)
    requires b <= 8 * |s| && forall p :: a <= p < b ==> !BitAt(s, p)
    ensures CountRange(s, a, b) == 0
  {
    if a < b {
      NoneCounted(s, a, b - 1);
    }
  }

  /** `count()`: correct because the padding is zero. */
  method Count(a: Array) returns (count: nat)
    requires a.Valid()
    ensures count == CountRange(a.bytes[..], 0, a.length)
  {
    var byteCnt, i := NumBytes(a.length), 0;
    var s := a.bytes[..];
    count := 0;
    if byteCnt >= 8 {
      count, i := CountWords(s, 0, byteCnt);
    }
    var rest := CountBytes(s, i, byteCnt);
    CountSplits(s, 0, 8 * i, 8 * byteCnt);
    CountSplits(s, 0, a.length, 8 * byteCnt);
    NoneCounted(s, a.length, 8 * byteCnt);
    count := count + rest;
  }

  lemma MaskedLow(b: bv8, k: nat, n: nat, j: nat)
    requires j < 8
    ensures Bit(b & HighMask(k), j) <==> k <= j && Bit(b, j)
    ensures Bit(b & LowMask(n), j) <==> j < n && Bit(b, j)
  {
    hide Bit, HighMask, LowMask;
    BitAnd(b, HighMask(k), j);
    BitAnd(b, LowMask(n), j);
    BitOfMasks(k, j);
    BitOfMasks(n, j);
  }

  lemma MaskedPart(b: bv8, v: bv8, lo: nat, hi: nat)
    requires v == (b & HighMask(lo)) & LowMask(hi)
    ensures forall j :: 0 <= j < 8 ==> (Bit(v, j) <==> lo <= j < hi && Bit(b, j))
  {
    hide Bit, HighMask, LowMask;
    forall j | 0 <= j < 8 ensures Bit(v, j) <==> lo <= j < hi && Bit(b, j) {
      MaskedLow(b, lo, hi, j);
      MaskedLow(b & HighMask(lo), lo, hi, j);
    }
  }

  /** The bits of byte `i` at positions lo to hi - 1, by one lookup. */
  method CountPart(s: seq<bv8>, i: nat, lo: nat, hi: nat) returns (count: nat)
    requires i < |s| && lo <= hi <= 8
    ensures count == CountRange(s, 8 * i + lo, 8 * i + hi)
  {
    hide Bit, HighMask, LowMask;
    var byteVal := s[i] & HighMask(lo);
    byteVal := byteVal & LowMask(hi);
    MaskedPart(s[i], byteVal, lo, hi);
    hide CountBits, CountRange;
    CountMasked(s, i, byteVal, lo, hi);
    count := CountBits(byteVal);
  }

  /** `count(begin, end)` */
  method CountIn(a: Array, begin: nat, end0: nat) returns (count: nat, status: Status)
    requires a.Valid() && begin <= NPOS && end0 <= NPOS
    ensures var end := if end0 == NPOS then a.length else end0;
      status == if begin != end && (begin > end || end > a.length) then InvalidRange else Done
    ensures var end := if end0 == NPOS then a.length else end0;
      status == Done ==> count == if begin == end then 0 else CountRange(a.bytes[..], begin, end)
  {
    var end := if end0 == NPOS then a.length else end0;
    if begin == end {
      return 0, Done;
    }
    if begin > end || end > a.length {
      return 0, InvalidRange;
    }
    count := CountNonEmpty(a.bytes[..], begin, end);
    status := Done;
  }

  method CountNonEmpty(s: seq<bv8>, begin: nat, end: nat) returns (count: nat)
    requires begin < end <= 8 * |s|
    ensures count == CountRange(s, begin, end)
  {
    hide Bit, BitAt;
    count := 0;
    var bytePosBeg, bytePosEnd := begin / 8, (end - 1) / 8;
    var validBits := (end - 1) % 8 + 1;
    if begin % 8 != 0 {
      if bytePosBeg == bytePosEnd {
        count := CountPart(s, bytePosBeg, begin % 8, validBits);
        return;
      } else {
        count := CountPart(s, bytePosBeg, begin % 8, 8);
        bytePosBeg := bytePosBeg + 1;
      }
    }
    assert 8 * bytePosBeg <= end && begin <= 8 * bytePosBeg;
    assert count == CountRange(s, begin, 8 * bytePosBeg);
    ghost var head := count;
    ghost var tail := 0;
    if validBits != 8 {
      var last := CountPart(s, bytePosEnd, 0, validBits);
      count := count + last;
      tail := last;
    } else {
      bytePosEnd := bytePosEnd + 1;
    }
    assert tail == CountRange(s, 8 * bytePosEnd, end);
    ghost var first := bytePosBeg;
    if (bytePosBeg + 7) / 8 * 8 + 8 <= bytePosEnd {
      var aligned := (bytePosBeg + 7) / 8 * 8;
      var some := CountBytes(s, bytePosBeg, aligned);
      var words, next := CountWords(s, aligned, bytePosEnd);
      CountSplits(s, 8 * first, 8 * aligned, 8 * next);
      count := count + some + words;
      bytePosBeg := next;
    }
    var rest := CountBytes(s, bytePosBeg, bytePosEnd);
    count := count + rest;
    CountSplits(s, 8 * first, 8 * bytePosBeg, 8 * bytePosEnd);
    CountSplits(s, begin, 8 * first, 8 * bytePosEnd);
    CountSplits(s, begin, 8 * bytePosEnd, end);
  }

  // ----- find_until -----

  /** The set bits of the result are the positions of `value` in `b`. */
  function Wanted(b: bv8, value: bool): bv8 { if value then b else !b }

  /** The first byte without the positions below `k`: they are cleared when
      looking for true and set when looking for false. */
  function FirstProbe(b: bv8, k: nat, value: bool): bv8 {
    if value then b & HighMask(k) else b | LowMask(k)
  }

  /** The last byte without the positions at or above `k`. */
  function LastProbe(b: bv8, k: nat, value: bool): bv8 {
    if value then b & LowMask(k) else b | HighMask(k)
  }

  lemma WantedBit(b: bv8, value: bool, j: nat)
    requires j < 8
    ensures Bit(Wanted(b, value), j) <==> Bit(b, j) == value
  {
    BitNot(b, j);
  }

  lemma FirstProbeBit(b: bv8, k: nat, value: bool, j: nat)
    requires j < 8
    ensures Bit(Wanted(FirstProbe(b, k, value), value), j) <==> k <= j && Bit(b, j) == value
  {
    hide Bit, HighMask, LowMask, Wanted;
    WantedBit(FirstProbe(b, k, value), value, j);
    BitOfMasks(k, j);
    if value {
      BitAnd(b, HighMask(k), j);
    } else {
      BitOr(b, LowMask(k), j);
    }
  }

  lemma LastProbeBit(b: bv8, k: nat, value: bool, j: nat)
    requires j < 8
    ensures Bit(Wanted(LastProbe(b, k, value), value), j) <==> j < k && Bit(Wanted(b, value), j)
  {
    hide Bit, HighMask, LowMask, Wanted;
    WantedBit(LastProbe(b, k, value), value, j);
    WantedBit(b, value, j);
    BitOfMasks(k, j);
    if value {
      BitAnd(b, LowMask(k), j);
    } else {
      BitOr(b, HighMask(k), j);
    }
  }

  /** `r` is the least position of `value` in [begin, end), or NPOS. */
  ghost predicate Finds(s: seq<bv8>, value: bool, begin: nat, end: nat, r: nat)
    requires end <= 8 * |s|
  {
    (r != NPOS ==> begin <= r < end && BitAt(s, r) == value) &&
    (forall p :: begin <= p < end && (r == NPOS || p < r) ==> BitAt(s, p) != value)
  }

  /** `probe` stands for byte `i` as far as it is searched. */
  ghost predicate Probes(s: seq<bv8>, value: bool, begin: nat, end: nat, i: nat, probe: bv8)
    requires i < |s|
  {
    forall j :: 0 <= j < 8 ==>
      (Bit(Wanted(probe, value), j) <==> begin <= 8 * i + j < end && Bit(s[i], j) == value)
  }

  lemma ProbeMisses(s: seq<bv8>, value: bool, begin: nat, end: nat, i: nat, probe: bv8)
    requires i < |s| && Probes(s, value, begin, end, i, probe) && Wanted(probe, value) == 0
    ensures forall p :: begin <= p < end && p / 8 == i ==> BitAt(s, p) != value
  {
    forall p | begin <= p < end && p / 8 == i ensures BitAt(s, p) != value {
      assert !Bit(0, p % 8);
    }
  }

  lemma ProbeHits(s: seq<bv8>, value: bool, begin: nat, end: nat, i: nat, probe: bv8)
    requires i < |s| && Probes(s, value, begin, end, i, probe) && Wanted(probe, value) != 0
    requires end <= 8 * |s| < NPOS && forall p :: begin <= p < end && p / 8 < i ==> BitAt(s, p) != value
    ensures Finds(s, value, begin, end, 8 * i + FirstBitOne(Wanted(probe, value)))
  {
    hide Bit, Wanted;
    var w := Wanted(probe, value);
    FirstBitOneIsLeast(w);
    var r := 8 * i + FirstBitOne(w);
    assert BitAt(s, r) == value;
    forall p | begin <= p < r ensures BitAt(s, p) != value {
      if p / 8 == i {
        assert !Bit(w, p % 8);
      }
    }
  }

  /** The first byte that `find_until` reads is in the array, for every range
      it lets pass, unless the search starts at the length of an array whose
      last byte is fully used: that range is empty only after `end` has been
      replaced. */
  lemma FirstReadExactly(length: nat, begin: nat, end0: nat)
    requires 0 < length < NPOS && end0 <= NPOS && begin != end0
    requires begin <= (if end0 == NPOS then length else end0) <= length
    ensures begin / 8 < NumBytes(length) <==>
      !(end0 == NPOS && begin == length && length % 8 == 0)
  {
  }

  /** Eight false elements, searched for true from position 8 on: both masks
      keep bit 0 of the byte behind the array, and the result would be position
      0, before the begin of the search. */
  lemma BehindIsFound()
    ensures var behind: bv8 := 0x01;
      var probe := LastProbe(FirstProbe(behind, 8 % 8, true), (8 - 1) % 8 + 1, true);
      8 / 8 == NumBytes(8) && (8 - 1) / 8 == 0 &&
      probe != 0 && (8 - 1) / 8 * 8 + FirstBitOne(probe) == 0
  {
    assert HighMask(0) == 0xFF && LowMask(8) == 0xFF;
  }

  /** `find_until` */
  method FindUntil(a: Array, value: bool, begin: nat, end0: nat) returns (r: nat, status: Status)
    requires a.Valid() && begin <= NPOS && end0 <= NPOS && 8 * a.bytes.Length < NPOS
    ensures var end := if end0 == NPOS then a.length else end0;
      status ==
        if begin == end0 then Done
        else if begin > end || end > a.length then InvalidRange
        else if end0 == NPOS && begin == a.length && a.length % 8 == 0 then OutOfBounds
        else Done
    ensures var end := if end0 == NPOS then a.length else end0;
      status == Done && begin != end0 ==> Finds(a.bytes[..], value, begin, end, r)
    ensures begin == end0 ==> r == NPOS
  {
    if begin == end0 {
      return NPOS, Done;
    }
    var end := if end0 == NPOS then a.length else end0;
    if begin > end || end > a.length {
      return NPOS, InvalidRange;
    }
    FirstReadExactly(a.length, begin, end0);
    if begin / 8 >= a.bytes.Length {
      return NPOS, OutOfBounds;
    }
    r := Search(a.bytes[..], value, begin, end);
    status := Done;
  }

  /** The two loops of `find_until`, for either value; `end` is not yet
      decremented. */
  method Search(s: seq<bv8>, value: bool, begin: nat, end: nat) returns (r: nat)
    requires begin <= end <= 8 * |s| < NPOS && 0 < end && begin < 8 * |s| && begin / 8 <= (end - 1) / 8
    ensures Finds(s, value, begin, end, r)
  {
    hide Bit, BitAt, Wanted, Probes, FirstProbe, LastProbe, FirstBitOne;
    var lastBit := end - 1;
    var bytePosEnd := lastBit / 8;
    var i := begin / 8;
    var byteVal := FirstProbe(s[i], begin % 8, value);
    FirstByteProbes(s, value, begin);
    while i < bytePosEnd
      invariant begin / 8 <= i <= bytePosEnd
      invariant Probes(s, value, begin, 8 * |s|, i, byteVal)
      invariant forall p :: begin <= p < 8 * i ==> BitAt(s, p) != value
    {
      if Wanted(byteVal, value) != 0 {
        NarrowProbe(s, value, begin, end, i, byteVal);
        ProbeHits(s, value, begin, end, i, byteVal);
        return 8 * i + FirstBitOne(Wanted(byteVal, value));
      }
      ProbeMisses(s, value, begin, 8 * |s|, i, byteVal);
      i := i + 1;
      byteVal := s[i];
      WholeByteProbes(s, value, begin, i);
    }
    LastByteProbes(s, value, begin, end, byteVal);
    byteVal := LastProbe(byteVal, lastBit % 8 + 1, value);
    if Wanted(byteVal, value) != 0 {
      ProbeHits(s, value, begin, end, i, byteVal);
      return 8 * bytePosEnd + FirstBitOne(Wanted(byteVal, value));
    }
    ProbeMisses(s, value, begin, end, i, byteVal);
    return NPOS;
  }

  lemma FirstByteProbes(s: seq<bv8>, value: bool, begin: nat)
    requires begin < 8 * |s|
    ensures Probes(s, value, begin, 8 * |s|, begin / 8, FirstProbe(s[begin / 8], begin % 8, value))
  {
    hide Bit, Wanted, FirstProbe;
    var i := begin / 8;
    forall j | 0 <= j < 8
      ensures Bit(Wanted(FirstProbe(s[i], begin % 8, value), value), j) <==>
        begin <= 8 * i + j < 8 * |s| && Bit(s[i], j) == value
    {
      FirstProbeBit(s[i], begin % 8, value, j);
    }
  }

  lemma WholeByteProbes(s: seq<bv8>, value: bool, begin: nat, i: nat)
    requires begin <= 8 * i && i < |s|
    ensures Probes(s, value, begin, 8 * |s|, i, s[i])
  {
    hide Bit, Wanted;
    forall j | 0 <= j < 8
      ensures Bit(Wanted(s[i], value), j) <==> begin <= 8 * i + j < 8 * |s| && Bit(s[i], j) == value
    {
      WantedBit(s[i], value, j);
    }
  }

  lemma NarrowProbe(s: seq<bv8>, value: bool, begin: nat, end: nat, i: nat, probe: bv8)
    requires i < |s| && 8 * i + 8 <= end <= 8 * |s| && Probes(s, value, begin, 8 * |s|, i, probe)
    ensures Probes(s, value, begin, end, i, probe)
  {
    hide Bit, Wanted;
  }

  lemma LastByteProbes(s: seq<bv8>, value: bool, begin: nat, end: nat, probe: bv8)
    requires 0 < end <= 8 * |s| && Probes(s, value, begin, 8 * |s|, (end - 1) / 8, probe)
    ensures Probes(s, value, begin, end, (end - 1) / 8, LastProbe(probe, (end - 1) % 8 + 1, value))
  {
    hide Bit, Wanted, LastProbe;
    var i, k := (end - 1) / 8, (end - 1) % 8 + 1;
    forall j | 0 <= j < 8
      ensures Bit(Wanted(LastProbe(probe, k, value), value), j) <==>
        begin <= 8 * i + j < end && Bit(s[i], j) == value
    {
      LastProbeBit(probe, k, value, j);
    }
  }

  // ----- copy_to_bitmap -----

  /** The first bytes of `d` hold the bits [begin, end) of `s`, padded. */
  ghost predicate Exported(d: seq<bv8>, s: seq<bv8>, begin: nat, end: nat)
    requires begin <= end <= 8 * |s|
  {
    NumBytes(end - begin) <= |d| && Padded(d[..NumBytes(end - begin)], end - begin) &&
    forall p :: 0 <= p < end - begin ==> BitAt(d, p) == BitAt(s, begin + p)
  }

  method CopyToBitmap(a: Array, dest: array<bv8>, begin: nat, end0: nat) returns (status: Status)
    requires a.Valid() && dest != a.bytes && begin <= NPOS && end0 <= NPOS
    requires var end := if end0 == NPOS then a.length else end0;
      begin <= end <= a.length ==> NumBytes(end - begin) <= dest.Length
    modifies dest
    ensures var end := if end0 == NPOS then a.length else end0;
      status == if begin != end0 && (begin > end || end > a.length) then InvalidRange else Done
    ensures var end := if end0 == NPOS then a.length else end0;
      status == Done && begin != end0 ==>
        Exported(dest[..], a.bytes[..], begin, end) &&
        dest[NumBytes(end - begin)..] == old(dest[NumBytes(end - begin)..])
    ensures status != Done || begin == end0 ==> dest[..] == old(dest[..])
  {
    if begin == end0 {
      return Done;
    }
    var end := if end0 == NPOS then a.length else end0;
    if begin > end || end > a.length {
      return InvalidRange;
    }
    CopyBits(a.bytes, dest, begin, end);
    return Done;
  }

  method CopyBits(bytes: array<bv8>, dest: array<bv8>, begin: nat, end: nat)
    requires dest != bytes && begin <= end <= 8 * bytes.Length && NumBytes(end - begin) <= dest.Length
    modifies dest
    ensures Exported(dest[..], bytes[..], begin, end)
    ensures dest[NumBytes(end - begin)..] == old(dest[NumBytes(end - begin)..])
  {
    hide Bit, BitAt, Get8Bits, Exported;
    var n := NumBytes(end - begin);
    if begin % 8 == 0 {
      CopyAligned(bytes, dest, begin / 8, n);
      AlignedCopy(bytes[..], dest[..], begin, end);
    } else {
      CopyShifted(bytes, dest, begin, end);
      ShiftedCopy(bytes[..], dest[..], begin, end);
    }
    ghost var d := dest[..];
    if (end - begin) % 8 != 0 {
      TrimLast(dest, end - begin);
    }
    FinishExport(d, dest[..], bytes[..], begin, end);
  }

  method TrimLast(dest: array<bv8>, bits: nat)
    requires bits % 8 != 0 && NumBytes(bits) <= dest.Length
    modifies dest
    ensures dest[..NumBytes(bits)] == Trimmed(old(dest[..NumBytes(bits)]), bits)
    ensures dest[NumBytes(bits)..] == old(dest[NumBytes(bits)..])
  {
    hide LowMask;
    var n := NumBytes(bits);
    dest[n - 1] := dest[n - 1] & LowMask(bits % 8);
    assert ValidBits(bits) == bits % 8;
  }

  method CopyAligned(bytes: array<bv8>, dest: array<bv8>, from: nat, n: nat)
    requires dest != bytes && from + n <= bytes.Length && n <= dest.Length
    modifies dest
    ensures forall j :: 0 <= j < n ==> dest[j] == bytes[from + j]
    ensures dest[n..] == old(dest[n..])
  {
    for i := 0 to n
      invariant forall j :: 0 <= j < i ==> dest[j] == bytes[from + j]
      invariant dest[n..] == old(dest[n..])
    {
      dest[i] := bytes[from + i];
    }
  }

  method CopyShifted(bytes: array<bv8>, dest: array<bv8>, begin: nat, end: nat)
    requires dest != bytes && begin <= end <= 8 * bytes.Length && NumBytes(end - begin) <= dest.Length
    modifies dest
    ensures forall j :: 0 <= j < NumBytes(end - begin) ==> dest[j] == Get8Bits(bytes[..], begin + 8 * j, end)
    ensures dest[NumBytes(end - begin)..] == old(dest[NumBytes(end - begin)..])
  {
    hide Get8Bits;
    var i, offset := 0, begin;
    while offset < end
      invariant offset == begin + 8 * i && i <= NumBytes(end - begin)
      invariant forall j :: 0 <= j < i ==> dest[j] == Get8Bits(bytes[..], begin + 8 * j, end)
      invariant dest[NumBytes(end - begin)..] == old(dest[NumBytes(end - begin)..])
    {
      dest[i] := Get8Bits(bytes[..], offset, end);
      i, offset := i + 1, offset + 8;
    }
  }

  lemma AlignedCopy(s: seq<bv8>, d: seq<bv8>, begin: nat, end: nat)
    requires begin <= end <= 8 * |s| && begin % 8 == 0 && NumBytes(end - begin) <= |d|
    requires forall j :: 0 <= j < NumBytes(end - begin) ==> d[j] == s[begin / 8 + j]
    ensures forall p :: 0 <= p < end - begin ==> BitAt(d, p) == BitAt(s, begin + p)
  {
    hide Bit;
    forall p | 0 <= p < end - begin ensures BitAt(d, p) == BitAt(s, begin + p) {
      assert (begin + p) / 8 == begin / 8 + p / 8 && (begin + p) % 8 == p % 8;
    }
  }

  lemma ShiftedCopy(s: seq<bv8>, d: seq<bv8>, begin: nat, end: nat)
    requires begin <= end <= 8 * |s| && NumBytes(end - begin) <= |d|
    requires forall j :: 0 <= j < NumBytes(end - begin) ==> d[j] == Get8Bits(s, begin + 8 * j, end)
    ensures forall p :: 0 <= p < end - begin ==> BitAt(d, p) == BitAt(s, begin + p)
  {
    hide Bit, Get8Bits;
    forall p | 0 <= p < end - begin ensures BitAt(d, p) == BitAt(s, begin + p) {
      Get8BitsAt(s, begin + 8 * (p / 8), end, p % 8);
    }
  }

  lemma FinishExport(d: seq<bv8>, d': seq<bv8>, s: seq<bv8>, begin: nat, end: nat)
    requires begin <= end <= 8 * |s| && NumBytes(end - begin) <= |d| == |d'|
    requires forall p :: 0 <= p < end - begin ==> BitAt(d, p) == BitAt(s, begin + p)
    requires var n := NumBytes(end - begin);
      d'[..n] == if (end - begin) % 8 != 0 then Trimmed(d[..n], end - begin) else d[..n]
    ensures Exported(d', s, begin, end)
  {
    hide Bit, Trimmed;
    var m, n := end - begin, NumBytes(end - begin);
    if m % 8 != 0 {
      TrimmedBits(d[..n], m);
      forall p | 0 <= p < m ensures BitAt(d', p) == BitAt(s, begin + p) {
        assert BitsOf(Trimmed(d[..n], m), m)[p] == BitsOf(d[..n], m)[p];
        assert BitAt(d'[..n], p) == BitAt(d', p) && BitAt(d[..n], p) == BitAt(d, p);
      }
    } else {
      forall p | 0 <= p < m ensures BitAt(d', p) == BitAt(s, begin + p) {
        assert BitAt(d'[..n], p) == BitAt(d', p) && BitAt(d[..n], p) == BitAt(d, p);
      }
    }
  }

  /** Exporting a range and reading the bitmap back gives the slice. */
  method RoundTrip(a: Array, begin: nat, end: nat) returns (r: Array)
    requires a.Valid() && begin < end <= a.length
    ensures r.Valid() && r.length == end - begin
    ensures r.Bools() == a.Bools()[begin..end]
  {
    var dest := new bv8[NumBytes(end - begin)];
    var status := CopyToBitmap(a, dest, begin, end);
    r := new Array.FromBitmap(dest[..], end - begin);
  }
}
