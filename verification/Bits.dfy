/** Bytes as eight bits, and byte sequences as bit sequences.  Shift counts are
    numbers up to 8, as they are in the byte-wise code. */
module Bits {

  /** `byte & (1 << i)` */
  predicate Bit(b: bv8, i: nat) {
    if i == 0 then b & 0x01 != 0
    else if i == 1 then b & 0x02 != 0
    else if i == 2 then b & 0x04 != 0
    else if i == 3 then b & 0x08 != 0
    else if i == 4 then b & 0x10 != 0
    else if i == 5 then b & 0x20 != 0
    else if i == 6 then b & 0x40 != 0
    else if i == 7 then b & 0x80 != 0
    else false
  }

  /** `b << k`, truncated to a byte. */
  function Shl(b: bv8, k: nat): bv8 {
    if k == 0 then b
    else if k == 1 then b << 1
    else if k == 2 then b << 2
    else if k == 3 then b << 3
    else if k == 4 then b << 4
    else if k == 5 then b << 5
    else if k == 6 then b << 6
    else if k == 7 then b << 7
    else 0
  }

  /** `b >> k` */
  function Shr(b: bv8, k: nat): bv8 {
    if k == 0 then b
    else if k == 1 then b >> 1
    else if k == 2 then b >> 2
    else if k == 3 then b >> 3
    else if k == 4 then b >> 4
    else if k == 5 then b >> 5
    else if k == 6 then b >> 6
    else if k == 7 then b >> 7
    else 0
  }

  /** `~0U << k` and `~(~0U << k)`, truncated to a byte. */
  function HighMask(k: nat): bv8 { Shl(0xFF, k) }
  function LowMask(k: nat): bv8 { !Shl(0xFF, k) }

  lemma BitShl(b: bv8, k: nat, i: nat)
    requires i < 8
    ensures Bit(Shl(b, k), i) <==> k <= i && Bit(b, i - k)
  {
  }

  lemma BitShr(b: bv8, k: nat, i: nat)
    requires i < 8
    ensures Bit(Shr(b, k), i) <==> i + k < 8 && Bit(b, i + k)
  {
  }

  lemma BitNot(b: bv8, i: nat)
    requires i < 8
    ensures Bit(!b, i) <==> !Bit(b, i)
  {
  }

  lemma BitAnd(a: bv8, b: bv8, i: nat)
    ensures Bit(a & b, i) <==> Bit(a, i) && Bit(b, i)
  {
  }

  lemma BitOr(a: bv8, b: bv8, i: nat)
    requires i < 8
    ensures Bit(a | b, i) <==> Bit(a, i) || Bit(b, i)
  {
    assert a | b == !(!a & !b);
    BitNot(a, i);
    BitNot(b, i);
    BitAnd(!a, !b, i);
    BitNot(!a & !b, i);
  }

  lemma BitOfMasks(k: nat, i: nat)
    requires i < 8
    ensures Bit(HighMask(k), i) <==> k <= i
    ensures Bit(LowMask(k), i) <==> i < k
  {
    BitShl(0xFF, k, i);
    BitNot(Shl(0xFF, k), i);
  }

  // ----- Counting and searching inside a byte -----

  /** `count_bits`; the table `_S_bit_count` holds its values. */
  function CountBits(value: bv8): nat
    decreases value
  {
    if value == 0 then 0 else (if value & 1 != 0 then 1 else 0) + CountBits(value >> 1)
  }

  /** `first_bit_one_offset`; the table `_S_bit_ordinal` holds its values. */
  function FirstBitOne(value: bv8): nat
    decreases value
  {
    if value == 0 then 9 else if value & 1 != 0 then 0 else 1 + FirstBitOne(value >> 1)
  }

  /** The number of set bits at positions lo to hi - 1. */
  ghost function CountWindow(b: bv8, lo: nat, hi: nat): nat {
    if hi <= lo then 0 else CountWindow(b, lo, hi - 1) + if Bit(b, hi - 1) then 1 else 0
  }

  lemma {:induction false} WindowShifts(b: bv8, hi: nat)
    requires hi <= 8
    ensures CountWindow(b >> 1, 0, hi) ==
      CountWindow(b, 0, hi) - (if Bit(b, 0) && hi > 0 then 1 else 0) + if Bit(b, hi) && hi > 0 then 1 else 0
  {
    if hi > 0 {
      WindowShifts(b, hi - 1);
      BitShr(b, 1, hi - 1);
    }
  }

  lemma {:induction false} EmptyWindow(hi: nat)
    ensures CountWindow(0, 0, hi) == 0
  {
    if hi > 0 {
      EmptyWindow(hi - 1);
    }
  }

  lemma {:induction false} CountBitsCounts(b: bv8)
    ensures CountBits(b) == CountWindow(b, 0, 8)
    decreases b
  {
    if b == 0 {
      EmptyWindow(8);
    } else {
      CountBitsCounts(b >> 1);
      WindowShifts(b, 8);
    }
  }

  lemma {:induction false} FirstBitOneIsLeast(b: bv8)
    requires b != 0
    ensures FirstBitOne(b) < 8 && Bit(b, FirstBitOne(b))
    ensures forall i :: 0 <= i < FirstBitOne(b) ==> !Bit(b, i)
    decreases b
  {
    if b & 1 == 0 {
      assert b >> 1 != 0;
      FirstBitOneIsLeast(b >> 1);
      var k := FirstBitOne(b >> 1);
      BitShr(b, 1, k);
      forall i | 0 <= i < k + 1 ensures !Bit(b, i) {
        if i > 0 {
          BitShr(b, 1, i - 1);
        }
      }
    }
  }

  /** Masking with `HighMask(lo)` and `LowMask(hi)` selects a window. */
  lemma {:induction false} MaskedWindow(b: bv8, v: bv8, lo: nat, hi: nat, n: nat)
    requires lo <= hi <= 8 && n <= 8
    requires forall i :: 0 <= i < 8 ==> (Bit(v, i) <==> lo <= i < hi && Bit(b, i))
    ensures CountWindow(v, 0, n) == CountWindow(b, lo, if n < hi then n else hi)
  {
    if n > 0 {
      MaskedWindow(b, v, lo, hi, n - 1);
    }
  }

  // ----- Byte sequences -----

  predicate BitAt(s: seq<bv8>, p: nat)
    requires p < 8 * |s|
  {
    Bit(s[p / 8], p % 8)
  }

  /** The first `n` bits. */
  ghost function BitsOf(s: seq<bv8>, n: nat): (r: seq<bool>)
    requires n <= 8 * |s|
    ensures |r| == n && forall p :: 0 <= p < n ==> r[p] == BitAt(s, p)
  {
    seq(n, p requires 0 <= p < n => BitAt(s, p))
  }

  /** The number of set bits at positions a to b - 1. */
  ghost function CountRange(s: seq<bv8>, a: nat, b: nat): nat
    requires b <= 8 * |s|
  {
    if b <= a then 0 else CountRange(s, a, b - 1) + if BitAt(s, b - 1) then 1 else 0
  }

  lemma {:induction false} CountSplits(s: seq<bv8>, a: nat, b: nat, c: nat)
    requires a <= b <= c <= 8 * |s|
    ensures CountRange(s, a, c) == CountRange(s, a, b) + CountRange(s, b, c)
  {
    if b < c {
      CountSplits(s, a, b, c - 1);
    }
  }

  lemma {:induction false} CountInByte(s: seq<bv8>, i: nat, lo: nat, hi: nat)
    requires i < |s| && lo <= hi <= 8
    ensures CountRange(s, 8 * i + lo, 8 * i + hi) == CountWindow(s[i], lo, hi)
  {
    hide Bit;
    if lo < hi {
      CountInByte(s, i, lo, hi - 1);
      assert (8 * i + (hi - 1)) / 8 == i && (8 * i + (hi - 1)) % 8 == hi - 1;
    }
  }

  /** One table lookup counts the bits of a whole byte. */
  lemma CountByte(s: seq<bv8>, i: nat)
    requires i < |s|
    ensures CountRange(s, 8 * i, 8 * i + 8) == CountBits(s[i])
  {
    hide Bit;
    CountInByte(s, i, 0, 8);
    CountBitsCounts(s[i]);
  }

  /** A lookup of a masked byte counts the bits of the window. */
  lemma CountMasked(s: seq<bv8>, i: nat, v: bv8, lo: nat, hi: nat)
    requires i < |s| && lo <= hi <= 8
    requires forall j :: 0 <= j < 8 ==> (Bit(v, j) <==> lo <= j < hi && Bit(s[i], j))
    ensures CountRange(s, 8 * i + lo, 8 * i + hi) == CountBits(v)
  {
    hide Bit;
    CountInByte(s, i, lo, hi);
    CountBitsCounts(v);
    MaskedWindow(s[i], v, lo, hi, 8);
  }
}
