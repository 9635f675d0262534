/** The word level of SHA-256: the functions of section 4.1.2 of FIPS 180-4,
    the macros of `crypto/sha256.c`, and byte order on a little-endian machine. */
module Sha256Words {

  type Word = bv32
  type Byte = bv8

  function And(x: Word, y: Word): Word { x & y }
  function Not(x: Word): Word { !x }
  function Xor(x: Word, y: Word): Word { x ^ y }

  function Ch(x: Word, y: Word, z: Word): Word { Xor(And(x, y), And(Not(x), z)) }
  function Maj(x: Word, y: Word, z: Word): Word { Xor(Xor(And(x, y), And(x, z)), And(y, z)) }
  function Rotr2(x: Word): Word { (x >> 2) | (x << 30) }
  function Rotr6(x: Word): Word { (x >> 6) | (x << 26) }
  function Rotr7(x: Word): Word { (x >> 7) | (x << 25) }
  function Rotr8(x: Word): Word { (x >> 8) | (x << 24) }
  function Rotr11(x: Word): Word { (x >> 11) | (x << 21) }
  function Rotr13(x: Word): Word { (x >> 13) | (x << 19) }
  function Rotr17(x: Word): Word { (x >> 17) | (x << 15) }
  function Rotr18(x: Word): Word { (x >> 18) | (x << 14) }
  function Rotr19(x: Word): Word { (x >> 19) | (x << 13) }
  function Rotr22(x: Word): Word { (x >> 22) | (x << 10) }
  function Rotr25(x: Word): Word { (x >> 25) | (x << 7) }
  function Shr3(x: Word): Word { x >> 3 }
  function Shr10(x: Word): Word { x >> 10 }
  function BigSigma0(x: Word): Word { Xor(Xor(Rotr2(x), Rotr13(x)), Rotr22(x)) }
  function BigSigma1(x: Word): Word { Xor(Xor(Rotr6(x), Rotr11(x)), Rotr25(x)) }
  function SmallSigma0(x: Word): Word { Xor(Xor(Rotr7(x), Rotr18(x)), Shr3(x)) }
  function SmallSigma1(x: Word): Word { Xor(Xor(Rotr17(x), Rotr19(x)), Shr10(x)) }

  function BigEndian(b0: Byte, b1: Byte, b2: Byte, b3: Byte): Word {
    ((b0 as Word) << 24) | ((b1 as Word) << 16) | ((b2 as Word) << 8) | (b3 as Word)
  }

  type SmallWord = x: Word | x < 0x100

  function Narrow(x: SmallWord): Byte { x as Byte }

  /** `(uint8_t) x` */
  function LowByte(x: Word): Byte { Narrow(x & 0xFF) }

  /** The bytes of a word, the most significant one first. */
  function BytesOf(x: Word): (r: seq<Byte>)
    ensures |r| == 4
  {
    [LowByte(x >> 24), LowByte(x >> 16), LowByte(x >> 8), LowByte(x)]
  }

  /** The macros `Ch` and `Maj`. */
  function ChMacro(x: Word, y: Word, z: Word): Word { z ^ (x & (y ^ z)) }
  function MajMacro(x: Word, y: Word, z: Word): Word { (x & (y | z)) | (y & z) }

  function Rotl8(x: Word): Word { (x << 8) | (x >> 24) }

  /** `BYTESWAP` */
  function ByteSwap(x: Word): Word {
    (Rotr8(x) & 0xff00ff00) | (Rotl8(x) & 0x00ff00ff)
  }

  /** A word read from memory, and a word written to memory. */
  function Load(b0: Byte, b1: Byte, b2: Byte, b3: Byte): Word {
    (b0 as Word) | ((b1 as Word) << 8) | ((b2 as Word) << 16) | ((b3 as Word) << 24)
  }

  function Store(x: Word): seq<Byte> {
    [LowByte(x), LowByte(x >> 8), LowByte(x >> 16), LowByte(x >> 24)]
  }

  lemma ChIdentity(x: Word, y: Word, z: Word)
    ensures z ^ (x & (y ^ z)) == (x & y) ^ (!x & z)
  {
  }

  lemma MajIdentity(x: Word, y: Word, z: Word)
    ensures (x & (y | z)) | (y & z) == (x & y) ^ (x & z) ^ (y & z)
  {
  }

  lemma PlainCh(x: Word, y: Word, z: Word)
    ensures Ch(x, y, z) == (x & y) ^ (!x & z)
  {
  }

  lemma PlainMaj(x: Word, y: Word, z: Word)
    ensures Maj(x, y, z) == (x & y) ^ (x & z) ^ (y & z)
  {
  }

  lemma ChMacroIsCh(x: Word, y: Word, z: Word)
    ensures ChMacro(x, y, z) == Ch(x, y, z)
  {
    ChIdentity(x, y, z);
    PlainCh(x, y, z);
    hide Ch;
  }

  lemma MajMacroIsMaj(x: Word, y: Word, z: Word)
    ensures MajMacro(x, y, z) == Maj(x, y, z)
  {
    MajIdentity(x, y, z);
    PlainMaj(x, y, z);
    hide Maj;
  }

  /** Swapping after a little-endian load is a big-endian load ... */
  lemma SwappedLoad(b0: Byte, b1: Byte, b2: Byte, b3: Byte)
    ensures ByteSwap(Load(b0, b1, b2, b3)) == BigEndian(b0, b1, b2, b3)
  {
  }

  lemma SwappedBytes(x: Word, s: Word)
    requires s == (((x >> 8) | (x << 24)) & 0xff00ff00) | (((x << 8) | (x >> 24)) & 0x00ff00ff)
    ensures s & 0xFF == (x >> 24) & 0xFF && (s >> 8) & 0xFF == (x >> 16) & 0xFF
    ensures (s >> 16) & 0xFF == (x >> 8) & 0xFF && (s >> 24) & 0xFF == x & 0xFF
  {
  }

  /** ... and before a little-endian store it is a big-endian store. */
  lemma SwappedStore(x: Word)
    ensures Store(ByteSwap(x)) == BytesOf(x)
  {
    var s := ByteSwap(x);
    SwappedBytes(x, s);
    hide Narrow, ByteSwap;
  }
}

/** SHA-256 as FIPS 180-4 defines it: functions (section 4.1.2), constants
    (4.2.2), padding (5.1.1), parsing (5.2.1) and hash computation (6.2.2). */
module Sha256Spec {

  import opened Sha256Words

  /** The constants of section 4.2.2. */
  function K(t: nat): Word {
    if t < 8 then
      if t == 0 then 0x428a2f98 else if t == 1 then 0x71374491 else if t == 2 then 0xb5c0fbcf
      else if t == 3 then 0xe9b5dba5 else if t == 4 then 0x3956c25b else if t == 5 then 0x59f111f1
      else if t == 6 then 0x923f82a4 else 0xab1c5ed5
    else if t < 16 then
      if t == 8 then 0xd807aa98 else if t == 9 then 0x12835b01 else if t == 10 then 0x243185be
      else if t == 11 then 0x550c7dc3 else if t == 12 then 0x72be5d74 else if t == 13 then 0x80deb1fe
      else if t == 14 then 0x9bdc06a7 else 0xc19bf174
    else if t < 24 then
      if t == 16 then 0xe49b69c1 else if t == 17 then 0xefbe4786 else if t == 18 then 0x0fc19dc6
      else if t == 19 then 0x240ca1cc else if t == 20 then 0x2de92c6f else if t == 21 then 0x4a7484aa
      else if t == 22 then 0x5cb0a9dc else 0x76f988da
    else if t < 32 then
      if t == 24 then 0x983e5152 else if t == 25 then 0xa831c66d else if t == 26 then 0xb00327c8
      else if t == 27 then 0xbf597fc7 else if t == 28 then 0xc6e00bf3 else if t == 29 then 0xd5a79147
      else if t == 30 then 0x06ca6351 else 0x14292967
    else if t < 40 then
      if t == 32 then 0x27b70a85 else if t == 33 then 0x2e1b2138 else if t == 34 then 0x4d2c6dfc
      else if t == 35 then 0x53380d13 else if t == 36 then 0x650a7354 else if t == 37 then 0x766a0abb
      else if t == 38 then 0x81c2c92e else 0x92722c85
    else if t < 48 then
      if t == 40 then 0xa2bfe8a1 else if t == 41 then 0xa81a664b else if t == 42 then 0xc24b8b70
      else if t == 43 then 0xc76c51a3 else if t == 44 then 0xd192e819 else if t == 45 then 0xd6990624
      else if t == 46 then 0xf40e3585 else 0x106aa070
    else if t < 56 then
      if t == 48 then 0x19a4c116 else if t == 49 then 0x1e376c08 else if t == 50 then 0x2748774c
      else if t == 51 then 0x34b0bcb5 else if t == 52 then 0x391c0cb3 else if t == 53 then 0x4ed8aa4a
      else if t == 54 then 0x5b9cca4f else 0x682e6ff3
    else
      if t == 56 then 0x748f82ee else if t == 57 then 0x78a5636f else if t == 58 then 0x84c87814
      else if t == 59 then 0x8cc70208 else if t == 60 then 0x90befffa else if t == 61 then 0xa4506ceb
      else if t == 62 then 0xbef9a3f7 else 0xc67178f2
  }

  /** Eight working variables, or the eight words of a hash value. */
  datatype Eight = Eight(a: Word, b: Word, c: Word, d: Word, e: Word, f: Word, g: Word, h: Word)

  /** The initial hash value of section 5.3.3. */
  function InitialHash(): Eight {
    Eight(0x6a09e667, 0xbb67ae85, 0x3c6ef372, 0xa54ff53a, 0x510e527f, 0x9b05688c, 0x1f83d9ab, 0x5be0cd19)
  }

  function Extend(w2: Word, w7: Word, w15: Word, w16: Word): Word {
    SmallSigma1(w2) + w7 + SmallSigma0(w15) + w16
  }

  /** The message schedule. */
  ghost function W(block: seq<Word>, t: nat): Word
    requires |block| == 16
  {
    if t < 16 then block[t]
    else Extend(W(block, t - 2), W(block, t - 7), W(block, t - 15), W(block, t - 16))
  }

  /** One round, given the values of `Ch` and `Maj`. */
  function RoundWith(v: Eight, ch: Word, maj: Word, k: Word, w: Word): Eight {
    var t1 := v.h + BigSigma1(v.e) + ch + k + w;
    var t2 := BigSigma0(v.a) + maj;
    Eight(t1 + t2, v.a, v.b, v.c, v.d + t1, v.e, v.f, v.g)
  }

  ghost function Round(v: Eight, k: Word, w: Word): Eight {
    RoundWith(v, Ch(v.e, v.f, v.g), Maj(v.a, v.b, v.c), k, w)
  }

  ghost function Rounds(v: Eight, block: seq<Word>, t: nat): Eight
    requires |block| == 16 && t <= 64
  {
    if t == 0 then v else Round(Rounds(v, block, t - 1), K(t - 1), W(block, t - 1))
  }

  function Sum(x: Eight, y: Eight): Eight {
    Eight(x.a + y.a, x.b + y.b, x.c + y.c, x.d + y.d, x.e + y.e, x.f + y.f, x.g + y.g, x.h + y.h)
  }

  ghost function Compress(hash: Eight, block: seq<Word>): Eight
    requires |block| == 16
  {
    Sum(hash, Rounds(hash, block, 64))
  }

  /** A block as sixteen big-endian words. */
  function WordsOf(block: seq<Byte>): (r: seq<Word>)
    requires |block| == 64
    ensures |r| == 16
  {
    seq(16, i requires 0 <= i < 16 => BigEndian(block[4 * i], block[4 * i + 1], block[4 * i + 2], block[4 * i + 3]))
  }

  ghost function HashBlocks(message: seq<Byte>): Eight
    requires |message| % 64 == 0
  {
    if message == [] then InitialHash()
    else
      var n := |message| - 64;
      Compress(HashBlocks(message[..n]), WordsOf(message[n..]))
  }

  /** The 64-bit big-endian length field, as two words. */
  function LengthField(bits: nat): (r: seq<Byte>)
    requires bits < 0x1_0000_0000_0000_0000
    ensures |r| == 8
  {
    BytesOf((bits / 0x1_0000_0000) as Word) + BytesOf((bits % 0x1_0000_0000) as Word)
  }

  /** The least number of zero bytes after which only the length is missing. */
  function ZeroBytes(n: nat): (k: nat)
    ensures (n + 1 + k) % 64 == 56 && (n + 9 + k) % 64 == 0
    ensures k < 64
  {
    (119 - n % 64) % 64
  }

  /** Padding, for messages of fewer than 2^64 bits. */
  function Pad(message: seq<Byte>): (r: seq<Byte>)
    requires 8 * |message| < 0x1_0000_0000_0000_0000
    ensures |r| % 64 == 0
  {
    hide LengthField, ZeroBytes;
    var k := ZeroBytes(|message|);
    var padded := message + ([0x80] + seq(k, _ => 0));
    assert |padded| == |message| + 1 + k;
    padded + LengthField(8 * |message|)
  }

  function Output(h: Eight): seq<Byte> {
    BytesOf(h.a) + BytesOf(h.b) + BytesOf(h.c) + BytesOf(h.d) +
    BytesOf(h.e) + BytesOf(h.f) + BytesOf(h.g) + BytesOf(h.h)
  }

  ghost function Digest(message: seq<Byte>): seq<Byte>
    requires 8 * |message| < 0x1_0000_0000_0000_0000
  {
    Output(HashBlocks(Pad(message)))
  }
}

/** `crypto/sha256.c` on a little-endian machine. */
module Sha256 {
  import opened Sha256Words
  import opened Sha256Spec

  const TWO64: nat := 0x1_0000_0000_0000_0000

  /** `DO_ROUND` */
  function DoRound(v: Eight, k: Word, w: Word): Eight {
    RoundWith(v, ChMacro(v.e, v.f, v.g), MajMacro(v.a, v.b, v.c), k, w)
  }

  lemma DoRoundIsRound(v: Eight, k: Word, w: Word)
    ensures DoRound(v, k, w) == Round(v, k, w)
  {
    hide Ch, Maj, ChMacro, MajMacro, RoundWith;
    ChMacroIsCh(v.e, v.f, v.g);
    MajMacroIsMaj(v.a, v.b, v.c);
  }

  /** The total length after `bits` more bits, in a `uint64_t`. */
  function AddBits(total: nat, bits: nat): nat { (total + bits) % TWO64 }

  /** A hash value, buffered bytes and a total length that stand for `message`:
      all whole blocks are compressed, the rest is buffered. */
  ghost predicate Represents(hash: Eight, buffered: seq<Byte>, total: nat, message: seq<Byte>) {
    var k := |message| - |buffered|;
    |buffered| < 64 && 0 <= k && k % 64 == 0 && total == 8 * |message| % TWO64 &&
    buffered == message[k..] && hash == HashBlocks(message[..k])
  }

  lemma RepresentsEmpty()
    ensures Represents(InitialHash(), [], 0, [])
  {
  }

  lemma TotalGrows(n: nat, c: nat)
    ensures AddBits(8 * n % TWO64, 8 * c) == 8 * (n + c) % TWO64
  {
    var q := 8 * n / TWO64;
    assert 8 * n == q * TWO64 + 8 * n % TWO64;
    ModUnique(8 * n % TWO64 + 8 * c, q);
  }

  lemma ModUnique(a: nat, q: nat)
    ensures a % TWO64 == (a + q * TWO64) % TWO64
  {
  }

  lemma BlockAppended(message: seq<Byte>, k: nat)
    requires |message| == k + 64 && k % 64 == 0
    ensures HashBlocks(message) == Compress(HashBlocks(message[..k]), WordsOf(message[k..]))
  {
    hide Compress, WordsOf;
  }

  /** Buffering a chunk, with compression when the buffer becomes full. */
  lemma ChunkAppended(hash: Eight, buffered: seq<Byte>, total: nat, message: seq<Byte>, chunk: seq<Byte>)
    requires Represents(hash, buffered, total, message) && |buffered| + |chunk| <= 64
    ensures var all := buffered + chunk;
      var total' := AddBits(total, 8 * |chunk|);
      if |all| < 64 then Represents(hash, all, total', message + chunk)
      else Represents(Compress(hash, WordsOf(all)), [], total', message + chunk)
  {
    hide HashBlocks, Compress, WordsOf, AddBits;
    var k, m := |message| - |buffered|, message + chunk;
    TotalGrows(|message|, |chunk|);
    assert m[..k] == message[..k] && m[k..] == buffered + chunk;
    if |m| == k + 64 {
      BlockAppended(m, k);
      assert m[..|m|] == m && m[|m|..] == [];
    }
  }

  /** A context determines everything but the unused part of the buffer. */
  lemma MessageDetermines(hash: Eight, buffered: seq<Byte>, total: nat,
                          hash': Eight, buffered': seq<Byte>, total': nat, message: seq<Byte>)
    requires Represents(hash, buffered, total, message) && Represents(hash', buffered', total', message)
    ensures hash == hash' && buffered == buffered' && total == total'
  {
    hide HashBlocks;
    assert (|buffered| - |buffered'|) % 64 == 0;
    assert |buffered| == |buffered'|;
  }

  class Context {
    var totalLength: nat
    var hash: Eight
    var bufferLength: nat
    var buffer: array<Byte>
    ghost var message: seq<Byte>

    ghost predicate Valid()
      reads this, buffer
    {
      buffer.Length == 64 && bufferLength < 64 &&
      Represents(hash, buffer[..bufferLength], totalLength, message)
    }

    /** `sha256_init` */
    constructor ()
      ensures Valid() && message == [] && fresh(buffer)
    {
      totalLength, hash, bufferLength := 0, InitialHash(), 0;
      buffer := new Byte[64](_ => 0);
      message := [];
      new;
      RepresentsEmpty();
      assert buffer[..0] == [];
    }

    /** `SHA256Guts`, on 64 bytes of memory. */
    method Guts(block: seq<Byte>)
      requires |block| == 64
      modifies this`hash
      ensures hash == Compress(old(hash), WordsOf(block))
    {
      hide Compress, WordsOf, Rounds, W;
      var buf := Schedule(block);
      var v := AllRounds(hash, buf, WordsOf(block));
      Unfold(hash, block);
      hash := Sum(hash, v);
    }

    /** `memcpy (&sc->buffer.bytes[sc->bufferLength], ...)` */
    method CopyIn(chunk: seq<Byte>)
      requires buffer.Length == 64 && bufferLength + |chunk| <= 64
      modifies buffer
      ensures buffer[..bufferLength + |chunk|] == old(buffer[..bufferLength]) + chunk
    {
      for i := 0 to |chunk|
        invariant buffer[..bufferLength + i] == old(buffer[..bufferLength]) + chunk[..i]
      {
        buffer[bufferLength + i] := chunk[i];
      }
    }

    /** Copies a chunk behind the buffered bytes and compresses a full buffer. */
    method Absorb(chunk: seq<Byte>)
      requires Valid() && bufferLength + |chunk| <= 64
      modifies this, buffer
      ensures Valid() && buffer == old(buffer) && message == old(message) + chunk
      ensures bufferLength == if old(bufferLength) + |chunk| < 64 then old(bufferLength) + |chunk| else 0
    {
      hide Represents, Compress, WordsOf, AddBits;
      ghost var buffered := buffer[..bufferLength];
      CopyIn(chunk);
      ChunkAppended(hash, buffered, totalLength, message, chunk);
      totalLength := AddBits(totalLength, 8 * |chunk|);
      bufferLength := bufferLength + |chunk|;
      message := message + chunk;
      if bufferLength == 64 {
        assert buffer[..] == buffered + chunk;
        Guts(buffer[..]);
        bufferLength := 0;
        assert buffer[..0] == [];
      }
    }

    /** `sha256_update`, default loop. */
    method Update(data: seq<Byte>)
      requires Valid() && |data| < 0x1_0000_0000
      modifies this, buffer
      ensures Valid() && buffer == old(buffer) && message == old(message) + data
    {
      hide Represents;
      var pos := 0;
      while pos != |data|
        invariant pos <= |data| && Valid() && buffer == old(buffer)
        invariant message == old(message) + data[..pos]
      {
        var bytesToCopy := 64 - bufferLength;
        if bytesToCopy > |data| - pos {
          bytesToCopy := |data| - pos;
        }
        assert data[..pos + bytesToCopy] == data[..pos] + data[pos..pos + bytesToCopy];
        Absorb(data[pos..pos + bytesToCopy]);
        pos := pos + bytesToCopy;
      }
    }

    /** A block that is compressed where it lies. */
    method AbsorbBlock(block: seq<Byte>)
      requires Valid() && bufferLength == 0 && |block| == 64
      modifies this
      ensures Valid() && buffer == old(buffer) && bufferLength == 0 && message == old(message) + block
    {
      hide Represents, Compress, WordsOf, AddBits;
      assert buffer[..0] == [] && [] + block == block;
      ChunkAppended(hash, [], totalLength, message, block);
      totalLength := AddBits(totalLength, 512);
      message := message + block;
      Guts(block);
    }

    /** `sha256_update` with `SHA256_FAST_COPY`. */
    method FastUpdate(data: seq<Byte>)
      requires Valid() && |data| < 0x1_0000_0000
      modifies this, buffer
      ensures Valid() && buffer == old(buffer) && message == old(message) + data
    {
      hide Represents;
      var pos := 0;
      if bufferLength != 0 {
        pos := 64 - bufferLength;
        if pos > |data| {
          pos := |data|;
        }
        Absorb(data[..pos]);
      }
      while |data| - pos > 63
        invariant pos <= |data| && Valid() && buffer == old(buffer)
        invariant message == old(message) + data[..pos]
        invariant bufferLength == 0 || pos == |data|
      {
        assert data[..pos + 64] == data[..pos] + data[pos..pos + 64];
        AbsorbBlock(data[pos..pos + 64]);
        pos := pos + 64;
      }
      assert data[..pos] + data[pos..] == data;
      if pos != |data| {
        Absorb(data[pos..]);
      }
    }

    /** `sha256_final` */
    method Final() returns (digest: seq<Byte>)
      requires Valid() && 8 * |message| < TWO64
      modifies this, buffer
      ensures digest == Digest(old(message))
    {
      hide Represents, Output, Pad, Digest;
      var bytesToPad := 120 - bufferLength;
      if bytesToPad > 64 {
        bytesToPad := bytesToPad - 64;
      }
      ghost var m := message;
      PaddingFits(hash, buffer[..bufferLength], totalLength, m, bytesToPad);
      var lengthPad := LengthPad(totalLength);
      var padding := [0x80] + seq(63, _ => 0);
      Update(padding[..bytesToPad]);
      Update(lengthPad);
      PaddedDigest(hash, buffer[..bufferLength], totalLength, m, message);
      digest := Output(hash);
    }
  }

  /** The memory of `BYTESWAP64(sc->totalLength)`. */
  function LengthPad(total: nat): (r: seq<Byte>)
    requires total < TWO64
    ensures r == LengthField(total)
  {
    var high, low := (total / 0x1_0000_0000) as Word, (total % 0x1_0000_0000) as Word;
    SwappedStore(high);
    SwappedStore(low);
    Store(ByteSwap(high)) + Store(ByteSwap(low))
  }

  /** The padding bytes of `sha256_final` are those of the standard. */
  lemma PaddingFits(hash: Eight, buffered: seq<Byte>, total: nat, m: seq<Byte>, bytesToPad: int)
    requires Represents(hash, buffered, total, m) && 8 * |m| < TWO64
    requires bytesToPad == if 120 - |buffered| > 64 then 56 - |buffered| else 120 - |buffered|
    ensures 1 <= bytesToPad <= 64 && total < TWO64
    ensures m + ([0x80] + seq(63, _ => 0))[..bytesToPad] + LengthPad(total) == Pad(m)
  {
    hide HashBlocks, LengthPad, LengthField;
    assert bytesToPad == 1 + ZeroBytes(|m|);
    assert ([0x80] + seq(63, _ => 0))[..bytesToPad] == [0x80] + seq(ZeroBytes(|m|), _ => 0);
  }

  lemma PaddedDigest(hash: Eight, buffered: seq<Byte>, total: nat, m: seq<Byte>, message: seq<Byte>)
    requires 8 * |m| < TWO64 && message == Pad(m) && Represents(hash, buffered, total, message)
    ensures Output(hash) == Digest(m)
  {
    hide HashBlocks, Pad, Output;
    assert buffered == [] && message[..|message|] == message;
  }

  lemma Unfold(hash: Eight, block: seq<Byte>)
    requires |block| == 64
    ensures Compress(hash, WordsOf(block)) == Sum(hash, Rounds(hash, WordsOf(block), 64))
  {
  }

  /** The first two loops of `SHA256Guts`. */
  method Schedule(block: seq<Byte>) returns (buf: array<Word>)
    requires |block| == 64
    ensures fresh(buf) && buf.Length == 64
    ensures forall t :: 0 <= t < 64 ==> buf[t] == W(WordsOf(block), t)
  {
    hide Extend, WordsOf;
    buf := new Word[64](_ => 0);
    LoadWords(block, buf);
    ghost var words := WordsOf(block);
    for i := 16 to 64
      invariant forall t :: 0 <= t < i ==> buf[t] == W(words, t)
    {
      buf[i] := Extend(buf[i - 2], buf[i - 7], buf[i - 15], buf[i - 16]);
      assert buf[i] == W(words, i);
    }
  }

  method LoadWords(block: seq<Byte>, buf: array<Word>)
    requires |block| == 64 && buf.Length == 64
    modifies buf
    ensures forall t :: 0 <= t < 16 ==> buf[t] == WordsOf(block)[t]
  {
    hide ByteSwap, Load, BigEndian;
    for i := 0 to 16
      invariant forall t :: 0 <= t < i ==> buf[t] == WordsOf(block)[t]
    {
      SwappedLoad(block[4 * i], block[4 * i + 1], block[4 * i + 2], block[4 * i + 3]);
      buf[i] := ByteSwap(Load(block[4 * i], block[4 * i + 1], block[4 * i + 2], block[4 * i + 3]));
    }
  }

  /** The last loop, four rounds a time. */
  method AllRounds(hash: Eight, buf: array<Word>, ghost block: seq<Word>) returns (v: Eight)
    requires |block| == 16 && buf.Length == 64 && forall t :: 0 <= t < 64 ==> buf[t] == W(block, t)
    ensures v == Rounds(hash, block, 64)
  {
    hide DoRound, Round, W;
    v := hash;
    for i := 0 to 16
      invariant v == Rounds(hash, block, 4 * i)
    {
      v := OneRound(v, hash, buf, block, 4 * i);
      v := OneRound(v, hash, buf, block, 4 * i + 1);
      v := OneRound(v, hash, buf, block, 4 * i + 2);
      v := OneRound(v, hash, buf, block, 4 * i + 3);
    }
  }

  method OneRound(v: Eight, ghost hash: Eight, buf: array<Word>, ghost block: seq<Word>, t: nat) returns (r: Eight)
    requires |block| == 16 && t < 64 <= buf.Length && buf[t] == W(block, t)
    requires v == Rounds(hash, block, t)
    ensures r == Rounds(hash, block, t + 1)
  {
    DoRoundIsRound(v, K(t), buf[t]);
    hide DoRound, Round, W;
    r := DoRound(v, K(t), buf[t]);
  }

  ghost function Concat(pieces: seq<seq<Byte>>): seq<Byte> {
    if pieces == [] then [] else Concat(pieces[..|pieces| - 1]) + pieces[|pieces| - 1]
  }

  /** However a message is cut into updates, of whichever variant, the result is
      the digest of the whole message. */
  method HashPieces(pieces: seq<seq<Byte>>, fast: seq<bool>) returns (digest: seq<Byte>)
    requires |fast| == |pieces| && 8 * |Concat(pieces)| < TWO64
    requires forall i :: 0 <= i < |pieces| ==> |pieces[i]| < 0x1_0000_0000
    ensures digest == Digest(Concat(pieces))
  {
    hide Represents, Digest;
    var sc := new Context();
    for i := 0 to |pieces|
      invariant sc.Valid() && fresh(sc) && fresh(sc.buffer)
      invariant sc.message == Concat(pieces[..i])
    {
      assert pieces[..i + 1][..i] == pieces[..i];
      if fast[i] {
        sc.FastUpdate(pieces[i]);
      } else {
        sc.Update(pieces[i]);
      }
    }
    assert pieces[..|pieces|] == pieces;
    digest := sc.Final();
  }
}
