/** The Secure Hash Algorithm with 256 bits, as FIPS 180-4 defines it on whole messages of bytes, and HMAC on top of
    it as RFC 2104 defines it. */
module Sha256Spec {

  type Byte = bv8
  type Word = bv32

  // ---------- section 4: functions and constants ----------

  function Xor3(x: Word, y: Word, z: Word): Word {
    x ^ y ^ z
  }

  /** Sums modulo 2^32. */
  function Sum2(x: Word, y: Word): Word {
    x + y
  }

  function Sum4(x: Word, y: Word, z: Word, w: Word): Word {
    x + y + z + w
  }

  function Sum5(x: Word, y: Word, z: Word, v: Word, w: Word): Word {
    x + y + z + v + w
  }

  function Ch(x: Word, y: Word, z: Word): Word {
    (x & y) ^ (!x & z)
  }

  function Maj(x: Word, y: Word, z: Word): Word {
    (x & y) ^ (x & z) ^ (y & z)
  }

  function BigSigma0(x: Word): Word {
    Xor3(x.RotateRight(2), x.RotateRight(13), x.RotateRight(22))
  }

  function BigSigma1(x: Word): Word {
    Xor3(x.RotateRight(6), x.RotateRight(11), x.RotateRight(25))
  }

  function SmallSigma0(x: Word): Word {
    Xor3(x.RotateRight(7), x.RotateRight(18), x >> 3)
  }

  function SmallSigma1(x: Word): Word {
    Xor3(x.RotateRight(17), x.RotateRight(19), x >> 10)
  }

  // The constants of the rounds, row by row.
  const ROW0: seq<Word> := [
    0x428a2f98, 0x71374491, 0xb5c0fbcf, 0xe9b5dba5, 0x3956c25b, 0x59f111f1, 0x923f82a4, 0xab1c5ed5]
  const ROW1: seq<Word> := [
    0xd807aa98, 0x12835b01, 0x243185be, 0x550c7dc3, 0x72be5d74, 0x80deb1fe, 0x9bdc06a7, 0xc19bf174]
  const ROW2: seq<Word> := [
    0xe49b69c1, 0xefbe4786, 0x0fc19dc6, 0x240ca1cc, 0x2de92c6f, 0x4a7484aa, 0x5cb0a9dc, 0x76f988da]
  const ROW3: seq<Word> := [
    0x983e5152, 0xa831c66d, 0xb00327c8, 0xbf597fc7, 0xc6e00bf3, 0xd5a79147, 0x06ca6351, 0x14292967]
  const ROW4: seq<Word> := [
    0x27b70a85, 0x2e1b2138, 0x4d2c6dfc, 0x53380d13, 0x650a7354, 0x766a0abb, 0x81c2c92e, 0x92722c85]
  const ROW5: seq<Word> := [
    0xa2bfe8a1, 0xa81a664b, 0xc24b8b70, 0xc76c51a3, 0xd192e819, 0xd6990624, 0xf40e3585, 0x106aa070]
  const ROW6: seq<Word> := [
    0x19a4c116, 0x1e376c08, 0x2748774c, 0x34b0bcb5, 0x391c0cb3, 0x4ed8aa4a, 0x5b9cca4f, 0x682e6ff3]
  const ROW7: seq<Word> := [
    0x748f82ee, 0x78a5636f, 0x84c87814, 0x8cc70208, 0x90befffa, 0xa4506ceb, 0xbef9a3f7, 0xc67178f2]

  const K: seq<Word> := ROW0 + ROW1 + ROW2 + ROW3 + ROW4 + ROW5 + ROW6 + ROW7

  const H0: seq<Word> := [
    0x6a09e667, 0xbb67ae85, 0x3c6ef372, 0xa54ff53a, 0x510e527f, 0x9b05688c, 0x1f83d9ab, 0x5be0cd19]

  // ---------- section 5: padding ----------

  function Zeros(n: nat): (s: seq<Byte>)
    ensures |s| == n
    ensures forall i :: 0 <= i < n ==> s[i] == 0
  {
    seq(n, _ => 0)
  }

  /** A number as a byte, half a byte at a time. */
  function ByteOf(n: nat): Byte
    requires n < 256
  {
    ((n / 16) as Byte << 4) | ((n % 16) as Byte)
  }

  function LowByte(n: nat): Byte {
    ByteOf(n % 256)
  }

  lemma HalfByte(n: nat)
    requires n < 16
    ensures (n as Byte) as nat == n
  {
  }

  lemma Halves(high: Byte, low: Byte)
    requires high < 16 && low < 16
    ensures ((high << 4) | low) as nat == 16 * (high as nat) + low as nat
  {
  }

  lemma SmallByte(b: Byte)
    requires b as nat < 16
    ensures b < 16
  {
  }

  lemma LowByteIs(n: nat)
    ensures LowByte(n) as nat == n % 256
  {
    var m := n % 256;
    HalfByte(m / 16);
    HalfByte(m % 16);
    SmallByte((m / 16) as Byte);
    SmallByte((m % 16) as Byte);
    Halves((m / 16) as Byte, (m % 16) as Byte);
  }

  function BigEndian(n: nat, width: nat): (s: seq<Byte>)
    ensures |s| == width
  {
    if width == 0 then [] else BigEndian(n / 256, width - 1) + [LowByte(n)]
  }

  /** How many zero bytes stand between the bit 1 and the length. */
  function PadLength(n: nat): nat {
    (55 - n) % 64
  }

  function Padded(m: seq<Byte>): (p: seq<Byte>)
    ensures |p| % 64 == 0
  {
    PadShortest(|m|);
    m + [0x80] + Zeros(PadLength(|m|)) + BigEndian(8 * |m|, 8)
  }

  predicate FillsBlocks(n: nat, zeros: nat) {
    (n + 1 + zeros + 8) % 64 == 0
  }

  /** The padding is the shortest one that fills whole blocks. */
  lemma PadShortest(n: nat)
    ensures FillsBlocks(n, PadLength(n)) && forall zeros: nat :: FillsBlocks(n, zeros) ==> PadLength(n) <= zeros
  {
  }

  // ---------- section 6.2.2: hash computation ----------

  /** Four bytes as a word, the first of them most significant. */
  function Join(b0: Byte, b1: Byte, b2: Byte, b3: Byte): Word {
    (b0 as Word << 24) | (b1 as Word << 16) | (b2 as Word << 8) | (b3 as Word)
  }

  function WordAt(block: seq<Byte>, t: nat): Word
    requires |block| == 64 && t < 16
  {
    Join(block[4 * t], block[4 * t + 1], block[4 * t + 2], block[4 * t + 3])
  }

  /** The message schedule. */
  function W(block: seq<Byte>, t: nat): Word
    requires |block| == 64 && t < 64
  {
    if t < 16 then WordAt(block, t)
    else Sum4(SmallSigma1(W(block, t - 2)), W(block, t - 7), SmallSigma0(W(block, t - 15)), W(block, t - 16))
  }

  /** T1 + T2, where T2 is the sum of the other two. */
  function NewA(t1: Word, sigma0: Word, maj: Word): Word {
    t1 + (sigma0 + maj)
  }

  /** The working variables a to h, in order, after a round with the given values of the four functions. */
  function Mix(v: seq<Word>, k: Word, w: Word, sigma0: Word, maj: Word, sigma1: Word, ch: Word): (r: seq<Word>)
    requires |v| == 8
    ensures |r| == 8
  {
    var t1 := Sum5(v[7], sigma1, ch, k, w);
    [NewA(t1, sigma0, maj), v[0], v[1], v[2], Sum2(v[3], t1), v[4], v[5], v[6]]
  }

  function Round(v: seq<Word>, k: Word, w: Word): (r: seq<Word>)
    requires |v| == 8
    ensures |r| == 8
  {
    Mix(v, k, w, BigSigma0(v[0]), Maj(v[0], v[1], v[2]), BigSigma1(v[4]), Ch(v[4], v[5], v[6]))
  }

  function Rounds(h: seq<Word>, block: seq<Byte>, t: nat): (r: seq<Word>)
    requires |h| == 8 && |block| == 64 && t <= 64
    ensures |r| == 8
  {
    if t == 0 then h else Round(Rounds(h, block, t - 1), K[t - 1], W(block, t - 1))
  }

  function AddWords(a: seq<Word>, b: seq<Word>): (r: seq<Word>)
    requires |a| == |b|
    ensures |r| == |a|
  {
    seq(|a|, i requires 0 <= i < |a| => Sum2(a[i], b[i]))
  }

  function Compress(h: seq<Word>, block: seq<Byte>): (r: seq<Word>)
    requires |h| == 8 && |block| == 64
    ensures |r| == 8
  {
    AddWords(h, Rounds(h, block, 64))
  }

  /** The hash value after all the blocks of a padded message. */
  function Blocks(m: seq<Byte>): (h: seq<Word>)
    requires |m| % 64 == 0
    ensures |h| == 8
  {
    if m == [] then H0 else Compress(Blocks(m[..|m| - 64]), m[|m| - 64..])
  }

  function WordByte(w: Word, i: nat): Byte
    requires i < 4
  {
    ((w >> (24 - i * 8)) & 0xff) as Byte
  }

  function WordBytes(w: Word): (s: seq<Byte>)
    ensures |s| == 4
  {
    [WordByte(w, 0), WordByte(w, 1), WordByte(w, 2), WordByte(w, 3)]
  }

  function WordsBytes(h: seq<Word>): (s: seq<Byte>)
    ensures |s| == 4 * |h|
  {
    if h == [] then [] else WordsBytes(h[..|h| - 1]) + WordBytes(h[|h| - 1])
  }

  function Sha256(m: seq<Byte>): (d: seq<Byte>)
    ensures |d| == 32
  {
    WordsBytes(Blocks(Padded(m)))
  }

  // ---------- RFC 2104, section 2 ----------

  const BLOCK: nat := 64

  function XorByte(b: Byte, pad: Byte): Byte {
    b ^ pad
  }

  function XorAll(s: seq<Byte>, pad: Byte): (r: seq<Byte>)
    ensures |r| == |s|
  {
    seq(|s|, i requires 0 <= i < |s| => XorByte(s[i], pad))
  }

  /** A key of any length as one block: longer keys are hashed first. */
  function BlockKey(key: seq<Byte>): (k: seq<Byte>)
    ensures |k| == BLOCK
  {
    var short := if |key| > BLOCK then Sha256(key) else key;
    short + Zeros(BLOCK - |short|)
  }

  function Hmac(key: seq<Byte>, text: seq<Byte>): (d: seq<Byte>)
    ensures |d| == 32
  {
    Sha256(XorAll(BlockKey(key), 0x5c) + Sha256(XorAll(BlockKey(key), 0x36) + text))
  }
}
