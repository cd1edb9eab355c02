/** The streaming implementation: it collects blocks of 64 bytes from any pieces of a message, keeps the number of
    bits in the blocks that are done, and pads in place. */
module Sha256Stream {
  import opened Basics
  import opened Sha256Spec

  // ---------- bit functions ----------

  function Rotr(x: Word, n: nat): Word
    requires 0 < n < 32
  {
    (x >> n) | (x << (32 - n))
  }

  function Choose(e: Word, f: Word, g: Word): Word {
    (e & f) ^ (!e & g)
  }

  function Majority(a: Word, b: Word, c: Word): Word {
    (a & (b | c)) | (b & c)
  }

  function Sig0(x: Word): Word {
    Xor3(Rotr(x, 7), Rotr(x, 18), x >> 3)
  }

  function Sig1(x: Word): Word {
    Xor3(Rotr(x, 17), Rotr(x, 19), x >> 10)
  }

  lemma MajorityIsMaj(a: Word, b: Word, c: Word)
    ensures Majority(a, b, c) == Maj(a, b, c)
  {
    MajorityBits(a, b, c);
  }

  lemma MajorityBits(a: Word, b: Word, c: Word)
    ensures (a & (b | c)) | (b & c) == (a & b) ^ (a & c) ^ (b & c)
  {
  }

  lemma RotrRotates(x: Word)
    ensures Rotr(x, 2) == x.RotateRight(2) && Rotr(x, 13) == x.RotateRight(13) && Rotr(x, 22) == x.RotateRight(22)
    ensures Rotr(x, 6) == x.RotateRight(6) && Rotr(x, 11) == x.RotateRight(11) && Rotr(x, 25) == x.RotateRight(25)
    ensures Rotr(x, 7) == x.RotateRight(7) && Rotr(x, 18) == x.RotateRight(18)
    ensures Rotr(x, 17) == x.RotateRight(17) && Rotr(x, 19) == x.RotateRight(19)
  {
  }

  /** The shifts and masks of the program are the functions of the standard. */
  lemma SigmasAgree(x: Word)
    ensures Sig0(x) == SmallSigma0(x) && Sig1(x) == SmallSigma1(x)
    ensures Xor3(Rotr(x, 2), Rotr(x, 13), Rotr(x, 22)) == BigSigma0(x)
    ensures Xor3(Rotr(x, 6), Rotr(x, 11), Rotr(x, 25)) == BigSigma1(x)
  {
    RotrRotates(x);
    hide Rotr, Xor3;
  }

  function Sum3(x: Word, y: Word, z: Word): Word {
    x + y + z
  }

  /** A round as the program adds it up. */
  function ProgramMix(v: seq<Word>, k: Word, w: Word, xorA: Word, maj: Word, xorE: Word, ch: Word): seq<Word>
    requires |v| == 8
  {
    var sum := Sum5(w, k, v[7], ch, xorE);
    [Sum3(xorA, maj, sum), v[0], v[1], v[2], Sum2(v[3], sum), v[4], v[5], v[6]]
  }

  lemma SumOrder(w: Word, k: Word, h: Word, ch: Word, s: Word)
    ensures Sum5(w, k, h, ch, s) == Sum5(h, s, ch, k, w)
  {
  }

  lemma NewAOrder(xorA: Word, maj: Word, sum: Word)
    ensures Sum3(xorA, maj, sum) == NewA(sum, xorA, maj)
  {
  }

  lemma MixIsMix(v: seq<Word>, k: Word, w: Word, xorA: Word, maj: Word, xorE: Word, ch: Word)
    requires |v| == 8
    ensures ProgramMix(v, k, w, xorA, maj, xorE, ch) == Mix(v, k, w, xorA, maj, xorE, ch)
  {
    hide Sum2, Sum3, Sum5, NewA;
    SumOrder(w, k, v[7], ch, xorE);
    NewAOrder(xorA, maj, Sum5(w, k, v[7], ch, xorE));
  }

  function ProgramRound(v: seq<Word>, k: Word, w: Word): seq<Word>
    requires |v| == 8
  {
    ProgramMix(v, k, w,
               Xor3(Rotr(v[0], 2), Rotr(v[0], 13), Rotr(v[0], 22)), Majority(v[0], v[1], v[2]),
               Xor3(Rotr(v[4], 6), Rotr(v[4], 11), Rotr(v[4], 25)), Choose(v[4], v[5], v[6]))
  }

  /** One round as the program computes it is one round of the standard. */
  lemma RoundIsRound(v: seq<Word>, k: Word, w: Word)
    requires |v| == 8
    ensures ProgramRound(v, k, w) == Round(v, k, w)
  {
    SigmasAgree(v[0]);
    SigmasAgree(v[4]);
    MajorityIsMaj(v[0], v[1], v[2]);
    assert Choose(v[4], v[5], v[6]) == Ch(v[4], v[5], v[6]);
    hide Rotr, BigSigma0, BigSigma1, Maj, Majority, Ch, Choose, Xor3, Mix, ProgramMix;
    MixIsMix(v, k, w, BigSigma0(v[0]), Maj(v[0], v[1], v[2]), BigSigma1(v[4]), Ch(v[4], v[5], v[6]));
  }

  // ---------- one block ----------

  /** The 64 words of the message schedule. */
  method Schedule(data: array<Byte>) returns (m: array<Word>)
    requires data.Length == 64
    ensures fresh(m) && m.Length == 64 && forall t :: 0 <= t < 64 ==> m[t] == W(data[..], t)
  {
    hide *;
    m := new Word[64];
    FirstWords(data, m);
    ghost var block := data[..];
    for k := 16 to 64
      invariant forall t :: 0 <= t < k ==> m[t] == W(block, t)
    {
      NextWord(block, k);
      m[k] := Sum4(Sig1(m[k - 2]), m[k - 7], Sig0(m[k - 15]), m[k - 16]);
    }
  }

  /** The first 16 words are the block itself. */
  method FirstWords(data: array<Byte>, m: array<Word>)
    requires data.Length == 64 && m.Length == 64
    modifies m
    ensures forall t :: 0 <= t < 16 ==> m[t] == W(data[..], t)
  {
    hide *;
    ghost var block := data[..];
    var j := 0;
    for i := 0 to 16
      invariant j == 4 * i
      invariant forall t :: 0 <= t < i ==> m[t] == W(block, t)
    {
      FirstWord(block, i);
      m[i] := Join(data[j], data[j + 1], data[j + 2], data[j + 3]);
      j := j + 4;
    }
  }

  lemma FirstWord(block: seq<Byte>, i: nat)
    requires |block| == 64 && i < 16
    ensures W(block, i) == Join(block[4 * i], block[4 * i + 1], block[4 * i + 2], block[4 * i + 3])
  {
    hide Join;
  }

  lemma NextWord(block: seq<Byte>, k: nat)
    requires |block| == 64 && 16 <= k < 64
    ensures W(block, k) == Sum4(Sig1(W(block, k - 2)), W(block, k - 7), Sig0(W(block, k - 15)), W(block, k - 16))
  {
    SigmasAgree(W(block, k - 2));
    SigmasAgree(W(block, k - 15));
    hide Sig0, Sig1, SmallSigma0, SmallSigma1, WordAt, Sum4;
  }

  /** One round, on the eight variables in place. */
  method RoundInPlace(s: array<Word>, k: Word, w: Word)
    requires s.Length == 8
    modifies s
    ensures s[..] == ProgramRound(old(s[..]), k, w)
  {
    hide *;
    var maj := Majority(s[0], s[1], s[2]);
    var xorA := Xor3(Rotr(s[0], 2), Rotr(s[0], 13), Rotr(s[0], 22));
    var ch := Choose(s[4], s[5], s[6]);
    var xorE := Xor3(Rotr(s[4], 6), Rotr(s[4], 11), Rotr(s[4], 25));
    RoundParts(s[..], k, w, xorA, maj, xorE, ch);
    var sum := Sum5(w, k, s[7], ch, xorE);
    var newA := Sum3(xorA, maj, sum);
    var newE := Sum2(s[3], sum);
    Shift(s, newA, newE);
  }

  lemma RoundParts(v: seq<Word>, k: Word, w: Word, xorA: Word, maj: Word, xorE: Word, ch: Word)
    requires |v| == 8 && maj == Majority(v[0], v[1], v[2]) && ch == Choose(v[4], v[5], v[6])
    requires xorA == Xor3(Rotr(v[0], 2), Rotr(v[0], 13), Rotr(v[0], 22))
    requires xorE == Xor3(Rotr(v[4], 6), Rotr(v[4], 11), Rotr(v[4], 25))
    ensures var sum := Sum5(w, k, v[7], ch, xorE);
            ProgramRound(v, k, w) == [Sum3(xorA, maj, sum), v[0], v[1], v[2], Sum2(v[3], sum), v[4], v[5], v[6]]
  {
    hide Rotr, Xor3, Majority, Choose, Sum2, Sum3, Sum5;
  }

  /** Every variable takes the place of the next one. */
  method Shift(s: array<Word>, newA: Word, newE: Word)
    requires s.Length == 8
    modifies s
    ensures s[..] == old([newA, s[0], s[1], s[2], newE, s[4], s[5], s[6]])
  {
    ShiftUpper(s, newE);
    s[3] := s[2];
    s[2] := s[1];
    s[1] := s[0];
    s[0] := newA;
    assert s[..] == [s[0], s[1], s[2], s[3]] + s[4..];
  }

  method ShiftUpper(s: array<Word>, newE: Word)
    requires s.Length == 8
    modifies s
    ensures s[4..] == old([newE, s[4], s[5], s[6]]) && s[..4] == old(s[..4])
  {
    s[7] := s[6];
    s[6] := s[5];
    s[5] := s[4];
    s[4] := newE;
  }

  lemma NextRound(h: seq<Word>, block: seq<Byte>, t: nat, v: seq<Word>)
    requires |h| == 8 && |block| == 64 && t < 64 && v == Rounds(h, block, t)
    ensures |v| == 8 && ProgramRound(v, K[t], W(block, t)) == Rounds(h, block, t + 1)
  {
    RoundIsRound(v, K[t], W(block, t));
    hide Round, ProgramRound, W;
  }

  class SHA256 {
    const data: array<Byte>
    const state: array<Word>
    var blocklen: nat
    var bitlen: nat
    /** What has been hashed so far. */
    ghost var message: seq<Byte>

    ghost predicate Shape() {
      data.Length == 64 && state.Length == 8
    }

    /** The state is that of the whole blocks of the message; the rest of the message waits in the buffer. */
    ghost predicate Valid()
      reads this`blocklen, this`bitlen, this`message, data, state
    {
      Shape() && Holds(message, data[..], state[..], blocklen, bitlen)
    }

    constructor ()
      ensures Valid() && fresh(data) && fresh(state) && message == []
    {
      data := new Byte[64];
      state := new Word[8];
      blocklen, bitlen := 0, 0;
      message := [];
      new;
      state[0] := 0x6a09e667;
      state[1] := 0xbb67ae85;
      state[2] := 0x3c6ef372;
      state[3] := 0xa54ff53a;
      state[4] := 0x510e527f;
      state[5] := 0x9b05688c;
      state[6] := 0x1f83d9ab;
      state[7] := 0x5be0cd19;
      assert state[..] == H0;
      HoldsNothing(data[..], state[..]);
    }

    /** Compresses the block in the buffer into the state. */
    method Transform()
      requires Shape()
      modifies state
      ensures state[..] == Compress(old(state[..]), data[..])
    {
      hide W, Rounds, ProgramRound;
      var m := Schedule(data);
      ghost var h, block := state[..], data[..];
      var s := CopyState();
      FirstRounds(h, block);
      for i := 0 to 64
        invariant s[..] == Rounds(h, block, i) && state[..] == h
        invariant forall t :: 0 <= t < 64 ==> m[t] == W(block, t)
      {
        NextRound(h, block, i, s[..]);
        RoundInPlace(s, K[i], m[i]);
      }
      AddState(s);
    }

    method CopyState() returns (s: array<Word>)
      requires Shape()
      ensures fresh(s) && s[..] == state[..]
    {
      s := new Word[8];
      for i := 0 to 8
        invariant forall j :: 0 <= j < i ==> s[j] == state[j]
      {
        s[i] := state[i];
      }
    }

    method AddState(s: array<Word>)
      requires Shape() && s.Length == 8 && s != state
      modifies state
      ensures state[..] == AddWords(old(state[..]), s[..])
    {
      for i := 0 to 8
        invariant forall j :: 0 <= j < i ==> state[j] == Sum2(old(state[j]), s[j])
        invariant forall j :: i <= j < 8 ==> state[j] == old(state[j])
      {
        hide Sum2;
        state[i] := Sum2(state[i], s[i]);
      }
    }

    /** Hashes another piece of the message. */
    method Update(piece: seq<Byte>)
      requires Valid()
      modifies this`blocklen, this`bitlen, this`message, data, state
      ensures Valid() && message == old(message) + piece
    {
      for i := 0 to |piece|
        invariant Valid() && message == old(message) + piece[..i]
      {
        Take(piece[i]);
        assert piece[..i + 1] == piece[..i] + [piece[i]];
      }
      assert piece[..|piece|] == piece;
    }

    method Take(b: Byte)
      requires Valid()
      modifies this`blocklen, this`bitlen, this`message, data, state
      ensures Valid() && message == old(message) + [b]
    {
      hide Holds, Compress;
      TakeByte(message, data[..], state[..], blocklen, bitlen, b);
      data[blocklen] := b;
      blocklen := blocklen + 1;
      message := message + [b];
      if blocklen == 64 {
        EndBlock();
      }
    }

    method EndBlock()
      requires Shape()
      requires Holds(message, data[..], Compress(state[..], data[..]), 0, (bitlen + 512) % TWO64)
      modifies this`blocklen, this`bitlen, state
      ensures Valid()
    {
      hide Holds, Compress;
      Transform();
      bitlen := (bitlen + 512) % TWO64;
      blocklen := 0;
    }

    /** The hash of the message. It uses up the object: a message may be finished once. */
    method Digest() returns (hash: seq<Byte>)
      requires Valid() && |message| < 0x2000_0000_0000_0000
      modifies this`bitlen, data, state
      ensures hash == Sha256(message)
    {
      Pad();
      hash := Revert();
    }

    /** Appends the bit 1, zeros and the length of the message, in one block or two. */
    method Pad()
      requires Valid() && |message| < 0x2000_0000_0000_0000
      modifies this`bitlen, data, state
      ensures state[..] == Blocks(Padded(message))
    {
      hide Holds, Compress, Blocks, Padded, BigEndian;
      PadStart(message, data[..], state[..], blocklen, bitlen);
      ghost var front := message[..|message| - blocklen];
      if blocklen < 56 {
        PadOne(message, front, data[..blocklen]);
        FillTail(56);
      } else {
        PadTwo(message, front, data[..blocklen]);
        FillBlock();
      }
      AddLength();
    }

    /** Without room for the length, the block ends with zeros, and the next one begins with them. */
    method FillBlock()
      requires Shape() && 56 <= blocklen < 64
      modifies data, state
      ensures state[..] == Compress(old(state[..]), old(data[..blocklen]) + [0x80] + Zeros(63 - blocklen))
      ensures data[..56] == Zeros(56)
    {
      hide Compress;
      FillTail(64);
      AllOf(data[..], 64);
      Transform();
      ClearFront();
    }

    method AddLength()
      requires Shape()
      modifies this`bitlen, data, state
      ensures state[..] == Compress(old(state[..]),
              old(data[..56]) + BigEndian((old(bitlen) + blocklen * 8) % TWO64, 8))
    {
      hide Compress, BigEndian;
      bitlen := (bitlen + blocklen * 8) % TWO64;
      PutLength();
      AllOf(data[..], 56);
      Transform();
    }

    method FillTail(end: nat)
      requires Shape() && blocklen < end <= 64
      modifies data
      ensures data[..end] == old(data[..blocklen]) + [0x80] + Zeros(end - blocklen - 1)
    {
      var i := blocklen;
      data[i] := 0x80;
      i := i + 1;
      while i < end
        invariant blocklen < i <= end
        invariant data[..blocklen] == old(data[..blocklen]) && data[blocklen] == 0x80
        invariant forall j :: blocklen < j < i ==> data[j] == 0
      {
        data[i] := 0;
        i := i + 1;
      }
    }

    method ClearFront()
      requires Shape()
      modifies data
      ensures data[..56] == Zeros(56)
    {
      for i := 0 to 56
        invariant forall j :: 0 <= j < i ==> data[j] == 0
      {
        data[i] := 0;
      }
    }

    /** The count of bits behind the padding, most significant byte first. */
    method PutLength()
      requires Shape()
      modifies data
      ensures data[..56] == old(data[..56]) && data[56..] == BigEndian(bitlen, 8)
    {
      hide LowByte;
      LengthBytes(bitlen);
      data[63] := LowByte(bitlen);
      data[62] := LowByte(bitlen / 0x100);
      data[61] := LowByte(bitlen / 0x1_0000);
      data[60] := LowByte(bitlen / 0x100_0000);
      data[59] := LowByte(bitlen / 0x1_0000_0000);
      data[58] := LowByte(bitlen / 0x100_0000_0000);
      data[57] := LowByte(bitlen / 0x1_0000_0000_0000);
      data[56] := LowByte(bitlen / 0x100_0000_0000_0000);
      hide BigEndian;
      assert data[56..] == [data[56], data[57], data[58], data[59], data[60], data[61], data[62], data[63]];
    }

    /** The words of the state as bytes, most significant byte first. */
    method Revert() returns (hash: seq<Byte>)
      requires Shape()
      ensures hash == WordsBytes(state[..])
    {
      hide WordByte, WordsBytes;
      var bytes := new Byte[32];
      for i := 0 to 4
        invariant forall p, j :: 0 <= p < i && 0 <= j < 8 ==> bytes[p + j * 4] == WordByte(state[j], p)
      {
        RevertRow(bytes, i);
      }
      BytesOfWords(state[..], bytes[..]);
      return bytes[..];
    }

    /** The byte at `i` of every word. */
    method RevertRow(bytes: array<Byte>, i: nat)
      requires Shape() && bytes.Length == 32 && i < 4
      modifies bytes
      ensures forall j :: 0 <= j < 8 ==> bytes[i + j * 4] == WordByte(state[j], i)
      ensures forall k :: 0 <= k < 32 && k % 4 != i ==> bytes[k] == old(bytes[k])
    {
      hide WordByte;
      for j := 0 to 8
        invariant forall q :: 0 <= q < j ==> bytes[i + q * 4] == WordByte(state[q], i)
        invariant forall k :: 0 <= k < 32 && k % 4 != i ==> bytes[k] == old(bytes[k])
      {
        bytes[i + j * 4] := WordByte(state[j], i);
      }
    }
  }

  lemma AllOf<T>(s: seq<T>, k: nat)
    requires k <= |s|
    ensures s == s[..k] + s[k..] && s[..|s|] == s
  {
  }

  lemma {:induction false} BytesOfWords(h: seq<Word>, bytes: seq<Byte>)
    requires |bytes| == 4 * |h|
    requires forall p, j :: 0 <= p < 4 && 0 <= j < |h| ==> bytes[p + j * 4] == WordByte(h[j], p)
    ensures bytes == WordsBytes(h)
  {
    hide WordByte;
    if h != [] {
      var k := |h| - 1;
      BytesOfWords(h[..k], bytes[..4 * k]);
      assert bytes[4 * k..] == WordBytes(h[k]) by {
        assert bytes[0 + k * 4] == WordByte(h[k], 0) && bytes[1 + k * 4] == WordByte(h[k], 1);
        assert bytes[2 + k * 4] == WordByte(h[k], 2) && bytes[3 + k * 4] == WordByte(h[k], 3);
      }
      assert bytes == bytes[..4 * k] + bytes[4 * k..];
    }
  }

  lemma LengthBytes(n: nat)
    ensures BigEndian(n, 8) == [
      LowByte(n / 0x100_0000_0000_0000), LowByte(n / 0x1_0000_0000_0000), LowByte(n / 0x100_0000_0000),
          LowByte(n / 0x1_0000_0000),
      LowByte(n / 0x100_0000), LowByte(n / 0x1_0000), LowByte(n / 0x100), LowByte(n)]
  {
    hide BigEndian, LowByte;
    FourBytes(n, 8);
    HighBytes(n);
  }

  lemma HighBytes(n: nat)
    ensures BigEndian(n / 0x1_0000_0000, 4) == [
      LowByte(n / 0x100_0000_0000_0000), LowByte(n / 0x1_0000_0000_0000), LowByte(n / 0x100_0000_0000),
          LowByte(n / 0x1_0000_0000)]
  {
    assert BigEndian(n / 0x1_0000_0000 / 0x1_0000_0000, 0) == [];
    hide BigEndian, LowByte;
    FourBytes(n / 0x1_0000_0000, 4);
    Quotients(n);
  }

  lemma FourBytes(n: nat, width: nat)
    requires width >= 4
    ensures BigEndian(n, width)
         == BigEndian(n / 0x1_0000_0000, width - 4)
             + [LowByte(n / 0x100_0000), LowByte(n / 0x1_0000), LowByte(n / 0x100), LowByte(n)]
  {
    BigEndianStep(n, width);
    BigEndianStep(n / 0x100, width - 1);
    BigEndianStep(n / 0x1_0000, width - 2);
    BigEndianStep(n / 0x100_0000, width - 3);
    hide BigEndian, LowByte;
    SmallQuotients(n);
  }

  lemma SmallQuotients(n: nat)
    ensures n / 0x100 / 256 == n / 0x1_0000 && n / 0x1_0000 / 256 == n / 0x100_0000
            && n / 0x100_0000 / 256 == n / 0x1_0000_0000
  {
  }

  lemma Quotients(n: nat)
    ensures n / 0x1_0000_0000 / 0x100 == n / 0x100_0000_0000 && n / 0x1_0000_0000 / 0x1_0000 == n / 0x1_0000_0000_0000
    ensures n / 0x1_0000_0000 / 0x100_0000 == n / 0x100_0000_0000_0000
  {
  }

  lemma BigEndianStep(n: nat, width: nat)
    requires width > 0
    ensures BigEndian(n, width) == BigEndian(n / 256, width - 1) + [LowByte(n)]
  {
    hide LowByte;
  }

  /** The number of bits of `n` bytes, in 64 bits. */
  function BitCount(n: nat): nat {
    8 * n % TWO64
  }

  /** What the fields of a hash say about the message that was hashed. */
  ghost predicate Holds(message: seq<Byte>, data: seq<Byte>, state: seq<Word>, blocklen: nat, bitlen: nat)
    requires |data| == 64 && |state| == 8
  {
    && blocklen == |message| % 64
    && bitlen == BitCount(|message| - blocklen)
    && data[..blocklen] == message[|message| - blocklen..]
    && state == Blocks(message[..|message| - blocklen])
  }

  lemma FirstRounds(h: seq<Word>, block: seq<Byte>)
    requires |h| == 8 && |block| == 64
    ensures Rounds(h, block, 0) == h
  {
  }

  lemma HoldsNothing(data: seq<Byte>, state: seq<Word>)
    requires |data| == 64 && state == H0
    ensures |state| == 8 && Holds([], data, state, 0, 0)
  {
  }

  lemma NextLength(n: nat)
    ensures n % 64 < 63 ==> (n + 1) % 64 == n % 64 + 1
    ensures n % 64 == 63 ==> (n + 1) % 64 == 0 && BitCount(n + 1) == (BitCount(n - 63) + 512) % TWO64
  {
  }

  lemma TakeInside(m: seq<Byte>, data: seq<Byte>, state: seq<Word>, blocklen: nat, bitlen: nat, b: Byte)
    requires |data| == 64 && |state| == 8 && blocklen < 63 && Holds(m, data, state, blocklen, bitlen)
    ensures Holds(m + [b], data[blocklen := b], state, blocklen + 1, bitlen)
  {
    NextLength(|m|);
    BufferGrows(m, data, blocklen, b);
    hide Blocks, BitCount;
    var n := m + [b];
    assert |n| - (blocklen + 1) == |m| - blocklen;
  }

  lemma HoldsLast(m: seq<Byte>, data: seq<Byte>, state: seq<Word>, bitlen: nat)
    requires |data| == 64 && |state| == 8 && Holds(m, data, state, 63, bitlen)
    ensures |m| >= 63 && |m[..|m| - 63]| % 64 == 0 && state == Blocks(m[..|m| - 63]) && data[..63] == m[|m| - 63..]
    ensures (bitlen + 512) % TWO64 == BitCount(|m| + 1)
  {
    NextLength(|m|);
    hide Blocks, BitCount;
  }

  lemma TakeLast(m: seq<Byte>, data: seq<Byte>, state: seq<Word>, bitlen: nat, b: Byte)
    requires |data| == 64 && |state| == 8 && Holds(m, data, state, 63, bitlen)
    ensures var data' := data[63 := b]; Holds(m + [b], data', Compress(state, data'), 0, (bitlen + 512) % TWO64)
  {
    hide Compress, Blocks, BitCount, Holds;
    HoldsLast(m, data, state, bitlen);
    BufferGrows(m, data, 63, b);
    var data', n := data[63 := b], m + [b];
    assert data'[..64] == data';
    LastBlock(n, m[..|m| - 63], data');
    WholeBlocks(n, data', Compress(state, data'), BitCount(|n|));
  }

  lemma WholeBlocks(m: seq<Byte>, data: seq<Byte>, state: seq<Word>, bitlen: nat)
    requires |data| == 64 && |state| == 8 && |m| % 64 == 0 && state == Blocks(m) && bitlen == BitCount(|m|)
    ensures Holds(m, data, state, 0, bitlen)
  {
    hide Blocks, BitCount;
    assert m[..|m| - 0] == m;
  }

  /** One more byte: it is added to the buffer, and a full buffer is the last block of the message. */
  lemma TakeByte(m: seq<Byte>, data: seq<Byte>, state: seq<Word>, blocklen: nat, bitlen: nat, b: Byte)
    requires |data| == 64 && |state| == 8 && Holds(m, data, state, blocklen, bitlen)
    ensures blocklen < 64
    ensures var data' := data[blocklen := b];
            if blocklen < 63 then Holds(m + [b], data', state, blocklen + 1, bitlen)
            else Holds(m + [b], data', Compress(state, data'), 0, (bitlen + 512) % TWO64)
  {
    assert blocklen < 64;
    hide *;
    if blocklen < 63 {
      TakeInside(m, data, state, blocklen, bitlen, b);
    } else {
      TakeLast(m, data, state, bitlen, b);
    }
  }

  lemma BufferGrows<T>(m: seq<T>, data: seq<T>, k: nat, b: T)
    requires k < |data| && k <= |m| && data[..k] == m[|m| - k..]
    ensures (m + [b])[|m| - k..] == data[k := b][..k + 1] && (m + [b])[..|m| - k] == m[..|m| - k]
    ensures m + [b] == m[..|m| - k] + data[k := b][..k + 1]
  {
    assert (m + [b])[|m| - k..] == m[|m| - k..] + [b];
  }

  /** What the buffer holds when padding starts. */
  lemma PadStart(m: seq<Byte>, data: seq<Byte>, state: seq<Word>, blocklen: nat, bitlen: nat)
    requires |data| == 64 && |state| == 8 && Holds(m, data, state, blocklen, bitlen) && |m| < 0x2000_0000_0000_0000
    ensures blocklen < 64 && |m| - blocklen >= 0 && |m[..|m| - blocklen]| % 64 == 0
    ensures (bitlen + blocklen * 8) % TWO64 == 8 * |m|
    ensures m == m[..|m| - blocklen] + data[..blocklen] && state == Blocks(m[..|m| - blocklen])
  {
    hide Blocks;
  }

  lemma PadCount(m: seq<Byte>, front: seq<Byte>, tail: seq<Byte>)
    requires |front| % 64 == 0 && m == front + tail && |tail| < 64
    ensures PadLength(|m|) == if |tail| < 56 then 55 - |tail| else (63 - |tail|) + 56
  {
    hide PadLength;
    assert |m| == |front| + |tail|;
    PadLengths(|front|, |tail|);
  }

  lemma PaddedIs(m: seq<Byte>, k: nat)
    requires k == PadLength(|m|)
    ensures Padded(m) == m + [0x80] + Zeros(k) + BigEndian(8 * |m|, 8)
  {
    hide PadLength, Zeros, BigEndian;
  }

  /** With room for the length, padding adds one block. */
  lemma PadOne(m: seq<Byte>, front: seq<Byte>, tail: seq<Byte>)
    requires |front| % 64 == 0 && m == front + tail && |tail| < 56
    ensures Blocks(Padded(m)) == Compress(Blocks(front), tail + [0x80] + Zeros(55 - |tail|) + BigEndian(8 * |m|, 8))
  {
    hide *;
    var zeros, length := Zeros(55 - |tail|), BigEndian(8 * |m|, 8);
    PadCount(m, front, tail);
    PaddedIs(m, 55 - |tail|);
    RegroupFive(front, tail, [0x80], zeros, length);
    LastBlock(Padded(m), front, tail + [0x80] + zeros + length);
  }

  /** Without, it adds two. */
  lemma PadTwo(m: seq<Byte>, front: seq<Byte>, tail: seq<Byte>)
    requires |front| % 64 == 0 && m == front + tail && 56 <= |tail| < 64
    ensures Blocks(Padded(m))
         == Compress(Compress(Blocks(front), tail + [0x80] + Zeros(63 - |tail|)), Zeros(56) + BigEndian(8 * |m|, 8))
  {
    hide *;
    var zeros, length := Zeros(63 - |tail|), BigEndian(8 * |m|, 8);
    PadCount(m, front, tail);
    PaddedIs(m, (63 - |tail|) + 56);
    ZerosSplit(63 - |tail|, 56);
    RegroupTwo(front, tail, [0x80], zeros, Zeros(56), length);
    LastTwoBlocks(Padded(m), front, tail + [0x80] + zeros, Zeros(56) + length);
  }

  lemma LastTwoBlocks(n: seq<Byte>, front: seq<Byte>, first: seq<Byte>, second: seq<Byte>)
    requires |first| == 64 && |second| == 64 && |front| % 64 == 0 && n == (front + first) + second
    ensures |n| % 64 == 0 && Blocks(n) == Compress(Compress(Blocks(front), first), second)
  {
    hide Blocks, Compress;
    LastBlock(front + first, front, first);
    LastBlock(n, front + first, second);
  }

  lemma ZerosSplit(a: nat, b: nat)
    ensures Zeros(a + b) == Zeros(a) + Zeros(b)
  {
  }

  lemma RegroupFive<T>(a: seq<T>, b: seq<T>, c: seq<T>, d: seq<T>, e: seq<T>)
    ensures (a + b) + c + d + e == a + (b + c + d + e)
  {
  }

  lemma RegroupTwo<T>(a: seq<T>, b: seq<T>, c: seq<T>, d: seq<T>, e: seq<T>, f: seq<T>)
    ensures (a + b) + c + (d + e) + f == (a + (b + c + d)) + (e + f)
  {
  }

  lemma PadLengths(blocks: nat, tail: nat)
    requires blocks % 64 == 0 && tail < 64
    ensures tail < 56 ==> PadLength(blocks + tail) == 55 - tail
    ensures tail >= 56 ==> PadLength(blocks + tail) == (63 - tail) + 56
  {
    assert (blocks + tail) % 64 == tail;
    assert (55 - (blocks + tail)) % 64 == (55 - tail) % 64;
  }

  lemma LastBlock(n: seq<Byte>, front: seq<Byte>, block: seq<Byte>)
    requires |block| == 64 && |front| % 64 == 0 && n == front + block
    ensures |n| % 64 == 0 && Blocks(n) == Compress(Blocks(front), block)
  {
    OneMoreBlock(|front|);
    assert n[..|n| - 64] == front && n[|n| - 64..] == block;
    BlocksStep(n);
    hide Blocks, Compress;
  }

  lemma OneMoreBlock(n: nat)
    requires n % 64 == 0
    ensures (n + 64) % 64 == 0
  {
  }

  lemma BlocksStep(n: seq<Byte>)
    requires |n| % 64 == 0 && n != []
    ensures |n| >= 64 && |n[..|n| - 64]| % 64 == 0 && Blocks(n) == Compress(Blocks(n[..|n| - 64]), n[|n| - 64..])
  {
    hide Compress;
  }

  /** However a message is split into pieces, hashing them one after the other gives the hash of the whole. */
  method HashPieces(pieces: seq<seq<Byte>>) returns (hash: seq<Byte>)
    requires |Concat(pieces)| < 0x2000_0000_0000_0000
    ensures hash == Sha256(Concat(pieces))
  {
    hide Sha256, Holds;
    var h := new SHA256();
    for i := 0 to |pieces|
      invariant fresh(h) && fresh(h.data) && fresh(h.state) && h.Valid() && h.message == Concat(pieces[..i])
    {
      h.Update(pieces[i]);
      assert pieces[..i + 1] == pieces[..i] + [pieces[i]];
      ConcatAppends(pieces[..i], pieces[i]);
    }
    assert pieces[..|pieces|] == pieces;
    hash := h.Digest();
  }
}
