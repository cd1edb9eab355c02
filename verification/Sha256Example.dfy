/** The example of SHA-256 with a message of one block (appendix B.1 of FIPS 180-2): the digest of "abc". */
module Sha256Example {
  import opened Sha256Spec

  const ABC: seq<Byte> := [0x61, 0x62, 0x63]

  /** The message with its padding. */
  function Block(): (b: seq<Byte>)
    ensures |b| == 64
  {
    ABC + [0x80] + Zeros(59) + [0x18]
  }

  lemma {:induction false} ZeroBytes(width: nat)
    ensures BigEndian(0, width) == Zeros(width)
  {
    if width > 0 {
      LowByteIs(0);
      ZeroBytes(width - 1);
      hide LowByte;
      assert BigEndian(0, width) == BigEndian(0, width - 1) + [LowByte(0)];
    }
  }

  lemma LengthBytes()
    ensures BigEndian(24, 8) == Zeros(7) + [0x18]
  {
    LowByteIs(24);
    ZeroBytes(7);
    hide LowByte;
    assert BigEndian(24, 8) == BigEndian(0, 7) + [LowByte(24)];
  }

  lemma PaddedParts()
    ensures Padded(ABC) == ABC + [0x80] + Zeros(52) + BigEndian(24, 8)
  {
    hide BigEndian, Zeros;
  }

  lemma OneBlock()
    ensures Padded(ABC) == Block()
  {
    hide Padded, BigEndian, Zeros;
    PaddedParts();
    LengthBytes();
    Gathers(ABC, [0x80], 52, 7, [0x18]);
  }

  lemma Gathers(a: seq<Byte>, b: seq<Byte>, n: nat, k: nat, c: seq<Byte>)
    ensures a + b + Zeros(n) + (Zeros(k) + c) == a + b + Zeros(n + k) + c
  {
    assert Zeros(n) + Zeros(k) == Zeros(n + k);
    assert a + b + Zeros(n) + (Zeros(k) + c) == a + b + (Zeros(n) + Zeros(k)) + c;
  }

  // ---------- the message schedule ----------

  // The 64 words, row by row.
  const W0: seq<Word> := [
    0x61626380, 0x00000000, 0x00000000, 0x00000000, 0x00000000, 0x00000000, 0x00000000, 0x00000000]
  const W1: seq<Word> := [
    0x00000000, 0x00000000, 0x00000000, 0x00000000, 0x00000000, 0x00000000, 0x00000000, 0x00000018]
  const W2: seq<Word> := [
    0x61626380, 0x000f0000, 0x7da86405, 0x600003c6, 0x3e9d7b78, 0x0183fc00, 0x12dcbfdb, 0xe2e2c38e]
  const W3: seq<Word> := [
    0xc8215c1a, 0xb73679a2, 0xe5bc3909, 0x32663c5b, 0x9d209d67, 0xec8726cb, 0x702138a4, 0xd3b7973b]
  const W4: seq<Word> := [
    0x93f5997f, 0x3b68ba73, 0xaff4ffc1, 0xf10a5c62, 0x0a8b3996, 0x72af830a, 0x9409e33e, 0x24641522]
  const W5: seq<Word> := [
    0x9f47bf94, 0xf0a64f5a, 0x3e246a79, 0x27333ba3, 0x0c4763f2, 0x840abf27, 0x7a290d5d, 0x065c43da]
  const W6: seq<Word> := [
    0xfb3e89cb, 0xcc7617db, 0xb9e66c34, 0xa9993667, 0x84badedd, 0xc21462bc, 0x1487472c, 0xb20f7a99]
  const W7: seq<Word> := [
    0xef57b9cd, 0xebe6b238, 0x9fe3095e, 0x78bc8d4b, 0xa43fcf15, 0x668b2ff8, 0xeeaba2cc, 0x12b1edeb]

  /** Eight words of the schedule, from the one at `t` on. */
  predicate RowIs(t: nat, row: seq<Word>)
    requires t <= 56
  {
    && |row| == 8
    && W(Block(), t) == row[0] && W(Block(), t + 1) == row[1] && W(Block(), t + 2) == row[2]
    && W(Block(), t + 3) == row[3] && W(Block(), t + 4) == row[4] && W(Block(), t + 5) == row[5]
    && W(Block(), t + 6) == row[6] && W(Block(), t + 7) == row[7]
  }

  /** Eight words that follow on sixteen others. */
  predicate Extends(a: seq<Word>, b: seq<Word>, c: seq<Word>)
    requires |a| == |b| == |c| == 8
  {
    && c[0] == Sum4(SmallSigma1(b[6]), b[1], SmallSigma0(a[1]), a[0])
    && c[1] == Sum4(SmallSigma1(b[7]), b[2], SmallSigma0(a[2]), a[1])
    && c[2] == Sum4(SmallSigma1(c[0]), b[3], SmallSigma0(a[3]), a[2])
    && c[3] == Sum4(SmallSigma1(c[1]), b[4], SmallSigma0(a[4]), a[3])
    && c[4] == Sum4(SmallSigma1(c[2]), b[5], SmallSigma0(a[5]), a[4])
    && c[5] == Sum4(SmallSigma1(c[3]), b[6], SmallSigma0(a[6]), a[5])
    && c[6] == Sum4(SmallSigma1(c[4]), b[7], SmallSigma0(a[7]), a[6])
    && c[7] == Sum4(SmallSigma1(c[5]), c[0], SmallSigma0(b[0]), a[7])
  }

  lemma Row0()
    ensures RowIs(0, W0)
  {
    assert Join(0, 0, 0, 0) == 0 && Join(0x61, 0x62, 0x63, 0x80) == 0x61626380;
    hide Join;
  }

  lemma Row1()
    ensures RowIs(8, W1)
  {
    assert Join(0, 0, 0, 0) == 0 && Join(0, 0, 0, 0x18) == 0x18;
    hide Join;
  }

  lemma NextWord(t: nat)
    requires 16 <= t < 64
    ensures W(Block(), t)
         == Sum4(SmallSigma1(W(Block(), t - 2)), W(Block(), t - 7), SmallSigma0(W(Block(), t - 15)), W(Block(), t - 16))
  {
    hide SmallSigma0, SmallSigma1, Sum4;
  }

  lemma Extends2()
    ensures Extends(W0, W1, W2)
  {
  }

  lemma Row2()
    ensures RowIs(16, W2)
  {
    hide SmallSigma0, SmallSigma1, Sum4, W;
    Row0();
    Row1();
    Extends2();
    NextWord(16); NextWord(17); NextWord(18); NextWord(19);
    NextWord(20); NextWord(21); NextWord(22); NextWord(23);
  }

  lemma Extends3()
    ensures Extends(W1, W2, W3)
  {
  }

  lemma Row3()
    ensures RowIs(24, W3)
  {
    hide SmallSigma0, SmallSigma1, Sum4, W;
    Row1();
    Row2();
    Extends3();
    NextWord(24); NextWord(25); NextWord(26); NextWord(27);
    NextWord(28); NextWord(29); NextWord(30); NextWord(31);
  }

  lemma Extends4()
    ensures Extends(W2, W3, W4)
  {
  }

  lemma Row4()
    ensures RowIs(32, W4)
  {
    hide SmallSigma0, SmallSigma1, Sum4, W;
    Row2();
    Row3();
    Extends4();
    NextWord(32); NextWord(33); NextWord(34); NextWord(35);
    NextWord(36); NextWord(37); NextWord(38); NextWord(39);
  }

  lemma Extends5()
    ensures Extends(W3, W4, W5)
  {
  }

  lemma Row5()
    ensures RowIs(40, W5)
  {
    hide SmallSigma0, SmallSigma1, Sum4, W;
    Row3();
    Row4();
    Extends5();
    NextWord(40); NextWord(41); NextWord(42); NextWord(43);
    NextWord(44); NextWord(45); NextWord(46); NextWord(47);
  }

  lemma Extends6()
    ensures Extends(W4, W5, W6)
  {
  }

  lemma Row6()
    ensures RowIs(48, W6)
  {
    hide SmallSigma0, SmallSigma1, Sum4, W;
    Row4();
    Row5();
    Extends6();
    NextWord(48); NextWord(49); NextWord(50); NextWord(51);
    NextWord(52); NextWord(53); NextWord(54); NextWord(55);
  }

  lemma Extends7()
    ensures Extends(W5, W6, W7)
  {
  }

  lemma Row7()
    ensures RowIs(56, W7)
  {
    hide SmallSigma0, SmallSigma1, Sum4, W;
    Row5();
    Row6();
    Extends7();
    NextWord(56); NextWord(57); NextWord(58); NextWord(59);
    NextWord(60); NextWord(61); NextWord(62); NextWord(63);
  }

  // ---------- the rounds ----------

  // The working variables after every eight rounds.
  const V1: seq<Word> := [
    0x85a07b5f, 0xe5030380, 0x2b4209f5, 0x04409a6a, 0x0c657a79, 0x9b27a401, 0x714260ad, 0x43ada245]
  const V2: seq<Word> := [
    0xb0fa238e, 0xc0645fde, 0xd932eb16, 0x87912990, 0x07590dcd, 0x0b92f20c, 0x745a48de, 0x1e578218]
  const V3: seq<Word> := [
    0xc5d53d8d, 0xa7a3623f, 0xc2606d6d, 0x9dc68b63, 0xaa47c347, 0x49f5114a, 0xe1257970, 0x8ada8930]
  const V4: seq<Word> := [
    0x73b33bf5, 0xea992a22, 0xa0060b30, 0x363482c9, 0xba591112, 0x0109ab3a, 0xade79437, 0x6112a3b7]
  const V5: seq<Word> := [
    0x79ea687a, 0x6dc57a8a, 0x34df1604, 0x41a65cb1, 0x1efbc0a0, 0xf0781bc8, 0xa507a53d, 0x0772a26b]
  const V6: seq<Word> := [
    0x4172328d, 0xa14c14b0, 0x72ab4b91, 0x26628815, 0xfecf0bc6, 0xd57b94a9, 0xb7755da1, 0xa80f11f0]
  const V7: seq<Word> := [
    0x38cc9913, 0x3ec45cdb, 0xf5702fdb, 0x101fd28f, 0x54cb266b, 0xe50e1b4f, 0x9f4787c3, 0x529e7d00]
  const V8: seq<Word> := [
    0x506e3058, 0xd39a2165, 0x04d24d6c, 0xb85e2ce9, 0x5ef50f24, 0xfb121210, 0x948d25b6, 0x961f4894]

  function Eight(v: seq<Word>, k: seq<Word>, w: seq<Word>): seq<Word>
    requires |v| == |k| == |w| == 8
  {
    var v4 := Round(Round(Round(Round(v, k[0], w[0]), k[1], w[1]), k[2], w[2]), k[3], w[3]);
    Round(Round(Round(Round(v4, k[4], w[4]), k[5], w[5]), k[6], w[6]), k[7], w[7])
  }

  lemma FourRounds(t: nat)
    requires t <= 60
    ensures var v := Rounds(H0, Block(), t);
            Rounds(H0, Block(), t + 4)
            == Round(Round(Round(Round(v, K[t], W(Block(), t)), K[t + 1], W(Block(), t + 1)),
                K[t + 2], W(Block(), t + 2)), K[t + 3], W(Block(), t + 3))
  {
    hide W, Round;
    assert Rounds(H0, Block(), t + 2) == Round(Rounds(H0, Block(), t + 1), K[t + 1], W(Block(), t + 1));
    assert Rounds(H0, Block(), t + 3) == Round(Rounds(H0, Block(), t + 2), K[t + 2], W(Block(), t + 2));
  }

  lemma Eight0()
    ensures Eight(H0, ROW0, W0) == V1
  {
  }

  lemma Keys0()
    ensures K[0] == ROW0[0] && K[1] == ROW0[1] && K[2] == ROW0[2] && K[3] == ROW0[3]
    ensures K[4] == ROW0[4] && K[5] == ROW0[5] && K[6] == ROW0[6] && K[7] == ROW0[7]
  {
  }

  lemma NoRounds()
    ensures Rounds(H0, Block(), 0) == H0
  {
  }

  lemma Rounds0()
    ensures Rounds(H0, Block(), 8) == V1
  {
    hide W, Round, Rounds;
    NoRounds();
    Row0();
    Keys0();
    FourRounds(0);
    FourRounds(4);
    Eight0();
  }

  lemma Eight1()
    ensures Eight(V1, ROW1, W1) == V2
  {
  }

  lemma Keys1()
    ensures K[8] == ROW1[0] && K[9] == ROW1[1] && K[10] == ROW1[2] && K[11] == ROW1[3]
    ensures K[12] == ROW1[4] && K[13] == ROW1[5] && K[14] == ROW1[6] && K[15] == ROW1[7]
  {
  }

  lemma Rounds1()
    ensures Rounds(H0, Block(), 16) == V2
  {
    hide W, Round, Rounds;
    Rounds0();
    Row1();
    Keys1();
    FourRounds(8);
    FourRounds(12);
    Eight1();
  }

  lemma Eight2()
    ensures Eight(V2, ROW2, W2) == V3
  {
  }

  lemma Keys2()
    ensures K[16] == ROW2[0] && K[17] == ROW2[1] && K[18] == ROW2[2] && K[19] == ROW2[3]
    ensures K[20] == ROW2[4] && K[21] == ROW2[5] && K[22] == ROW2[6] && K[23] == ROW2[7]
  {
  }

  lemma Rounds2()
    ensures Rounds(H0, Block(), 24) == V3
  {
    hide W, Round, Rounds;
    Rounds1();
    Row2();
    Keys2();
    FourRounds(16);
    FourRounds(20);
    Eight2();
  }

  lemma Eight3()
    ensures Eight(V3, ROW3, W3) == V4
  {
  }

  lemma Keys3()
    ensures K[24] == ROW3[0] && K[25] == ROW3[1] && K[26] == ROW3[2] && K[27] == ROW3[3]
    ensures K[28] == ROW3[4] && K[29] == ROW3[5] && K[30] == ROW3[6] && K[31] == ROW3[7]
  {
  }

  lemma Rounds3()
    ensures Rounds(H0, Block(), 32) == V4
  {
    hide W, Round, Rounds;
    Rounds2();
    Row3();
    Keys3();
    FourRounds(24);
    FourRounds(28);
    Eight3();
  }

  lemma Eight4()
    ensures Eight(V4, ROW4, W4) == V5
  {
  }

  lemma Keys4()
    ensures K[32] == ROW4[0] && K[33] == ROW4[1] && K[34] == ROW4[2] && K[35] == ROW4[3]
    ensures K[36] == ROW4[4] && K[37] == ROW4[5] && K[38] == ROW4[6] && K[39] == ROW4[7]
  {
  }

  lemma Rounds4()
    ensures Rounds(H0, Block(), 40) == V5
  {
    hide W, Round, Rounds;
    Rounds3();
    Row4();
    Keys4();
    FourRounds(32);
    FourRounds(36);
    Eight4();
  }

  lemma Eight5()
    ensures Eight(V5, ROW5, W5) == V6
  {
  }

  lemma Keys5()
    ensures K[40] == ROW5[0] && K[41] == ROW5[1] && K[42] == ROW5[2] && K[43] == ROW5[3]
    ensures K[44] == ROW5[4] && K[45] == ROW5[5] && K[46] == ROW5[6] && K[47] == ROW5[7]
  {
  }

  lemma Rounds5()
    ensures Rounds(H0, Block(), 48) == V6
  {
    hide W, Round, Rounds;
    Rounds4();
    Row5();
    Keys5();
    FourRounds(40);
    FourRounds(44);
    Eight5();
  }

  lemma Eight6()
    ensures Eight(V6, ROW6, W6) == V7
  {
  }

  lemma Keys6()
    ensures K[48] == ROW6[0] && K[49] == ROW6[1] && K[50] == ROW6[2] && K[51] == ROW6[3]
    ensures K[52] == ROW6[4] && K[53] == ROW6[5] && K[54] == ROW6[6] && K[55] == ROW6[7]
  {
  }

  lemma Rounds6()
    ensures Rounds(H0, Block(), 56) == V7
  {
    hide W, Round, Rounds;
    Rounds5();
    Row6();
    Keys6();
    FourRounds(48);
    FourRounds(52);
    Eight6();
  }

  lemma Eight7()
    ensures Eight(V7, ROW7, W7) == V8
  {
  }

  lemma Keys7()
    ensures K[56] == ROW7[0] && K[57] == ROW7[1] && K[58] == ROW7[2] && K[59] == ROW7[3]
    ensures K[60] == ROW7[4] && K[61] == ROW7[5] && K[62] == ROW7[6] && K[63] == ROW7[7]
  {
  }

  lemma Rounds7()
    ensures Rounds(H0, Block(), 64) == V8
  {
    hide W, Round, Rounds;
    Rounds6();
    Row7();
    Keys7();
    FourRounds(56);
    FourRounds(60);
    Eight7();
  }

  // ---------- the digest ----------

  const DIGEST: seq<Word> := [
    0xba7816bf, 0x8f01cfea, 0x414140de, 0x5dae2223, 0xb00361a3, 0x96177a9c, 0xb410ff61, 0xf20015ad]

  lemma OneCompression()
    ensures Blocks(Block()) == DIGEST
  {
    Rounds7();
    hide Rounds;
    assert Block()[..0] == [] && Block()[0..] == Block();
    assert Blocks([]) == H0;
    assert AddWords(H0, V8) == DIGEST;
  }

  /** The digest of the three bytes of "abc". */
  lemma DigestOfAbc()
    ensures Sha256(ABC) == [
              0xba, 0x78, 0x16, 0xbf, 0x8f, 0x01, 0xcf, 0xea, 0x41, 0x41, 0x40, 0xde, 0x5d, 0xae, 0x22, 0x23,
              0xb0, 0x03, 0x61, 0xa3, 0x96, 0x17, 0x7a, 0x9c, 0xb4, 0x10, 0xff, 0x61, 0xf2, 0x00, 0x15, 0xad]
  {
    OneBlock();
    OneCompression();
    hide Blocks, Padded;
    FourWords(DIGEST[..4]);
    FourWords(DIGEST[4..]);
    WordsAppend(DIGEST[..4], DIGEST[4..]);
    assert DIGEST[..4] + DIGEST[4..] == DIGEST;
    Bytes();
  }

  lemma FourWords(s: seq<Word>)
    requires |s| == 4
    ensures WordsBytes(s) == WordBytes(s[0]) + WordBytes(s[1]) + WordBytes(s[2]) + WordBytes(s[3])
  {
    hide WordBytes;
    assert s[..3][..2] == s[..2] && s[..2][..1] == s[..1] && s[..1][..0] == [];
    assert WordsBytes([]) == [] && [] + WordBytes(s[0]) == WordBytes(s[0]);
    assert WordsBytes(s[..1]) == WordsBytes([]) + WordBytes(s[0]);
    assert WordsBytes(s[..2]) == WordsBytes(s[..1]) + WordBytes(s[1]);
    assert WordsBytes(s[..3]) == WordsBytes(s[..2]) + WordBytes(s[2]);
  }

  lemma {:induction false} WordsAppend(a: seq<Word>, b: seq<Word>)
    ensures WordsBytes(a + b) == WordsBytes(a) + WordsBytes(b)
    decreases |b|
  {
    hide WordBytes;
    if b == [] {
      assert a + b == a;
    } else {
      assert (a + b)[..|a + b| - 1] == a + b[..|b| - 1];
      WordsAppend(a, b[..|b| - 1]);
    }
  }

  lemma Bytes()
    ensures WordBytes(0xba7816bf) == [0xba, 0x78, 0x16, 0xbf]
    ensures WordBytes(0x8f01cfea) == [0x8f, 0x01, 0xcf, 0xea]
    ensures WordBytes(0x414140de) == [0x41, 0x41, 0x40, 0xde]
    ensures WordBytes(0x5dae2223) == [0x5d, 0xae, 0x22, 0x23]
    ensures WordBytes(0xb00361a3) == [0xb0, 0x03, 0x61, 0xa3]
    ensures WordBytes(0x96177a9c) == [0x96, 0x17, 0x7a, 0x9c]
    ensures WordBytes(0xb410ff61) == [0xb4, 0x10, 0xff, 0x61]
    ensures WordBytes(0xf20015ad) == [0xf2, 0x00, 0x15, 0xad]
  {
  }
}
