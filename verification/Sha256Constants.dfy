/** The constants of SHA-256, as the standard derives them from the first primes (sections 4.2.2 and 5.3.3 of FIPS
    180-4). */
module Sha256Constants {
  import opened Sha256Spec

  // The first 64 primes, row by row.
  const PRIMES0: seq<nat> := [2, 3, 5, 7, 11, 13, 17, 19]
  const PRIMES1: seq<nat> := [23, 29, 31, 37, 41, 43, 47, 53]
  const PRIMES2: seq<nat> := [59, 61, 67, 71, 73, 79, 83, 89]
  const PRIMES3: seq<nat> := [97, 101, 103, 107, 109, 113, 127, 131]
  const PRIMES4: seq<nat> := [137, 139, 149, 151, 157, 163, 167, 173]
  const PRIMES5: seq<nat> := [179, 181, 191, 193, 197, 199, 211, 223]
  const PRIMES6: seq<nat> := [227, 229, 233, 239, 241, 251, 257, 263]
  const PRIMES7: seq<nat> := [269, 271, 277, 281, 283, 293, 307, 311]

  const PRIMES: seq<nat> := PRIMES0 + PRIMES1 + PRIMES2 + PRIMES3 + PRIMES4 + PRIMES5 + PRIMES6 + PRIMES7

  function Cube(n: nat): nat {
    n * n * n
  }

  function NumberOf(w: Word): nat {
    w as nat
  }

  /** The word holds the first 32 bits of the fractional part of the cube root of a number. */
  ghost predicate IsCubeRoot(w: Word, p: nat) {
    exists whole: nat :: CubeRootIs(NumberOf(w), p, whole)
  }

  predicate CubeRootIs(w: nat, p: nat, whole: nat) {
    var root := whole * 0x1_0000_0000 + w;
    Cube(root) <= p * 0x1_0000_0000_0000_0000_0000_0000 < Cube(root + 1)
  }

  /** The word holds the first 32 bits of the fractional part of the square root of a number. */
  ghost predicate IsSquareRoot(w: Word, p: nat) {
    exists whole: nat :: SquareRootIs(NumberOf(w), p, whole)
  }

  predicate SquareRootIs(w: nat, p: nat, whole: nat) {
    var root := whole * 0x1_0000_0000 + w;
    root * root <= p * 0x1_0000_0000_0000_0000 < (root + 1) * (root + 1)
  }

  ghost predicate AreCubeRoots(row: seq<Word>, primes: seq<nat>) {
    |row| == |primes| == 8 && forall i :: 0 <= i < 8 ==> IsCubeRoot(row[i], primes[i])
  }

  lemma Cubes0()
    ensures CubeRootIs(0x428a2f98, 2, 1) && CubeRootIs(0x71374491, 3, 1)
    ensures CubeRootIs(0xb5c0fbcf, 5, 1) && CubeRootIs(0xe9b5dba5, 7, 1)
    ensures CubeRootIs(0x3956c25b, 11, 2) && CubeRootIs(0x59f111f1, 13, 2)
    ensures CubeRootIs(0x923f82a4, 17, 2) && CubeRootIs(0xab1c5ed5, 19, 2)
  {
  }

  lemma Roots0()
    ensures AreCubeRoots(ROW0, PRIMES0)
  {
    hide CubeRootIs;
    Cubes0();
    assert NumberOf(ROW0[0]) == 0x428a2f98;
    assert NumberOf(ROW0[1]) == 0x71374491;
    assert NumberOf(ROW0[2]) == 0xb5c0fbcf;
    assert NumberOf(ROW0[3]) == 0xe9b5dba5;
    assert NumberOf(ROW0[4]) == 0x3956c25b;
    assert NumberOf(ROW0[5]) == 0x59f111f1;
    assert NumberOf(ROW0[6]) == 0x923f82a4;
    assert NumberOf(ROW0[7]) == 0xab1c5ed5;
  }

  lemma Cubes1()
    ensures CubeRootIs(0xd807aa98, 23, 2) && CubeRootIs(0x12835b01, 29, 3)
    ensures CubeRootIs(0x243185be, 31, 3) && CubeRootIs(0x550c7dc3, 37, 3)
    ensures CubeRootIs(0x72be5d74, 41, 3) && CubeRootIs(0x80deb1fe, 43, 3)
    ensures CubeRootIs(0x9bdc06a7, 47, 3) && CubeRootIs(0xc19bf174, 53, 3)
  {
  }

  lemma Roots1()
    ensures AreCubeRoots(ROW1, PRIMES1)
  {
    hide CubeRootIs;
    Cubes1();
    assert NumberOf(ROW1[0]) == 0xd807aa98;
    assert NumberOf(ROW1[1]) == 0x12835b01;
    assert NumberOf(ROW1[2]) == 0x243185be;
    assert NumberOf(ROW1[3]) == 0x550c7dc3;
    assert NumberOf(ROW1[4]) == 0x72be5d74;
    assert NumberOf(ROW1[5]) == 0x80deb1fe;
    assert NumberOf(ROW1[6]) == 0x9bdc06a7;
    assert NumberOf(ROW1[7]) == 0xc19bf174;
  }

  lemma Cubes2()
    ensures CubeRootIs(0xe49b69c1, 59, 3) && CubeRootIs(0xefbe4786, 61, 3)
    ensures CubeRootIs(0x0fc19dc6, 67, 4) && CubeRootIs(0x240ca1cc, 71, 4)
    ensures CubeRootIs(0x2de92c6f, 73, 4) && CubeRootIs(0x4a7484aa, 79, 4)
    ensures CubeRootIs(0x5cb0a9dc, 83, 4) && CubeRootIs(0x76f988da, 89, 4)
  {
  }

  lemma Roots2()
    ensures AreCubeRoots(ROW2, PRIMES2)
  {
    hide CubeRootIs;
    Cubes2();
    assert NumberOf(ROW2[0]) == 0xe49b69c1;
    assert NumberOf(ROW2[1]) == 0xefbe4786;
    assert NumberOf(ROW2[2]) == 0x0fc19dc6;
    assert NumberOf(ROW2[3]) == 0x240ca1cc;
    assert NumberOf(ROW2[4]) == 0x2de92c6f;
    assert NumberOf(ROW2[5]) == 0x4a7484aa;
    assert NumberOf(ROW2[6]) == 0x5cb0a9dc;
    assert NumberOf(ROW2[7]) == 0x76f988da;
  }

  lemma Cubes3()
    ensures CubeRootIs(0x983e5152, 97, 4) && CubeRootIs(0xa831c66d, 101, 4)
    ensures CubeRootIs(0xb00327c8, 103, 4) && CubeRootIs(0xbf597fc7, 107, 4)
    ensures CubeRootIs(0xc6e00bf3, 109, 4) && CubeRootIs(0xd5a79147, 113, 4)
    ensures CubeRootIs(0x06ca6351, 127, 5) && CubeRootIs(0x14292967, 131, 5)
  {
  }

  lemma Roots3()
    ensures AreCubeRoots(ROW3, PRIMES3)
  {
    hide CubeRootIs;
    Cubes3();
    assert NumberOf(ROW3[0]) == 0x983e5152;
    assert NumberOf(ROW3[1]) == 0xa831c66d;
    assert NumberOf(ROW3[2]) == 0xb00327c8;
    assert NumberOf(ROW3[3]) == 0xbf597fc7;
    assert NumberOf(ROW3[4]) == 0xc6e00bf3;
    assert NumberOf(ROW3[5]) == 0xd5a79147;
    assert NumberOf(ROW3[6]) == 0x06ca6351;
    assert NumberOf(ROW3[7]) == 0x14292967;
  }

  lemma Cubes4()
    ensures CubeRootIs(0x27b70a85, 137, 5) && CubeRootIs(0x2e1b2138, 139, 5)
    ensures CubeRootIs(0x4d2c6dfc, 149, 5) && CubeRootIs(0x53380d13, 151, 5)
    ensures CubeRootIs(0x650a7354, 157, 5) && CubeRootIs(0x766a0abb, 163, 5)
    ensures CubeRootIs(0x81c2c92e, 167, 5) && CubeRootIs(0x92722c85, 173, 5)
  {
  }

  lemma Roots4()
    ensures AreCubeRoots(ROW4, PRIMES4)
  {
    hide CubeRootIs;
    Cubes4();
    assert NumberOf(ROW4[0]) == 0x27b70a85;
    assert NumberOf(ROW4[1]) == 0x2e1b2138;
    assert NumberOf(ROW4[2]) == 0x4d2c6dfc;
    assert NumberOf(ROW4[3]) == 0x53380d13;
    assert NumberOf(ROW4[4]) == 0x650a7354;
    assert NumberOf(ROW4[5]) == 0x766a0abb;
    assert NumberOf(ROW4[6]) == 0x81c2c92e;
    assert NumberOf(ROW4[7]) == 0x92722c85;
  }

  lemma Cubes5()
    ensures CubeRootIs(0xa2bfe8a1, 179, 5) && CubeRootIs(0xa81a664b, 181, 5)
    ensures CubeRootIs(0xc24b8b70, 191, 5) && CubeRootIs(0xc76c51a3, 193, 5)
    ensures CubeRootIs(0xd192e819, 197, 5) && CubeRootIs(0xd6990624, 199, 5)
    ensures CubeRootIs(0xf40e3585, 211, 5) && CubeRootIs(0x106aa070, 223, 6)
  {
  }

  lemma Roots5()
    ensures AreCubeRoots(ROW5, PRIMES5)
  {
    hide CubeRootIs;
    Cubes5();
    assert NumberOf(ROW5[0]) == 0xa2bfe8a1;
    assert NumberOf(ROW5[1]) == 0xa81a664b;
    assert NumberOf(ROW5[2]) == 0xc24b8b70;
    assert NumberOf(ROW5[3]) == 0xc76c51a3;
    assert NumberOf(ROW5[4]) == 0xd192e819;
    assert NumberOf(ROW5[5]) == 0xd6990624;
    assert NumberOf(ROW5[6]) == 0xf40e3585;
    assert NumberOf(ROW5[7]) == 0x106aa070;
  }

  lemma Cubes6()
    ensures CubeRootIs(0x19a4c116, 227, 6) && CubeRootIs(0x1e376c08, 229, 6)
    ensures CubeRootIs(0x2748774c, 233, 6) && CubeRootIs(0x34b0bcb5, 239, 6)
    ensures CubeRootIs(0x391c0cb3, 241, 6) && CubeRootIs(0x4ed8aa4a, 251, 6)
    ensures CubeRootIs(0x5b9cca4f, 257, 6) && CubeRootIs(0x682e6ff3, 263, 6)
  {
  }

  lemma Roots6()
    ensures AreCubeRoots(ROW6, PRIMES6)
  {
    hide CubeRootIs;
    Cubes6();
    assert NumberOf(ROW6[0]) == 0x19a4c116;
    assert NumberOf(ROW6[1]) == 0x1e376c08;
    assert NumberOf(ROW6[2]) == 0x2748774c;
    assert NumberOf(ROW6[3]) == 0x34b0bcb5;
    assert NumberOf(ROW6[4]) == 0x391c0cb3;
    assert NumberOf(ROW6[5]) == 0x4ed8aa4a;
    assert NumberOf(ROW6[6]) == 0x5b9cca4f;
    assert NumberOf(ROW6[7]) == 0x682e6ff3;
  }

  lemma Cubes7()
    ensures CubeRootIs(0x748f82ee, 269, 6) && CubeRootIs(0x78a5636f, 271, 6)
    ensures CubeRootIs(0x84c87814, 277, 6) && CubeRootIs(0x8cc70208, 281, 6)
    ensures CubeRootIs(0x90befffa, 283, 6) && CubeRootIs(0xa4506ceb, 293, 6)
    ensures CubeRootIs(0xbef9a3f7, 307, 6) && CubeRootIs(0xc67178f2, 311, 6)
  {
  }

  lemma Roots7()
    ensures AreCubeRoots(ROW7, PRIMES7)
  {
    hide CubeRootIs;
    Cubes7();
    assert NumberOf(ROW7[0]) == 0x748f82ee;
    assert NumberOf(ROW7[1]) == 0x78a5636f;
    assert NumberOf(ROW7[2]) == 0x84c87814;
    assert NumberOf(ROW7[3]) == 0x8cc70208;
    assert NumberOf(ROW7[4]) == 0x90befffa;
    assert NumberOf(ROW7[5]) == 0xa4506ceb;
    assert NumberOf(ROW7[6]) == 0xbef9a3f7;
    assert NumberOf(ROW7[7]) == 0xc67178f2;
  }

  lemma Quarter0()
    ensures |K| == |PRIMES| == 64 && forall i :: 0 <= i < 16 ==> IsCubeRoot(K[i], PRIMES[i])
  {
    hide IsCubeRoot;
    Roots0();
    Roots1();
  }

  lemma Quarter1()
    ensures |K| == |PRIMES| == 64 && forall i :: 16 <= i < 32 ==> IsCubeRoot(K[i], PRIMES[i])
  {
    hide IsCubeRoot;
    Roots2();
    Roots3();
  }

  lemma Quarter2()
    ensures |K| == |PRIMES| == 64 && forall i :: 32 <= i < 48 ==> IsCubeRoot(K[i], PRIMES[i])
  {
    hide IsCubeRoot;
    Roots4();
    Roots5();
  }

  lemma Quarter3()
    ensures |K| == |PRIMES| == 64 && forall i :: 48 <= i < 64 ==> IsCubeRoot(K[i], PRIMES[i])
  {
    hide IsCubeRoot;
    Roots6();
    Roots7();
  }

  /** The constants of the rounds come from the first 64 primes, the initial hash value from the first eight. */
  lemma ConstantsAreRoots()
    ensures |K| == |PRIMES| == 64 && |H0| == 8
    ensures forall i :: 0 <= i < 64 ==> IsCubeRoot(K[i], PRIMES[i])
    ensures forall i :: 0 <= i < 8 ==> IsSquareRoot(H0[i], PRIMES0[i])
  {
    hide IsCubeRoot, IsSquareRoot;
    Quarter0();
    Quarter1();
    Quarter2();
    Quarter3();
    InitialRoots();
  }

  lemma Squares()
    ensures SquareRootIs(0x6a09e667, 2, 1) && SquareRootIs(0xbb67ae85, 3, 1)
    ensures SquareRootIs(0x3c6ef372, 5, 2) && SquareRootIs(0xa54ff53a, 7, 2)
    ensures SquareRootIs(0x510e527f, 11, 3) && SquareRootIs(0x9b05688c, 13, 3)
    ensures SquareRootIs(0x1f83d9ab, 17, 4) && SquareRootIs(0x5be0cd19, 19, 4)
  {
  }

  lemma InitialRoots()
    ensures forall i :: 0 <= i < 8 ==> IsSquareRoot(H0[i], PRIMES0[i])
  {
    hide SquareRootIs;
    Squares();
    assert NumberOf(H0[0]) == 0x6a09e667;
    assert NumberOf(H0[1]) == 0xbb67ae85;
    assert NumberOf(H0[2]) == 0x3c6ef372;
    assert NumberOf(H0[3]) == 0xa54ff53a;
    assert NumberOf(H0[4]) == 0x510e527f;
    assert NumberOf(H0[5]) == 0x9b05688c;
    assert NumberOf(H0[6]) == 0x1f83d9ab;
    assert NumberOf(H0[7]) == 0x5be0cd19;
  }
}
