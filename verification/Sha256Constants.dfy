/** The constants and the logical functions of SHA-256, described from outside. */
module Sha256Constants {
  import opened Sha256Spec
  import opened FirstPrimes

  const TWO_TO_THE_32: nat := 0x1_0000_0000
  const TWO_TO_THE_96: nat := 0x1_0000_0000_0000_0000_0000_0000

  /** The largest number whose cube is at most n. */
  predicate CubeRoot(q: nat, n: nat) { q * q * q <= n < (q + 1) * (q + 1) * (q + 1) }

  predicate SquareRoot(q: nat, n: nat) { q * q <= n < (q + 1) * (q + 1) }

  /** The word holds the first 32 bits of the fractional part of the cube root of p, whose whole part is c. */
  predicate CubeFraction(k: bv32, p: nat, c: nat) {
    var q := c * TWO_TO_THE_32 + k as nat;
    CubeRoot(q, p * TWO_TO_THE_96) && q % TWO_TO_THE_32 == k as nat
  }

  function WholeCubeRoot(p: nat): nat {
    if p < 8 then 1 else if p < 27 then 2 else if p < 64 then 3 else if p < 125 then 4 else if p < 216 then 5 else 6
  }

  function WholeRoot(p: nat): nat {
    if p < 4 then 1 else if p < 9 then 2 else if p < 16 then 3 else 4
  }

  predicate SquareFraction(k: bv32, p: nat, c: nat) {
    var q := c * TWO_TO_THE_32 + k as nat;
    SquareRoot(q, p * TWO_TO_THE_64) && q % TWO_TO_THE_32 == k as nat
  }

  lemma KValues0()
    ensures CubeFraction(0x428a2f98, 2, 1)
    ensures CubeFraction(0x71374491, 3, 1)
    ensures CubeFraction(0xb5c0fbcf, 5, 1)
    ensures CubeFraction(0xe9b5dba5, 7, 1)
    ensures CubeFraction(0x3956c25b, 11, 2)
    ensures CubeFraction(0x59f111f1, 13, 2)
    ensures CubeFraction(0x923f82a4, 17, 2)
    ensures CubeFraction(0xab1c5ed5, 19, 2)
  {
  }

  lemma KRow0(t: nat)
    requires 0 <= t < 8
    ensures CubeFraction(KBits(t), P(t), WholeCubeRoot(P(t)))
  {
    hide CubeFraction;
    KValues0();
  }

  lemma KValues8()
    ensures CubeFraction(0xd807aa98, 23, 2)
    ensures CubeFraction(0x12835b01, 29, 3)
    ensures CubeFraction(0x243185be, 31, 3)
    ensures CubeFraction(0x550c7dc3, 37, 3)
    ensures CubeFraction(0x72be5d74, 41, 3)
    ensures CubeFraction(0x80deb1fe, 43, 3)
    ensures CubeFraction(0x9bdc06a7, 47, 3)
    ensures CubeFraction(0xc19bf174, 53, 3)
  {
  }

  lemma KRow8(t: nat)
    requires 8 <= t < 16
    ensures CubeFraction(KBits(t), P(t), WholeCubeRoot(P(t)))
  {
    hide CubeFraction;
    KValues8();
  }

  lemma KValues16()
    ensures CubeFraction(0xe49b69c1, 59, 3)
    ensures CubeFraction(0xefbe4786, 61, 3)
    ensures CubeFraction(0x0fc19dc6, 67, 4)
    ensures CubeFraction(0x240ca1cc, 71, 4)
    ensures CubeFraction(0x2de92c6f, 73, 4)
    ensures CubeFraction(0x4a7484aa, 79, 4)
    ensures CubeFraction(0x5cb0a9dc, 83, 4)
    ensures CubeFraction(0x76f988da, 89, 4)
  {
  }

  lemma KRow16(t: nat)
    requires 16 <= t < 24
    ensures CubeFraction(KBits(t), P(t), WholeCubeRoot(P(t)))
  {
    hide CubeFraction;
    KValues16();
  }

  lemma KValues24()
    ensures CubeFraction(0x983e5152, 97, 4)
    ensures CubeFraction(0xa831c66d, 101, 4)
    ensures CubeFraction(0xb00327c8, 103, 4)
    ensures CubeFraction(0xbf597fc7, 107, 4)
    ensures CubeFraction(0xc6e00bf3, 109, 4)
    ensures CubeFraction(0xd5a79147, 113, 4)
    ensures CubeFraction(0x06ca6351, 127, 5)
    ensures CubeFraction(0x14292967, 131, 5)
  {
  }

  lemma KRow24(t: nat)
    requires 24 <= t < 32
    ensures CubeFraction(KBits(t), P(t), WholeCubeRoot(P(t)))
  {
    hide CubeFraction;
    KValues24();
  }

  lemma KValues32()
    ensures CubeFraction(0x27b70a85, 137, 5)
    ensures CubeFraction(0x2e1b2138, 139, 5)
    ensures CubeFraction(0x4d2c6dfc, 149, 5)
    ensures CubeFraction(0x53380d13, 151, 5)
    ensures CubeFraction(0x650a7354, 157, 5)
    ensures CubeFraction(0x766a0abb, 163, 5)
    ensures CubeFraction(0x81c2c92e, 167, 5)
    ensures CubeFraction(0x92722c85, 173, 5)
  {
  }

  lemma KRow32(t: nat)
    requires 32 <= t < 40
    ensures CubeFraction(KBits(t), P(t), WholeCubeRoot(P(t)))
  {
    hide CubeFraction;
    KValues32();
  }

  lemma KValues40()
    ensures CubeFraction(0xa2bfe8a1, 179, 5)
    ensures CubeFraction(0xa81a664b, 181, 5)
    ensures CubeFraction(0xc24b8b70, 191, 5)
    ensures CubeFraction(0xc76c51a3, 193, 5)
    ensures CubeFraction(0xd192e819, 197, 5)
    ensures CubeFraction(0xd6990624, 199, 5)
    ensures CubeFraction(0xf40e3585, 211, 5)
    ensures CubeFraction(0x106aa070, 223, 6)
  {
  }

  lemma KRow40(t: nat)
    requires 40 <= t < 48
    ensures CubeFraction(KBits(t), P(t), WholeCubeRoot(P(t)))
  {
    hide CubeFraction;
    KValues40();
  }

  lemma KValues48()
    ensures CubeFraction(0x19a4c116, 227, 6)
    ensures CubeFraction(0x1e376c08, 229, 6)
    ensures CubeFraction(0x2748774c, 233, 6)
    ensures CubeFraction(0x34b0bcb5, 239, 6)
    ensures CubeFraction(0x391c0cb3, 241, 6)
    ensures CubeFraction(0x4ed8aa4a, 251, 6)
    ensures CubeFraction(0x5b9cca4f, 257, 6)
    ensures CubeFraction(0x682e6ff3, 263, 6)
  {
  }

  lemma KRow48(t: nat)
    requires 48 <= t < 56
    ensures CubeFraction(KBits(t), P(t), WholeCubeRoot(P(t)))
  {
    hide CubeFraction;
    KValues48();
  }

  lemma KValues56()
    ensures CubeFraction(0x748f82ee, 269, 6)
    ensures CubeFraction(0x78a5636f, 271, 6)
    ensures CubeFraction(0x84c87814, 277, 6)
    ensures CubeFraction(0x8cc70208, 281, 6)
    ensures CubeFraction(0x90befffa, 283, 6)
    ensures CubeFraction(0xa4506ceb, 293, 6)
    ensures CubeFraction(0xbef9a3f7, 307, 6)
    ensures CubeFraction(0xc67178f2, 311, 6)
  {
  }

  lemma KRow56(t: nat)
    requires 56 <= t < 64
    ensures CubeFraction(KBits(t), P(t), WholeCubeRoot(P(t)))
  {
    hide CubeFraction;
    KValues56();
  }

  lemma HValues()
    ensures SquareFraction(0x6a09e667, 2, 1)
    ensures SquareFraction(0xbb67ae85, 3, 1)
    ensures SquareFraction(0x3c6ef372, 5, 2)
    ensures SquareFraction(0xa54ff53a, 7, 2)
    ensures SquareFraction(0x510e527f, 11, 3)
    ensures SquareFraction(0x9b05688c, 13, 3)
    ensures SquareFraction(0x1f83d9ab, 17, 4)
    ensures SquareFraction(0x5be0cd19, 19, 4)
  {
  }

  lemma KRows(t: nat)
    requires t < 64
    ensures CubeFraction(KBits(t), P(t), WholeCubeRoot(P(t)))
  {
    hide KBits, P, CubeFraction, WholeCubeRoot;
    if t < 8 { KRow0(t); }
    else if t < 16 { KRow8(t); }
    else if t < 24 { KRow16(t); }
    else if t < 32 { KRow24(t); }
    else if t < 40 { KRow32(t); }
    else if t < 48 { KRow40(t); }
    else if t < 56 { KRow48(t); }
    else { KRow56(t); }
  }

  /** Section 4.2.2: each constant holds the first 32 bits of the fractional part of the cube root of its prime. */
  lemma ConstantsAreCubeRoots(t: nat)
    requires t < 64
    ensures exists q: nat :: CubeRoot(q, P(t) * TWO_TO_THE_96) && K(t).bits as nat == q % TWO_TO_THE_32
  {
    hide P, KBits, CubeRoot, WholeCubeRoot;
    KRows(t);
  }

  lemma HRow(t: nat)
    requires t < 8
    ensures SquareFraction(HBits(t), P(t), WholeRoot(P(t)))
  {
    hide SquareFraction;
    HValues();
  }

  /** Section 5.3.3: each initial word holds the first 32 bits of the fractional part of the square root of its prime. */
  lemma InitialWordsAreSquareRoots(t: nat)
    requires t < 8
    ensures exists q: nat :: SquareRoot(q, P(t) * TWO_TO_THE_64) && H0()[t].bits as nat == q % TWO_TO_THE_32
  {
    hide P, HBits, SquareRoot, WholeRoot;
    HRow(t);
  }

  lemma SquaresGrow(a: nat, b: nat)
    requires a <= b
    ensures a * a <= b * b
  {
    assert b * b == a * a + (b - a) * (a + b);
  }

  lemma ProductsGrow(x: nat, y: nat, k: nat)
    requires x <= y
    ensures x * k <= y * k
  {
    assert y * k == x * k + (y - x) * k;
  }

  lemma CubesGrow(a: nat, b: nat)
    requires a <= b
    ensures a * a * a <= b * b * b
  {
    SquaresGrow(a, b);
    ProductsGrow(a * a, b * b, a);
    ProductsGrow(a, b, b * b);
  }

  /** So the conditions of the two lemmas before leave no choice. */
  lemma RootsAreUnique(q: nat, q': nat, n: nat)
    ensures CubeRoot(q, n) && CubeRoot(q', n) ==> q == q'
    ensures SquareRoot(q, n) && SquareRoot(q', n) ==> q == q'
  {
    if q < q' { SquaresGrow(q + 1, q'); CubesGrow(q + 1, q'); }
    if q' < q { SquaresGrow(q' + 1, q); CubesGrow(q' + 1, q); }
  }

  /** On any set m of bits: where x has only ones, `Ch` is y, and where it has only zeros, z. */
  lemma ChChooses(x: Word, y: Word, z: Word, m: Word)
    ensures x.And(m) == m ==> Ch(x, y, z).And(m) == y.And(m)
    ensures x.And(m) == Word(0) ==> Ch(x, y, z).And(m) == z.And(m)
  {
  }

  lemma MajOfFirst(x: Word, y: Word, z: Word, m: Word)
    ensures x.And(m) == y.And(m) ==> Maj(x, y, z).And(m) == x.And(m)
  {
  }

  lemma MajOfOuter(x: Word, y: Word, z: Word, m: Word)
    ensures x.And(m) == z.And(m) ==> Maj(x, y, z).And(m) == x.And(m)
  {
  }

  lemma MajOfLast(x: Word, y: Word, z: Word, m: Word)
    ensures y.And(m) == z.And(m) ==> Maj(x, y, z).And(m) == y.And(m)
  {
  }

  /** On any set m of bits on which two of the words agree, `Maj` agrees with them. */
  lemma MajIsMajority(x: Word, y: Word, z: Word, m: Word)
    ensures x.And(m) == y.And(m) ==> Maj(x, y, z).And(m) == x.And(m)
    ensures x.And(m) == z.And(m) ==> Maj(x, y, z).And(m) == x.And(m)
    ensures y.And(m) == z.And(m) ==> Maj(x, y, z).And(m) == y.And(m)
  {
    hide Maj, Word.And;
    MajOfFirst(x, y, z, m);
    MajOfOuter(x, y, z, m);
    MajOfLast(x, y, z, m);
  }
}
