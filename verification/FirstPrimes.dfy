/** The first 64 prime numbers, from which the constants of SHA-256 are made. */
module FirstPrimes {
  /** One of eight numbers. */
  function NthOf(i: nat, n0: nat, n1: nat, n2: nat, n3: nat, n4: nat, n5: nat, n6: nat, n7: nat): nat {
    match i case 0 => n0 case 1 => n1 case 2 => n2 case 3 => n3 case 4 => n4 case 5 => n5 case 6 => n6 case _ => n7
  }

  /** The primes, counted from 0. */
  function P(t: nat): nat
    requires t < 64
  {
    match t / 8
    case 0 => NthOf(t % 8, 2, 3, 5, 7, 11, 13, 17, 19)
    case 1 => NthOf(t % 8, 23, 29, 31, 37, 41, 43, 47, 53)
    case 2 => NthOf(t % 8, 59, 61, 67, 71, 73, 79, 83, 89)
    case 3 => NthOf(t % 8, 97, 101, 103, 107, 109, 113, 127, 131)
    case 4 => NthOf(t % 8, 137, 139, 149, 151, 157, 163, 167, 173)
    case 5 => NthOf(t % 8, 179, 181, 191, 193, 197, 199, 211, 223)
    case 6 => NthOf(t % 8, 227, 229, 233, 239, 241, 251, 257, 263)
    case _ => NthOf(t % 8, 269, 271, 277, 281, 283, 293, 307, 311)
  }

  predicate Product(n: nat, d: nat, e: nat) { n == d * e }

  /** No product of two numbers other than 0 and 1. */
  ghost predicate Prime(n: nat) {
    n >= 2 && forall d: nat, e: nat :: 2 <= d && 2 <= e ==> !Product(n, d, e)
  }

  predicate NoSmallFactor(n: nat) {
    && (n % 2 == 0 ==> n == 2) && (n % 3 == 0 ==> n == 3) && (n % 5 == 0 ==> n == 5) && (n % 7 == 0 ==> n == 7)
    && (n % 11 == 0 ==> n == 11) && (n % 13 == 0 ==> n == 13) && (n % 17 == 0 ==> n == 17)
  }

  predicate HasSmallFactor(n: nat) {
    n % 2 == 0 || n % 3 == 0 || n % 5 == 0 || n % 7 == 0 || n % 11 == 0 || n % 13 == 0 || n % 17 == 0
  }

  lemma FactorOfFactor(n: nat, d: nat, e: nat, p: nat, k: nat)
    requires n == d * e && d == p * k
    ensures n == p * (k * e)
  {
  }

  lemma MultipleIsCaught(n: nat, m: nat)
    requires m >= 2
    requires n == 2 * m || n == 3 * m || n == 5 * m || n == 7 * m || n == 11 * m || n == 13 * m || n == 17 * m
    ensures !NoSmallFactor(n)
  {
    if n == 2 * m { assert n % 2 == 0; }
    else if n == 3 * m { assert n % 3 == 0; }
    else if n == 5 * m { assert n % 5 == 0; }
    else if n == 7 * m { assert n % 7 == 0; }
    else if n == 11 * m { assert n % 11 == 0; }
    else if n == 13 * m { assert n % 13 == 0; }
    else { assert n % 17 == 0; }
  }

  lemma AtLeastTwo(k: nat, e: nat)
    requires k >= 1 && e >= 2
    ensures k * e >= 2
  {
  }

  /** A factor below 19 brings one of the small primes. */
  lemma SmallFactor(n: nat, d: nat, e: nat)
    requires n == d * e && 2 <= d < 19 && 2 <= e
    ensures !NoSmallFactor(n)
  {
    hide NoSmallFactor;
    var p := if d % 2 == 0 then 2 else if d % 3 == 0 then 3 else if d % 5 == 0 then 5 else if d % 7 == 0 then 7
      else if d % 11 == 0 then 11 else if d % 13 == 0 then 13 else 17;
    var k := d / p;
    FactorOfFactor(n, d, e, p, k);
    AtLeastTwo(k, e);
    MultipleIsCaught(n, k * e);
  }

  lemma OneIsSmall(n: nat, d: nat, e: nat)
    requires n == d * e && n < 361
    ensures d < 19 || e < 19
  {
    if d >= 19 { assert d * e >= 19 * e; }
  }

  /** Below the square of 19 the small primes decide. */
  lemma SievedIsPrime(n: nat)
    requires 2 <= n < 361 && NoSmallFactor(n)
    ensures Prime(n)
  {
    hide NoSmallFactor;
    forall d: nat, e: nat | 2 <= d && 2 <= e ensures !Product(n, d, e) {
      if n == d * e {
        OneIsSmall(n, d, e);
        if d < 19 { SmallFactor(n, d, e); } else { SmallFactor(n, e, d); }
      }
    }
  }

  lemma Sieved0(t: nat)
    requires 0 <= t < 16
    ensures 2 <= P(t) < 361 && NoSmallFactor(P(t))
  {
  }

  lemma Sieved16(t: nat)
    requires 16 <= t < 32
    ensures 2 <= P(t) < 361 && NoSmallFactor(P(t))
  {
  }

  lemma Sieved32(t: nat)
    requires 32 <= t < 48
    ensures 2 <= P(t) < 361 && NoSmallFactor(P(t))
  {
  }

  lemma Sieved48(t: nat)
    requires 48 <= t < 64
    ensures 2 <= P(t) < 361 && NoSmallFactor(P(t))
  {
  }

  lemma AllArePrime(t: nat)
    requires t < 64
    ensures Prime(P(t))
  {
    hide P, NoSmallFactor, Prime;
    if t < 16 { Sieved0(t); } else if t < 32 { Sieved16(t); } else if t < 48 { Sieved32(t); } else { Sieved48(t); }
    SievedIsPrime(P(t));
  }

  lemma CrossedOut7(n: nat)
    requires 19 < n < 37 && n !in {23, 29, 31}
    ensures HasSmallFactor(n)
  {
  }

  lemma Between7(t: nat, n: nat)
    requires 7 <= t < 11 && P(t) < n < P(t + 1)
    ensures 19 < n < 37 && n !in {23, 29, 31}
  {
  }

  lemma CrossedOut11(n: nat)
    requires 37 < n < 53 && n !in {41, 43, 47}
    ensures HasSmallFactor(n)
  {
  }

  lemma Between11(t: nat, n: nat)
    requires 11 <= t < 15 && P(t) < n < P(t + 1)
    ensures 37 < n < 53 && n !in {41, 43, 47}
  {
  }

  lemma CrossedOut15(n: nat)
    requires 53 < n < 71 && n !in {59, 61, 67}
    ensures HasSmallFactor(n)
  {
  }

  lemma Between15(t: nat, n: nat)
    requires 15 <= t < 19 && P(t) < n < P(t + 1)
    ensures 53 < n < 71 && n !in {59, 61, 67}
  {
  }

  lemma CrossedOut19(n: nat)
    requires 71 < n < 89 && n !in {73, 79, 83}
    ensures HasSmallFactor(n)
  {
  }

  lemma Between19(t: nat, n: nat)
    requires 19 <= t < 23 && P(t) < n < P(t + 1)
    ensures 71 < n < 89 && n !in {73, 79, 83}
  {
  }

  lemma CrossedOut23(n: nat)
    requires 89 < n < 107 && n !in {97, 101, 103}
    ensures HasSmallFactor(n)
  {
  }

  lemma Between23(t: nat, n: nat)
    requires 23 <= t < 27 && P(t) < n < P(t + 1)
    ensures 89 < n < 107 && n !in {97, 101, 103}
  {
  }

  lemma CrossedOut27(n: nat)
    requires 107 < n < 131 && n !in {109, 113, 127}
    ensures HasSmallFactor(n)
  {
  }

  lemma Between27(t: nat, n: nat)
    requires 27 <= t < 31 && P(t) < n < P(t + 1)
    ensures 107 < n < 131 && n !in {109, 113, 127}
  {
  }

  lemma CrossedOut31(n: nat)
    requires 131 < n < 151 && n !in {137, 139, 149}
    ensures HasSmallFactor(n)
  {
  }

  lemma Between31(t: nat, n: nat)
    requires 31 <= t < 35 && P(t) < n < P(t + 1)
    ensures 131 < n < 151 && n !in {137, 139, 149}
  {
  }

  lemma CrossedOut35(n: nat)
    requires 151 < n < 173 && n !in {157, 163, 167}
    ensures HasSmallFactor(n)
  {
  }

  lemma Between35(t: nat, n: nat)
    requires 35 <= t < 39 && P(t) < n < P(t + 1)
    ensures 151 < n < 173 && n !in {157, 163, 167}
  {
  }

  lemma CrossedOut39(n: nat)
    requires 173 < n < 193 && n !in {179, 181, 191}
    ensures HasSmallFactor(n)
  {
  }

  lemma Between39(t: nat, n: nat)
    requires 39 <= t < 43 && P(t) < n < P(t + 1)
    ensures 173 < n < 193 && n !in {179, 181, 191}
  {
  }

  lemma CrossedOut43(n: nat)
    requires 193 < n < 223 && n !in {197, 199, 211}
    ensures HasSmallFactor(n)
  {
  }

  lemma Between43(t: nat, n: nat)
    requires 43 <= t < 47 && P(t) < n < P(t + 1)
    ensures 193 < n < 223 && n !in {197, 199, 211}
  {
  }

  lemma CrossedOut47(n: nat)
    requires 223 < n < 239 && n !in {227, 229, 233}
    ensures HasSmallFactor(n)
  {
  }

  lemma Between47(t: nat, n: nat)
    requires 47 <= t < 51 && P(t) < n < P(t + 1)
    ensures 223 < n < 239 && n !in {227, 229, 233}
  {
  }

  lemma CrossedOut51(n: nat)
    requires 239 < n < 263 && n !in {241, 251, 257}
    ensures HasSmallFactor(n)
  {
  }

  lemma Between51(t: nat, n: nat)
    requires 51 <= t < 55 && P(t) < n < P(t + 1)
    ensures 239 < n < 263 && n !in {241, 251, 257}
  {
  }

  lemma CrossedOut55(n: nat)
    requires 263 < n < 281 && n !in {269, 271, 277}
    ensures HasSmallFactor(n)
  {
  }

  lemma Between55(t: nat, n: nat)
    requires 55 <= t < 59 && P(t) < n < P(t + 1)
    ensures 263 < n < 281 && n !in {269, 271, 277}
  {
  }

  lemma CrossedOut59(n: nat)
    requires 281 < n < 311 && n !in {283, 293, 307}
    ensures HasSmallFactor(n)
  {
  }

  lemma Between59(t: nat, n: nat)
    requires 59 <= t < 63 && P(t) < n < P(t + 1)
    ensures 281 < n < 311 && n !in {283, 293, 307}
  {
  }

  lemma CrossedIsNotPrime(n: nat)
    requires n > 17 && HasSmallFactor(n)
    ensures !Prime(n)
  {
    var p := if n % 2 == 0 then 2 else if n % 3 == 0 then 3 else if n % 5 == 0 then 5 else if n % 7 == 0 then 7
      else if n % 11 == 0 then 11 else if n % 13 == 0 then 13 else 17;
    assert Product(n, p, n / p);
  }

  lemma FirstGaps(t: nat, n: nat)
    requires t < 7 && P(t) < n < P(t + 1)
    ensures !Prime(n)
  {
    var p := if n % 2 == 0 then 2 else 3;
    assert Product(n, p, n / p);
  }

  lemma LaterGaps(t: nat, n: nat)
    requires 7 <= t < 63 && P(t) < n < P(t + 1)
    ensures !Prime(n)
  {
    hide P, HasSmallFactor, Prime;
    if t < 11 { Between7(t, n); CrossedOut7(n); }
    else if t < 15 { Between11(t, n); CrossedOut11(n); }
    else if t < 19 { Between15(t, n); CrossedOut15(n); }
    else if t < 23 { Between19(t, n); CrossedOut19(n); }
    else if t < 27 { Between23(t, n); CrossedOut23(n); }
    else if t < 31 { Between27(t, n); CrossedOut27(n); }
    else if t < 35 { Between31(t, n); CrossedOut31(n); }
    else if t < 39 { Between35(t, n); CrossedOut35(n); }
    else if t < 43 { Between39(t, n); CrossedOut39(n); }
    else if t < 47 { Between43(t, n); CrossedOut43(n); }
    else if t < 51 { Between47(t, n); CrossedOut47(n); }
    else if t < 55 { Between51(t, n); CrossedOut51(n); }
    else if t < 59 { Between55(t, n); CrossedOut55(n); }
    else { Between59(t, n); CrossedOut59(n); }
    CrossedIsNotPrime(n);
  }

  lemma NextIsLarger(t: nat)
    requires t < 63
    ensures P(t) < P(t + 1)
  {
  }

  /** The list holds the primes in order, without gaps, from the first one on. */
  lemma ListIsComplete(t: nat)
    requires t < 64
    ensures P(0) == 2 && Prime(P(t))
    ensures t < 63 ==> P(t) < P(t + 1) && forall n: nat :: P(t) < n < P(t + 1) ==> !Prime(n)
  {
    hide Prime;
    AllArePrime(t);
    if t < 63 {
      NextIsLarger(t);
      forall n: nat | P(t) < n < P(t + 1) ensures !Prime(n) {
        if t < 7 { FirstGaps(t, n); } else { LaterGaps(t, n); }
      }
    }
  }
}
