/** The constants of lib/ff_core/sha256.cpp are those that sections 4.2.2 and 5.3.3 of FIPS 180-4
    construct from the first primes. */
module Sha256Constants {
  import opened Sha256

  // ---- The first 64 primes ----------------------------------------------------------------

  ghost predicate IsPrime(p: nat)
  {
    p >= 2 && forall d: nat, e: nat :: d * e == p ==> d == 1 || e == 1
  }

  /** No number up to 17 divides it, unless it is that number. */
  predicate SmallFree(p: nat)
  {
    && (p == 2 || p % 2 != 0) && (p == 3 || p % 3 != 0) && (p == 4 || p % 4 != 0) && (p == 5 || p % 5 != 0)
    && (p == 6 || p % 6 != 0) && (p == 7 || p % 7 != 0) && (p == 8 || p % 8 != 0) && (p == 9 || p % 9 != 0)
    && (p == 10 || p % 10 != 0) && (p == 11 || p % 11 != 0) && (p == 12 || p % 12 != 0) && (p == 13 || p % 13 != 0)
    && (p == 14 || p % 14 != 0) && (p == 15 || p % 15 != 0) && (p == 16 || p % 16 != 0) && (p == 17 || p % 17 != 0)
  }

  lemma FreeOf(p: nat, d: nat)
    requires 2 <= d < 18 && SmallFree(p)
    ensures p == d || p % d != 0
  {
    assert d == 2 || d == 3 || d == 4 || d == 5 || d == 6 || d == 7 || d == 8 || d == 9 || d == 10 || d == 11 || d == 12
        || d == 13 || d == 14 || d == 15 || d == 16 || d == 17;
  }

  lemma NotFree(p: nat)
    requires !SmallFree(p)
    ensures exists d: nat :: 2 <= d < 18 && p != d && p % d == 0
  {}

  lemma MultipleHasNoRemainder(d: nat, e: nat)
    requires d > 0
    ensures (d * e) % d == 0
  {
    var k := (d * e) / d - e;
    assert d * e == ((d * e) / d) * d + (d * e) % d;
    assert ((d * e) / d) * d == e * d + k * d;
    if k != 0 {
      FarApart(k, d);
    }
  }

  lemma FarApart(k: int, d: nat)
    requires k != 0
    ensures k * d >= d || -(k * d) >= d
  {
    if k > 0 {
      assert (k - 1) * d >= 0;
    } else {
      assert (-1 - k) * d >= 0;
    }
  }

  lemma NoSmallFactor(p: nat, d: nat, e: nat)
    requires SmallFree(p) && p == d * e && 2 <= d < 18
    ensures e <= 1
  {
    FreeOf(p, d);
    MultipleHasNoRemainder(d, e);
    assert (d - 1) * (e - 1) >= 0 || e == 0;
  }

  /** Below 18 * 18 one of two factors is below 18. */
  lemma TwoFactors(p: nat, d: nat, e: nat)
    requires SmallFree(p) && 2 <= p < 324 && d * e == p
    ensures d == 1 || e == 1
  {
    hide SmallFree;
    NotBothLarge(d, e);
    if 2 <= d < 18 {
      NoSmallFactor(p, d, e);
    } else if 2 <= e < 18 {
      NoSmallFactor(p, e, d);
    }
  }

  lemma NotBothLarge(d: nat, e: nat)
    ensures d >= 18 && e >= 18 ==> d * e >= 324
  {
    if d >= 18 && e >= 18 {
      assert (d - 18) * (e - 18) >= 0;
    }
  }

  lemma FreeIsPrime(p: nat)
    requires 2 <= p < 324
    ensures IsPrime(p) <==> SmallFree(p)
  {
    hide SmallFree;
    if SmallFree(p) {
      forall d: nat, e: nat | d * e == p
        ensures d == 1 || e == 1
      {
        TwoFactors(p, d, e);
      }
    } else {
      NotFree(p);
      var d: nat :| 2 <= d < 18 && p != d && p % d == 0;
      assert d * (p / d) == p;
    }
  }

  /** The primes in their order, counted from 0. */
  function Prime(t: nat): (p: nat)
    requires t < 64
  {
    if t < 8 then (match t
      case 0 => 2 case 1 => 3 case 2 => 5 case 3 => 7 case 4 => 11 case 5 => 13 case 6 => 17 case _ => 19)
    else if t < 16 then (match t
      case 8 => 23 case 9 => 29 case 10 => 31 case 11 => 37 case 12 => 41 case 13 => 43 case 14 => 47 case _ => 53)
    else if t < 24 then (match t
      case 16 => 59 case 17 => 61 case 18 => 67 case 19 => 71 case 20 => 73 case 21 => 79 case 22 => 83 case _ => 89)
    else if t < 32 then (match t
      case 24 => 97 case 25 => 101 case 26 => 103 case 27 => 107 case 28 => 109 case 29 => 113 case 30 => 127 case _ => 131)
    else if t < 40 then (match t
      case 32 => 137 case 33 => 139 case 34 => 149 case 35 => 151 case 36 => 157 case 37 => 163 case 38 => 167 case _ => 173)
    else if t < 48 then (match t
      case 40 => 179 case 41 => 181 case 42 => 191 case 43 => 193 case 44 => 197 case 45 => 199 case 46 => 211 case _ => 223)
    else if t < 56 then (match t
      case 48 => 227 case 49 => 229 case 50 => 233 case 51 => 239 case 52 => 241 case 53 => 251 case 54 => 257 case _ => 263)
    else (match t
      case 56 => 269 case 57 => 271 case 58 => 277 case 59 => 281 case 60 => 283 case 61 => 293 case 62 => 307 case _ => 311)
  }

  /** Walking from `n` to `hi`, every number that passes is the next one of the table, from
      entry `i` to before entry `j`. */
  predicate Walk(n: nat, i: nat, hi: nat, j: nat)
    requires 2 <= n <= hi && i <= 64
    decreases hi - n
  {
    if n == hi then i == j
    else if SmallFree(n) then i < 64 && Prime(i) == n && Walk(n + 1, i + 1, hi, j)
    else Walk(n + 1, i, hi, j)
  }

  lemma {:induction false} WalkMeets(n: nat, i: nat, hi: nat, j: nat, m: nat)
    requires 2 <= n <= m < hi && i <= j <= 64 && Walk(n, i, hi, j) && SmallFree(m)
    ensures exists k: nat :: i <= k < j && Prime(k) == m
    decreases hi - n
  {
    hide SmallFree, Prime;
    WalkGrows(n, i, hi, j);
    if n < m {
      var next := if SmallFree(n) then i + 1 else i;
      WalkGrows(n + 1, next, hi, j);
      WalkMeets(n + 1, next, hi, j, m);
    } else {
      WalkGrows(n + 1, i + 1, hi, j);
      assert Prime(i) == m;
    }
  }

  lemma {:induction false} WalkGrows(n: nat, i: nat, hi: nat, j: nat)
    requires 2 <= n <= hi && i <= 64 && Walk(n, i, hi, j)
    ensures i <= j <= 64
    decreases hi - n
  {
    hide SmallFree, Prime;
    if n < hi {
      WalkGrows(n + 1, if SmallFree(n) then i + 1 else i, hi, j);
    }
  }

  lemma {:induction false} WalkPasses(n: nat, i: nat, hi: nat, j: nat, k: nat)
    requires 2 <= n <= hi && i <= k < j <= 64 && Walk(n, i, hi, j)
    ensures n <= Prime(k) < hi && SmallFree(Prime(k))
    ensures k + 1 < j ==> Prime(k) < Prime(k + 1)
    decreases hi - n
  {
    hide SmallFree, Prime;
    if n < hi {
      var next := if SmallFree(n) then i + 1 else i;
      if SmallFree(n) && i == k {
        if k + 1 < j {
          WalkPasses(n + 1, next, hi, j, k + 1);
        }
      } else {
        WalkPasses(n + 1, next, hi, j, k);
      }
    }
  }

  lemma WalkTo14()
    ensures Walk(2, 0, 14, 6)
  {
    assert SmallFree(13) && Walk(13, 5, 14, 6);
    assert SmallFree(11) && Walk(11, 4, 14, 6);
    assert SmallFree(7) && Walk(7, 3, 14, 6);
    assert SmallFree(5) && Walk(5, 2, 14, 6);
    assert SmallFree(3) && Walk(3, 1, 14, 6);
    assert SmallFree(2) && Walk(2, 0, 14, 6);
  }

  lemma WalkTo28()
    ensures Walk(14, 6, 28, 9)
  {
    assert SmallFree(23) && Walk(23, 8, 28, 9);
    assert SmallFree(19) && Walk(19, 7, 28, 9);
    assert SmallFree(17) && Walk(17, 6, 28, 9);
  }

  lemma WalkTo42()
    ensures Walk(28, 9, 42, 13)
  {
    assert SmallFree(41) && Walk(41, 12, 42, 13);
    assert SmallFree(37) && Walk(37, 11, 42, 13);
    assert SmallFree(31) && Walk(31, 10, 42, 13);
    assert SmallFree(29) && Walk(29, 9, 42, 13);
  }

  lemma WalkTo56()
    ensures Walk(42, 13, 56, 16)
  {
    assert SmallFree(53) && Walk(53, 15, 56, 16);
    assert SmallFree(47) && Walk(47, 14, 56, 16);
    assert SmallFree(43) && Walk(43, 13, 56, 16);
  }

  lemma WalkTo70()
    ensures Walk(56, 16, 70, 19)
  {
    assert SmallFree(67) && Walk(67, 18, 70, 19);
    assert SmallFree(61) && Walk(61, 17, 70, 19);
    assert SmallFree(59) && Walk(59, 16, 70, 19);
  }

  lemma WalkTo84()
    ensures Walk(70, 19, 84, 23)
  {
    assert SmallFree(83) && Walk(83, 22, 84, 23);
    assert SmallFree(79) && Walk(79, 21, 84, 23);
    assert SmallFree(73) && Walk(73, 20, 84, 23);
    assert SmallFree(71) && Walk(71, 19, 84, 23);
  }

  lemma WalkTo98()
    ensures Walk(84, 23, 98, 25)
  {
    assert SmallFree(97) && Walk(97, 24, 98, 25);
    assert SmallFree(89) && Walk(89, 23, 98, 25);
  }

  lemma WalkTo112()
    ensures Walk(98, 25, 112, 29)
  {
    assert SmallFree(109) && Walk(109, 28, 112, 29);
    assert SmallFree(107) && Walk(107, 27, 112, 29);
    assert SmallFree(103) && Walk(103, 26, 112, 29);
    assert SmallFree(101) && Walk(101, 25, 112, 29);
  }

  lemma WalkTo126()
    ensures Walk(112, 29, 126, 30)
  {
    assert SmallFree(113) && Walk(113, 29, 126, 30);
  }

  lemma WalkTo140()
    ensures Walk(126, 30, 140, 34)
  {
    assert SmallFree(139) && Walk(139, 33, 140, 34);
    assert SmallFree(137) && Walk(137, 32, 140, 34);
    assert SmallFree(131) && Walk(131, 31, 140, 34);
    assert SmallFree(127) && Walk(127, 30, 140, 34);
  }

  lemma WalkTo154()
    ensures Walk(140, 34, 154, 36)
  {
    assert SmallFree(151) && Walk(151, 35, 154, 36);
    assert SmallFree(149) && Walk(149, 34, 154, 36);
  }

  lemma WalkTo168()
    ensures Walk(154, 36, 168, 39)
  {
    assert SmallFree(167) && Walk(167, 38, 168, 39);
    assert SmallFree(163) && Walk(163, 37, 168, 39);
    assert SmallFree(157) && Walk(157, 36, 168, 39);
  }

  lemma WalkTo182()
    ensures Walk(168, 39, 182, 42)
  {
    assert SmallFree(181) && Walk(181, 41, 182, 42);
    assert SmallFree(179) && Walk(179, 40, 182, 42);
    assert SmallFree(173) && Walk(173, 39, 182, 42);
  }

  lemma WalkTo196()
    ensures Walk(182, 42, 196, 44)
  {
    assert SmallFree(193) && Walk(193, 43, 196, 44);
    assert SmallFree(191) && Walk(191, 42, 196, 44);
  }

  lemma WalkTo210()
    ensures Walk(196, 44, 210, 46)
  {
    assert SmallFree(199) && Walk(199, 45, 210, 46);
    assert SmallFree(197) && Walk(197, 44, 210, 46);
  }

  lemma WalkTo224()
    ensures Walk(210, 46, 224, 48)
  {
    assert SmallFree(223) && Walk(223, 47, 224, 48);
    assert SmallFree(211) && Walk(211, 46, 224, 48);
  }

  lemma WalkTo238()
    ensures Walk(224, 48, 238, 51)
  {
    assert SmallFree(233) && Walk(233, 50, 238, 51);
    assert SmallFree(229) && Walk(229, 49, 238, 51);
    assert SmallFree(227) && Walk(227, 48, 238, 51);
  }

  lemma WalkTo252()
    ensures Walk(238, 51, 252, 54)
  {
    assert SmallFree(251) && Walk(251, 53, 252, 54);
    assert SmallFree(241) && Walk(241, 52, 252, 54);
    assert SmallFree(239) && Walk(239, 51, 252, 54);
  }

  lemma WalkTo266()
    ensures Walk(252, 54, 266, 56)
  {
    assert SmallFree(263) && Walk(263, 55, 266, 56);
    assert SmallFree(257) && Walk(257, 54, 266, 56);
  }

  lemma WalkTo280()
    ensures Walk(266, 56, 280, 59)
  {
    assert SmallFree(277) && Walk(277, 58, 280, 59);
    assert SmallFree(271) && Walk(271, 57, 280, 59);
    assert SmallFree(269) && Walk(269, 56, 280, 59);
  }

  lemma WalkTo294()
    ensures Walk(280, 59, 294, 62)
  {
    assert SmallFree(293) && Walk(293, 61, 294, 62);
    assert SmallFree(283) && Walk(283, 60, 294, 62);
    assert SmallFree(281) && Walk(281, 59, 294, 62);
  }

  lemma WalkTo312()
    ensures Walk(294, 62, 312, 64)
  {
    assert SmallFree(311) && Walk(311, 63, 312, 64);
    assert SmallFree(307) && Walk(307, 62, 312, 64);
  }

  lemma WalkOn(n: nat, i: nat, m: nat, k: nat, hi: nat, j: nat)
    requires 2 <= n <= m <= hi && i <= 64 && k <= 64 && Walk(n, i, m, k) && Walk(m, k, hi, j)
    ensures Walk(n, i, hi, j)
    decreases m - n
  {
    hide SmallFree, Prime;
    if n < m {
      WalkOn(n + 1, if SmallFree(n) then i + 1 else i, m, k, hi, j);
    }
  }

  lemma WholeWalk()
    ensures Walk(2, 0, 312, 64)
  {
    hide Walk;
    WalkTo14();
    WalkTo28();
    WalkOn(2, 0, 14, 6, 28, 9);
    WalkTo42();
    WalkOn(2, 0, 28, 9, 42, 13);
    WalkTo56();
    WalkOn(2, 0, 42, 13, 56, 16);
    WalkTo70();
    WalkOn(2, 0, 56, 16, 70, 19);
    WalkTo84();
    WalkOn(2, 0, 70, 19, 84, 23);
    WalkTo98();
    WalkOn(2, 0, 84, 23, 98, 25);
    WalkTo112();
    WalkOn(2, 0, 98, 25, 112, 29);
    WalkTo126();
    WalkOn(2, 0, 112, 29, 126, 30);
    WalkTo140();
    WalkOn(2, 0, 126, 30, 140, 34);
    WalkTo154();
    WalkOn(2, 0, 140, 34, 154, 36);
    WalkTo168();
    WalkOn(2, 0, 154, 36, 168, 39);
    WalkTo182();
    WalkOn(2, 0, 168, 39, 182, 42);
    WalkTo196();
    WalkOn(2, 0, 182, 42, 196, 44);
    WalkTo210();
    WalkOn(2, 0, 196, 44, 210, 46);
    WalkTo224();
    WalkOn(2, 0, 210, 46, 224, 48);
    WalkTo238();
    WalkOn(2, 0, 224, 48, 238, 51);
    WalkTo252();
    WalkOn(2, 0, 238, 51, 252, 54);
    WalkTo266();
    WalkOn(2, 0, 252, 54, 266, 56);
    WalkTo280();
    WalkOn(2, 0, 266, 56, 280, 59);
    WalkTo294();
    WalkOn(2, 0, 280, 59, 294, 62);
    WalkTo312();
    WalkOn(2, 0, 294, 62, 312, 64);
  }

  /** The table holds the first 64 primes: they are prime, in their order, and no prime up to
      the last of them is left out. */
  lemma PrimesAre(m: nat, k: nat)
    requires k < 64
    ensures IsPrime(Prime(k)) && (k < 63 ==> Prime(k) < Prime(k + 1))
    ensures m <= 311 ==> (IsPrime(m) <==> exists i: nat :: i < 64 && Prime(i) == m)
  {
    hide SmallFree, Walk, IsPrime, Prime;
    WholeWalk();
    WalkPasses(2, 0, 312, 64, k);
    FreeIsPrime(Prime(k));
    if 2 <= m <= 311 {
      FreeIsPrime(m);
      if SmallFree(m) {
        WalkMeets(2, 0, 312, 64, m);
      }
      forall i: nat | i < 64 && Prime(i) == m
        ensures IsPrime(m)
      {
        WalkPasses(2, 0, 312, 64, i);
      }
    } else if m <= 311 {
      NoPrimeBelowTwo(m);
      forall i: nat | i < 64
        ensures Prime(i) != m
      {
        WalkPasses(2, 0, 312, 64, i);
      }
    }
  }

  lemma NoPrimeBelowTwo(m: nat)
    ensures m < 2 ==> !IsPrime(m)
  {}

  // ---- Roots ---------------------------------------------------------------------------------

  /** `w` is the first 32 bits of the fraction of the cube root of `p`. */
  ghost predicate IsCubeRootOf(w: Word, p: nat)
  {
    exists whole: nat, bits: nat :: CubeRoot(p, whole, bits) && w.v as int == bits
  }

  predicate CubeRoot(p: nat, whole: nat, bits: nat)
  {
    var r, s: nat := whole * 0x1_0000_0000 + bits, p * 0x1_0000_0000_0000_0000_0000_0000;
    bits < 0x1_0000_0000 && r * r * r <= s < (r + 1) * (r + 1) * (r + 1)
  }

  ghost predicate IsSquareRootOf(w: Word, p: nat)
  {
    exists whole: nat, bits: nat :: SquareRoot(p, whole, bits) && w.v as int == bits
  }

  predicate SquareRoot(p: nat, whole: nat, bits: nat)
  {
    var r, s: nat := whole * 0x1_0000_0000 + bits, p * 0x1_0000_0000_0000_0000;
    bits < 0x1_0000_0000 && r * r <= s < (r + 1) * (r + 1)
  }

  lemma IsCube(w: Word, p: nat, whole: nat, bits: nat)
    requires CubeRoot(p, whole, bits) && w.v as int == bits
    ensures IsCubeRootOf(w, p)
  {}

  lemma IsSquare(w: Word, p: nat, whole: nat, bits: nat)
    requires SquareRoot(p, whole, bits) && w.v as int == bits
    ensures IsSquareRootOf(w, p)
  {}

  lemma RoundConstants0()
    ensures IsCubeRootOf(K(0), Prime(0))
    ensures IsCubeRootOf(K(1), Prime(1))
    ensures IsCubeRootOf(K(2), Prime(2))
    ensures IsCubeRootOf(K(3), Prime(3))
  {
    hide IsCubeRootOf;
    IsCube(K(0), Prime(0), 1, 0x428a2f98);
    IsCube(K(1), Prime(1), 1, 0x71374491);
    IsCube(K(2), Prime(2), 1, 0xb5c0fbcf);
    IsCube(K(3), Prime(3), 1, 0xe9b5dba5);
  }

  lemma RoundConstants4()
    ensures IsCubeRootOf(K(4), Prime(4))
    ensures IsCubeRootOf(K(5), Prime(5))
    ensures IsCubeRootOf(K(6), Prime(6))
    ensures IsCubeRootOf(K(7), Prime(7))
  {
    hide IsCubeRootOf;
    IsCube(K(4), Prime(4), 2, 0x3956c25b);
    IsCube(K(5), Prime(5), 2, 0x59f111f1);
    IsCube(K(6), Prime(6), 2, 0x923f82a4);
    IsCube(K(7), Prime(7), 2, 0xab1c5ed5);
  }

  lemma RoundConstants8()
    ensures IsCubeRootOf(K(8), Prime(8))
    ensures IsCubeRootOf(K(9), Prime(9))
    ensures IsCubeRootOf(K(10), Prime(10))
    ensures IsCubeRootOf(K(11), Prime(11))
  {
    hide IsCubeRootOf;
    IsCube(K(8), Prime(8), 2, 0xd807aa98);
    IsCube(K(9), Prime(9), 3, 0x12835b01);
    IsCube(K(10), Prime(10), 3, 0x243185be);
    IsCube(K(11), Prime(11), 3, 0x550c7dc3);
  }

  lemma RoundConstants12()
    ensures IsCubeRootOf(K(12), Prime(12))
    ensures IsCubeRootOf(K(13), Prime(13))
    ensures IsCubeRootOf(K(14), Prime(14))
    ensures IsCubeRootOf(K(15), Prime(15))
  {
    hide IsCubeRootOf;
    IsCube(K(12), Prime(12), 3, 0x72be5d74);
    IsCube(K(13), Prime(13), 3, 0x80deb1fe);
    IsCube(K(14), Prime(14), 3, 0x9bdc06a7);
    IsCube(K(15), Prime(15), 3, 0xc19bf174);
  }

  lemma RoundConstants16()
    ensures IsCubeRootOf(K(16), Prime(16))
    ensures IsCubeRootOf(K(17), Prime(17))
    ensures IsCubeRootOf(K(18), Prime(18))
    ensures IsCubeRootOf(K(19), Prime(19))
  {
    hide IsCubeRootOf;
    IsCube(K(16), Prime(16), 3, 0xe49b69c1);
    IsCube(K(17), Prime(17), 3, 0xefbe4786);
    IsCube(K(18), Prime(18), 4, 0x0fc19dc6);
    IsCube(K(19), Prime(19), 4, 0x240ca1cc);
  }

  lemma RoundConstants20()
    ensures IsCubeRootOf(K(20), Prime(20))
    ensures IsCubeRootOf(K(21), Prime(21))
    ensures IsCubeRootOf(K(22), Prime(22))
    ensures IsCubeRootOf(K(23), Prime(23))
  {
    hide IsCubeRootOf;
    IsCube(K(20), Prime(20), 4, 0x2de92c6f);
    IsCube(K(21), Prime(21), 4, 0x4a7484aa);
    IsCube(K(22), Prime(22), 4, 0x5cb0a9dc);
    IsCube(K(23), Prime(23), 4, 0x76f988da);
  }

  lemma RoundConstants24()
    ensures IsCubeRootOf(K(24), Prime(24))
    ensures IsCubeRootOf(K(25), Prime(25))
    ensures IsCubeRootOf(K(26), Prime(26))
    ensures IsCubeRootOf(K(27), Prime(27))
  {
    hide IsCubeRootOf;
    IsCube(K(24), Prime(24), 4, 0x983e5152);
    IsCube(K(25), Prime(25), 4, 0xa831c66d);
    IsCube(K(26), Prime(26), 4, 0xb00327c8);
    IsCube(K(27), Prime(27), 4, 0xbf597fc7);
  }

  lemma RoundConstants28()
    ensures IsCubeRootOf(K(28), Prime(28))
    ensures IsCubeRootOf(K(29), Prime(29))
    ensures IsCubeRootOf(K(30), Prime(30))
    ensures IsCubeRootOf(K(31), Prime(31))
  {
    hide IsCubeRootOf;
    IsCube(K(28), Prime(28), 4, 0xc6e00bf3);
    IsCube(K(29), Prime(29), 4, 0xd5a79147);
    IsCube(K(30), Prime(30), 5, 0x06ca6351);
    IsCube(K(31), Prime(31), 5, 0x14292967);
  }

  lemma RoundConstants32()
    ensures IsCubeRootOf(K(32), Prime(32))
    ensures IsCubeRootOf(K(33), Prime(33))
    ensures IsCubeRootOf(K(34), Prime(34))
    ensures IsCubeRootOf(K(35), Prime(35))
  {
    hide IsCubeRootOf;
    IsCube(K(32), Prime(32), 5, 0x27b70a85);
    IsCube(K(33), Prime(33), 5, 0x2e1b2138);
    IsCube(K(34), Prime(34), 5, 0x4d2c6dfc);
    IsCube(K(35), Prime(35), 5, 0x53380d13);
  }

  lemma RoundConstants36()
    ensures IsCubeRootOf(K(36), Prime(36))
    ensures IsCubeRootOf(K(37), Prime(37))
    ensures IsCubeRootOf(K(38), Prime(38))
    ensures IsCubeRootOf(K(39), Prime(39))
  {
    hide IsCubeRootOf;
    IsCube(K(36), Prime(36), 5, 0x650a7354);
    IsCube(K(37), Prime(37), 5, 0x766a0abb);
    IsCube(K(38), Prime(38), 5, 0x81c2c92e);
    IsCube(K(39), Prime(39), 5, 0x92722c85);
  }

  lemma RoundConstants40()
    ensures IsCubeRootOf(K(40), Prime(40))
    ensures IsCubeRootOf(K(41), Prime(41))
    ensures IsCubeRootOf(K(42), Prime(42))
    ensures IsCubeRootOf(K(43), Prime(43))
  {
    hide IsCubeRootOf;
    IsCube(K(40), Prime(40), 5, 0xa2bfe8a1);
    IsCube(K(41), Prime(41), 5, 0xa81a664b);
    IsCube(K(42), Prime(42), 5, 0xc24b8b70);
    IsCube(K(43), Prime(43), 5, 0xc76c51a3);
  }

  lemma RoundConstants44()
    ensures IsCubeRootOf(K(44), Prime(44))
    ensures IsCubeRootOf(K(45), Prime(45))
    ensures IsCubeRootOf(K(46), Prime(46))
    ensures IsCubeRootOf(K(47), Prime(47))
  {
    hide IsCubeRootOf;
    IsCube(K(44), Prime(44), 5, 0xd192e819);
    IsCube(K(45), Prime(45), 5, 0xd6990624);
    IsCube(K(46), Prime(46), 5, 0xf40e3585);
    IsCube(K(47), Prime(47), 6, 0x106aa070);
  }

  lemma RoundConstants48()
    ensures IsCubeRootOf(K(48), Prime(48))
    ensures IsCubeRootOf(K(49), Prime(49))
    ensures IsCubeRootOf(K(50), Prime(50))
    ensures IsCubeRootOf(K(51), Prime(51))
  {
    hide IsCubeRootOf;
    IsCube(K(48), Prime(48), 6, 0x19a4c116);
    IsCube(K(49), Prime(49), 6, 0x1e376c08);
    IsCube(K(50), Prime(50), 6, 0x2748774c);
    IsCube(K(51), Prime(51), 6, 0x34b0bcb5);
  }

  lemma RoundConstants52()
    ensures IsCubeRootOf(K(52), Prime(52))
    ensures IsCubeRootOf(K(53), Prime(53))
    ensures IsCubeRootOf(K(54), Prime(54))
    ensures IsCubeRootOf(K(55), Prime(55))
  {
    hide IsCubeRootOf;
    IsCube(K(52), Prime(52), 6, 0x391c0cb3);
    IsCube(K(53), Prime(53), 6, 0x4ed8aa4a);
    IsCube(K(54), Prime(54), 6, 0x5b9cca4f);
    IsCube(K(55), Prime(55), 6, 0x682e6ff3);
  }

  lemma RoundConstants56()
    ensures IsCubeRootOf(K(56), Prime(56))
    ensures IsCubeRootOf(K(57), Prime(57))
    ensures IsCubeRootOf(K(58), Prime(58))
    ensures IsCubeRootOf(K(59), Prime(59))
  {
    hide IsCubeRootOf;
    IsCube(K(56), Prime(56), 6, 0x748f82ee);
    IsCube(K(57), Prime(57), 6, 0x78a5636f);
    IsCube(K(58), Prime(58), 6, 0x84c87814);
    IsCube(K(59), Prime(59), 6, 0x8cc70208);
  }

  lemma RoundConstants60()
    ensures IsCubeRootOf(K(60), Prime(60))
    ensures IsCubeRootOf(K(61), Prime(61))
    ensures IsCubeRootOf(K(62), Prime(62))
    ensures IsCubeRootOf(K(63), Prime(63))
  {
    hide IsCubeRootOf;
    IsCube(K(60), Prime(60), 6, 0x90befffa);
    IsCube(K(61), Prime(61), 6, 0xa4506ceb);
    IsCube(K(62), Prime(62), 6, 0xbef9a3f7);
    IsCube(K(63), Prime(63), 6, 0xc67178f2);
  }

  /** Section 4.2.2: the round constants are the first 32 bits of the fractional parts of the
      cube roots of the first 64 primes. */
  lemma RoundConstants(t: nat)
    requires t < 64
    ensures IsCubeRootOf(K(t), Prime(t))
  {
    hide IsCubeRootOf, K, Prime;
    RoundConstants0();
    RoundConstants4();
    RoundConstants8();
    RoundConstants12();
    RoundConstants16();
    RoundConstants20();
    RoundConstants24();
    RoundConstants28();
    RoundConstants32();
    RoundConstants36();
    RoundConstants40();
    RoundConstants44();
    RoundConstants48();
    RoundConstants52();
    RoundConstants56();
    RoundConstants60();
    assert t == 0 || t == 1 || t == 2 || t == 3 || t == 4 || t == 5 || t == 6 || t == 7
        || t == 8 || t == 9 || t == 10 || t == 11 || t == 12 || t == 13 || t == 14 || t == 15
        || t == 16 || t == 17 || t == 18 || t == 19 || t == 20 || t == 21 || t == 22 || t == 23
        || t == 24 || t == 25 || t == 26 || t == 27 || t == 28 || t == 29 || t == 30 || t == 31
        || t == 32 || t == 33 || t == 34 || t == 35 || t == 36 || t == 37 || t == 38 || t == 39
        || t == 40 || t == 41 || t == 42 || t == 43 || t == 44 || t == 45 || t == 46 || t == 47
        || t == 48 || t == 49 || t == 50 || t == 51 || t == 52 || t == 53 || t == 54 || t == 55
        || t == 56 || t == 57 || t == 58 || t == 59 || t == 60 || t == 61 || t == 62 || t == 63;
  }

  /** Section 5.3.3: the initial hash value holds those of the square roots of the first
      eight. */
  lemma InitialConstants()
    ensures var h := InitialHash();
            && IsSquareRootOf(h.a, Prime(0)) && IsSquareRootOf(h.b, Prime(1)) && IsSquareRootOf(h.c, Prime(2))
            && IsSquareRootOf(h.d, Prime(3)) && IsSquareRootOf(h.e, Prime(4)) && IsSquareRootOf(h.f, Prime(5))
            && IsSquareRootOf(h.g, Prime(6)) && IsSquareRootOf(h.h, Prime(7))
  {
    hide IsSquareRootOf;
    var h := InitialHash();
    IsSquare(h.a, Prime(0), 1, 0x6a09e667);
    IsSquare(h.b, Prime(1), 1, 0xbb67ae85);
    IsSquare(h.c, Prime(2), 2, 0x3c6ef372);
    IsSquare(h.d, Prime(3), 2, 0xa54ff53a);
    IsSquare(h.e, Prime(4), 3, 0x510e527f);
    IsSquare(h.f, Prime(5), 3, 0x9b05688c);
    IsSquare(h.g, Prime(6), 4, 0x1f83d9ab);
    IsSquare(h.h, Prime(7), 4, 0x5be0cd19);
  }
}
