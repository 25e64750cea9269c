/**
 * Arithmetic modulo n. Products and residues of unknowns are given by recursion, so that the modules
 * built on them meet no such term; the lemmas tie them to the operators.
 */
module Residues {

  ghost predicate Prime(p: int) {
    p > 1 && forall d | 1 < d < p :: p % d != 0
  }

  function Product(a: nat, b: nat): nat {
    if a == 0 then 0 else b + Product(a - 1, b)
  }

  /** The remainder, by repeated subtraction. */
  function Residue(a: nat, n: nat): (r: nat)
    requires n > 0
    ensures r < n
    decreases a
  {
    if a < n then a else Residue(a - n, n)
  }

  lemma {:induction false} ProductIs(a: nat, b: nat)
    ensures Product(a, b) == a * b
  {
    if a == 0 {
    } else {
      ProductIs(a - 1, b);
    }
  }

  lemma {:induction false} ResidueIs(a: nat, n: nat)
    requires n > 0
    ensures Residue(a, n) == a % n
    decreases a
  {
    if a < n {
      SmallResidue(a, n);
    } else {
      ResidueIs(a - n, n);
      SubModulus(a, n);
    }
  }

  lemma {:induction false} MultiplesAreSpaced(n: int, t: int)
    requires n > 0
    ensures t >= 1 ==> n * t >= n
    ensures t <= -1 ==> n * t <= -n
    decreases if t < 0 then -t else t
  {
    if t > 1 { MultiplesAreSpaced(n, t - 1); }
    if t < -1 { MultiplesAreSpaced(n, t + 1); }
  }

  lemma AddMultiple(n: int, a: int, k: int)
    requires n > 0
    ensures (a + n * k) % n == a % n
  {
    var q, q' := a / n, (a + n * k) / n;
    MultiplesAreSpaced(n, q + k - q');
    assert (a + n * k) % n - a % n == n * (q + k - q');
  }

  lemma QuotientShrinks(b: nat, v: nat)
    requires b > 1 && v > 0
    ensures 0 <= v / b < v
    ensures v >= b ==> v / b > 0
  {
    var q := v / b;
    assert v == b * q + v % b;
    if q < 0 { MultiplesAreSpaced(b, q); }
    if q > 0 { assert b * q >= 2 * q by { assert (b - 2) * q >= 0; } }
  }

  /** Quotient and remainder of d + b * q, for a digit d. */
  lemma QuotientOf(b: nat, d: nat, q: nat)
    requires b > 1 && d < b
    ensures (d + b * q) / b == q && (d + b * q) % b == d
    ensures q > 0 ==> d + b * q >= b
  {
    AddMultiple(b, d, q);
    SmallResidue(d, b);
    var t := (d + b * q) / b - q;
    assert b * t == 0;
    MultiplesAreSpaced(b, t);
    MultiplesAreSpaced(b, q);
  }

  lemma MultipleIsZero(n: int, k: int)
    requires n > 0
    ensures (n * k) % n == 0
  {
    AddMultiple(n, 0, k);
    SmallResidue(0, n);
  }

  lemma SmallResidue(a: int, n: int)
    requires 0 <= a < n
    ensures a % n == a
  {}

  lemma SubModulus(a: int, n: int)
    requires n > 0
    ensures (a - n) % n == a % n
  {
    AddMultiple(n, a, -1);
  }

  lemma EqualResidues(n: int, a: int, b: int)
    requires n > 0 && a % n == b % n
    ensures (a - b) % n == 0
  {
    assert a - b == n * (a / n - b / n);
    MultipleIsZero(n, a / n - b / n);
  }

  lemma OddPrime(p: int)
    requires Prime(p) && p > 2
    ensures p % 2 == 1
  {}

  lemma DistributeRemainder(p: int, a: int, b: int, q: int, m: int)
    requires a * b == p * m
    ensures (p - q * a) * b == p * (b - q * m)
  {
    calc {
      (p - q * a) * b;
      p * b - (q * a) * b;
      p * b - q * (a * b);
      p * b - q * (p * m);
      p * (b - q * m);
    }
  }

  /** Euclid's lemma, in the form that two non-zero residues never multiply to zero. */
  lemma {:induction false} NoZeroDivisors(p: int, a: int, b: int)
    requires Prime(p) && 0 < a < p && 0 < b < p
    ensures (a * b) % p != 0
    decreases a
  {
    if a == 1 {
      SmallResidue(b, p);
      assert a * b == b;
    } else if (a * b) % p == 0 {
      var q, r, m := p / a, p % a, (a * b) / p;
      assert r == p - q * a;
      DistributeRemainder(p, a, b, q, m);
      MultipleIsZero(p, b - q * m);
      NoZeroDivisors(p, r, b);
    }
  }

  /** Two square roots below a prime are equal or add up to it. */
  lemma RootsAreOpposite(p: int, lo: int, hi: int)
    requires Prime(p) && 0 <= lo < hi < p
    requires (hi * hi) % p == (lo * lo) % p
    ensures lo + hi == p
  {
    var d, s := hi - lo, hi + lo;
    EqualResidues(p, hi * hi, lo * lo);
    assert hi * hi - lo * lo == d * s;
    if s < p {
      NoZeroDivisors(p, d, s);
    } else if s > p {
      assert d * s == d * (s - p) + p * d;
      AddMultiple(p, d * (s - p), d);
      NoZeroDivisors(p, d, s - p);
    }
  }

  /** An odd prime is not the sum of two numbers of one parity, so parity picks the root. */
  lemma SameParityRootsAreEqual(p: int, y: int, z: int)
    requires Prime(p) && p > 2 && 0 <= y < p && 0 <= z < p
    requires (y * y) % p == (z * z) % p && y % 2 == z % 2
    ensures y == z
  {
    OddPrime(p);
    if y < z {
      RootsAreOpposite(p, y, z);
    } else if z < y {
      RootsAreOpposite(p, z, y);
    }
  }
}
