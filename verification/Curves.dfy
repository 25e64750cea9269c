/**
 * Points of y^2 = x^3 + 7 over a prime field, their byte forms (SEC 1, sections 2.3.3 and 2.3.4)
 * and multiples of the base point. The addition law is a field of the curve value; `Valid` says
 * what of it the library relies on.
 */
module Curves {
  import opened ByteStrings
  import opened Residues
  import opened Wrappers

  datatype Point = Infinity | Affine(x: nat, y: nat)

  datatype Curve = Curve(p: nat, n: nat, g: Point, add: (Point, Point) -> Point) {

    ghost predicate PrimeField() { Prime(p) && p > 2 && p <= Pow256(32) }

    predicate IsRoot(x: nat, y: nat)
      requires p > 0
    {
      y < p && Residue(Product(y, y), p) == Residue(Product(x, Product(x, x)) + 7, p)
    }

    predicate On(q: Point)
      requires p > 0
    {
      q.Affine? ==> q.x < p && IsRoot(q.x, q.y)
    }

    /** The points form a monoid under `add`; that is all derivation needs of the group law. */
    ghost predicate AddsPoints()
      requires p > 0
    {
      && (forall q | On(q) :: add(Infinity, q) == q && add(q, Infinity) == q)
      && (forall q, r | On(q) && On(r) :: On(add(q, r)))
      && (forall q, r, s | On(q) && On(r) && On(s) :: add(add(q, r), s) == add(q, add(r, s)))
    }

    /** k-fold sum of q. */
    function Times(k: nat, q: Point): Point {
      if k == 0 then Infinity else add(Times(k - 1, q), q)
    }

    /** The base point has order exactly n. */
    ghost predicate BaseHasOrderN()
      requires p > 0
    {
      && On(g) && 1 < n <= Pow256(32)
      && Times(n, g) == Infinity
      && forall k | 0 < k < n :: Times(k, g) != Infinity
    }

    ghost predicate Valid() { PrimeField() && AddsPoints() && BaseHasOrderN() }

    /** `Point.getG().mul(k)`: the scalar is reduced mod n first. */
    function MulG(k: nat): Point
      requires n > 0
    {
      Times(Residue(k, n), g)
    }

    predicate HasRoot(odd: bool, x: nat)
      requires p > 0
    {
      exists y: nat :: y < p && IsRoot(x, y) && (y % 2 == 1) == odd
    }

    function Root(odd: bool, x: nat): (y: nat)
      requires PrimeField() && HasRoot(odd, x)
      ensures IsRoot(x, y) && (y % 2 == 1) == odd
    {
      OneRootPerParity(this, odd, x);
      var y: nat :| y < p && IsRoot(x, y) && (y % 2 == 1) == odd;
      y
    }

    /** The point with this x and this parity of y, if the curve has one. */
    function FromX(odd: bool, x: nat): (r: Option<Point>)
      requires PrimeField()
    {
      if x < p && HasRoot(odd, x) then Some(Affine(x, Root(odd, x))) else None
    }
  }

  /** At most one root of each parity. */
  lemma ParityPicksTheRoot(c: Curve, x: nat, y: nat, z: nat)
    requires c.PrimeField() && c.IsRoot(x, y) && c.IsRoot(x, z) && y % 2 == z % 2
    ensures y == z
  {
    hide Product, Residue;
    ProductIs(y, y);
    ProductIs(z, z);
    ResidueIs(y * y, c.p);
    ResidueIs(z * z, c.p);
    SameParityRootsAreEqual(c.p, y, z);
  }

  lemma OneRootPerParity(c: Curve, odd: bool, x: nat)
    requires c.PrimeField()
    ensures forall y, z :: c.IsRoot(x, y) && c.IsRoot(x, z) && (y % 2 == 1) == odd == (z % 2 == 1) ==> y == z
  {
    forall y: nat, z: nat | c.IsRoot(x, y) && c.IsRoot(x, z) && (y % 2 == 1) == odd == (z % 2 == 1) ensures y == z {
      ParityPicksTheRoot(c, x, y, z);
    }
  }

  lemma RootIsDetermined(c: Curve, q: Point)
    requires c.PrimeField() && c.On(q) && q.Affine?
    ensures c.FromX(q.y % 2 == 1, q.x) == Some(q)
  {
    var odd := q.y % 2 == 1;
    assert c.HasRoot(odd, q.x);
    ParityPicksTheRoot(c, q.x, q.y, c.Root(odd, q.x));
  }

  // ---- scalar multiples of the base point ----

  lemma {:induction false} TimesOn(c: Curve, k: nat)
    requires c.Valid()
    ensures c.On(c.Times(k, c.g))
  {
    if k == 0 {
    } else {
      TimesOn(c, k - 1);
    }
  }

  lemma Associative(c: Curve, q: Point, r: Point, s: Point)
    requires c.Valid() && c.On(q) && c.On(r) && c.On(s)
    ensures c.add(c.add(q, r), s) == c.add(q, c.add(r, s))
  {
    hide c.On, c.PrimeField, c.BaseHasOrderN;
  }

  lemma Neutral(c: Curve, q: Point)
    requires c.Valid() && c.On(q)
    ensures c.add(Infinity, q) == q && c.add(q, Infinity) == q
  {
    hide c.On, c.PrimeField, c.BaseHasOrderN;
  }

  lemma {:induction false} TimesSum(c: Curve, j: nat, k: nat)
    requires c.Valid()
    ensures c.Times(j + k, c.g) == c.add(c.Times(j, c.g), c.Times(k, c.g))
  {
    hide c.On, c.PrimeField, c.AddsPoints;
    TimesOn(c, j);
    if k == 0 {
      Neutral(c, c.Times(j, c.g));
    } else {
      TimesSum(c, j, k - 1);
      TimesOn(c, k - 1);
      Associative(c, c.Times(j, c.g), c.Times(k - 1, c.g), c.g);
    }
  }

  lemma TimesDropsN(c: Curve, k: nat)
    requires c.Valid()
    ensures c.Times(c.n + k, c.g) == c.Times(k, c.g)
  {
    hide c.On, c.PrimeField, c.AddsPoints;
    TimesSum(c, c.n, k);
    TimesOn(c, k);
    Neutral(c, c.Times(k, c.g));
  }

  lemma {:induction false} TimesMod(c: Curve, k: nat)
    requires c.Valid()
    ensures c.Times(k, c.g) == c.MulG(k)
    decreases k
  {
    hide c.On, c.PrimeField, c.AddsPoints, c.Times;
    if k >= c.n {
      var j: nat := k - c.n;
      TimesMod(c, j);
      TimesDropsN(c, j);
    }
  }

  /** Multiplication by the base point turns addition mod n into point addition. */
  lemma MulGAdds(c: Curve, j: nat, k: nat)
    requires c.Valid()
    ensures c.MulG(Residue(j + k, c.n)) == c.add(c.MulG(j), c.MulG(k))
  {
    TimesMod(c, j + k);
    TimesMod(c, Residue(j + k, c.n));
    TimesMod(c, j);
    TimesMod(c, k);
    assert c.MulG(j + k) == c.MulG(Residue(j + k, c.n));
    hide c.On, c.PrimeField, c.AddsPoints, c.Times, c.MulG;
    TimesSum(c, j, k);
  }

  lemma MulGInfinity(c: Curve, k: nat)
    requires c.Valid()
    ensures c.On(c.MulG(k))
    ensures c.MulG(k) == Infinity <==> Residue(k, c.n) == 0
  {
    hide c.On, c.PrimeField, c.AddsPoints, Residue;
    TimesOn(c, Residue(k, c.n));
  }
}
