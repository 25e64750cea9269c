/** A small curve of the same equation, to show that nothing asked of `Library` is contradictory. */
module Witness {
  import opened Curves
  import opened ByteStrings
  import opened Residues
  import opened DerivationPaths
  import opened ExtendedKeys
  import opened Networks
  import opened Wrappers
  import Derivation

  /** The seven points of y^2 = x^3 + 7 over the field of 13 elements, as multiples of (7, 5). */
  function Multiple(k: nat): Point {
    match k % 7
    case 0 => Infinity
    case 1 => Affine(7, 5)
    case 2 => Affine(8, 5)
    case 3 => Affine(11, 8)
    case 4 => Affine(11, 5)
    case 5 => Affine(8, 8)
    case _ => Affine(7, 8)
  }

  function Log(q: Point): (k: nat)
    ensures k < 7
  {
    if q == Affine(7, 5) then 1 else if q == Affine(8, 5) then 2 else if q == Affine(11, 8) then 3
    else if q == Affine(11, 5) then 4 else if q == Affine(8, 8) then 5 else if q == Affine(7, 8) then 6 else 0
  }

  function SmallCurve(): Curve {
    Curve(13, 7, Affine(7, 5), (q: Point, r: Point) => Multiple(Log(q) + Log(r)))
  }

  lemma Squares(y: nat)
    requires y < 13
    ensures Residue(Product(y, y), 13) == [0, 1, 4, 9, 3, 12, 10, 10, 12, 3, 9, 4, 1][y]
  {
    hide Residue, Product;
    ProductIs(y, y);
    ResidueIs(y * y, 13);
    SquareTable(y);
  }

  lemma SquareTable(x: nat)
    requires x < 13
    ensures x * x == [0, 1, 4, 9, 16, 25, 36, 49, 64, 81, 100, 121, 144][x]
  {
    assert x in [0, 1, 2, 3, 4, 5, 6, 7, 8, 9, 10, 11, 12];
  }

  lemma Cubes(x: nat)
    requires x < 13
    ensures Residue(Product(x, Product(x, x)) + 7, 13) == [7, 8, 2, 8, 6, 2, 2, 12, 12, 8, 6, 12, 6][x]
  {
    hide Residue, Product;
    ProductIs(x, x);
    var square := x * x;
    ProductIs(x, square);
    ResidueIs(x * square + 7, 13);
    CubeTable(x);
  }

  lemma CubeTable(x: nat)
    requires x < 13
    ensures x * (x * x) == [0, 1, 8, 27, 64, 125, 216, 343, 512, 729, 1000, 1331, 1728][x]
  {
    SquareTable(x);
  }

  lemma PointsAreListed(q: Point)
    requires SmallCurve().On(q)
    ensures Multiple(Log(q)) == q
  {
    hide Residue, Product;
    if q.Affine? {
      Squares(q.y);
      Cubes(q.x);
    }
  }

  lemma LogOfMultiple(k: nat)
    ensures Log(Multiple(k)) == k % 7
  {}

  lemma MultiplesAreOn(k: nat)
    ensures SmallCurve().On(Multiple(k))
  {
    hide Residue, Product;
    var q := Multiple(k);
    if q.Affine? {
      Squares(q.y);
      Cubes(q.x);
    }
  }

  lemma SameMultiple(j: nat, k: nat)
    requires j % 7 == k % 7
    ensures Multiple(j) == Multiple(k)
  {}

  lemma ThirteenIsPrime()
    ensures Prime(13)
  {
    forall d | 1 < d < 13 ensures 13 % d != 0 {
      assert d in [2, 3, 4, 5, 6, 7, 8, 9, 10, 11, 12];
    }
  }

  lemma SmallFieldIsPrime()
    ensures SmallCurve().PrimeField() && 7 <= Pow256(32)
  {
    hide Prime;
    ThirteenIsPrime();
    assert Pow256(32) == 256 * Pow256(31);
  }

  lemma Sums(q: Point, r: Point)
    ensures SmallCurve().add(q, r) == Multiple(Log(q) + Log(r))
  {}

  lemma Neutral(q: Point)
    requires SmallCurve().On(q)
    ensures SmallCurve().add(Infinity, q) == q && SmallCurve().add(q, Infinity) == q
  {
    hide SmallCurve().On, Multiple;
    PointsAreListed(q);
    assert Log(Infinity) == 0;
  }

  lemma SumsAgree(i: nat, j: nat, k: nat)
    ensures ((i + j) % 7 + k) % 7 == (i + (j + k) % 7) % 7
  {
    AddMultiple(7, (i + j) % 7 + k, (i + j) / 7);
    AddMultiple(7, i + (j + k) % 7, (j + k) / 7);
  }

  lemma Associative(q: Point, r: Point, s: Point)
    ensures var c := SmallCurve(); c.add(c.add(q, r), s) == c.add(q, c.add(r, s))
  {
    hide Log, Multiple, SmallCurve;
    var c := SmallCurve();
    var i, j, k := Log(q), Log(r), Log(s);
    Sums(q, r);
    Sums(r, s);
    LogOfMultiple(i + j);
    LogOfMultiple(j + k);
    Sums(Multiple(i + j), s);
    Sums(q, Multiple(j + k));
    SumsAgree(i, j, k);
    SameMultiple((i + j) % 7 + k, i + (j + k) % 7);
  }

  lemma SmallCurveAdds()
    ensures SmallCurve().AddsPoints()
  {
    hide Log, Multiple, SmallCurve().On;
    var c := SmallCurve();
    forall q | c.On(q) ensures c.add(Infinity, q) == q && c.add(q, Infinity) == q { Neutral(q); }
    forall q, r | c.On(q) && c.On(r) ensures c.On(c.add(q, r)) { MultiplesAreOn(Log(q) + Log(r)); }
    forall q, r, s | c.On(q) && c.On(r) && c.On(s) ensures c.add(c.add(q, r), s) == c.add(q, c.add(r, s)) {
      Associative(q, r, s);
    }
  }

  lemma OneMore(k: nat)
    ensures SmallCurve().add(Multiple(k), Affine(7, 5)) == Multiple(k + 1)
  {
    hide Multiple;
    Sums(Multiple(k), Affine(7, 5));
    LogOfMultiple(k);
    assert Log(Affine(7, 5)) == 1;
    AddMultiple(7, k % 7 + 1, k / 7);
    SameMultiple(k % 7 + 1, k + 1);
  }

  lemma {:induction false} Multiples(k: nat)
    ensures SmallCurve().Times(k, Affine(7, 5)) == Multiple(k)
  {
    if k == 0 {
      OnlyZeroIsInfinity(0);
    } else {
      hide Multiple, SmallCurve;
      Multiples(k - 1);
      OneMore(k - 1);
    }
  }

  lemma TimesIsInfinity(k: nat)
    ensures SmallCurve().Times(k, SmallCurve().g) == Infinity <==> k % 7 == 0
  {
    hide Multiple, SmallCurve().Times;
    Multiples(k);
    OnlyZeroIsInfinity(k);
  }

  lemma BaseIsOn()
    ensures SmallCurve().On(SmallCurve().g)
  {
    hide SmallCurve().On;
    MultiplesAreOn(1);
  }

  lemma SmallBaseHasOrderSeven()
    ensures SmallCurve().BaseHasOrderN()
  {
    hide SmallCurve().On, SmallCurve().Times, SmallCurve().PrimeField;
    SmallFieldIsPrime();
    BaseIsOn();
    forall k: nat ensures SmallCurve().Times(k, SmallCurve().g) == Infinity <==> k % 7 == 0 {
      TimesIsInfinity(k);
    }
  }

  lemma OnlyZeroIsInfinity(k: nat)
    ensures Multiple(k) == Infinity <==> k % 7 == 0
  {}

  /** What `Curve.Valid` asks can be met. */
  lemma SmallCurveIsValid()
    ensures SmallCurve().Valid()
  {
    hide SmallCurve, SmallCurve().PrimeField, SmallCurve().AddsPoints, SmallCurve().BaseHasOrderN;
    SmallFieldIsPrime();
    SmallCurveAdds();
    SmallBaseHasOrderSeven();
  }

  const VERSIONS: map<string, Field> := map["xprivkey" := Number(0x0488ade4), "xpubkey" := Number(0x0488b21e)]
  const VERSION_KEYS := ["xprivkey", "xpubkey"]

  function SmallLibrary(hmac512: (Bytes, Bytes) -> nat): Library {
    Library(SmallCurve(), hmac512, _ => 0, _ => 0, EMPTY.AfterAdd(VERSIONS, VERSION_KEYS))
  }

  function SmallKey(): Buffers {
    Buffers(ToBE(0x0488ade4, 4), ToBE(0, 1), ToBE(0, 4), ToBE(0, 4), ToBE(0, 32), ToBE(3, 32))
  }

  lemma SmallScalar()
    ensures SmallKey().Scalar() == 3
  {
    assert 3 < Pow256(32) by { assert Pow256(32) == 256 * Pow256(31); }
    BigEndianRoundTrip(3, 32);
    hide FromBE, ToBE;
  }

  lemma SmallKeyIsPrivate(hmac512: (Bytes, Bytes) -> nat)
    ensures IsPrivate(SmallLibrary(hmac512), SmallKey())
  {
    SmallScalar();
    hide FromBE, ToBE;
  }

  lemma SmallVersionIsConsistent(hmac512: (Bytes, Bytes) -> nat)
    ensures Derivation.Consistent(SmallLibrary(hmac512), SmallKey().version)
  {
    hide Derivation.Consistent, FieldsOf, ToBE;
    Derivation.LastAddedIsConsistent(SmallLibrary(hmac512), EMPTY, VERSIONS, VERSION_KEYS, "xprivkey");
  }

  /** What the derivation theorems ask of a library and a key can be met together, whatever the hash. */
  lemma SmallKeyQualifies(hmac512: (Bytes, Bytes) -> nat)
    ensures SmallLibrary(hmac512).curve.Valid() && IsPrivate(SmallLibrary(hmac512), SmallKey())
    ensures Derivation.Consistent(SmallLibrary(hmac512), SmallKey().version)
  {
    assert SmallLibrary(hmac512).curve == SmallCurve();
    hide SmallCurve, SmallLibrary, SmallKey, IsPrivate, Derivation.Consistent, SmallCurve().Valid;
    SmallCurveIsValid();
    SmallKeyIsPrivate(hmac512);
    SmallVersionIsConsistent(hmac512);
  }

  // ---- inputs on which derivation does less than one would expect ----

  function ZeroHash(data: Bytes, key: Bytes): nat { 0 }

  /** Makes the scalar of the child zero for the 37-byte inputs whose index starts with the byte 0x7f. */
  function SkippingHash(data: Bytes, key: Bytes): nat {
    if |data| == 37 && data[33] == 0x7f then 4 * Pow256(32) else 0
  }

  lemma LeftParts(data: Bytes, key: Bytes)
    ensures SmallLibrary(ZeroHash).LeftPart(data, key) == 0
    ensures SmallLibrary(SkippingHash).LeftPart(data, key) == if |data| == 37 && data[33] == 0x7f then 4 else 0
  {
    hide SmallCurve;
    ZeroBytes(64);
    ZeroValue(ToBE(0, 64)[..32]);
    TopBytes(4, 32, 32);
    assert 4 < Pow256(32) by { assert Pow256(32) == 256 * Pow256(31); }
    BigEndianRoundTrip(4, 32);
    hide FromBE, ToBE;
  }

  lemma SmallChildScalars(data: Bytes)
    ensures ChildScalar(SmallLibrary(ZeroHash), SmallKey(), data) == 3
    ensures ChildScalar(SmallLibrary(SkippingHash), SmallKey(), data)
         == if |data| == 37 && data[33] == 0x7f then 0 else 3
  {
    hide ToBE, FromBE, Library.LeftPart;
    SmallScalar();
    LeftParts(data, SmallKey().chainCode);
    ResidueIs(3, 7);
    ResidueIs(7, 7);
  }

  /** On this key a hardened request at -1 gives the plain child 2^31 - 1. */
  lemma HardenedRequestGivesPlainChild(nonCompliant: bool)
    ensures SmallLibrary(ZeroHash).curve.Valid() && IsPrivate(SmallLibrary(ZeroHash), SmallKey())
    ensures DerivePrivate(SmallLibrary(ZeroHash), SmallKey(), -1, true, nonCompliant).Ok?
    ensures DerivePrivate(SmallLibrary(ZeroHash), SmallKey(), -1, true, nonCompliant).value.Index() == 0x7fff_ffff
  {
    SmallKeyQualifies(ZeroHash);
    hide SmallLibrary, SmallKey, IsPrivate, Derivation.Consistent, DerivePrivate, PrivateData, Curve.Valid;
    var (lib, k) := (SmallLibrary(ZeroHash), SmallKey());
    Derivation.FirstTry(lib, k, -1, true, nonCompliant);
    var data := PrivateData(lib, k, 0x7fff_ffff, true, nonCompliant);
    SmallChildScalars(data);
    ChildExists(lib, k, 0x7fff_ffff, data);
  }

  lemma ChildExists(lib: Library, k: Buffers, index: nat, data: Bytes)
    requires lib.curve.Valid() && IsPrivate(lib, k) && Derivation.Consistent(lib, k.version)
    requires index < 0x1_0000_0000 && ChildScalar(lib, k, data) != 0
    ensures PrivateChild(lib, k, index, data).Ok? && PrivateChild(lib, k, index, data).value.Index() == index
  {
    PrivateChildIsPrivate(lib, k, index, data);
    Derivation.NetworkKept(lib, k, "xprivkey", PublicBytes(lib, k), index, lib.RightPart(data, k.chainCode),
                           ToBE(ChildScalar(lib, k, data), 32), k.version);
    hide Derivation.Consistent, ChildScalar, PublicBytes, ToBE, FromBE;
  }

  lemma FirstIndexByte()
    ensures ToBE(0x7fff_ffff, 4)[0] == 0x7f && ToBE(0x8000_0000, 4)[0] == 0x80
  {
    assert ToBE(0x7fff_ffff, 4)[0] == ToBE(0x7f_ffff, 3)[0] == ToBE(0x7fff, 2)[0] == ToBE(0x7f, 1)[0];
    assert ToBE(0x8000_0000, 4)[0] == ToBE(0x80_0000, 3)[0] == ToBE(0x8000, 2)[0] == ToBE(0x80, 1)[0];
  }

  lemma FirstIndexByteAt(lib: Library, k: Buffers, index: nat, hardened: bool, nonCompliant: bool)
    requires lib.curve.Valid() && IsPrivate(lib, k)
    ensures var data := PrivateData(lib, k, index, hardened, nonCompliant);
      (!hardened ==> |data| == 37) && (|data| == 37 ==> data[33] == ToBE(index, 4)[0])
  {
    hide ToBE, Unpadded, PublicBytes, lib.curve.Valid, IsPrivate;
  }

  /**
   * On this key, with the skipping hash, the plain request for 2^31 - 1 gives the hardened child 2^31;
   * the public side refuses it.
   */
  lemma PlainRequestGivesHardenedChild(nonCompliant: bool)
    ensures var (lib, k) := (SmallLibrary(SkippingHash), SmallKey());
      && lib.curve.Valid() && IsPrivate(lib, k) && Derivation.Consistent(lib, k.version)
      && DerivePrivate(lib, k, 0x7fff_ffff, false, nonCompliant).Ok?
      && DerivePrivate(lib, k, 0x7fff_ffff, false, nonCompliant).value.Index() == HARDENED
      && Neuter(lib, k).Ok? && IsPublic(lib, Neuter(lib, k).value)
      && DerivePublic(lib, Neuter(lib, k).value, 0x7fff_ffff, false) == Err(CantDeriveHardened)
  {
    SmallKeyQualifies(SkippingHash);
    hide SmallLibrary, SmallKey, IsPrivate, IsPublic, Derivation.Consistent, DerivePrivate, DerivePublic, Neuter,
         PrivateData, Curve.Valid, ToBE, FromBE;
    var (lib, k) := (SmallLibrary(SkippingHash), SmallKey());
    FirstIndexByte();
    Derivation.FirstTry(lib, k, 0x7fff_ffff, false, nonCompliant);
    FirstIndexByteAt(lib, k, 0x7fff_ffff, false, nonCompliant);
    SmallChildScalars(PrivateData(lib, k, 0x7fff_ffff, false, nonCompliant));
    Derivation.FirstTry(lib, k, HARDENED, false, nonCompliant);
    var data := PrivateData(lib, k, HARDENED, true, nonCompliant);
    FirstIndexByteAt(lib, k, HARDENED, true, nonCompliant);
    SmallChildScalars(data);
    ChildExists(lib, k, HARDENED, data);
    Derivation.NeuterIsPublic(lib, k);
    Derivation.StepCommutes(lib, k, Neuter(lib, k).value, 0x7fff_ffff, nonCompliant);
  }
}
