/** Byte forms of public keys (SEC 1, sections 2.3.3 and 2.3.4). */
module PublicKeys {
  import opened ByteStrings
  import opened Curves
  import opened Residues
  import opened Wrappers

  /** A point other than infinity and the byte form it is written in. */
  datatype PublicKey = PublicKey(point: Point, compressed: bool) {
    ghost predicate Valid(c: Curve)
      requires c.p > 0
    {
      c.On(point) && point.Affine?
    }
  }

  datatype DerError = BadLength | BadPrefix | NotOnCurve

  /** `Point.pointToCompressed`: the parity is read off the last byte of y. */
  function Compress(q: Point): (buf: Bytes)
    requires q.Affine?
    ensures |buf| == 33
  {
    var ybuf := ToBE(q.y, 32);
    [if ybuf[31] % 2 == 1 then 0x03 else 0x02] + ToBE(q.x, 32)
  }

  /** `PublicKey.prototype.toBuffer`. */
  function ToDER(k: PublicKey): (buf: Bytes)
    requires k.point.Affine?
    ensures |buf| == if k.compressed then 33 else 65
  {
    if k.compressed then Compress(k.point)
    else [0x04] + ToBE(k.point.x, 32) + ToBE(k.point.y, 32)
  }

  function Decompress(c: Curve, odd: bool, xbuf: Bytes): Result<PublicKey, DerError>
    requires c.PrimeField()
  {
    match c.FromX(odd, FromBE(xbuf))
    case Some(q) => Ok(PublicKey(q, true))
    case None => Err(NotOnCurve)
  }

  /** `PublicKey._transformDER` with the validation of the constructor. */
  function FromDER(c: Curve, buf: Bytes, strict: bool): (r: Result<PublicKey, DerError>)
    requires c.PrimeField()
  {
    if buf == [] then
      Err(BadPrefix)
    else if buf[0] == 0x04 || (!strict && (buf[0] == 0x06 || buf[0] == 0x07)) then
      if |buf| != 65 then Err(BadLength)
      else
        var q := Affine(FromBE(buf[1..33]), FromBE(buf[33..65]));
        if c.On(q) then Ok(PublicKey(q, false)) else Err(NotOnCurve)
    else if buf[0] == 0x03 then Decompress(c, true, buf[1..])
    else if buf[0] == 0x02 then Decompress(c, false, buf[1..])
    else Err(BadPrefix)
  }

  lemma LastByteParity(v: nat, size: nat)
    requires size > 0
    ensures ToBE(v, size)[size - 1] % 2 == v % 2
  {
    assert ToBE(v, size)[size - 1] == v % 256;
    assert v == 256 * (v / 256) + v % 256;
  }

  /** The first byte of the compressed form tells the parity of y, the rest is x. */
  lemma CompressedParts(c: Curve, q: Point)
    requires c.PrimeField() && c.On(q) && q.Affine?
    ensures Compress(q)[0] == if q.y % 2 == 1 then 0x03 else 0x02
    ensures FromBE(Compress(q)[1..]) == q.x
  {
    LastByteParity(q.y, 32);
    BigEndianRoundTrip(q.x, 32);
    assert Compress(q)[1..] == ToBE(q.x, 32);
  }

  lemma CoordinatesFit(c: Curve, q: Point)
    requires c.PrimeField() && c.On(q) && q.Affine?
    ensures q.x < Pow256(32) && q.y < Pow256(32)
  {}

  /** Neither byte form loses anything. */
  lemma DecodeInvertsEncode(c: Curve, k: PublicKey, strict: bool)
    requires c.PrimeField() && k.Valid(c)
    ensures FromDER(c, ToDER(k), strict) == Ok(k)
  {
    hide FromBE, ToBE, c.IsRoot, c.HasRoot, c.FromX, c.PrimeField, c.On;
    if k.compressed {
      CompressedParts(c, k.point);
      RootIsDetermined(c, k.point);
      hide Compress;
    } else {
      UncompressedParts(c, k.point);
    }
  }

  lemma UncompressedParts(c: Curve, q: Point)
    requires c.PrimeField() && c.On(q) && q.Affine?
    ensures var buf := ToDER(PublicKey(q, false));
      buf[0] == 0x04 && FromBE(buf[1..33]) == q.x && FromBE(buf[33..65]) == q.y
  {
    CoordinatesFit(c, q);
    hide FromBE, ToBE, c.On, c.PrimeField;
    BigEndianRoundTrip(q.x, 32);
    BigEndianRoundTrip(q.y, 32);
    Halves(0x04, ToBE(q.x, 32), ToBE(q.y, 32));
  }

  lemma Halves(prefix: byte, a: Bytes, b: Bytes)
    requires |a| == 32 && |b| == 32
    ensures var buf := [prefix] + a + b; |buf| == 65 && buf[0] == prefix && buf[1..33] == a && buf[33..65] == b
  {}

  /** Distinct keys have distinct bytes. */
  lemma EncodeInjective(c: Curve, j: PublicKey, k: PublicKey)
    requires c.PrimeField() && j.Valid(c) && k.Valid(c) && ToDER(j) == ToDER(k)
    ensures j == k
  {
    DecodeInvertsEncode(c, j, true);
    DecodeInvertsEncode(c, k, true);
  }

  lemma DecodedIsValid(c: Curve, buf: Bytes, strict: bool)
    requires c.PrimeField() && FromDER(c, buf, strict).Ok?
    ensures FromDER(c, buf, strict).value.Valid(c)
  {}

  /**
   * Which accepted buffers are the ones the library writes: the length of a compressed buffer is
   * not checked, and the two hybrid prefixes are read but never written.
   */
  lemma EncodeInvertsDecode(c: Curve, buf: Bytes, strict: bool)
    requires c.PrimeField() && FromDER(c, buf, strict).Ok?
    ensures ToDER(FromDER(c, buf, strict).value) == buf
       <==> (buf[0] == 0x04 || (buf[0] in {0x02, 0x03} && |buf| == 33))
  {
    hide FromBE, ToBE, c.IsRoot, c.HasRoot, c.PrimeField;
    var k := FromDER(c, buf, strict).value;
    if k.compressed {
      if |buf| == 33 {
        CompressedParts(c, k.point);
        hide Compress;
        BigEndianInjective(Compress(k.point)[1..], buf[1..]);
        assert buf == [buf[0]] + buf[1..];
        assert Compress(k.point) == [Compress(k.point)[0]] + Compress(k.point)[1..];
      }
    } else {
      BigEndianBytesRoundTrip(buf[1..33]);
      BigEndianBytesRoundTrip(buf[33..65]);
      assert buf == [buf[0]] + buf[1..33] + buf[33..65];
      assert ToDER(k)[0] == 0x04;
    }
  }

  /** Of every key the compressed form with a zero byte more, and the hybrid form, are read as that key too. */
  lemma OtherFormsAreRead(c: Curve, q: Point)
    requires c.PrimeField() && c.On(q) && q.Affine?
    ensures var longer := [Compress(q)[0], 0x00] + Compress(q)[1..];
      |longer| == 34 && longer != Compress(q) && FromDER(c, longer, true) == Ok(PublicKey(q, true))
    ensures var hybrid := [0x06] + ToBE(q.x, 32) + ToBE(q.y, 32);
      hybrid != ToDER(PublicKey(q, false)) && FromDER(c, hybrid, false) == Ok(PublicKey(q, false))
  {
    hide FromBE, ToBE, c.IsRoot, c.HasRoot, c.FromX, c.PrimeField, c.On;
    CompressedParts(c, q);
    RootIsDetermined(c, q);
    LongerForm(Compress(q));
    HybridForm(c, q);
  }

  lemma LongerForm(buf: Bytes)
    requires |buf| == 33
    ensures var longer := [buf[0], 0x00] + buf[1..];
      |longer| == 34 && longer != buf && longer[0] == buf[0] && FromBE(longer[1..]) == FromBE(buf[1..])
  {
    hide FromBE;
    var longer := [buf[0], 0x00] + buf[1..];
    assert longer[1..] == [0] + buf[1..];
    LeadingZeroByte(buf[1..]);
  }

  lemma HybridForm(c: Curve, q: Point)
    requires c.PrimeField() && c.On(q) && q.Affine?
    ensures var hybrid := [0x06] + ToBE(q.x, 32) + ToBE(q.y, 32);
      hybrid != ToDER(PublicKey(q, false)) && FromDER(c, hybrid, false) == Ok(PublicKey(q, false))
  {
    CoordinatesFit(c, q);
    hide FromBE, ToBE, c.On, c.PrimeField;
    BigEndianRoundTrip(q.x, 32);
    BigEndianRoundTrip(q.y, 32);
    Halves(0x06, ToBE(q.x, 32), ToBE(q.y, 32));
    assert ToDER(PublicKey(q, false))[0] == 0x04;
  }

  /** Some point of the curve has this x, and a y of this parity. */
  ghost predicate HasPoint(c: Curve, x: nat, odd: bool)
    requires c.p > 0
  {
    exists y: nat :: c.On(Affine(x, y)) && (y % 2 == 1) == odd
  }

  /** Exactly what is read: full forms of points, hybrid ones unless strict, and prefixed x coordinates of points. */
  lemma Readable(c: Curve, buf: Bytes, strict: bool)
    requires c.PrimeField()
    ensures FromDER(c, buf, strict).Ok?
       <==> buf != []
            && if buf[0] == 0x04 || (!strict && (buf[0] == 0x06 || buf[0] == 0x07))
               then |buf| == 65 && c.On(Affine(FromBE(buf[1..33]), FromBE(buf[33..65])))
               else (buf[0] == 0x02 || buf[0] == 0x03)
                    && HasPoint(c, FromBE(buf[1..]), buf[0] == 0x03)
    ensures buf != [] && (buf[0] == 0x02 || buf[0] == 0x03) && FromDER(c, buf, strict).Err? ==>
      FromDER(c, buf, strict) == Err(NotOnCurve)
    ensures (buf == [] || buf[0] !in {2, 3, 4, 6, 7} || (strict && buf[0] in {6, 7})) ==>
      FromDER(c, buf, strict) == Err(BadPrefix)
    ensures buf != [] && buf[0] == 0x04 && |buf| != 65 ==> FromDER(c, buf, strict) == Err(BadLength)
  {
    hide FromBE, c.On, c.FromX, HasPoint;
    if buf != [] && (buf[0] == 0x02 || buf[0] == 0x03) {
      XIsReadable(c, FromBE(buf[1..]), buf[0] == 0x03);
    }
  }

  lemma XIsReadable(c: Curve, x: nat, odd: bool)
    requires c.PrimeField()
    ensures c.FromX(odd, x).Some? <==> HasPoint(c, x, odd)
  {
    hide Residue, Product, c.Root;
    if y: nat :| c.On(Affine(x, y)) && (y % 2 == 1) == odd {
      assert y < c.p && c.IsRoot(x, y);
    }
    if c.FromX(odd, x).Some? {
      var y: nat :| y < c.p && c.IsRoot(x, y) && (y % 2 == 1) == odd;
      assert c.On(Affine(x, y));
    }
  }
}
