/** Extended private and public keys (BIP 32): their buffers, child derivation on either side, and neutering. */
module ExtendedKeys {
  import opened ByteStrings
  import opened Curves
  import opened DerivationPaths
  import opened Networks
  import opened Residues
  import opened Wrappers
  import Base58Check
  import PublicKeys

  datatype HDError =
    | BadText(why: Base58Check.DecodeError) | InvalidLength | BadSize | BadNetwork
    | PrivateKeyOutOfRange | BadPublicKey | InvalidPath | CantDeriveHardened

  /** What the two key modules use of the rest of the library. Digests are numbers here, see Base58Check. */
  datatype Library = Library(curve: Curve, hmac512: (Bytes, Bytes) -> nat, hash160: Bytes -> nat,
                             sha256d: Base58Check.Hash256, networks: Registry) {

    function Hmac(data: Bytes, key: Bytes): (r: Bytes)
      ensures |r| == 64
    {
      ToBE(hmac512(data, key), 64)
    }

    /** The left half of the hash, as a number. */
    function LeftPart(data: Bytes, key: Bytes): nat { FromBE(Hmac(data, key)[..32]) }

    function RightPart(data: Bytes, key: Bytes): (r: Bytes)
      ensures |r| == 32
    {
      Hmac(data, key)[32..]
    }

    function FingerPrint(publicBytes: Bytes): (r: Bytes)
      ensures |r| == 4
    {
      ToBE(hash160(publicBytes), 20)[..4]
    }
  }

  /** The `_buffers` of an extended key; `key` holds the scalar or the compressed point. */
  datatype Buffers = Buffers(version: Bytes, depth: Bytes, parentFingerPrint: Bytes, childIndex: Bytes,
                             chainCode: Bytes, key: Bytes) {
    predicate HasSizes(keySize: nat) {
      && |version| == 4 && |depth| == 1 && |parentFingerPrint| == 4 && |childIndex| == 4
      && |chainCode| == 32 && |key| == keySize
    }

    function Scalar(): nat { FromBE(key) }

    function Index(): nat { FromBE(childIndex) }
  }

  /** `HDPrivateKey._buildFromBuffers`, without a checksum argument. */
  function BuildPrivate(lib: Library, b: Buffers): Result<Buffers, HDError> {
    if !b.HasSizes(32) then Err(BadSize)
    else if 0 < b.Scalar() < lib.curve.n then Ok(b)
    else Err(PrivateKeyOutOfRange)
  }

  /** `HDPublicKey._buildFromBuffers`, without a checksum argument. */
  function BuildPublic(lib: Library, b: Buffers): Result<Buffers, HDError>
    requires lib.curve.PrimeField()
  {
    if !b.HasSizes(33) then Err(BadSize)
    else if PublicKeys.FromDER(lib.curve, b.key, true).Ok? then Ok(b)
    else Err(BadPublicKey)
  }

  predicate IsPrivate(lib: Library, b: Buffers) { BuildPrivate(lib, b).Ok? }

  predicate IsPublic(lib: Library, b: Buffers)
    requires lib.curve.PrimeField()
  {
    BuildPublic(lib, b).Ok?
  }

  /** The point of a private key; its byte form is compressed. */
  function PointOf(lib: Library, k: Buffers): (q: Point)
    requires lib.curve.Valid() && IsPrivate(lib, k)
    ensures q.Affine? && lib.curve.On(q)
  {
    MulGInfinity(lib.curve, k.Scalar());
    lib.curve.MulG(k.Scalar())
  }

  function PublicBytes(lib: Library, k: Buffers): (buf: Bytes)
    requires lib.curve.Valid() && IsPrivate(lib, k)
    ensures |buf| == 33
  {
    PublicKeys.Compress(PointOf(lib, k))
  }

  function NetworkOf(lib: Library, version: Bytes): Option<Network> {
    lib.networks.Get(Val(Number(FromBE(version))))
  }

  /** `integerAsBuffer(network[key])`, None where that throws. */
  function VersionOf(network: Option<Network>, key: string): (r: Option<Bytes>)
    ensures r.Some? ==> |r.value| == 4
  {
    if network.Some? && key in network.value.fields && network.value.fields[key].Number?
       && network.value.fields[key].n < 0x1_0000_0000
    then Some(ToBE(network.value.fields[key].n, 4))
    else None
  }

  /** The fields every child gets from its parent, whichever side derives it. */
  function ChildBuffers(lib: Library, parent: Buffers, versionKey: string, publicBytes: Bytes, index: nat,
                        chainCode: Bytes, key: Bytes): Result<Buffers, HDError>
    requires |parent.depth| == 1
  {
    var version := VersionOf(NetworkOf(lib, parent.version), versionKey);
    if version.None? then Err(BadNetwork)
    else Ok(Buffers(version.value, [(parent.depth[0] as int + 1) % 256], lib.FingerPrint(publicBytes),
                    ToBE(index, 4), chainCode, key))
  }

  // ---- private derivation ----

  /** The index `_deriveWithNumber` works with once `hardened` is taken into account. */
  function Effective(index: int, hardened: bool): int {
    if index < HARDENED && hardened then index + HARDENED else index
  }

  function PrivateData(lib: Library, k: Buffers, index: nat, hardened: bool, nonCompliant: bool): Bytes
    requires lib.curve.Valid() && IsPrivate(lib, k)
  {
    if hardened && nonCompliant then [0] + Unpadded(k.Scalar()) + ToBE(index, 4)
    else if hardened then [0] + ToBE(k.Scalar(), 32) + ToBE(index, 4)
    else PublicBytes(lib, k) + ToBE(index, 4)
  }

  /** Left half of the hash plus the parent scalar, mod n; zero marks an unusable index. */
  function ChildScalar(lib: Library, k: Buffers, data: Bytes): (s: nat)
    requires lib.curve.n > 0
    ensures s < lib.curve.n
  {
    Residue(lib.LeftPart(data, k.chainCode) + k.Scalar(), lib.curve.n)
  }

  function PrivateChild(lib: Library, k: Buffers, index: nat, data: Bytes): Result<Buffers, HDError>
    requires lib.curve.Valid() && IsPrivate(lib, k)
  {
    match ChildBuffers(lib, k, "xprivkey", PublicBytes(lib, k), index, lib.RightPart(data, k.chainCode),
                       ToBE(ChildScalar(lib, k, data), 32))
    case Err(e) => Err(e)
    case Ok(b) => BuildPrivate(lib, b)
  }

  /** `HDPrivateKey._deriveWithNumber` */
  function DerivePrivate(lib: Library, k: Buffers, index: int, hardened: bool, nonCompliant: bool)
    : Result<Buffers, HDError>
    requires lib.curve.Valid() && IsPrivate(lib, k)
    decreases MAX_INDEX - Effective(index, hardened)
  {
    var i := Effective(index, hardened);
    if !(0 <= i < MAX_INDEX) then Err(InvalidPath)
    else
      var data := PrivateData(lib, k, i, index >= HARDENED || hardened, nonCompliant);
      if ChildScalar(lib, k, data) == 0 then DerivePrivate(lib, k, i + 1, false, nonCompliant)
      else PrivateChild(lib, k, i, data)
  }

  // ---- public derivation ----

  function PublicPoint(lib: Library, pub: Buffers): (q: Point)
    requires lib.curve.PrimeField() && IsPublic(lib, pub)
    ensures q.Affine? && lib.curve.On(q)
  {
    PublicKeys.DecodedIsValid(lib.curve, pub.key, true);
    PublicKeys.FromDER(lib.curve, pub.key, true).value.point
  }

  function PublicData(lib: Library, pub: Buffers, index: nat): Bytes
    requires lib.curve.PrimeField() && IsPublic(lib, pub)
  {
    PublicKeys.Compress(PublicPoint(lib, pub)) + ToBE(index, 4)
  }

  function ChildPoint(lib: Library, pub: Buffers, data: Bytes): (q: Point)
    requires lib.curve.Valid() && IsPublic(lib, pub)
    ensures lib.curve.On(q)
  {
    var left := lib.LeftPart(data, pub.chainCode);
    MulGInfinity(lib.curve, left);
    lib.curve.add(lib.curve.MulG(left), PublicPoint(lib, pub))
  }

  function PublicChild(lib: Library, pub: Buffers, index: nat, data: Bytes): Result<Buffers, HDError>
    requires lib.curve.Valid() && IsPublic(lib, pub) && ChildPoint(lib, pub, data).Affine?
  {
    match ChildBuffers(lib, pub, "xpubkey", PublicKeys.Compress(PublicPoint(lib, pub)), index,
                       lib.RightPart(data, pub.chainCode), PublicKeys.Compress(ChildPoint(lib, pub, data)))
    case Err(e) => Err(e)
    case Ok(b) => BuildPublic(lib, b)
  }

  /** `HDPublicKey._deriveWithNumber` */
  function DerivePublic(lib: Library, pub: Buffers, index: int, hardened: bool): Result<Buffers, HDError>
    requires lib.curve.Valid() && IsPublic(lib, pub)
    decreases HARDENED - index
  {
    if index >= HARDENED || hardened then Err(CantDeriveHardened)
    else if index < 0 then Err(InvalidPath)
    else
      var data := PublicData(lib, pub, index);
      if ChildPoint(lib, pub, data) == Infinity then DerivePublic(lib, pub, index + 1, false)
      else PublicChild(lib, pub, index, data)
  }

  /** `HDPublicKey._buildFromPrivate` */
  function Neuter(lib: Library, k: Buffers): Result<Buffers, HDError>
    requires lib.curve.Valid() && IsPrivate(lib, k)
  {
    var version := VersionOf(NetworkOf(lib, k.version), "xpubkey");
    if version.None? then Err(BadNetwork)
    else BuildPublic(lib, k.(version := version.value, key := PublicBytes(lib, k)))
  }

  // ---- what is built is well formed ----

  lemma CompressedIsPublic(lib: Library, b: Buffers, q: Point)
    requires lib.curve.PrimeField() && lib.curve.On(q) && q.Affine?
    requires b.HasSizes(33) && b.key == PublicKeys.Compress(q)
    ensures BuildPublic(lib, b) == Ok(b) && PublicPoint(lib, b) == q
  {
    PublicKeys.DecodeInvertsEncode(lib.curve, PublicKeys.PublicKey(q, true), true);
    assert PublicKeys.ToDER(PublicKeys.PublicKey(q, true)) == b.key;
  }

  lemma ScalarFits(lib: Library, k: Buffers, data: Bytes)
    requires lib.curve.Valid()
    ensures ChildScalar(lib, k, data) < lib.curve.n <= Pow256(32)
  {
    hide ChildScalar, lib.curve.On, lib.curve.Times, lib.curve.PrimeField, lib.curve.AddsPoints;
  }

  /** The two parts are the halves of the 64-byte digest, and a fingerprint is the start of the 20-byte one. */
  lemma DigestParts(lib: Library, data: Bytes, key: Bytes, publicBytes: Bytes)
    ensures var digest := ToBE(lib.hmac512(data, key), 64);
      ToBE(lib.LeftPart(data, key), 32) + lib.RightPart(data, key) == digest
    ensures lib.FingerPrint(publicBytes) == ToBE(lib.hash160(publicBytes), 20)[..4]
  {
    BigEndianBytesRoundTrip(lib.Hmac(data, key)[..32]);
    hide ToBE, FromBE;
  }

  lemma ChildBuffersFields(lib: Library, parent: Buffers, versionKey: string, publicBytes: Bytes, index: nat,
                           chainCode: Bytes, key: Bytes)
    requires |parent.depth| == 1
    ensures var b := ChildBuffers(lib, parent, versionKey, publicBytes, index, chainCode, key);
      if b.Ok?
      then |b.value.version| == 4 && |b.value.depth| == 1 && |b.value.parentFingerPrint| == 4
           && b.value.childIndex == ToBE(index, 4) && b.value.chainCode == chainCode && b.value.key == key
      else b == Err(BadNetwork)
  {
    hide NetworkOf, ToBE, FromBE;
  }

  lemma BuildsFrom(lib: Library, b: Buffers, scalar: nat, index: nat)
    requires 0 < scalar < lib.curve.n <= Pow256(32) && index < MAX_INDEX
    requires b.HasSizes(32) && b.key == ToBE(scalar, 32) && b.childIndex == ToBE(index, 4)
    ensures BuildPrivate(lib, b) == Ok(b) && b.Scalar() == scalar && b.Index() == index
  {
    hide FromBE, ToBE;
    Powers();
    BigEndianRoundTrip(scalar, 32);
    BigEndianRoundTrip(index, 4);
  }

  lemma PrivateChildIsPrivate(lib: Library, k: Buffers, index: nat, data: Bytes)
    requires lib.curve.Valid() && IsPrivate(lib, k) && index < MAX_INDEX && ChildScalar(lib, k, data) != 0
    ensures match PrivateChild(lib, k, index, data)
            case Ok(child) =>
              IsPrivate(lib, child) && child.Scalar() == ChildScalar(lib, k, data) && child.Index() == index
            case Err(e) => e == BadNetwork
  {
    hide ChildBuffers, BuildPrivate, ToBE, FromBE, Pow256, ChildScalar, PublicBytes, Library.Hmac, Library.RightPart,
         lib.curve.Valid;
    var scalar := ChildScalar(lib, k, data);
    var chainCode := lib.RightPart(data, k.chainCode);
    PrivateDepth(lib, k);
    ChildBuffersFields(lib, k, "xprivkey", PublicBytes(lib, k), index, chainCode, ToBE(scalar, 32));
    var b := ChildBuffers(lib, k, "xprivkey", PublicBytes(lib, k), index, chainCode, ToBE(scalar, 32));
    if b.Ok? {
      ScalarFits(lib, k, data);
      BuildsFrom(lib, b.value, scalar, index);
    }
  }

  lemma PrivateDepth(lib: Library, k: Buffers)
    requires IsPrivate(lib, k)
    ensures |k.depth| == 1
  {}

  lemma PublicChildIsPublic(lib: Library, pub: Buffers, index: nat, data: Bytes)
    requires lib.curve.Valid() && IsPublic(lib, pub) && ChildPoint(lib, pub, data).Affine?
    ensures PublicChild(lib, pub, index, data).Err? ==> PublicChild(lib, pub, index, data) == Err(BadNetwork)
    ensures PublicChild(lib, pub, index, data).Ok? ==>
      IsPublic(lib, PublicChild(lib, pub, index, data).value)
      && PublicPoint(lib, PublicChild(lib, pub, index, data).value) == ChildPoint(lib, pub, data)
  {
    var b := ChildBuffers(lib, pub, "xpubkey", PublicKeys.Compress(PublicPoint(lib, pub)), index,
                          lib.RightPart(data, pub.chainCode), PublicKeys.Compress(ChildPoint(lib, pub, data)));
    if b.Ok? {
      CompressedIsPublic(lib, b.value, ChildPoint(lib, pub, data));
    }
  }
}
