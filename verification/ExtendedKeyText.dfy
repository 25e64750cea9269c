/** The 78-byte serialisation of extended keys and its Base58Check text (BIP 32, section "Serialization format"). */
module ExtendedKeyText {
  import opened ByteStrings
  import opened Curves
  import opened DerivationPaths
  import opened ExtendedKeys
  import opened Wrappers
  import Base58Check
  import Derivation
  import PublicKeys

  const DATA_LENGTH := 78
  const VERSION_END := 4
  const DEPTH_END := 5
  const FINGERPRINT_END := 9
  const CHILD_INDEX_END := 13
  const CHAIN_CODE_END := 45
  const PRIVATE_KEY_START := 46

  /** Version numbers that mark a private key: livenet and testnet. */
  const PRIVATE_VERSIONS: set<nat> := {0x0488ade4, 0x04358394}

  /** The fields in order; `pad` is empty on the public side and one byte on the private side. */
  function Payload(b: Buffers, pad: Bytes): Bytes {
    b.version + b.depth + b.parentFingerPrint + b.childIndex + b.chainCode + pad + b.key
  }

  function Slices(data: Bytes, keyStart: nat): Buffers
    requires |data| == DATA_LENGTH && CHAIN_CODE_END <= keyStart <= DATA_LENGTH
  {
    Buffers(data[..VERSION_END], data[VERSION_END..DEPTH_END], data[DEPTH_END..FINGERPRINT_END],
            data[FINGERPRINT_END..CHILD_INDEX_END], data[CHILD_INDEX_END..CHAIN_CODE_END], data[keyStart..])
  }

  /** `xprivkey` */
  function PrivateText(lib: Library, b: Buffers): string {
    Base58Check.Encode(lib.sha256d, Payload(b, [0]))
  }

  /** `xpubkey` */
  function PublicText(lib: Library, b: Buffers): string {
    Base58Check.Encode(lib.sha256d, Payload(b, []))
  }

  function ParsePrivate(lib: Library, text: string): Result<Buffers, HDError> {
    match Base58Check.Decode(lib.sha256d, text)
    case Err(why) => Err(BadText(why))
    case Ok(data) =>
      if |data| != DATA_LENGTH then Err(InvalidLength) else BuildPrivate(lib, Slices(data, PRIVATE_KEY_START))
  }

  /** Text with a private version is read as a private key and neutered. */
  function ParsePublic(lib: Library, text: string): Result<Buffers, HDError>
    requires lib.curve.Valid()
  {
    match Base58Check.Decode(lib.sha256d, text)
    case Err(why) => Err(BadText(why))
    case Ok(data) =>
      if |data| != DATA_LENGTH then Err(InvalidLength)
      else if FromBE(data[..VERSION_END]) in PRIVATE_VERSIONS then
        match ParsePrivate(lib, text)
        case Err(e) => Err(e)
        case Ok(k) => Neuter(lib, k)
      else BuildPublic(lib, Slices(data, CHAIN_CODE_END))
  }

  lemma SlicesOfPayload(b: Buffers, pad: Bytes, keySize: nat)
    requires b.HasSizes(keySize) && |pad| + keySize == 33
    ensures |Payload(b, pad)| == DATA_LENGTH
    ensures Slices(Payload(b, pad), CHAIN_CODE_END + |pad|) == b
    ensures Payload(b, pad)[CHAIN_CODE_END..CHAIN_CODE_END + |pad|] == pad
  {
    var data := Payload(b, pad);
    assert data[..4] == b.version;
    assert data[4..5] == b.depth;
    assert data[5..9] == b.parentFingerPrint;
    assert data[9..13] == b.childIndex;
    assert data[13..45] == b.chainCode;
    assert data[45 + |pad|..] == b.key;
  }

  lemma PayloadOfSlices(data: Bytes, keyStart: nat)
    requires |data| == DATA_LENGTH && CHAIN_CODE_END <= keyStart <= DATA_LENGTH
    ensures Payload(Slices(data, keyStart), data[CHAIN_CODE_END..keyStart]) == data
  {}

  lemma ParsePayload(lib: Library, b: Buffers, pad: byte)
    requires IsPrivate(lib, b)
    ensures ParsePrivate(lib, Base58Check.Encode(lib.sha256d, Payload(b, [pad]))) == Ok(b)
  {
    SlicesOfPayload(b, [pad], 32);
    hide Payload, Slices, Base58Check.Encode, Base58Check.Decode, FromBE;
    Base58Check.DecodeInvertsEncode(lib.sha256d, Payload(b, [pad]));
  }

  /** Writing an extended private key and reading it back gives the same buffers, whatever the pad byte. */
  lemma PrivateRoundTrip(lib: Library, b: Buffers, pad: byte)
    requires IsPrivate(lib, b)
    ensures ParsePrivate(lib, PrivateText(lib, b)) == Ok(b)
    ensures ParsePrivate(lib, Base58Check.Encode(lib.sha256d, Payload(b, [pad]))) == Ok(b)
  {
    hide IsPrivate, Payload, Base58Check.Encode, ParsePrivate;
    ParsePayload(lib, b, 0);
    ParsePayload(lib, b, pad);
  }

  /** An accepted text is the text of the key it is read as exactly when its pad byte is zero. */
  lemma PrivateTextIsCanonical(lib: Library, text: string)
    requires ParsePrivate(lib, text).Ok?
    ensures PrivateText(lib, ParsePrivate(lib, text).value) == text
       <==> Base58Check.Decode(lib.sha256d, text).value[CHAIN_CODE_END] == 0
  {
    hide Payload, Slices, Base58Check.Encode, Base58Check.Decode, FromBE;
    var data := Base58Check.Decode(lib.sha256d, text).value;
    var b := Slices(data, PRIVATE_KEY_START);
    PayloadOfSlices(data, PRIVATE_KEY_START);
    SlicesOfPayload(b, [0], 32);
    PadByte(data, b);
    Base58Check.EncodeInvertsDecode(lib.sha256d, text);
    Base58Check.DecodeInvertsEncode(lib.sha256d, Payload(b, [0]));
  }

  lemma PadByte(data: Bytes, b: Buffers)
    requires |data| == DATA_LENGTH && Payload(b, data[CHAIN_CODE_END..PRIVATE_KEY_START]) == data
    requires |Payload(b, [0])| == DATA_LENGTH && Payload(b, [0])[CHAIN_CODE_END..PRIVATE_KEY_START] == [0]
    ensures Payload(b, [0]) == data <==> data[CHAIN_CODE_END] == 0
  {
    hide Payload;
    var pad := data[CHAIN_CODE_END];
    assert data[CHAIN_CODE_END..PRIVATE_KEY_START] == [pad];
    assert pad != 0 ==> [pad] != [0];
  }

  lemma PublicRoundTrip(lib: Library, b: Buffers)
    requires lib.curve.Valid() && IsPublic(lib, b) && FromBE(b.version) !in PRIVATE_VERSIONS
    ensures ParsePublic(lib, PublicText(lib, b)) == Ok(b)
  {
    PublicSizes(lib, b);
    hide Payload, Slices, IsPublic, BuildPublic, Base58Check.Encode, Base58Check.Decode, FromBE, lib.curve.Valid;
    var data := Payload(b, []);
    SlicesOfPayload(b, [], 33);
    VersionOfPayload(b, []);
    Base58Check.DecodeInvertsEncode(lib.sha256d, data);
  }

  lemma PublicSizes(lib: Library, b: Buffers)
    requires lib.curve.PrimeField() && IsPublic(lib, b)
    ensures b.HasSizes(33) && BuildPublic(lib, b) == Ok(b)
  {
    hide PublicKeys.FromDER;
  }

  lemma VersionOfPayload(b: Buffers, pad: Bytes)
    requires |b.version| == 4
    ensures |Payload(b, pad)| >= 4 && Payload(b, pad)[..VERSION_END] == b.version
  {}

  /** Every accepted public text is the text of the key it is read as. */
  lemma PublicTextIsCanonical(lib: Library, text: string)
    requires lib.curve.Valid() && ParsePublic(lib, text).Ok?
    requires FromBE(Base58Check.Decode(lib.sha256d, text).value[..VERSION_END]) !in PRIVATE_VERSIONS
    ensures PublicText(lib, ParsePublic(lib, text).value) == text
  {
    hide Payload, Slices;
    var data := Base58Check.Decode(lib.sha256d, text).value;
    PayloadOfSlices(data, CHAIN_CODE_END);
    assert data[CHAIN_CODE_END..CHAIN_CODE_END] == [];
    Base58Check.EncodeInvertsDecode(lib.sha256d, text);
  }

  /** The text of a private key, handed to the public side, gives the neutered key. */
  lemma PrivateTextReadAsPublic(lib: Library, k: Buffers)
    requires lib.curve.Valid() && IsPrivate(lib, k) && FromBE(k.version) in PRIVATE_VERSIONS
    ensures ParsePublic(lib, PrivateText(lib, k)) == Neuter(lib, k)
  {
    hide Payload, Slices, Neuter;
    PrivateRoundTrip(lib, k, 0);
    SlicesOfPayload(k, [0], 32);
    VersionOfPayload(k, [0]);
    Base58Check.DecodeInvertsEncode(lib.sha256d, Payload(k, [0]));
  }

  /** Where each field stands in the 78 bytes. */
  lemma Layout(b: Buffers, pad: Bytes)
    requires |pad| <= 1 && b.HasSizes(33 - |pad|)
    ensures var data := Payload(b, pad);
      && |data| == 78 && data[0..4] == b.version && data[4..5] == b.depth && data[5..9] == b.parentFingerPrint
      && data[9..13] == b.childIndex && data[13..45] == b.chainCode
      && (pad == [] ==> data[45..78] == b.key) && (|pad| == 1 ==> data[45] == pad[0] && data[46..78] == b.key)
  {
    SlicesOfPayload(b, pad, 33 - |pad|);
    hide Payload;
  }

  /** What a text is refused for on the private side: its checksum, its length, then its scalar. */
  lemma PrivateTextRefusals(lib: Library, text: string)
    ensures match Base58Check.Decode(lib.sha256d, text)
            case Err(why) => ParsePrivate(lib, text) == Err(BadText(why))
            case Ok(data) =>
              if |data| != 78 then ParsePrivate(lib, text) == Err(InvalidLength)
              else if 0 < FromBE(data[46..78]) < lib.curve.n then ParsePrivate(lib, text).Ok?
              else ParsePrivate(lib, text) == Err(PrivateKeyOutOfRange)
  {
    hide Base58Check.Decode, FromBE;
    var data := Base58Check.Decode(lib.sha256d, text);
    if data.Ok? && |data.value| == 78 { assert data.value[46..78] == data.value[46..]; }
  }

  /** On the public side, for a text with another version: its checksum, its length, then its point. */
  lemma PublicTextRefusals(lib: Library, text: string)
    requires lib.curve.Valid()
    ensures match Base58Check.Decode(lib.sha256d, text)
            case Err(why) => ParsePublic(lib, text) == Err(BadText(why))
            case Ok(data) =>
              if |data| != 78 then ParsePublic(lib, text) == Err(InvalidLength)
              else if FromBE(data[..4]) in PRIVATE_VERSIONS then true
              else if PublicKeys.FromDER(lib.curve, data[45..78], true).Ok? then ParsePublic(lib, text).Ok?
              else ParsePublic(lib, text) == Err(BadPublicKey)
  {
    hide Base58Check.Decode, FromBE, PublicKeys.FromDER;
    var data := Base58Check.Decode(lib.sha256d, text);
    if data.Ok? && |data.value| == 78 { assert data.value[45..78] == data.value[45..]; }
  }

  // ---- texts of derived keys ----

  /** A key derived along any path from one with its network's version is read back from its text by both sides. */
  lemma DerivedTextIsRead(lib: Library, k: Buffers, indexes: seq<int>, nonCompliant: bool)
    requires lib.curve.Valid() && IsPrivate(lib, k) && Derivation.PrivatePath(lib, k, indexes, nonCompliant).Ok?
    requires VersionOf(NetworkOf(lib, k.version), "xprivkey") == Some(k.version)
    requires FromBE(k.version) in PRIVATE_VERSIONS
    ensures var child := Derivation.PrivatePath(lib, k, indexes, nonCompliant).value;
      && ParsePrivate(lib, PrivateText(lib, child)) == Ok(child)
      && ParsePublic(lib, PrivateText(lib, child)) == Neuter(lib, child)
  {
    hide IsPrivate, Derivation.PrivatePath, NetworkOf, VersionOf, ParsePrivate, ParsePublic, PrivateText, Neuter,
         FromBE, lib.curve.Valid;
    var child := Derivation.PrivatePath(lib, k, indexes, nonCompliant).value;
    Derivation.PathVersionKept(lib, k, indexes, nonCompliant);
    PrivateRoundTrip(lib, child, 0);
    PrivateTextReadAsPublic(lib, child);
  }

  lemma DerivedPublicTextIsRead(lib: Library, pub: Buffers, indexes: seq<int>)
    requires lib.curve.Valid() && IsPublic(lib, pub) && Derivation.PublicPath(lib, pub, indexes).Ok?
    requires VersionOf(NetworkOf(lib, pub.version), "xpubkey") == Some(pub.version)
    requires FromBE(pub.version) !in PRIVATE_VERSIONS
    ensures var child := Derivation.PublicPath(lib, pub, indexes).value;
      ParsePublic(lib, PublicText(lib, child)) == Ok(child)
  {
    hide IsPublic, Derivation.PublicPath, NetworkOf, VersionOf, ParsePublic, PublicText, FromBE;
    Derivation.PublicPathVersionKept(lib, pub, indexes);
    PublicRoundTrip(lib, Derivation.PublicPath(lib, pub, indexes).value);
  }

  /**
   * Neutering commutes with derivation on texts: deriving, writing the xprv and handing it to the
   * public side is handing over the parent's xprv and deriving there.
   */
  lemma TextsCommute(lib: Library, k: Buffers, indexes: seq<int>, nonCompliant: bool)
    requires lib.curve.Valid() && IsPrivate(lib, k) && Derivation.Consistent(lib, k.version)
    requires VersionOf(NetworkOf(lib, k.version), "xprivkey") == Some(k.version)
    requires FromBE(k.version) in PRIVATE_VERSIONS && AllIn(indexes, HARDENED)
    requires Derivation.NeverCrosses(lib, k, indexes, nonCompliant)
    ensures Derivation.PrivatePath(lib, k, indexes, nonCompliant).Ok?
    ensures ParsePublic(lib, PrivateText(lib, k)).Ok? && IsPublic(lib, ParsePublic(lib, PrivateText(lib, k)).value)
    ensures ParsePublic(lib, PrivateText(lib, Derivation.PrivatePath(lib, k, indexes, nonCompliant).value))
         == Derivation.PublicPath(lib, ParsePublic(lib, PrivateText(lib, k)).value, indexes)
  {
    hide IsPrivate, IsPublic, Derivation.PrivatePath, Derivation.PublicPath, Derivation.NeverCrosses,
         Derivation.Consistent, NetworkOf, VersionOf, ParsePrivate, ParsePublic, PrivateText, Neuter, FromBE, AllIn;
    Derivation.NeuterCommutes(lib, k, indexes, nonCompliant);
    PrivateTextReadAsPublic(lib, k);
    DerivedTextIsRead(lib, k, indexes, nonCompliant);
  }

  // ---- the object that caches its public key ----

  /** An `HDPrivateKey` object: immutable buffers and the memo behind the `hdPublicKey` getter. */
  class HDPrivateKey {
    const lib: Library
    const buffers: Buffers
    var hdPublicKey: Option<Buffers>

    ghost predicate Valid()
      reads this
    {
      && lib.curve.Valid() && IsPrivate(lib, buffers)
      && (hdPublicKey.Some? ==> Neuter(lib, buffers) == Ok(hdPublicKey.value))
    }

    constructor (lib: Library, buffers: Buffers)
      requires lib.curve.Valid() && IsPrivate(lib, buffers)
      ensures Valid() && this.lib == lib && this.buffers == buffers
    {
      this.lib, this.buffers, hdPublicKey := lib, buffers, None;
    }

    /** The getter answers the neutered key whether or not it was asked before. */
    method GetHDPublicKey() returns (pub: Result<Buffers, HDError>)
      requires Valid()
      modifies this
      ensures Valid() && pub == Neuter(lib, buffers)
      ensures hdPublicKey == if pub.Ok? then Some(pub.value) else None
    {
      if hdPublicKey.None? {
        pub := Neuter(lib, buffers);
        if pub.Err? { return; }
        hdPublicKey := Some(pub.value);
      }
      pub := Ok(hdPublicKey.value);
    }

    method GetXpubkey() returns (text: Result<string, HDError>)
      requires Valid()
      modifies this
      ensures Valid()
      ensures text == match Neuter(lib, buffers)
                      case Err(e) => Err(e)
                      case Ok(pub) => Ok(PublicText(lib, pub))
    {
      var pub := GetHDPublicKey();
      text := match pub
              case Err(e) => Err(e)
              case Ok(b) => Ok(PublicText(lib, b));
    }
  }
}
