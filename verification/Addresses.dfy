/** Addresses: a 20-byte hash under a version byte that tells network and type. */
module Addresses {
  import opened ByteStrings
  import opened Wrappers
  import opened Networks
  import opened PrivateKeys

  datatype Kind = PayToPublicKeyHash | PayToScriptHash {
    function Key(): string { if PayToPublicKeyHash? then "pubkeyhash" else "scripthash" }
  }

  datatype Address = Address(hash: Bytes, network: Network, kind: Kind)

  datatype AddressError = WrongSize | UnknownNetwork | MismatchedNetwork | MismatchedKind

  function ToBuffer(a: Address): Bytes {
    [VersionByte(a.network, a.kind.Key())] + a.hash
  }

  /** `_classifyFromVersion`: public key hashes are looked for first. */
  function Classify(reg: Registry, version: byte): Option<(Network, Kind)> {
    var asKey := reg.GetKeyed(Val(Number(version)), ["pubkeyhash"]);
    var asScript := reg.GetKeyed(Val(Number(version)), ["scripthash"]);
    if asKey.Some? then Some((asKey.value, PayToPublicKeyHash))
    else if asScript.Some? then Some((asScript.value, PayToScriptHash))
    else None
  }

  /** `_transformBuffer`; `expected` and `kind` are the optional arguments. */
  function FromBuffer(reg: Registry, buf: Bytes, expected: Option<Arg>, kind: Option<Kind>)
    : Result<Address, AddressError>
  {
    if |buf| != 21 then Err(WrongSize)
    else
      var found := Classify(reg, buf[0]);
      var asked := if expected.Some? then reg.Get(expected.value) else None;
      if expected.Some? && asked.None? then Err(UnknownNetwork)
      else if found.None? || (asked.Some? && asked.value != found.value.0) then Err(MismatchedNetwork)
      else if kind.Some? && kind.value != found.value.1 then Err(MismatchedKind)
      else Ok(Address(buf[1..], found.value.0, found.value.1))
  }

  /** Every accepted buffer is written back as it was. */
  lemma AddressIsCanonical(reg: Registry, buf: Bytes, expected: Option<Arg>, kind: Option<Kind>)
    requires FromBuffer(reg, buf, expected, kind).Ok?
    ensures ToBuffer(FromBuffer(reg, buf, expected, kind).value) == buf
  {
    var a := FromBuffer(reg, buf, expected, kind).value;
    KeyedHasTheByte(reg, buf[0], a.kind.Key());
    assert buf == [buf[0]] + buf[1..];
  }

  /** A version byte is ambiguous when it marks public key hashes on some network and script hashes on this one. */
  predicate Shadowed(reg: Registry, a: Address) {
    a.kind.PayToScriptHash? && reg.GetKeyed(Val(Number(VersionByte(a.network, "scripthash"))), ["pubkeyhash"]).Some?
  }

  /**
   * Reading the bytes of an address back gives its hash and type, on the first registered network
   * that shares the version byte, exactly when no registered network uses a script hash byte for
   * public key hashes.
   */
  lemma AddressRoundTrip(reg: Registry, a: Address)
    requires |a.hash| == 20 && a.network in reg.networks && HasByte(a.network, a.kind.Key())
    ensures Normal(reg, a.network, a.kind.Key()).Some?
    ensures FromBuffer(reg, ToBuffer(a), None, None)
         == Ok(Address(a.hash, Normal(reg, a.network, a.kind.Key()).value, a.kind))
       <==> !Shadowed(reg, a)
    ensures FromBuffer(reg, ToBuffer(a), None, None).Ok?
    ensures FromBuffer(reg, ToBuffer(a), None, None).value.hash == a.hash
  {
    NormalHasTheByte(reg, a.network, a.kind.Key());
    assert ToBuffer(a)[1..] == a.hash;
  }

  /**
   * With the optional arguments: an address that is not shadowed reads back exactly if the network
   * asked for is its own after normalisation and the type asked for is its type; otherwise it is
   * refused, for an unknown network first, then for another network, then for another type.
   */
  lemma AddressRoundTripWith(reg: Registry, a: Address, expected: Option<Arg>, kind: Option<Kind>)
    requires |a.hash| == 20 && a.network in reg.networks && HasByte(a.network, a.kind.Key()) && !Shadowed(reg, a)
    ensures Normal(reg, a.network, a.kind.Key()).Some?
    ensures FromBuffer(reg, ToBuffer(a), expected, kind)
         == if expected.Some? && reg.Get(expected.value).None? then Err(UnknownNetwork)
            else if expected.Some? && reg.Get(expected.value) != Normal(reg, a.network, a.kind.Key())
            then Err(MismatchedNetwork)
            else if kind.Some? && kind.value != a.kind then Err(MismatchedKind)
            else Ok(Address(a.hash, Normal(reg, a.network, a.kind.Key()).value, a.kind))
  {
    NormalHasTheByte(reg, a.network, a.kind.Key());
    assert ToBuffer(a)[1..] == a.hash;
    hide FirstMatch, HasByte;
  }

  /** What is refused without looking at the arguments: other sizes, and bytes that no network has. */
  lemma AddressRefusals(reg: Registry, buf: Bytes, expected: Option<Arg>, kind: Option<Kind>)
    ensures FromBuffer(reg, buf, expected, kind) == Err(WrongSize) <==> |buf| != 21
    ensures |buf| == 21
      && (forall network | network in reg.networks ::
            !network.Has("pubkeyhash", Number(buf[0])) && !network.Has("scripthash", Number(buf[0])))
      ==> FromBuffer(reg, buf, None, kind) == Err(MismatchedNetwork)
  {
    if |buf| == 21 {
      FirstMatchIsEarliest(reg.networks, ["pubkeyhash"], Number(buf[0]));
      FirstMatchIsEarliest(reg.networks, ["scripthash"], Number(buf[0]));
    }
  }

  /** A shadowed script hash address reads back as a public key hash address. */
  lemma ShadowedIsMisread(reg: Registry, a: Address)
    requires |a.hash| == 20 && Shadowed(reg, a)
    ensures FromBuffer(reg, ToBuffer(a), None, None).Ok?
    ensures FromBuffer(reg, ToBuffer(a), None, None).value.kind == PayToPublicKeyHash
  {
    assert ToBuffer(a)[1..] == a.hash;
  }

  /** It is shadowed as soon as some network marks public key hashes with its byte. */
  lemma SharedByteShadows(reg: Registry, a: Address, other: Network)
    requires a.kind.PayToScriptHash? && other in reg.networks
    requires other.Has("pubkeyhash", Number(VersionByte(a.network, "scripthash")))
    ensures Shadowed(reg, a)
  {
    FirstMatchIsEarliest(reg.networks, ["pubkeyhash"], Number(VersionByte(a.network, "scripthash")));
    assert other.HasAny(["pubkeyhash"], Number(VersionByte(a.network, "scripthash"))) by {
      assert "pubkeyhash" in ["pubkeyhash"];
    }
  }

  const FIRST := Network(0, map["pubkeyhash" := Number(5)])
  const SECOND := Network(1, map["scripthash" := Number(5)])

  /** Two networks that use one byte, one for public key hashes and one for script hashes. */
  lemma ShadowingHappens(hash: Bytes)
    requires |hash| == 20
    ensures var (reg, a) := (Registry([FIRST, SECOND], map[], 2), Address(hash, SECOND, PayToScriptHash));
      && reg.Valid() && a.network in reg.networks && HasByte(a.network, "scripthash") && Shadowed(reg, a)
      && FromBuffer(reg, ToBuffer(a), None, None).Ok?
      && FromBuffer(reg, ToBuffer(a), None, None).value.kind == PayToPublicKeyHash
  {
    var (reg, a) := (Registry([FIRST, SECOND], map[], 2), Address(hash, SECOND, PayToScriptHash));
    assert reg.networks[0] == FIRST && reg.networks[1] == SECOND;
    hide Shadowed, FromBuffer, ToBuffer, FirstMatch;
    SharedByteShadows(reg, a, FIRST);
    ShadowedIsMisread(reg, a);
  }
}
