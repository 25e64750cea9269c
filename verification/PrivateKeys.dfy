/** Private keys and their wallet import format. */
module PrivateKeys {
  import opened ByteStrings
  import opened Wrappers
  import opened Networks
  import Base58Check

  datatype PrivateKey = PrivateKey(bn: nat, compressed: bool, network: Network)

  datatype KeyError =
    | BadText(why: Base58Check.DecodeError) | InvalidNetwork | NetworkMismatch | BadLength | Zero | NotBelowOrder

  /** `Buffer.from([network[key]])`: the low byte of a number, 0 for anything else. */
  function VersionByte(network: Network, key: string): byte {
    if key in network.fields && network.fields[key].Number? then network.fields[key].n % 256 else 0
  }

  ghost predicate HasByte(network: Network, key: string) {
    network.Has(key, Number(VersionByte(network, key)))
  }

  function ToBuffer(k: PrivateKey): Bytes {
    [VersionByte(k.network, "privatekey")] + ToBE(k.bn, 32) + (if k.compressed then [0x01] else [])
  }

  /** The range checks of the constructor; `order` is the order of the base point. */
  function Checked(k: PrivateKey, order: nat): Result<PrivateKey, KeyError> {
    if k.bn == 0 then Err(Zero) else if k.bn >= order then Err(NotBelowOrder) else Ok(k)
  }

  /** `_transformBuffer`; `expected` is the optional network argument. */
  function FromBuffer(reg: Registry, order: nat, standard: Network, buf: Bytes, expected: Option<Arg>)
    : Result<PrivateKey, KeyError>
  {
    if |buf| == 32 then
      var asked := if expected.Some? then reg.Get(expected.value) else None;
      Checked(PrivateKey(FromBE(buf), true, if asked.Some? then asked.value else standard), order)
    else if buf == [] then
      Err(InvalidNetwork)
    else
      var found := reg.GetKeyed(Val(Number(buf[0])), ["privatekey"]);
      if found.None? then Err(InvalidNetwork)
      else if expected.Some? && reg.Get(expected.value) != found then Err(NetworkMismatch)
      else if |buf| == 34 && buf[33] == 1 then Checked(PrivateKey(FromBE(buf[1..33]), true, found.value), order)
      else if |buf| == 33 then Checked(PrivateKey(FromBE(buf[1..33]), false, found.value), order)
      else Err(BadLength)
  }

  function ToWIF(sha256d: Base58Check.Hash256, k: PrivateKey): string {
    Base58Check.Encode(sha256d, ToBuffer(k))
  }

  function FromWIF(sha256d: Base58Check.Hash256, reg: Registry, order: nat, standard: Network, text: string,
                   expected: Option<Arg>): Result<PrivateKey, KeyError>
  {
    match Base58Check.Decode(sha256d, text)
    case Err(why) => Err(BadText(why))
    case Ok(buf) => FromBuffer(reg, order, standard, buf, expected)
  }

  /** The first registered network with the version byte of `network` under `key`. */
  function Normal(reg: Registry, network: Network, key: string): Option<Network> {
    reg.GetKeyed(Val(Number(VersionByte(network, key))), [key])
  }

  lemma NormalHasTheByte(reg: Registry, network: Network, key: string)
    requires network in reg.networks && HasByte(network, key)
    ensures Normal(reg, network, key).Some?
    ensures Normal(reg, network, key).value in reg.networks
    ensures VersionByte(Normal(reg, network, key).value, key) == VersionByte(network, key)
  {
    var value := Number(VersionByte(network, key));
    FirstMatchIsEarliest(reg.networks, [key], value);
    assert network.HasAny([key], value) by { assert key in [key]; }
    var found := Normal(reg, network, key).value;
    assert found.HasAny([key], value);
  }

  lemma WrittenBuffer(reg: Registry, order: nat, standard: Network, k: PrivateKey, expected: Option<Arg>)
    requires Normal(reg, k.network, "privatekey").Some? && FromBE(ToBE(k.bn, 32)) == k.bn && 0 < k.bn < order
    ensures FromBuffer(reg, order, standard, ToBuffer(k), expected)
         == if expected.Some? && reg.Get(expected.value) != Normal(reg, k.network, "privatekey")
            then Err(NetworkMismatch)
            else Ok(PrivateKey(k.bn, k.compressed, Normal(reg, k.network, "privatekey").value))
  {
    hide FromBE, ToBE, FirstMatch;
    assert ToBuffer(k)[1..33] == ToBE(k.bn, 32);
  }

  /**
   * Reading a WIF back gives the scalar and the compression flag, on the first registered network
   * that shares the version byte; with a network argument, exactly when it names that network.
   */
  lemma WifRoundTrip(sha256d: Base58Check.Hash256, reg: Registry, order: nat, standard: Network, k: PrivateKey,
                     expected: Option<Arg>)
    requires order <= Pow256(32)
    requires 0 < k.bn < order && k.network in reg.networks && HasByte(k.network, "privatekey")
    ensures Normal(reg, k.network, "privatekey").Some?
    ensures FromWIF(sha256d, reg, order, standard, ToWIF(sha256d, k), expected)
         == if expected.Some? && reg.Get(expected.value) != Normal(reg, k.network, "privatekey")
            then Err(NetworkMismatch)
            else Ok(PrivateKey(k.bn, k.compressed, Normal(reg, k.network, "privatekey").value))
  {
    hide Normal, HasByte, FromBE, ToBE, Base58Check.Encode, Base58Check.Decode;
    Base58Check.DecodeInvertsEncode(sha256d, ToBuffer(k));
    NormalHasTheByte(reg, k.network, "privatekey");
    BigEndianRoundTrip(k.bn, 32);
    WrittenBuffer(reg, order, standard, k, expected);
  }

  lemma AcceptedParts(reg: Registry, order: nat, standard: Network, buf: Bytes, expected: Option<Arg>)
    requires FromBuffer(reg, order, standard, buf, expected).Ok? && |buf| != 32
    ensures var k := FromBuffer(reg, order, standard, buf, expected).value;
      && (if k.compressed then |buf| == 34 && buf[33] == 1 else |buf| == 33)
      && k.bn == FromBE(buf[1..33])
      && reg.GetKeyed(Val(Number(buf[0])), ["privatekey"]) == Some(k.network)
  {
    hide FromBE, FirstMatch;
  }

  lemma KeyedHasTheByte(reg: Registry, version: byte, key: string)
    requires reg.GetKeyed(Val(Number(version)), [key]).Some?
    ensures VersionByte(reg.GetKeyed(Val(Number(version)), [key]).value, key) == version
  {
    FirstMatchIsEarliest(reg.networks, [key], Number(version));
    assert reg.GetKeyed(Val(Number(version)), [key]).value.HasAny([key], Number(version));
  }

  lemma AcceptedBuffer(reg: Registry, order: nat, standard: Network, buf: Bytes, expected: Option<Arg>)
    requires FromBuffer(reg, order, standard, buf, expected).Ok? && |buf| != 32
    ensures ToBuffer(FromBuffer(reg, order, standard, buf, expected).value) == buf
  {
    hide FromBuffer, FromBE, ToBE;
    AcceptedParts(reg, order, standard, buf, expected);
    KeyedHasTheByte(reg, buf[0], "privatekey");
    BigEndianBytesRoundTrip(buf[1..33]);
    assert buf == [buf[0]] + buf[1..33] + buf[33..];
  }

  /** An accepted text is the WIF of the key it is read as, unless its payload is a bare scalar. */
  lemma WifIsCanonical(sha256d: Base58Check.Hash256, reg: Registry, order: nat, standard: Network, text: string,
                       expected: Option<Arg>)
    requires FromWIF(sha256d, reg, order, standard, text, expected).Ok?
    ensures ToWIF(sha256d, FromWIF(sha256d, reg, order, standard, text, expected).value) == text
       <==> |Base58Check.Decode(sha256d, text).value| != 32
  {
    var buf := Base58Check.Decode(sha256d, text).value;
    var k := FromWIF(sha256d, reg, order, standard, text, expected).value;
    if |buf| != 32 {
      AcceptedBuffer(reg, order, standard, buf, expected);
      Base58Check.EncodeInvertsDecode(sha256d, text);
    } else {
      Base58Check.DecodeInvertsEncode(sha256d, ToBuffer(k));
    }
  }

  /** The bytes of a WIF: the version byte of the network, the scalar in 32 bytes, and a 1 for compressed keys. */
  lemma WifBytes(k: PrivateKey)
    ensures |ToBuffer(k)| == (if k.compressed then 34 else 33)
    ensures HasByte(k.network, "privatekey") ==> k.network.Has("privatekey", Number(ToBuffer(k)[0]))
    ensures ToBuffer(k)[1..33] == ToBE(k.bn, 32) && (k.compressed ==> ToBuffer(k)[33] == 1)
  {
    hide ToBE;
  }

  /** A bare 32-byte scalar is read as a compressed key of the network asked for, or of the standard one. */
  lemma BareScalar(reg: Registry, order: nat, standard: Network, buf: Bytes, expected: Option<Arg>)
    requires |buf| == 32
    ensures FromBuffer(reg, order, standard, buf, expected)
         == if FromBE(buf) == 0 then Err(Zero)
            else if FromBE(buf) >= order then Err(NotBelowOrder)
            else Ok(PrivateKey(FromBE(buf), true,
                               if expected.Some? && reg.Get(expected.value).Some?
                               then reg.Get(expected.value).value else standard))
  {
    hide FromBE;
  }

  lemma Foreign(reg: Registry, byte: byte)
    requires forall network | network in reg.networks :: !network.Has("privatekey", Number(byte))
    ensures reg.GetKeyed(Val(Number(byte)), ["privatekey"]) == None
  {
    FirstMatchIsEarliest(reg.networks, ["privatekey"], Number(byte));
  }

  /** Whatever is accepted is in range and of one of three sizes. */
  lemma AcceptedIsInRange(reg: Registry, order: nat, standard: Network, buf: Bytes, expected: Option<Arg>)
    requires FromBuffer(reg, order, standard, buf, expected).Ok?
    ensures 0 < FromBuffer(reg, order, standard, buf, expected).value.bn < order
    ensures |buf| == 32 || |buf| == 33 || (|buf| == 34 && buf[33] == 1)
  {
    hide FromBE, Registry.GetKeyed, Registry.Get;
  }

  /** Unless the buffer is a bare scalar, a byte of no network is refused first, then another network, then the size. */
  lemma RefusedInOrder(reg: Registry, order: nat, standard: Network, buf: Bytes, expected: Option<Arg>)
    requires |buf| != 32
    ensures (buf == [] || forall network | network in reg.networks :: !network.Has("privatekey", Number(buf[0]))) ==>
      FromBuffer(reg, order, standard, buf, expected) == Err(InvalidNetwork)
    ensures buf != [] && reg.GetKeyed(Val(Number(buf[0])), ["privatekey"]).Some? ==>
      var found := reg.GetKeyed(Val(Number(buf[0])), ["privatekey"]);
      && (expected.Some? && reg.Get(expected.value) != found ==>
            FromBuffer(reg, order, standard, buf, expected) == Err(NetworkMismatch))
      && ((expected.None? || reg.Get(expected.value) == found) && |buf| != 33 && !(|buf| == 34 && buf[33] == 1) ==>
            FromBuffer(reg, order, standard, buf, expected) == Err(BadLength))
  {
    if buf != [] && (forall network | network in reg.networks :: !network.Has("privatekey", Number(buf[0]))) {
      Foreign(reg, buf[0]);
    }
    hide FromBE, Registry.GetKeyed, Registry.Get;
  }

  /** A text that is no Base58Check text is reported as such, and no other. */
  lemma WifTextRefusals(sha256d: Base58Check.Hash256, reg: Registry, order: nat, standard: Network, text: string,
                        expected: Option<Arg>, why: Base58Check.DecodeError)
    ensures FromWIF(sha256d, reg, order, standard, text, expected) == Err(BadText(why))
       <==> Base58Check.Decode(sha256d, text) == Err(why)
  {
    hide FromBE, Registry.GetKeyed, Registry.Get, Base58Check.Decode;
  }
}
