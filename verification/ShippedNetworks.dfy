/** The four networks the library registers when it is loaded, in that order. */
module ShippedNetworks {
  import opened ByteStrings
  import opened Derivation
  import opened ExtendedKeys
  import opened Networks
  import opened Wrappers
  import Addresses
  import Decimal
  import ExtendedKeyText
  import PrivateKeys

  const LIVENET_XPRV: nat := 0x0488ade4
  const LIVENET_XPUB: nat := 0x0488b21e
  const TESTNET_XPRV: nat := 0x04358394
  const TESTNET_XPUB: nat := 0x043587cf

  const TESTNET: map<string, Field> := map[
    "name" := Text("testnet"), "prefix" := Text("testnet"), "cashAddrPrefix" := Text("bchtest"),
    "pubkeyhash" := Number(0x6f), "privatekey" := Number(0xef), "scripthash" := Number(0xc4),
    "xpubkey" := Number(TESTNET_XPUB), "xprivkey" := Number(TESTNET_XPRV), "networkMagic" := Number(0xf4e5f3f4)]

  const TESTNET_KEYS := ["name", "prefix", "cashAddrPrefix", "pubkeyhash", "privatekey", "scripthash", "xpubkey",
                         "xprivkey", "networkMagic"]

  const STN: map<string, Field> := map[
    "name" := Text("stn"), "prefix" := Text("stn"), "cashAddrPrefix" := Text("bsvstn"),
    "pubkeyhash" := Number(0x6f), "privatekey" := Number(0xef), "scripthash" := Number(0xc4),
    "xpubkey" := Number(TESTNET_XPUB), "xprivkey" := Number(TESTNET_XPRV), "networkMagic" := Number(0xfbcec4f9),
    "indexBy" := Object]

  const REGTEST: map<string, Field> := map[
    "name" := Text("regtest"), "prefix" := Text("regtest"), "cashAddrPrefix" := Text("bchreg"),
    "pubkeyhash" := Number(0x6f), "privatekey" := Number(0xef), "scripthash" := Number(0xc4),
    "xpubkey" := Number(TESTNET_XPUB), "xprivkey" := Number(TESTNET_XPRV), "networkMagic" := Number(0xdab5bffa),
    "port" := Number(18444), "dnsSeeds" := Object, "indexBy" := Object]

  /** What both of these are indexed by; their version numbers are those of the test network. */
  const INDEX_BY := ["port", "name", "cashAddrPrefix", "networkMagic"]

  const LIVENET: map<string, Field> := map[
    "name" := Text("livenet"), "alias" := Text("mainnet"), "prefix" := Text("bitcoin"),
    "cashAddrPrefix" := Text("bitcoincash"), "pubkeyhash" := Number(0x00), "privatekey" := Number(0x80),
    "scripthash" := Number(0x05), "xpubkey" := Number(LIVENET_XPUB), "xprivkey" := Number(LIVENET_XPRV),
    "networkMagic" := Number(0xe3e1f3e8), "port" := Number(8333), "dnsSeeds" := Object]

  const LIVENET_KEYS := ["name", "alias", "prefix", "cashAddrPrefix", "pubkeyhash", "privatekey", "scripthash",
                         "xpubkey", "xprivkey", "networkMagic", "port", "dnsSeeds"]

  const AFTER_TESTNET := EMPTY.AfterAdd(TESTNET, TESTNET_KEYS)
  const AFTER_STN := AFTER_TESTNET.AfterAdd(STN, INDEX_BY)
  const AFTER_REGTEST := AFTER_STN.AfterAdd(REGTEST, INDEX_BY)
  const SHIPPED := AFTER_REGTEST.AfterAdd(LIVENET, LIVENET_KEYS)

  lemma NotNumerals()
    ensures !Decimal.AllDigits("stn") && !Decimal.AllDigits("bsvstn")
    ensures !Decimal.AllDigits("regtest") && !Decimal.AllDigits("bchreg")
    ensures !Decimal.AllDigits("livenet") && !Decimal.AllDigits("mainnet")
    ensures !Decimal.AllDigits("bitcoin") && !Decimal.AllDigits("bitcoincash")
  {
    assert "stn"[0] == 's' && "bsvstn"[0] == 'b' && "regtest"[0] == 'r' && "bchreg"[0] == 'b';
    assert "livenet"[0] == 'l' && "mainnet"[0] == 'm' && "bitcoin"[0] == 'b' && "bitcoincash"[0] == 'b';
  }

  /** None of the networks added later is indexed under a version number of the test network. */
  lemma StnIsApart(n: nat)
    requires n == TESTNET_XPUB || n == TESTNET_XPRV
    ensures Apart(STN, INDEX_BY, n)
  {
    hide Decimal.AllDigits;
    NotNumerals();
  }

  lemma RegtestIsApart(n: nat)
    requires n == TESTNET_XPUB || n == TESTNET_XPRV
    ensures Apart(REGTEST, INDEX_BY, n)
  {
    hide Decimal.AllDigits;
    NotNumerals();
  }

  lemma LivenetIsApart(n: nat)
    requires n == TESTNET_XPUB || n == TESTNET_XPRV
    ensures Apart(LIVENET, LIVENET_KEYS, n)
  {
    hide Decimal.AllDigits;
    NotNumerals();
  }

  ghost predicate OnTestnet(lib: Library, version: Bytes) {
    && Consistent(lib, version)
    && VersionOf(NetworkOf(lib, version), "xprivkey") == Some(ToBE(TESTNET_XPRV, 4))
    && VersionOf(NetworkOf(lib, version), "xpubkey") == Some(ToBE(TESTNET_XPUB, 4))
  }

  lemma AloneIsConsistent(lib: Library)
    requires lib.networks == AFTER_TESTNET
    ensures OnTestnet(lib, ToBE(TESTNET_XPRV, 4)) && OnTestnet(lib, ToBE(TESTNET_XPUB, 4))
  {
    hide Consistent, NetworkOf, ToBE, FieldsOf;
    CopiedIsKept(TESTNET, "xprivkey");
    CopiedIsKept(TESTNET, "xpubkey");
    LastAddedIsConsistent(lib, EMPTY, TESTNET, TESTNET_KEYS, "xprivkey");
    LastAddedIsConsistent(lib, EMPTY, TESTNET, TESTNET_KEYS, "xpubkey");
    AnswersTo(lib, EMPTY, TESTNET, TESTNET_KEYS, "xprivkey");
    AnswersTo(lib, EMPTY, TESTNET, TESTNET_KEYS, "xpubkey");
  }

  lemma OneMoreNetwork(lib: Library, data: map<string, Field>, indexBy: seq<string>, version: Bytes)
    requires OnTestnet(lib, version) && FromBE(version) in {TESTNET_XPRV, TESTNET_XPUB}
    requires Apart(data, indexBy, TESTNET_XPRV) && Apart(data, indexBy, TESTNET_XPUB)
    ensures OnTestnet(lib.(networks := lib.networks.AfterAdd(data, indexBy)), version)
  {
    hide Consistent, NetworkOf, VersionOf, ToBE, FromBE, Apart, IndexKeys, FieldsOf, Indexed;
    TestnetNumbers();
    ApartIsNotIndexed(lib.networks.nextId, data, indexBy, TESTNET_XPUB);
    ApartIsNotIndexed(lib.networks.nextId, data, indexBy, TESTNET_XPRV);
    LaterAddKeepsConsistent(lib, data, indexBy, version);
  }

  lemma TestnetNumbers()
    ensures FromBE(ToBE(TESTNET_XPRV, 4)) == TESTNET_XPRV && FromBE(ToBE(TESTNET_XPUB, 4)) == TESTNET_XPUB
  {
    Powers();
    BigEndianRoundTrip(TESTNET_XPUB, 4);
    BigEndianRoundTrip(TESTNET_XPRV, 4);
    hide FromBE, ToBE;
  }

  lemma TestnetKeepsVersions(lib: Library, version: Bytes)
    requires lib.networks == SHIPPED && version in [ToBE(TESTNET_XPRV, 4), ToBE(TESTNET_XPUB, 4)]
    ensures OnTestnet(lib, version)
  {
    hide ToBE, FromBE, Indexed, FieldsOf, Apart, OnTestnet;
    var l1 := lib.(networks := AFTER_TESTNET);
    var l2 := l1.(networks := l1.networks.AfterAdd(STN, INDEX_BY));
    var l3 := l2.(networks := l2.networks.AfterAdd(REGTEST, INDEX_BY));
    AloneIsConsistent(l1);
    TestnetNumbers();
    forall n: nat | n == TESTNET_XPUB || n == TESTNET_XPRV
      ensures Apart(STN, INDEX_BY, n) && Apart(REGTEST, INDEX_BY, n) && Apart(LIVENET, LIVENET_KEYS, n)
    {
      StnIsApart(n);
      RegtestIsApart(n);
      LivenetIsApart(n);
    }
    OneMoreNetwork(l1, STN, INDEX_BY, version);
    OneMoreNetwork(l2, REGTEST, INDEX_BY, version);
    OneMoreNetwork(l3, LIVENET, LIVENET_KEYS, version);
    assert lib == l3.(networks := l3.networks.AfterAdd(LIVENET, LIVENET_KEYS));
  }

  lemma LivenetIsConsistent(lib: Library)
    requires lib.networks == SHIPPED
    ensures Consistent(lib, ToBE(LIVENET_XPRV, 4)) && Consistent(lib, ToBE(LIVENET_XPUB, 4))
  {
    hide Consistent, ToBE, Indexed, FieldsOf;
    LastAddedIsConsistent(lib, AFTER_REGTEST, LIVENET, LIVENET_KEYS, "xprivkey");
    LastAddedIsConsistent(lib, AFTER_REGTEST, LIVENET, LIVENET_KEYS, "xpubkey");
  }

  /**
   * With the networks the library ships, every extended key with a version of the live or of the test
   * network qualifies for `NeuterCommutes`. The other two networks use the versions of the test network.
   */
  lemma ShippedVersionsAreConsistent(lib: Library)
    requires lib.networks == SHIPPED
    ensures Consistent(lib, ToBE(LIVENET_XPRV, 4)) && Consistent(lib, ToBE(LIVENET_XPUB, 4))
    ensures Consistent(lib, ToBE(TESTNET_XPRV, 4)) && Consistent(lib, ToBE(TESTNET_XPUB, 4))
  {
    hide Consistent, ToBE, SHIPPED;
    LivenetIsConsistent(lib);
    TestnetKeepsVersions(lib, ToBE(TESTNET_XPRV, 4));
    TestnetKeepsVersions(lib, ToBE(TESTNET_XPUB, 4));
  }

  lemma LivenetOwn(lib: Library)
    requires lib.networks == SHIPPED
    ensures VersionOf(NetworkOf(lib, ToBE(LIVENET_XPRV, 4)), "xprivkey") == Some(ToBE(LIVENET_XPRV, 4))
    ensures VersionOf(NetworkOf(lib, ToBE(LIVENET_XPUB, 4)), "xpubkey") == Some(ToBE(LIVENET_XPUB, 4))
  {
    hide NetworkOf, ToBE, FieldsOf, Indexed, AFTER_REGTEST;
    CopiedIsKept(LIVENET, "xprivkey");
    CopiedIsKept(LIVENET, "xpubkey");
    AnswersTo(lib, AFTER_REGTEST, LIVENET, LIVENET_KEYS, "xprivkey");
    AnswersTo(lib, AFTER_REGTEST, LIVENET, LIVENET_KEYS, "xpubkey");
  }

  lemma TestnetOwn(lib: Library)
    requires lib.networks == SHIPPED
    ensures VersionOf(NetworkOf(lib, ToBE(TESTNET_XPRV, 4)), "xprivkey") == Some(ToBE(TESTNET_XPRV, 4))
    ensures VersionOf(NetworkOf(lib, ToBE(TESTNET_XPUB, 4)), "xpubkey") == Some(ToBE(TESTNET_XPUB, 4))
  {
    hide ToBE, NetworkOf, VersionOf, SHIPPED, Consistent;
    TestnetKeepsVersions(lib, ToBE(TESTNET_XPRV, 4));
    TestnetKeepsVersions(lib, ToBE(TESTNET_XPUB, 4));
  }

  /** With the shipped networks the versions xprv and tprv stay in private children, xpub and tpub in public ones. */
  lemma ShippedVersionsAreTheirOwn(lib: Library)
    requires lib.networks == SHIPPED
    ensures VersionOf(NetworkOf(lib, ToBE(0x0488ade4, 4)), "xprivkey") == Some(ToBE(0x0488ade4, 4))
    ensures VersionOf(NetworkOf(lib, ToBE(0x0488b21e, 4)), "xpubkey") == Some(ToBE(0x0488b21e, 4))
    ensures VersionOf(NetworkOf(lib, ToBE(0x04358394, 4)), "xprivkey") == Some(ToBE(0x04358394, 4))
    ensures VersionOf(NetworkOf(lib, ToBE(0x043587cf, 4)), "xpubkey") == Some(ToBE(0x043587cf, 4))
  {
    hide ToBE, NetworkOf, VersionOf, SHIPPED;
    LivenetOwn(lib);
    TestnetOwn(lib);
  }

  lemma ShippedList()
    ensures SHIPPED.networks == [Network(0, FieldsOf(TESTNET)), Network(1, FieldsOf(STN)),
                                 Network(2, FieldsOf(REGTEST)), Network(3, FieldsOf(LIVENET))]
  {
    hide FieldsOf, Indexed;
  }

  predicate HasVersions(network: Network, priv: nat, pub: nat) {
    && "xprivkey" in network.fields && network.fields["xprivkey"] == Number(priv)
    && "xpubkey" in network.fields && network.fields["xpubkey"] == Number(pub)
  }

  lemma AddedVersions(id: nat, data: map<string, Field>, priv: nat, pub: nat)
    requires "xprivkey" in data && data["xprivkey"] == Number(priv)
    requires "xpubkey" in data && data["xpubkey"] == Number(pub)
    ensures HasVersions(Network(id, FieldsOf(data)), priv, pub)
  {
    CopiedIsKept(data, "xprivkey");
    CopiedIsKept(data, "xpubkey");
  }

  predicate TestThenLive(networks: seq<Network>) {
    && |networks| == 4
    && HasVersions(networks[0], TESTNET_XPRV, TESTNET_XPUB) && HasVersions(networks[1], TESTNET_XPRV, TESTNET_XPUB)
    && HasVersions(networks[2], TESTNET_XPRV, TESTNET_XPUB) && HasVersions(networks[3], LIVENET_XPRV, LIVENET_XPUB)
  }

  lemma TestnetData()
    ensures HasVersions(Network(0, FieldsOf(TESTNET)), TESTNET_XPRV, TESTNET_XPUB)
  {
    AddedVersions(0, TESTNET, TESTNET_XPRV, TESTNET_XPUB);
  }

  lemma StnData()
    ensures HasVersions(Network(1, FieldsOf(STN)), TESTNET_XPRV, TESTNET_XPUB)
  {
    AddedVersions(1, STN, TESTNET_XPRV, TESTNET_XPUB);
  }

  lemma RegtestData()
    ensures HasVersions(Network(2, FieldsOf(REGTEST)), TESTNET_XPRV, TESTNET_XPUB)
  {
    AddedVersions(2, REGTEST, TESTNET_XPRV, TESTNET_XPUB);
  }

  lemma LivenetData()
    ensures HasVersions(Network(3, FieldsOf(LIVENET)), LIVENET_XPRV, LIVENET_XPUB)
  {
    AddedVersions(3, LIVENET, LIVENET_XPRV, LIVENET_XPUB);
  }

  lemma ShippedVersions()
    ensures TestThenLive(SHIPPED.networks)
  {
    hide FieldsOf, HasVersions, SHIPPED, TESTNET, STN, REGTEST, LIVENET;
    ShippedList();
    TestnetData();
    StnData();
    RegtestData();
    LivenetData();
  }

  lemma ReadAsPrivate(networks: seq<Network>, n: nat)
    requires TestThenLive(networks)
    ensures n in ExtendedKeyText.PRIVATE_VERSIONS
       <==> exists network :: network in networks && network.Has("xprivkey", Number(n))
    ensures n in ExtendedKeyText.PRIVATE_VERSIONS ==>
      forall network | network in networks :: !network.Has("xpubkey", Number(n))
  {
    forall network | network in networks
      ensures HasVersions(network, LIVENET_XPRV, LIVENET_XPUB) || HasVersions(network, TESTNET_XPRV, TESTNET_XPUB)
    {
      var i :| 0 <= i < 4 && networks[i] == network;
    }
    assert networks[0] in networks && networks[3] in networks;
    assert n == TESTNET_XPRV ==> networks[0].Has("xprivkey", Number(n));
    assert n == LIVENET_XPRV ==> networks[3].Has("xprivkey", Number(n));
  }

  /** The version numbers read as private are exactly the private ones of the shipped networks, and no public one. */
  lemma PrivateVersionsAreShipped(n: nat)
    ensures n in ExtendedKeyText.PRIVATE_VERSIONS
       <==> exists network :: network in SHIPPED.networks && network.Has("xprivkey", Number(n))
    ensures n in ExtendedKeyText.PRIVATE_VERSIONS ==>
      forall network | network in SHIPPED.networks :: !network.Has("xpubkey", Number(n))
  {
    hide SHIPPED, TestThenLive;
    ShippedVersions();
    ReadAsPrivate(SHIPPED.networks, n);
  }

  // ---- version bytes ----

  predicate HasBytes(network: Network, pubkeyhash: nat, scripthash: nat, privatekey: nat) {
    && "pubkeyhash" in network.fields && network.fields["pubkeyhash"] == Number(pubkeyhash)
    && "scripthash" in network.fields && network.fields["scripthash"] == Number(scripthash)
    && "privatekey" in network.fields && network.fields["privatekey"] == Number(privatekey)
  }

  lemma AddedBytes(id: nat, data: map<string, Field>, pubkeyhash: nat, scripthash: nat, privatekey: nat)
    requires "pubkeyhash" in data && data["pubkeyhash"] == Number(pubkeyhash)
    requires "scripthash" in data && data["scripthash"] == Number(scripthash)
    requires "privatekey" in data && data["privatekey"] == Number(privatekey)
    ensures HasBytes(Network(id, FieldsOf(data)), pubkeyhash, scripthash, privatekey)
  {
    CopiedIsKept(data, "pubkeyhash");
    CopiedIsKept(data, "scripthash");
    CopiedIsKept(data, "privatekey");
    hide FieldsOf;
  }

  lemma TestnetBytes()
    ensures HasBytes(Network(0, FieldsOf(TESTNET)), 0x6f, 0xc4, 0xef)
  {
    AddedBytes(0, TESTNET, 0x6f, 0xc4, 0xef);
  }

  lemma StnBytes()
    ensures HasBytes(Network(1, FieldsOf(STN)), 0x6f, 0xc4, 0xef)
  {
    AddedBytes(1, STN, 0x6f, 0xc4, 0xef);
  }

  lemma RegtestBytes()
    ensures HasBytes(Network(2, FieldsOf(REGTEST)), 0x6f, 0xc4, 0xef)
  {
    AddedBytes(2, REGTEST, 0x6f, 0xc4, 0xef);
  }

  lemma LivenetBytes()
    ensures HasBytes(Network(3, FieldsOf(LIVENET)), 0x00, 0x05, 0x80)
  {
    AddedBytes(3, LIVENET, 0x00, 0x05, 0x80);
  }

  predicate TestThenLiveBytes(networks: seq<Network>) {
    && |networks| == 4
    && HasBytes(networks[0], 0x6f, 0xc4, 0xef) && HasBytes(networks[1], 0x6f, 0xc4, 0xef)
    && HasBytes(networks[2], 0x6f, 0xc4, 0xef) && HasBytes(networks[3], 0x00, 0x05, 0x80)
  }

  lemma ShippedBytes()
    ensures TestThenLiveBytes(SHIPPED.networks)
  {
    hide FieldsOf, HasBytes, SHIPPED, TESTNET, STN, REGTEST, LIVENET;
    ShippedList();
    TestnetBytes();
    StnBytes();
    RegtestBytes();
    LivenetBytes();
  }

  /** The network a version byte is read as: the live or the test network, or none. */
  lemma KeyedByByte(networks: seq<Network>, key: string, n: nat, live: nat, test: nat)
    requires TestThenLiveBytes(networks) && live != test
    requires (key == "pubkeyhash" && live == 0x00 && test == 0x6f)
          || (key == "scripthash" && live == 0x05 && test == 0xc4)
          || (key == "privatekey" && live == 0x80 && test == 0xef)
    ensures FirstMatch(networks, [key], Number(n))
         == if n == live then Some(networks[3]) else if n == test then Some(networks[0]) else None
  {
    var value := Number(n);
    FirstMatchIsEarliest(networks, [key], value);
    assert forall network: Network :: network.HasAny([key], value) <==> network.Has(key, value) by {
      assert key in [key];
    }
    assert networks[0] in networks && networks[1] in networks && networks[2] in networks && networks[3] in networks;
    hide FirstMatch;
    assert forall network | network in networks ::
      network == networks[0] || network == networks[1] || network == networks[2] || network == networks[3];
  }

  /** No shipped address is shadowed, so each reads back; a version byte is that of the live or the test network. */
  lemma ShippedAddresses(hash: Bytes, byte: byte)
    requires |hash| == 20
    ensures Addresses.FromBuffer(SHIPPED, [byte] + hash, None, None)
         == if byte == 0x00 then Ok(Addresses.Address(hash, SHIPPED.networks[3], Addresses.PayToPublicKeyHash))
            else if byte == 0x05 then Ok(Addresses.Address(hash, SHIPPED.networks[3], Addresses.PayToScriptHash))
            else if byte == 0x6f then Ok(Addresses.Address(hash, SHIPPED.networks[0], Addresses.PayToPublicKeyHash))
            else if byte == 0xc4 then Ok(Addresses.Address(hash, SHIPPED.networks[0], Addresses.PayToScriptHash))
            else Err(Addresses.MismatchedNetwork)
  {
    ShippedBytes();
    hide SHIPPED, TestThenLiveBytes, FirstMatch;
    KeyedByByte(SHIPPED.networks, "pubkeyhash", byte, 0x00, 0x6f);
    KeyedByByte(SHIPPED.networks, "scripthash", byte, 0x05, 0xc4);
    assert ([byte] + hash)[1..] == hash;
  }

  /** A WIF payload is read on the live network behind 0x80, on the test network behind 0xef, and nowhere else. */
  lemma ShippedWif(order: nat, buf: Bytes)
    requires |buf| == 33 && 0 < FromBE(buf[1..33]) < order
    ensures PrivateKeys.FromBuffer(SHIPPED, order, SHIPPED.networks[3], buf, None)
         == if buf[0] == 0x80 then Ok(PrivateKeys.PrivateKey(FromBE(buf[1..33]), false, SHIPPED.networks[3]))
            else if buf[0] == 0xef then Ok(PrivateKeys.PrivateKey(FromBE(buf[1..33]), false, SHIPPED.networks[0]))
            else Err(PrivateKeys.InvalidNetwork)
  {
    ShippedBytes();
    hide SHIPPED, TestThenLiveBytes, FirstMatch, FromBE;
    KeyedByByte(SHIPPED.networks, "privatekey", buf[0], 0x80, 0xef);
  }
}
