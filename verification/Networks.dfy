/** The network registry: an ordered list of networks and a lookup map from field values to them. */
module Networks {
  import opened Wrappers
  import Decimal

  /** A field value. Objects and arrays are never looked up, so their contents are not kept. */
  datatype Field = Number(n: nat) | Text(s: string) | Object {
    predicate Primitive() { !Object? }

    predicate Truthy() { Object? || (Number? && n != 0) || (Text? && s != "") }

    /** The property name JavaScript makes of a primitive value. */
    function Key(): string
      requires Primitive()
    {
      match this
      case Number(n) => Decimal.Text(n)
      case Text(s) => s
    }
  }

  /** `id` stands for the identity of the JavaScript object; equal networks are the same object. */
  datatype Network = Network(id: nat, fields: map<string, Field>) {

    predicate Has(key: string, value: Field) { key in fields && fields[key] == value }

    predicate HasAny(keys: seq<string>, value: Field) { exists key | key in keys :: Has(key, value) }

    /** `network.toString()`, which is what an unregistered network is looked up by. */
    function Name(): string {
      if "name" in fields && fields["name"].Primitive() then fields["name"].Key() else "undefined"
    }
  }

  datatype Arg = Net(network: Network) | Val(value: Field)

  /** The primitive values of `network` under `keys`, as lookup keys. */
  function IndexKeys(network: Network, keys: seq<string>): set<string> {
    set key | key in keys && key in network.fields && network.fields[key].Primitive() :: network.fields[key].Key()
  }

  const COPIED := ["name", "alias", "pubkeyhash", "privatekey", "scripthash", "xpubkey", "xprivkey"]
  const OPTIONAL := ["cashAddrPrefix", "cashAddrPrefixArray", "networkMagic", "port", "dnsSeeds"]

  /** The field `addNetwork` gives the new network under `key`; the optional ones only when truthy. */
  function FieldOf(data: map<string, Field>, key: string): Option<Field> {
    var source := if key == "cashAddrPrefixArray" then "cashAddrPrefix" else key;
    if source !in data || (key in OPTIONAL && !data[source].Truthy()) then None
    else if key == "cashAddrPrefixArray" || key == "networkMagic" then Some(Object)
    else Some(data[source])
  }

  function FieldsOf(data: map<string, Field>): map<string, Field> {
    map key | key in COPIED + OPTIONAL && FieldOf(data, key).Some? :: FieldOf(data, key).value
  }

  function Without<T(==)>(s: seq<T>, x: T): (r: seq<T>)
    ensures x !in r
    ensures x !in s ==> r == s
  {
    if s == [] then []
    else if s[0] == x then Without(s[1..], x)
    else [s[0]] + Without(s[1..], x)
  }

  function FirstMatch(networks: seq<Network>, keys: seq<string>, value: Field): Option<Network> {
    if networks == [] then None
    else if networks[0].HasAny(keys, value) then Some(networks[0])
    else FirstMatch(networks[1..], keys, value)
  }

  ghost predicate DistinctIds(networks: seq<Network>) {
    forall i, j | 0 <= i < j < |networks| :: networks[i].id != networks[j].id
  }

  // ---- the registry as a value ----

  datatype Registry = Registry(networks: seq<Network>, maps: map<string, Network>, nextId: nat) {

    /** Registered networks are distinct objects and every lookup entry is a registered one. */
    ghost predicate Valid() {
      && DistinctIds(networks)
      && (forall network | network in networks :: network.id < nextId)
      && (forall key | key in maps :: maps[key] in networks)
    }

    function Lookup(key: string): Option<Network> {
      if key in maps then Some(maps[key]) else None
    }

    /** `get(arg)` */
    function Get(arg: Arg): Option<Network> {
      match arg
      case Net(network) => if network in networks then Some(network) else Lookup(network.Name())
      case Val(value) => if value.Primitive() then Lookup(value.Key()) else None
    }

    /** `get(arg, keys)` */
    function GetKeyed(arg: Arg, keys: seq<string>): Option<Network> {
      match arg
      case Net(network) => if network in networks then Some(network) else None
      case Val(value) => if value.Primitive() then FirstMatch(networks, keys, value) else None
    }

    function Added(data: map<string, Field>): Network { Network(nextId, FieldsOf(data)) }

    function AfterAdd(data: map<string, Field>, indexBy: seq<string>): Registry {
      var network := Added(data);
      Registry(networks + [network], Indexed(maps, network, indexBy), nextId + 1)
    }

    function AfterRemove(network: Network): Registry {
      this.(networks := Without(networks, network), maps := Unindexed(maps, network))
    }
  }

  function Indexed(maps: map<string, Network>, network: Network, keys: seq<string>): map<string, Network> {
    map key | key in maps.Keys + IndexKeys(network, keys)
      :: if key in IndexKeys(network, keys) then network else maps[key]
  }

  function Unindexed(maps: map<string, Network>, network: Network): map<string, Network> {
    map key | key in maps && maps[key] != network :: maps[key]
  }

  const EMPTY := Registry([], map[], 0)

  datatype Op = Add(data: map<string, Field>, indexBy: seq<string>) | Remove(network: Network)

  function Step(reg: Registry, op: Op): Registry {
    match op
    case Add(data, indexBy) => reg.AfterAdd(data, indexBy)
    case Remove(network) => reg.AfterRemove(network)
  }

  function Run(reg: Registry, ops: seq<Op>): Registry
    decreases |ops|
  {
    if ops == [] then reg else Run(Step(reg, ops[0]), ops[1..])
  }

  // ---- the module state that the functions edit in place ----

  class NetworkRegistry {
    var networks: seq<Network>
    var networkMaps: map<string, Network>
    var nextId: nat

    function Contents(): Registry
      reads this
    {
      Registry(networks, networkMaps, nextId)
    }

    constructor ()
      ensures Contents() == EMPTY
    {
      networks, networkMaps, nextId := [], map[], 0;
    }

    method AddNetwork(data: map<string, Field>, indexBy: seq<string>) returns (network: Network)
      modifies this
      ensures network == old(Contents()).Added(data)
      ensures Contents() == old(Contents()).AfterAdd(data, indexBy)
    {
      network := Network(nextId, FieldsOf(data));
      nextId := nextId + 1;
      networks := networks + [network];
      IndexNetworkBy(network, indexBy);
    }

    method IndexNetworkBy(network: Network, keys: seq<string>)
      modifies this`networkMaps
      ensures networkMaps == Indexed(old(networkMaps), network, keys)
    {
      for i := 0 to |keys|
        invariant networkMaps == Indexed(old(networkMaps), network, keys[..i])
      {
        var key := keys[i];
        IndexNext(old(networkMaps), network, keys, i);
        if key in network.fields && network.fields[key].Primitive() {
          networkMaps := networkMaps[network.fields[key].Key() := network];
        }
      }
      assert keys[..|keys|] == keys;
    }

    /** Splicing while counting up skips the element that moves into the gap; distinctness makes that harmless. */
    method RemoveNetwork(network: Network)
      requires Contents().Valid()
      modifies this
      ensures Contents() == old(Contents()).AfterRemove(network)
    {
      var i := 0;
      while i < |networks|
        invariant 0 <= i
        invariant networkMaps == old(networkMaps) && nextId == old(nextId)
        invariant || networks == Without(old(networks), network)
                  || (networks == old(networks) && i <= |networks| && network !in networks[..i])
        decreases |networks| - i
      {
        if networks[i] == network {
          if networks == old(networks) {
            SpliceOut(networks, i, network);
          }
          networks := networks[..i] + networks[i + 1..];
        }
        i := i + 1;
      }
      UnindexNetworkBy(network);
    }

    method UnindexNetworkBy(network: Network)
      modifies this`networkMaps
      ensures networkMaps == Unindexed(old(networkMaps), network)
    {
      var values := networkMaps.Keys;
      ghost var all := values;
      while values != {}
        invariant values <= all == old(networkMaps).Keys
        invariant networkMaps == map key | key in old(networkMaps)
                                           && (key in values || old(networkMaps)[key] != network)
                                   :: old(networkMaps)[key]
        decreases |values|
      {
        var value :| value in values;
        if networkMaps[value] == network {
          networkMaps := networkMaps - {value};
        }
        values := values - {value};
      }
    }

    method GetKeyed(value: Field, keys: seq<string>) returns (r: Option<Network>)
      requires value.Primitive()
      ensures r == Contents().GetKeyed(Val(value), keys)
    {
      for i := 0 to |networks|
        invariant FirstMatch(networks, keys, value) == FirstMatch(networks[i..], keys, value)
      {
        assert networks[i..][1..] == networks[i + 1..];
        if exists key | key in keys :: networks[i].Has(key, value) {
          return Some(networks[i]);
        }
      }
      return None;
    }
  }

  /** The seven fields of every network are taken over as they are. */
  lemma CopiedIsKept(data: map<string, Field>, key: string)
    requires key in ["name", "alias", "pubkeyhash", "privatekey", "scripthash", "xpubkey", "xprivkey"] && key in data
    ensures key in FieldsOf(data) && FieldsOf(data)[key] == data[key]
  {
    assert key !in OPTIONAL;
  }

  /** Of the others the prefix, port and seeds are taken over when truthy. */
  lemma OptionalField(data: map<string, Field>, key: string)
    requires key in ["cashAddrPrefix", "port", "dnsSeeds"]
    ensures key !in data || data[key] == Number(0) || data[key] == Text("") ==> key !in FieldsOf(data)
    ensures key in data && data[key] != Number(0) && data[key] != Text("") ==>
      key in FieldsOf(data) && FieldsOf(data)[key] == data[key]
  {
    assert key in OPTIONAL && key !in ["cashAddrPrefixArray", "networkMagic"];
  }

  /** The magic number and the prefix array are objects. */
  lemma ObjectField(data: map<string, Field>, key: string, source: string)
    requires (key == "networkMagic" && source == "networkMagic")
          || (key == "cashAddrPrefixArray" && source == "cashAddrPrefix")
    ensures key in FieldsOf(data) <==> source in data && data[source] != Number(0) && data[source] != Text("")
    ensures key in FieldsOf(data) ==> FieldsOf(data)[key] == Object
  {
    assert key in OPTIONAL;
  }

  /** A network has no other fields. */
  lemma NoOtherField(data: map<string, Field>, key: string)
    requires key in FieldsOf(data)
    ensures key in ["name", "alias", "pubkeyhash", "privatekey", "scripthash", "xpubkey", "xprivkey",
                    "cashAddrPrefix", "cashAddrPrefixArray", "networkMagic", "port", "dnsSeeds"]
  {}

  /** Registered networks answer to themselves, with or without keys; others by name, and with keys not at all. */
  lemma NetworksAsArguments(reg: Registry, network: Network, keys: seq<string>)
    ensures network in reg.networks ==>
      reg.Get(Net(network)) == Some(network) && reg.GetKeyed(Net(network), keys) == Some(network)
    ensures network !in reg.networks && "name" in network.fields && network.fields["name"].Text? ==>
      reg.Get(Net(network)) == reg.Get(Val(network.fields["name"]))
    ensures network !in reg.networks && "name" !in network.fields ==>
      reg.Get(Net(network)) == reg.Get(Val(Text("undefined")))
    ensures network !in reg.networks ==> reg.GetKeyed(Net(network), keys) == None
    ensures reg.Get(Val(Object)) == None && reg.GetKeyed(Val(Object), keys) == None
  {}

  /** Without keys a number and its decimal text are one lookup; with keys they are two. */
  lemma NumbersAsText(reg: Registry, n: nat, keys: seq<string>)
    ensures reg.Get(Val(Number(n))) == reg.Get(Val(Text(Decimal.Text(n))))
    ensures reg.GetKeyed(Val(Number(n)), keys).Some? ==>
      exists key :: key in keys && reg.GetKeyed(Val(Number(n)), keys).value.Has(key, Number(n))
  {
    if reg.GetKeyed(Val(Number(n)), keys).Some? { FirstMatchIsEarliest(reg.networks, keys, Number(n)); }
  }

  /** No field under `keys` reads as the number `n`. */
  ghost predicate Apart(data: map<string, Field>, keys: seq<string>, n: nat) {
    forall key | key in keys && key in data ::
      match data[key]
      case Number(m) => m != n
      case Text(s) => !Decimal.AllDigits(s)
      case Object => true
  }

  lemma ApartIsNotIndexed(id: nat, data: map<string, Field>, keys: seq<string>, n: nat)
    requires Apart(data, keys, n)
    ensures Number(n).Key() !in IndexKeys(Network(id, FieldsOf(data)), keys)
  {
    forall key | key in keys && key in FieldsOf(data) && FieldsOf(data)[key].Primitive()
      ensures FieldsOf(data)[key].Key() != Number(n).Key()
    {
      assert key in data && FieldsOf(data)[key] == data[key];
      if data[key].Number? && data[key].Key() == Number(n).Key() {
        Decimal.TextInjective(data[key].n, n);
      }
    }
  }

  lemma IndexKeysNext(network: Network, keys: seq<string>, i: nat)
    requires i < |keys|
    ensures IndexKeys(network, keys[..i + 1]) == IndexKeys(network, keys[..i]) +
      if keys[i] in network.fields && network.fields[keys[i]].Primitive() then {network.fields[keys[i]].Key()} else {}
  {
    assert keys[..i + 1] == keys[..i] + [keys[i]];
  }

  lemma IndexNext(maps: map<string, Network>, network: Network, keys: seq<string>, i: nat)
    requires i < |keys|
    ensures Indexed(maps, network, keys[..i + 1])
         == if keys[i] in network.fields && network.fields[keys[i]].Primitive()
            then Indexed(maps, network, keys[..i])[network.fields[keys[i]].Key() := network]
            else Indexed(maps, network, keys[..i])
  {
    hide IndexKeys;
    IndexKeysNext(network, keys, i);
  }

  lemma {:induction false} WithoutBetween(a: seq<Network>, x: Network, b: seq<Network>)
    requires x !in a && x !in b
    ensures Without(a + [x] + b, x) == a + b
  {
    var s := a + [x] + b;
    if a == [] {
      assert s[1..] == b && a + b == b;
    } else {
      assert s[1..] == a[1..] + [x] + b;
      WithoutBetween(a[1..], x, b);
      assert [a[0]] + (a[1..] + b) == a + b;
    }
  }

  lemma SpliceOut(s: seq<Network>, i: nat, x: Network)
    requires i < |s| && s[i] == x && x !in s[..i]
    requires DistinctIds(s)
    ensures Without(s, x) == s[..i] + s[i + 1..]
  {
    assert s == s[..i] + [x] + s[i + 1..];
    WithoutBetween(s[..i], x, s[i + 1..]);
  }

  // ---- what holds of every run ----

  lemma {:induction false} WithoutKeepsOthers(s: seq<Network>, x: Network)
    ensures forall y :: y in Without(s, x) <==> y in s && y != x
    ensures DistinctIds(s) ==> DistinctIds(Without(s, x))
  {
    if s == [] {
    } else {
      WithoutKeepsOthers(s[1..], x);
      if DistinctIds(s) {
        forall y | y in Without(s[1..], x) ensures y.id != s[0].id {
          var i :| 0 <= i < |s[1..]| && s[1..][i] == y;
        }
      }
    }
  }

  lemma StepValid(reg: Registry, op: Op)
    requires reg.Valid()
    ensures Step(reg, op).Valid()
  {
    if op.Remove? {
      WithoutKeepsOthers(reg.networks, op.network);
    }
  }

  /** Over any run of additions and removals. */
  lemma {:induction false} RunValid(reg: Registry, ops: seq<Op>)
    requires reg.Valid()
    ensures Run(reg, ops).Valid()
    decreases |ops|
  {
    if ops == [] {
    } else {
      StepValid(reg, ops[0]);
      RunValid(Step(reg, ops[0]), ops[1..]);
    }
  }

  lemma FirstMatchIn(networks: seq<Network>, keys: seq<string>, value: Field)
    ensures FirstMatch(networks, keys, value).Some? ==> FirstMatch(networks, keys, value).value in networks
  {}

  /** A network just added answers to every indexed value it has; other values are looked up as before. */
  lemma AddedIsFound(reg: Registry, data: map<string, Field>, indexBy: seq<string>, value: Field)
    requires value.Primitive()
    ensures reg.AfterAdd(data, indexBy).Get(Net(reg.Added(data))) == Some(reg.Added(data))
    ensures reg.Added(data).HasAny(indexBy, value) ==>
      reg.AfterAdd(data, indexBy).Get(Val(value)) == Some(reg.Added(data))
    ensures value.Key() !in IndexKeys(reg.Added(data), indexBy) ==>
      reg.AfterAdd(data, indexBy).Get(Val(value)) == reg.Get(Val(value))
  {}

  /** A removed network is not found by any argument, and only it and its entries are gone. */
  lemma RemovedIsNotFound(reg: Registry, network: Network, arg: Arg, keys: seq<string>)
    ensures reg.AfterRemove(network).Get(arg) != Some(network)
    ensures reg.AfterRemove(network).GetKeyed(arg, keys) != Some(network)
    ensures arg.Val? && reg.Get(arg) != Some(network) ==> reg.AfterRemove(network).Get(arg) == reg.Get(arg)
  {
    if arg.Val? {
      FirstMatchIn(Without(reg.networks, network), keys, arg.value);
    }
  }

  /** The keyed lookup answers with the first registered network that has the value under one of the keys. */
  lemma {:induction false} FirstMatchIsEarliest(networks: seq<Network>, keys: seq<string>, value: Field)
    ensures FirstMatch(networks, keys, value).None?
       <==> forall network | network in networks :: !network.HasAny(keys, value)
    ensures FirstMatch(networks, keys, value).Some? ==>
      exists i :: 0 <= i < |networks| && FirstMatch(networks, keys, value) == Some(networks[i])
        && networks[i].HasAny(keys, value) && forall j | 0 <= j < i :: !networks[j].HasAny(keys, value)
  {
    if networks != [] && !networks[0].HasAny(keys, value) {
      FirstMatchIsEarliest(networks[1..], keys, value);
      if FirstMatch(networks[1..], keys, value).Some? {
        var i :| 0 <= i < |networks[1..]| && FirstMatch(networks, keys, value) == Some(networks[1..][i])
          && networks[1..][i].HasAny(keys, value) && forall j | 0 <= j < i :: !networks[1..][j].HasAny(keys, value);
        forall j | 0 <= j < i + 1 ensures !networks[j].HasAny(keys, value) {
          if j > 0 { assert networks[j] == networks[1..][j - 1]; }
        }
        assert networks[i + 1] == networks[1..][i];
      }
    }
  }

  /**
   * Removing what was just added gives back the list, but the lookup map only when the new
   * network took over no entry: an entry that was overwritten is deleted, not restored.
   */
  lemma AddThenRemove(reg: Registry, data: map<string, Field>, indexBy: seq<string>)
    requires reg.Valid()
    ensures reg.AfterAdd(data, indexBy).AfterRemove(reg.Added(data)).networks == reg.networks
    ensures reg.AfterAdd(data, indexBy).AfterRemove(reg.Added(data)).maps == reg.maps
       <==> IndexKeys(reg.Added(data), indexBy) !! reg.maps.Keys
  {
    var network := reg.Added(data);
    assert forall n | n in reg.networks :: n.id < reg.nextId;
    WithoutAppended(reg.networks, network);
    assert forall key | key in reg.maps :: reg.maps[key] != network;
    TakenEntriesAreLost(reg.maps, network, IndexKeys(network, indexBy));
  }

  /** Such an entry answers to nothing any more. */
  lemma TakenEntryIsLost(reg: Registry, data: map<string, Field>, indexBy: seq<string>, key: string)
    requires reg.Valid() && key in reg.maps && key in IndexKeys(reg.Added(data), indexBy)
    ensures reg.Lookup(key).Some?
    ensures reg.AfterAdd(data, indexBy).AfterRemove(reg.Added(data)).Lookup(key) == None
  {
    hide IndexKeys, FieldsOf;
  }

  lemma TakenEntriesAreLost(maps: map<string, Network>, network: Network, taken: set<string>)
    requires forall key | key in maps :: maps[key] != network
    ensures var indexed := map key | key in maps.Keys + taken :: if key in taken then network else maps[key];
      Unindexed(indexed, network) == maps <==> taken !! maps.Keys
  {
    var indexed := map key | key in maps.Keys + taken :: if key in taken then network else maps[key];
    assert forall key :: key in Unindexed(indexed, network) <==> key in maps && key !in taken;
  }

  lemma {:induction false} WithoutAppended(s: seq<Network>, x: Network)
    requires x !in s
    ensures Without(s + [x], x) == s
  {
    if s == [] {
      assert [x][1..] == [];
    } else {
      assert (s + [x])[1..] == s[1..] + [x];
      WithoutAppended(s[1..], x);
    }
  }
}
