/** The browser coin manager: a map of coins with an address index beside it, and a storage item. */
module BrowserUtxos {
  import opened Wrappers

  datatype Key = Key(txid: string, vout: int)

  datatype Coin = Coin(txid: string, vout: int, address: string, satoshis: int, script: string, status: string,
                       spentInTx: Option<string>)
  {
    function Id(): Key { Key(txid, vout) }

    predicate Available() { status == "available" }
  }

  /** What `addUTXO` is given; missing optional fields are "" and 0, a `vout` that is no number is None. */
  datatype Input = Nothing | Input(txid: string, vout: Option<int>, address: string, satoshis: int, script: string) {
    predicate Usable() { Input? && txid != "" && vout.Some? }

    function Fresh(): Coin
      requires Usable()
    {
      Coin(txid, vout.value, address, satoshis, script, "available", None)
    }
  }

  datatype Totals = Totals(totalUTXOs: nat, totalValue: int)

  /** The text of a storage item once parsed. */
  datatype Stored = Unreadable | NoCoins | Saved(coins: seq<Coin>, metadata: Option<Totals>)

  /** The text handed to `importData` once parsed. */
  datatype Imported = NotJson | JsonNull | NoList | List(inputs: seq<Input>)

  type Coins = map<Key, Coin>
  type Index = map<string, seq<Key>>

  /** `order` is the insertion order of the coin map, each index entry that of its key set. */
  datatype Contents = Contents(order: seq<Key>, utxos: Coins, index: Index, spentUTXOs: map<Key, string>,
                               metadata: Totals)

  const EMPTY := Contents([], map[], map[], map[], Totals(0, 0))

  // ---- reading ----

  function IndexedKeys(index: Index, address: string): seq<Key> {
    if address in index then index[address] else []
  }

  /** The coins of some keys that exist and are available, in order. */
  function AvailableAmong(utxos: Coins, keys: seq<Key>): seq<Coin> {
    if keys == [] then []
    else
      var k := keys[|keys| - 1];
      AvailableAmong(utxos, keys[..|keys| - 1])
      + if k in utxos && utxos[k].Available() then [utxos[k]] else []
  }

  function SumCoins(coins: seq<Coin>): int {
    if coins == [] then 0 else SumCoins(coins[..|coins| - 1]) + coins[|coins| - 1].satoshis
  }

  function UTXOsForAddress(m: Contents, address: string): seq<Coin> {
    AvailableAmong(m.utxos, IndexedKeys(m.index, address))
  }

  function Balance(m: Contents, address: string): int { SumCoins(UTXOsForAddress(m, address)) }

  /** The value of a set of coins, found without any index. */
  ghost function SumOver(utxos: Coins, keys: set<Key>): int
    requires keys <= utxos.Keys
  {
    if keys == {} then 0
    else
      var k :| k in keys;
      utxos[k].satoshis + SumOver(utxos, keys - {k})
  }

  ghost function AvailableKeys(m: Contents): set<Key> { set k | k in m.utxos && m.utxos[k].Available() }

  ghost function AvailableAt(m: Contents, address: string): set<Key> {
    set k | k in m.utxos && m.utxos[k].Available() && m.utxos[k].address == address
  }

  function TotalValue(utxos: Coins, order: seq<Key>): int {
    if order == [] then 0
    else
      var k := order[|order| - 1];
      TotalValue(utxos, order[..|order| - 1]) + if k in utxos then utxos[k].satoshis else 0
  }

  // ---- the operations, as functions ----

  function Refreshed(m: Contents): Contents {
    m.(metadata := Totals(|m.order|, TotalValue(m.utxos, m.order)))
  }

  function Insert(keys: seq<Key>, k: Key): seq<Key> { if k in keys then keys else keys + [k] }

  function Put(m: Contents, c: Coin): Contents {
    m.(order := Insert(m.order, c.Id()), utxos := m.utxos[c.Id() := c])
  }

  function WithIndex(m: Contents, c: Coin): Contents {
    m.(index := m.index[c.address := Insert(IndexedKeys(m.index, c.address), c.Id())])
  }

  /** `addUTXO` of a usable input: true when the coin is new. */
  function AfterAdd(m: Contents, c: Coin): (Contents, bool) {
    if c.Id() in m.utxos then (m, false)
    else
      var put := Put(m, c);
      (Refreshed(if c.address != "" then WithIndex(put, c) else put), true)
  }

  function MarkSpent(m: Contents, k: Key, txid: string): Contents
    requires k in m.utxos
  {
    m.(utxos := m.utxos[k := m.utxos[k].(status := "spent", spentInTx := Some(txid))],
       spentUTXOs := m.spentUTXOs[k := txid])
  }

  /** The loop of `spendUTXOs`: the contents and the list returned. */
  function SpendAll(m: Contents, keys: seq<Key>, txid: string): (Contents, seq<Coin>) {
    if keys == [] then (m, [])
    else
      var k := keys[|keys| - 1];
      var (before, spent) := SpendAll(m, keys[..|keys| - 1], txid);
      if k in before.utxos && before.utxos[k].Available()
      then var after := MarkSpent(before, k, txid); (after, spent + [after.utxos[k]])
      else (before, spent)
  }

  function AfterSpend(m: Contents, keys: seq<Key>, txid: string): (Contents, seq<Coin>) {
    var (after, spent) := SpendAll(m, keys, if txid == "" then "browser-spend" else txid);
    (Refreshed(after), spent)
  }

  /** The loop of `loadFromStorage`; it indexes the empty address too and overwrites without unindexing. */
  function LoadAll(m: Contents, coins: seq<Coin>): Contents {
    if coins == [] then m
    else
      var c := coins[|coins| - 1];
      WithIndex(Put(LoadAll(m, coins[..|coins| - 1]), c), c)
  }

  function AfterLoad(m: Contents, item: Option<Stored>): Contents {
    match item
    case Some(Saved(coins, metadata)) =>
      var loaded := LoadAll(m, coins);
      if metadata.Some? then loaded.(metadata := metadata.value) else loaded
    case _ => m
  }

  /** The values of the coin map in insertion order. */
  function Values(utxos: Coins, order: seq<Key>): seq<Coin> {
    if order == [] then []
    else
      var k := order[|order| - 1];
      Values(utxos, order[..|order| - 1]) + if k in utxos then [utxos[k]] else []
  }

  function ToSave(m: Contents): Stored { Saved(Values(m.utxos, m.order), Some(m.metadata)) }

  /** The loop of `importData`, up to the first input that makes `addUTXO` throw. */
  function AddWhileUsable(m: Contents, inputs: seq<Input>): (Contents, bool) {
    if inputs == [] then (m, true)
    else
      var last := inputs[|inputs| - 1];
      var (before, ok) := AddWhileUsable(m, inputs[..|inputs| - 1]);
      if ok && last.Usable() then (AfterAdd(before, last.Fresh()).0, true) else (before, false)
  }

  /** Some input of that loop is a new coin, which is when `addUTXO` saves. */
  predicate AddsCoin(m: Contents, inputs: seq<Input>) {
    inputs != [] &&
    var front, last := inputs[..|inputs| - 1], inputs[|inputs| - 1];
    var (before, ok) := AddWhileUsable(m, front);
    AddsCoin(m, front) || (ok && last.Usable() && AfterAdd(before, last.Fresh()).1)
  }

  /** Clearing empties the three maps but not the recorded totals. */
  function Cleared(m: Contents, merge: bool): Contents {
    if merge then m else m.(order := [], utxos := map[], index := map[], spentUTXOs := map[])
  }

  /** An import saves only through the coins it adds. */
  predicate ImportSaves(m: Contents, data: Imported, merge: bool) {
    data.List? && AddsCoin(Cleared(m, merge), data.inputs)
  }

  function AfterImport(m: Contents, data: Imported, merge: bool): (Contents, bool) {
    var cleared := Cleared(m, merge);
    match data
    case NotJson => (m, false)
    case JsonNull => (cleared, false)
    case NoList => (cleared, true)
    case List(inputs) => AddWhileUsable(cleared, inputs)
  }

  // ---- the objects ----

  /** The storage item of one key, shared by every manager opened on it. */
  class Storage {
    var item: Option<Stored>

    constructor ()
      ensures item == None
    {
      item := None;
    }
  }

  class BrowserUTXOManager {
    var order: seq<Key>
    var utxos: Coins
    var addressIndex: Index
    var spentUTXOs: map<Key, string>
    var metadata: Totals
    const storage: Storage?
    const autoSave: bool

    function View(): Contents
      reads this
    {
      Contents(order, utxos, addressIndex, spentUTXOs, metadata)
    }

    function Item(): Option<Stored>
      reads this, storage
    {
      if storage == null then None else storage.item
    }

    /** `storage` is null in memory mode and where the browser has none. */
    constructor (storage: Storage?, autoSave: bool)
      ensures this.storage == storage && this.autoSave == autoSave
      ensures View() == AfterLoad(EMPTY, Item())
    {
      this.storage, this.autoSave := storage, autoSave;
      order, utxos, addressIndex, spentUTXOs, metadata := [], map[], map[], map[], Totals(0, 0);
      new;
      LoadFromStorage();
    }

    method LoadFromStorage()
      modifies this
      ensures View() == AfterLoad(old(View()), Item())
    {
      if storage == null || storage.item.None? || !storage.item.value.Saved? { return; }
      var coins := storage.item.value.coins;
      for i := 0 to |coins|
        invariant View() == LoadAll(old(View()), coins[..i])
      {
        assert coins[..i + 1][..i] == coins[..i];
        var c := coins[i];
        if c.Id() !in order { order := order + [c.Id()]; }
        utxos := utxos[c.Id() := c];
        IndexCoin(c);
      }
      assert coins[..|coins|] == coins;
      if storage.item.value.metadata.Some? { metadata := storage.item.value.metadata.value; }
    }

    method IndexCoin(c: Coin)
      modifies this`addressIndex
      ensures View() == WithIndex(old(View()), c)
    {
      if c.address !in addressIndex { addressIndex := addressIndex[c.address := []]; }
      if c.Id() !in addressIndex[c.address] {
        addressIndex := addressIndex[c.address := addressIndex[c.address] + [c.Id()]];
      }
      assert addressIndex == WithIndex(old(View()), c).index;
    }

    method SaveToStorage()
      modifies storage
      ensures Item() == if storage != null then Some(ToSave(View())) else None
    {
      if storage == null { return; }
      var values := [];
      for i := 0 to |order|
        invariant values == Values(utxos, order[..i])
      {
        assert order[..i + 1][..i] == order[..i];
        if order[i] in utxos { values := values + [utxos[order[i]]]; }
      }
      assert order[..|order|] == order;
      storage.item := Some(Saved(values, Some(metadata)));
    }

    method UpdateMetadata()
      modifies this`metadata
      ensures View() == Refreshed(old(View()))
    {
      var totalValue := 0;
      for i := 0 to |order|
        invariant totalValue == TotalValue(utxos, order[..i])
      {
        assert order[..i + 1][..i] == order[..i];
        if order[i] in utxos { totalValue := totalValue + utxos[order[i]].satoshis; }
      }
      assert order[..|order|] == order;
      metadata := Totals(|order|, totalValue);
    }

    method AddUTXO(input: Input) returns (r: Result<bool, string>)
      modifies this, storage
      ensures if input.Usable()
              then r == Ok(AfterAdd(old(View()), input.Fresh()).1) && View() == AfterAdd(old(View()), input.Fresh()).0
              else r.Err? && View() == old(View())
      ensures Item() == if r == Ok(true) && autoSave && storage != null then Some(ToSave(View())) else old(Item())
    {
      if !input.Usable() { return Err("Invalid UTXO: missing txid or vout"); }
      var c := input.Fresh();
      if c.Id() in utxos { return Ok(false); }
      assert c.Id() !in order ==> Insert(order, c.Id()) == order + [c.Id()];
      if c.Id() !in order { order := order + [c.Id()]; }
      utxos := utxos[c.Id() := c];
      if c.address != "" { IndexCoin(c); }
      UpdateMetadata();
      if autoSave { SaveToStorage(); }
      r := Ok(true);
    }

    method GetUTXOsForAddress(address: string) returns (results: seq<Coin>)
      ensures results == UTXOsForAddress(View(), address)
    {
      results := [];
      if address !in addressIndex { return; }
      var keys := addressIndex[address];
      for i := 0 to |keys|
        invariant results == AvailableAmong(utxos, keys[..i])
      {
        assert keys[..i + 1][..i] == keys[..i];
        if keys[i] in utxos && utxos[keys[i]].Available() { results := results + [utxos[keys[i]]]; }
      }
      assert keys[..|keys|] == keys;
    }

    method GetBalance(address: string) returns (sum: int)
      ensures sum == Balance(View(), address)
    {
      var coins := GetUTXOsForAddress(address);
      sum := 0;
      for i := 0 to |coins|
        invariant sum == SumCoins(coins[..i])
      {
        assert coins[..i + 1][..i] == coins[..i];
        sum := sum + coins[i].satoshis;
      }
      assert coins[..|coins|] == coins;
    }

    method SpendUTXOs(inputs: seq<Key>, spentInTx: string) returns (spent: seq<Coin>)
      modifies this, storage
      ensures View() == AfterSpend(old(View()), inputs, spentInTx).0
      ensures spent == AfterSpend(old(View()), inputs, spentInTx).1
      ensures Item() == if autoSave && storage != null then Some(ToSave(View())) else old(Item())
    {
      var txid := if spentInTx == "" then "browser-spend" else spentInTx;
      spent := [];
      for i := 0 to |inputs|
        invariant (View(), spent) == SpendAll(old(View()), inputs[..i], txid)
        invariant Item() == old(Item())
      {
        assert inputs[..i + 1][..i] == inputs[..i];
        var k := inputs[i];
        if k in utxos && utxos[k].Available() {
          var coin := utxos[k].(status := "spent", spentInTx := Some(txid));
          utxos := utxos[k := coin];
          spentUTXOs := spentUTXOs[k := txid];
          spent := spent + [coin];
        }
      }
      assert inputs[..|inputs|] == inputs;
      UpdateMetadata();
      if autoSave { SaveToStorage(); }
    }

    method ImportData(data: Imported, merge: bool) returns (ok: bool)
      modifies this, storage
      ensures (View(), ok) == AfterImport(old(View()), data, merge)
      ensures Item() == if autoSave && storage != null && ImportSaves(old(View()), data, merge)
                        then Some(ToSave(View())) else old(Item())
    {
      if data.NotJson? { return false; }
      if !merge {
        order, utxos, addressIndex, spentUTXOs := [], map[], map[], map[];
      }
      if data.JsonNull? { return false; }
      if data.NoList? { return true; }
      ok := AddAll(data.inputs);
    }

    method AddAll(inputs: seq<Input>) returns (ok: bool)
      modifies this, storage
      ensures (View(), ok) == AddWhileUsable(old(View()), inputs)
      ensures Item() == if autoSave && storage != null && AddsCoin(old(View()), inputs)
                        then Some(ToSave(View())) else old(Item())
    {
      hide AfterAdd, AddWhileUsable, AddsCoin, ToSave;
      NextInput(View(), inputs, 0);
      assert inputs[..0] == [];
      for i := 0 to |inputs|
        invariant AddWhileUsable(old(View()), inputs[..i]) == (View(), true)
        invariant Item() == if autoSave && storage != null && AddsCoin(old(View()), inputs[..i])
                            then Some(ToSave(View())) else old(Item())
      {
        NextInput(old(View()), inputs, i);
        if inputs[i].Usable() { KnownChangesNothing(View(), inputs[i].Fresh()); }
        var r := AddUTXO(inputs[i]);
        if r.Err? {
          UnusableStops(old(View()), inputs, i + 1);
          return false;
        }
      }
      assert inputs[..|inputs|] == inputs;
      ok := true;
    }
  }

  lemma KnownChangesNothing(m: Contents, c: Coin)
    ensures !AfterAdd(m, c).1 ==> AfterAdd(m, c).0 == m
  {}

  lemma NextInput(m: Contents, inputs: seq<Input>, i: nat)
    requires i <= |inputs|
    ensures AddWhileUsable(m, []) == (m, true)
    ensures i < |inputs| ==> var (before, ok) := AddWhileUsable(m, inputs[..i]);
      AddWhileUsable(m, inputs[..i + 1])
      == if ok && inputs[i].Usable() then (AfterAdd(before, inputs[i].Fresh()).0, true) else (before, false)
    ensures !AddsCoin(m, [])
    ensures i < |inputs| ==> var (before, ok) := AddWhileUsable(m, inputs[..i]);
      AddsCoin(m, inputs[..i + 1])
      <==> AddsCoin(m, inputs[..i]) || (ok && inputs[i].Usable() && AfterAdd(before, inputs[i].Fresh()).1)
  {
    if i < |inputs| { assert inputs[..i + 1][..i] == inputs[..i]; }
  }

  /** Once an input has thrown, nothing later is added. */
  lemma {:induction false} UnusableStops(m: Contents, inputs: seq<Input>, n: nat)
    requires n <= |inputs| && !AddWhileUsable(m, inputs[..n]).1
    ensures AddWhileUsable(m, inputs) == AddWhileUsable(m, inputs[..n])
    ensures AddsCoin(m, inputs) <==> AddsCoin(m, inputs[..n])
  {
    if n < |inputs| {
      var front := inputs[..|inputs| - 1];
      assert front[..n] == inputs[..n];
      UnusableStops(m, front, n);
    } else {
      assert inputs[..n] == inputs;
    }
  }
}
