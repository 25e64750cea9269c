/** The address index against a full scan, batch spending, and saving and loading. */
module BrowserIndex {
  import opened BrowserUtxos
  import opened Wrappers

  ghost predicate NoRepeats(keys: seq<Key>) {
    forall i, j | 0 <= i < j < |keys| :: keys[i] != keys[j]
  }

  /** The order lists each key of the map once, and each coin sits under its own key. */
  ghost predicate Ordered(m: Contents) {
    && NoRepeats(m.order)
    && (forall k :: k in m.order <==> k in m.utxos)
    && forall k | k in m.utxos :: m.utxos[k].Id() == k
  }

  /** Each address but the empty one indexes exactly the coins that carry it, each once. */
  ghost predicate IndexAgrees(m: Contents) {
    forall a | a != "" ::
      && NoRepeats(IndexedKeys(m.index, a))
      && forall k :: k in IndexedKeys(m.index, a) <==> k in m.utxos && m.utxos[k].address == a
  }

  ghost predicate Sound(m: Contents) { Ordered(m) && IndexAgrees(m) }

  // ---- sums over sets ----

  lemma {:induction false} SumOverPick(utxos: Coins, keys: set<Key>, k: Key)
    requires keys <= utxos.Keys && k in keys
    ensures SumOver(utxos, keys) == utxos[k].satoshis + SumOver(utxos, keys - {k})
    decreases |keys|
  {
    var j :| j in keys && SumOver(utxos, keys) == utxos[j].satoshis + SumOver(utxos, keys - {j});
    if j != k {
      SumOverPick(utxos, keys - {j}, k);
      SumOverPick(utxos, keys - {k}, j);
      assert keys - {j} - {k} == keys - {k} - {j};
    }
  }

  lemma {:induction false} SumOverSame(u: Coins, v: Coins, keys: set<Key>)
    requires keys <= u.Keys && keys <= v.Keys && forall k | k in keys :: u[k].satoshis == v[k].satoshis
    ensures SumOver(u, keys) == SumOver(v, keys)
    decreases |keys|
  {
    if keys == {} {
    } else {
      var k :| k in keys;
      SumOverPick(u, keys, k);
      SumOverPick(v, keys, k);
      SumOverSame(u, v, keys - {k});
    }
  }

  ghost function AvailableIn(utxos: Coins, keys: seq<Key>): set<Key> {
    set k | k in keys && k in utxos && utxos[k].Available()
  }

  lemma {:induction false} SumAmong(utxos: Coins, keys: seq<Key>)
    requires NoRepeats(keys)
    ensures SumCoins(AvailableAmong(utxos, keys)) == SumOver(utxos, AvailableIn(utxos, keys))
  {
    if keys == [] {
      assert AvailableIn(utxos, keys) == {};
    } else {
      var front, k := keys[..|keys| - 1], keys[|keys| - 1];
      assert keys == front + [k];
      SumAmong(utxos, front);
      assert k !in front;
      var rest := AvailableAmong(utxos, front);
      if k in utxos && utxos[k].Available() {
        assert AvailableAmong(utxos, keys) == rest + [utxos[k]];
        assert AvailableIn(utxos, keys) - {k} == AvailableIn(utxos, front);
        SumOverPick(utxos, AvailableIn(utxos, keys), k);
      } else {
        assert AvailableIn(utxos, keys) == AvailableIn(utxos, front);
        assert AvailableAmong(utxos, keys) == rest;
      }
    }
  }

  /** The balance read through the index is the sum over every available coin with that address. */
  lemma BalanceIsScan(m: Contents, address: string)
    requires IndexAgrees(m) && address != ""
    ensures Balance(m, address) == SumOver(m.utxos, AvailableAt(m, address))
  {
    SumAmong(m.utxos, IndexedKeys(m.index, address));
    assert AvailableIn(m.utxos, IndexedKeys(m.index, address)) == AvailableAt(m, address);
  }

  // ---- what the operations keep ----

  lemma InsertOnce(keys: seq<Key>, k: Key)
    requires NoRepeats(keys)
    ensures NoRepeats(Insert(keys, k))
    ensures forall j :: j in Insert(keys, k) <==> j in keys || j == k
  {
    if k !in keys {
      assert forall i | 0 <= i < |keys| :: keys[i] in keys;
    }
  }

  lemma PutKeepsOrdered(m: Contents, c: Coin)
    requires Ordered(m)
    ensures Ordered(Put(m, c))
  {
    InsertOnce(m.order, c.Id());
    hide NoRepeats, Insert;
  }

  /** Indexing a new coin under its own address, or not at all when that is empty. */
  lemma NewCoinIndexed(m: Contents, c: Coin)
    requires IndexAgrees(m) && c.Id() !in m.utxos
    ensures IndexAgrees(if c.address != "" then WithIndex(Put(m, c), c) else Put(m, c))
  {
    var n := if c.address != "" then WithIndex(Put(m, c), c) else Put(m, c);
    forall a | a != ""
      ensures NoRepeats(IndexedKeys(n.index, a))
      ensures forall k :: k in IndexedKeys(n.index, a) <==> k in n.utxos && n.utxos[k].address == a
    {
      InsertOnce(IndexedKeys(m.index, a), c.Id());
      hide NoRepeats, Insert;
      assert IndexedKeys(n.index, a)
          == if a == c.address then Insert(IndexedKeys(m.index, a), c.Id()) else IndexedKeys(m.index, a);
    }
  }

  lemma AddKeepsSound(m: Contents, c: Coin)
    requires Sound(m)
    ensures Sound(AfterAdd(m, c).0)
  {
    if c.Id() !in m.utxos {
      PutKeepsOrdered(m, c);
      NewCoinIndexed(m, c);
      var put := Put(m, c);
      var indexed := if c.address != "" then WithIndex(put, c) else put;
      assert Ordered(indexed) by { hide NoRepeats, Put; }
      TotalsDoNotMatter(indexed, Refreshed(indexed).metadata);
      hide Ordered, IndexAgrees, Put, WithIndex, TotalValue;
    }
  }

  /** An import keeps the index right even when it stops halfway. */
  lemma {:induction false} ImportLoopKeepsSound(m: Contents, inputs: seq<Input>)
    requires Sound(m)
    ensures Sound(AddWhileUsable(m, inputs).0)
  {
    if inputs == [] {
    } else {
      ImportLoopKeepsSound(m, inputs[..|inputs| - 1]);
      var (before, ok) := AddWhileUsable(m, inputs[..|inputs| - 1]);
      if ok && inputs[|inputs| - 1].Usable() { AddKeepsSound(before, inputs[|inputs| - 1].Fresh()); }
    }
  }

  lemma ImportKeepsSound(m: Contents, data: Imported, merge: bool)
    requires Sound(m)
    ensures Sound(AfterImport(m, data, merge).0)
  {
    var cleared := Cleared(m, merge);
    assert Sound(cleared);
    if data.List? { ImportLoopKeepsSound(cleared, data.inputs); }
  }

  /** `n` is `m` with the available ones of `keys` marked spent. */
  ghost predicate Marked(m: Contents, n: Contents, keys: seq<Key>, txid: string) {
    && n.order == m.order && n.index == m.index && n.utxos.Keys == m.utxos.Keys
    && forall k | k in m.utxos ::
      && (k in keys && m.utxos[k].Available() ==> n.utxos[k] == m.utxos[k].(status := "spent", spentInTx := Some(txid)))
      && (!(k in keys && m.utxos[k].Available()) ==> n.utxos[k] == m.utxos[k])
  }

  lemma {:induction false} SpendMarks(m: Contents, keys: seq<Key>, txid: string)
    ensures Marked(m, SpendAll(m, keys, txid).0, keys, txid)
  {
    if keys == [] {
    } else {
      SpendMarks(m, keys[..|keys| - 1], txid);
      assert keys == keys[..|keys| - 1] + [keys[|keys| - 1]];
    }
  }

  /** `spent` holds the requested coins that were available, in their new state. */
  ghost predicate Returned(m: Contents, n: Contents, keys: seq<Key>, spent: seq<Coin>) {
    && n.utxos.Keys == m.utxos.Keys
    && (forall c | c in spent :: c.Id() in keys && c.Id() in m.utxos && m.utxos[c.Id()].Available())
    && (forall c | c in spent :: c == n.utxos[c.Id()])
    && (forall k | k in keys && k in m.utxos && m.utxos[k].Available() :: n.utxos[k] in spent)
  }

  lemma ReturnedNext(m: Contents, before: Contents, front: seq<Key>, k: Key, txid: string, spent: seq<Coin>)
    requires Ordered(m) && Marked(m, before, front, txid) && Returned(m, before, front, spent)
    requires k in before.utxos && before.utxos[k].Available()
    ensures var after := MarkSpent(before, k, txid);
      Returned(m, after, front + [k], spent + [after.utxos[k]])
  {
    hide NoRepeats;
    assert forall c | c in spent :: c.Id() != k;
    assert before.utxos[k].Id() == k;
  }

  lemma ReturnedSkip(m: Contents, before: Contents, front: seq<Key>, k: Key, txid: string, spent: seq<Coin>)
    requires Marked(m, before, front, txid) && Returned(m, before, front, spent)
    requires !(k in before.utxos && before.utxos[k].Available())
    ensures Returned(m, before, front + [k], spent)
  {}

  lemma {:induction false} SpendReturns(m: Contents, keys: seq<Key>, txid: string)
    requires Ordered(m)
    ensures Returned(m, SpendAll(m, keys, txid).0, keys, SpendAll(m, keys, txid).1)
  {
    if keys == [] {
    } else {
      var front, k := keys[..|keys| - 1], keys[|keys| - 1];
      SpendReturns(m, front, txid);
      SpendMarks(m, front, txid);
      assert keys == front + [k];
      hide Ordered, Marked, Returned;
      var (before, spent) := SpendAll(m, front, txid);
      if k in before.utxos && before.utxos[k].Available() {
        ReturnedNext(m, before, front, k, txid, spent);
      } else {
        ReturnedSkip(m, before, front, k, txid, spent);
      }
    }
  }

  lemma SpendKeepsSound(m: Contents, keys: seq<Key>, txid: string)
    requires Sound(m)
    ensures Sound(AfterSpend(m, keys, txid).0)
  {
    SpendMarks(m, keys, if txid == "" then "browser-spend" else txid);
  }

  ghost predicate NoCoinTwice(coins: seq<Coin>) {
    forall i, j | 0 <= i < j < |coins| :: coins[i].Id() != coins[j].Id()
  }

  lemma {:induction false} SpentListDistinct(m: Contents, keys: seq<Key>, txid: string)
    requires Ordered(m)
    ensures NoCoinTwice(SpendAll(m, keys, txid).1)
  {
    if keys == [] {
    } else {
      var front, k := keys[..|keys| - 1], keys[|keys| - 1];
      SpentListDistinct(m, front, txid);
      SpendMarks(m, front, txid);
      SpendReturns(m, front, txid);
      var (before, spent) := SpendAll(m, front, txid);
      if k in before.utxos && before.utxos[k].Available() {
        forall c | c in spent ensures c.Id() != k {
          assert c.status == "spent";
        }
        assert forall i | 0 <= i < |spent| :: spent[i] in spent;
      }
    }
  }

  lemma {:induction false} SpentListValue(m: Contents, keys: seq<Key>, txid: string)
    requires Ordered(m)
    ensures var (n, spent) := SpendAll(m, keys, txid);
      SumOver(n.utxos, AvailableKeys(n)) == SumOver(m.utxos, AvailableKeys(m)) - SumCoins(spent)
  {
    if keys == [] {
    } else {
      var front, k := keys[..|keys| - 1], keys[|keys| - 1];
      SpentListValue(m, front, txid);
      var (before, spent) := SpendAll(m, front, txid);
      if k in before.utxos && before.utxos[k].Available() {
        var after := MarkSpent(before, k, txid);
        OneSpentValue(before, k, txid);
        assert (spent + [after.utxos[k]])[..|spent|] == spent;
      }
    }
  }

  lemma OneSpentValue(m: Contents, k: Key, txid: string)
    requires k in m.utxos && m.utxos[k].Available()
    ensures SumOver(MarkSpent(m, k, txid).utxos, AvailableKeys(MarkSpent(m, k, txid)))
         == SumOver(m.utxos, AvailableKeys(m)) - m.utxos[k].satoshis
  {
    var n := MarkSpent(m, k, txid);
    SumOverPick(m.utxos, AvailableKeys(m), k);
    assert AvailableKeys(n) == AvailableKeys(m) - {k};
    SumOverSame(m.utxos, n.utxos, AvailableKeys(n));
  }

  /**
   * Batch spending, with repeated or unknown inputs allowed: the returned list names no coin twice
   * and exactly the requested coins that were available; the available total falls by its sum; and
   * every other coin is left as it was.
   */
  lemma BatchSpend(m: Contents, keys: seq<Key>, txid: string)
    requires Ordered(m)
    ensures NoCoinTwice(AfterSpend(m, keys, txid).1)
    ensures forall k :: (exists c :: c in AfterSpend(m, keys, txid).1 && c.Id() == k)
                   <==> k in keys && k in m.utxos && m.utxos[k].Available()
    ensures var (n, spent) := AfterSpend(m, keys, txid);
      && n.utxos.Keys == m.utxos.Keys
      && SumOver(n.utxos, AvailableKeys(n)) == SumOver(m.utxos, AvailableKeys(m)) - SumCoins(spent)
      && (forall k | k in m.utxos && !(k in keys && m.utxos[k].Available()) :: n.utxos[k] == m.utxos[k])
      && (forall c | c in spent :: n.utxos[c.Id()] == c && !c.Available())
  {
    var spender := if txid == "" then "browser-spend" else txid;
    SpentListDistinct(m, keys, spender);
    SpentListValue(m, keys, spender);
    SpendMarks(m, keys, spender);
    SpendReturns(m, keys, spender);
    var (n, spent) := SpendAll(m, keys, spender);
    assert AvailableKeys(AfterSpend(m, keys, txid).0) == AvailableKeys(n);
    forall k ensures (exists c :: c in spent && c.Id() == k) <==> k in keys && k in m.utxos && m.utxos[k].Available() {
      if k in keys && k in m.utxos && m.utxos[k].Available() {
        assert n.utxos[k] in spent && n.utxos[k].Id() == k;
      }
    }
  }

  // ---- loading ----

  ghost predicate Recorded(coins: seq<Coin>, k: Key) { exists c :: c in coins && c.Id() == k }

  ghost predicate RecordedAt(coins: seq<Coin>, k: Key, a: string) {
    exists c :: c in coins && c.Id() == k && c.address == a
  }

  lemma RecordedNext(front: seq<Coin>, c: Coin)
    ensures forall k :: Recorded(front + [c], k) <==> Recorded(front, k) || c.Id() == k
    ensures forall k, a :: RecordedAt(front + [c], k, a) <==> RecordedAt(front, k, a) || (c.Id() == k && c.address == a)
  {
    assert c in front + [c];
  }

  lemma {:induction false} LoadOrder(m: Contents, coins: seq<Coin>)
    requires Ordered(m)
    ensures Ordered(LoadAll(m, coins))
  {
    if coins == [] {
    } else {
      var front, c := coins[..|coins| - 1], coins[|coins| - 1];
      LoadOrder(m, front);
      InsertOnce(LoadAll(m, front).order, c.Id());
      hide NoRepeats, LoadAll, Insert;
    }
  }

  lemma {:induction false} LoadPuts(m: Contents, coins: seq<Coin>)
    ensures forall k :: k in LoadAll(m, coins).utxos <==> k in m.utxos || Recorded(coins, k)
    ensures forall k | Recorded(coins, k) :: LoadAll(m, coins).utxos[k] in coins && LoadAll(m, coins).utxos[k].Id() == k
    ensures forall k | k in m.utxos && !Recorded(coins, k) :: LoadAll(m, coins).utxos[k] == m.utxos[k]
  {
    if coins == [] {
    } else {
      var front, c := coins[..|coins| - 1], coins[|coins| - 1];
      assert coins == front + [c];
      LoadPuts(m, front);
      RecordedNext(front, c);
      hide Recorded;
    }
  }

  /** Loading only ever adds index entries: one for each record, under the record's own address. */
  lemma {:induction false} LoadIndexes(m: Contents, coins: seq<Coin>, a: string)
    requires NoRepeats(IndexedKeys(m.index, a))
    ensures NoRepeats(IndexedKeys(LoadAll(m, coins).index, a))
    ensures forall k :: k in IndexedKeys(LoadAll(m, coins).index, a)
                   <==> k in IndexedKeys(m.index, a) || RecordedAt(coins, k, a)
  {
    if coins == [] {
    } else {
      var front, c := coins[..|coins| - 1], coins[|coins| - 1];
      assert coins == front + [c];
      LoadIndexes(m, front, a);
      InsertOnce(IndexedKeys(LoadAll(m, front).index, a), c.Id());
      RecordedNext(front, c);
      hide NoRepeats, RecordedAt, Insert;
    }
  }

  /** The last record of its coin. */
  ghost predicate IsLast(coins: seq<Coin>, j: nat)
    requires j < |coins|
  {
    forall i | j < i < |coins| :: coins[i].Id() != coins[j].Id()
  }

  /**
   * No record moves a coin: the last record of each coin names the address the coin has already, and
   * the one each earlier record names, as far as these are not empty.
   */
  ghost predicate AddressesKept(m: Contents, coins: seq<Coin>) {
    forall j | 0 <= j < |coins| && IsLast(coins, j) ::
      var (k, a) := (coins[j].Id(), coins[j].address);
      && (k in m.utxos && m.utxos[k].address != "" ==> m.utxos[k].address == a)
      && forall i | 0 <= i < j && coins[i].Id() == k && coins[i].address != "" :: coins[i].address == a
  }

  lemma {:induction false} LastRecordWins(m: Contents, coins: seq<Coin>, j: nat)
    requires j < |coins| && IsLast(coins, j)
    ensures coins[j].Id() in LoadAll(m, coins).utxos && LoadAll(m, coins).utxos[coins[j].Id()] == coins[j]
  {
    var front := coins[..|coins| - 1];
    if j == |front| {
    } else {
      assert coins[|front|].Id() != coins[j].Id();
      assert front[j] == coins[j];
      assert IsLast(front, j);
      LastRecordWins(m, front, j);
    }
  }

  lemma {:induction false} HasLast(coins: seq<Coin>, i: nat) returns (j: nat)
    requires i < |coins|
    ensures i <= j < |coins| && IsLast(coins, j) && coins[j].Id() == coins[i].Id()
    decreases |coins| - i
  {
    if IsLast(coins, i) {
      j := i;
    } else {
      var next :| i < next < |coins| && coins[next].Id() == coins[i].Id();
      j := HasLast(coins, next);
    }
  }

  /** After loading, an address indexes what it did before and what was recorded under it. */
  lemma LoadedIndex(m: Contents, coins: seq<Coin>, a: string)
    requires Sound(m) && a != ""
    ensures NoRepeats(IndexedKeys(LoadAll(m, coins).index, a))
    ensures forall k :: k in IndexedKeys(LoadAll(m, coins).index, a)
                   <==> (k in m.utxos && m.utxos[k].address == a) || RecordedAt(coins, k, a)
  {
    hide NoRepeats, RecordedAt;
    LoadIndexes(m, coins, a);
  }

  /** Loading keeps the index right exactly when no record moves a coin to another address. */
  lemma LoadKeepsSound(m: Contents, coins: seq<Coin>)
    requires Sound(m)
    ensures Sound(LoadAll(m, coins)) <==> AddressesKept(m, coins)
  {
    LoadOrder(m, coins);
    if IndexAgrees(LoadAll(m, coins)) { SoundIsKept(m, coins); }
    if AddressesKept(m, coins) { KeptIsSound(m, coins); }
  }

  lemma SoundIsKept(m: Contents, coins: seq<Coin>)
    requires Sound(m) && IndexAgrees(LoadAll(m, coins))
    ensures AddressesKept(m, coins)
  {
    hide NoRepeats, IsLast;
    var n := LoadAll(m, coins);
    forall j | 0 <= j < |coins| && IsLast(coins, j)
      ensures var (k, a) := (coins[j].Id(), coins[j].address);
        && (k in m.utxos && m.utxos[k].address != "" ==> m.utxos[k].address == a)
        && forall i | 0 <= i < j && coins[i].Id() == k && coins[i].address != "" :: coins[i].address == a
    {
      var k := coins[j].Id();
      LastRecordWins(m, coins, j);
      if k in m.utxos && m.utxos[k].address != "" {
        LoadedIndex(m, coins, m.utxos[k].address);
        assert k in IndexedKeys(n.index, m.utxos[k].address);
      }
      forall i | 0 <= i < j && coins[i].Id() == k && coins[i].address != ""
        ensures coins[i].address == coins[j].address
      {
        LoadedIndex(m, coins, coins[i].address);
        assert coins[i] in coins && RecordedAt(coins, k, coins[i].address);
        assert k in IndexedKeys(n.index, coins[i].address);
      }
    }
  }

  /** What the index holds under an address is what the loaded coins say. */
  lemma KeptAt(m: Contents, coins: seq<Coin>, k: Key, a: string)
    requires AddressesKept(m, coins) && a != ""
    ensures (k in m.utxos && m.utxos[k].address == a) || RecordedAt(coins, k, a)
       <==> k in LoadAll(m, coins).utxos && LoadAll(m, coins).utxos[k].address == a
  {
    LoadPuts(m, coins);
    hide IsLast, LoadAll;
    if Recorded(coins, k) {
      var c :| c in coins && c.Id() == k;
      var i :| 0 <= i < |coins| && coins[i] == c;
      var j := HasLast(coins, i);
      LastRecordWins(m, coins, j);
      if RecordedAt(coins, k, a) {
        var d :| d in coins && d.Id() == k && d.address == a;
        var e :| 0 <= e < |coins| && coins[e] == d;
        var l := HasLast(coins, e);
        LastRecordWins(m, coins, l);
      }
      assert coins[j] in coins;
    } else {
      assert !RecordedAt(coins, k, a);
    }
  }

  lemma KeptIsSound(m: Contents, coins: seq<Coin>)
    requires Sound(m) && AddressesKept(m, coins)
    ensures IndexAgrees(LoadAll(m, coins))
  {
    var n := LoadAll(m, coins);
    hide NoRepeats, LoadAll, AddressesKept, RecordedAt;
    forall a | a != ""
      ensures NoRepeats(IndexedKeys(n.index, a))
      ensures forall k :: k in IndexedKeys(n.index, a) <==> k in n.utxos && n.utxos[k].address == a
    {
      LoadedIndex(m, coins, a);
      forall k ensures k in IndexedKeys(n.index, a) <==> k in n.utxos && n.utxos[k].address == a {
        KeptAt(m, coins, k, a);
      }
    }
  }

  /** Two records of one coin under two addresses: the old address goes on counting the coin. */
  lemma MovedCoinCountsTwice(c: Coin, a: string)
    requires c.Available() && c.address != "" && a != "" && a != c.address
    ensures var n := AfterLoad(EMPTY, Some(Saved([c.(address := a), c], None)));
      && Balance(n, c.address) == c.satoshis && SumOver(n.utxos, AvailableAt(n, c.address)) == c.satoshis
      && Balance(n, a) == c.satoshis && SumOver(n.utxos, AvailableAt(n, a)) == 0
  {
    hide LoadAll;
    var (b, k) := (c.(address := a), c.Id());
    LoadNext(EMPTY, [], b);
    LoadNext(EMPTY, [b], c);
    assert [] + [b] == [b] && [b] + [c] == [b, c];
    var n := LoadAll(EMPTY, [b, c]);
    TwoRecords(c, a, n);
    hide Put, WithIndex, Insert;
    assert AvailableAt(n, c.address) == {k} && AvailableAt(n, a) == {};
    SumOverPick(n.utxos, {k}, k);
    OneAvailable(n.utxos, k);
  }

  lemma TwoRecords(c: Coin, a: string, n: Contents)
    requires a != c.address
    requires var b := c.(address := a); n == WithIndex(Put(WithIndex(Put(EMPTY, b), b), c), c)
    ensures n.utxos == map[c.Id() := c]
    ensures IndexedKeys(n.index, a) == [c.Id()] && IndexedKeys(n.index, c.address) == [c.Id()]
  {}

  lemma LoadNext(m: Contents, coins: seq<Coin>, c: Coin)
    ensures LoadAll(m, []) == m
    ensures LoadAll(m, coins + [c]) == WithIndex(Put(LoadAll(m, coins), c), c)
  {
    assert (coins + [c])[..|coins|] == coins;
  }

  lemma OneAvailable(utxos: Coins, k: Key)
    requires k in utxos && utxos[k].Available()
    ensures SumCoins(AvailableAmong(utxos, [k])) == utxos[k].satoshis
  {
    assert [k][..0] == [];
    assert AvailableAmong(utxos, [k]) == [utxos[k]];
    assert [utxos[k]][..0] == [];
  }

  // ---- runs ----

  datatype Op = Add(input: Input) | Spend(keys: seq<Key>, txid: string) | Import(data: Imported, merge: bool)
              | Load(item: Option<Stored>)

  function Step(m: Contents, op: Op): Contents {
    match op
    case Add(input) => if input.Usable() then AfterAdd(m, input.Fresh()).0 else m
    case Spend(keys, txid) => AfterSpend(m, keys, txid).0
    case Import(data, merge) => AfterImport(m, data, merge).0
    case Load(item) => AfterLoad(m, item)
  }

  function Run(m: Contents, ops: seq<Op>): Contents
    decreases |ops|
  {
    if ops == [] then m else Run(Step(m, ops[0]), ops[1..])
  }

  ghost predicate LoadsKeepAddresses(m: Contents, ops: seq<Op>)
    decreases |ops|
  {
    ops == [] ||
    ((ops[0].Load? && ops[0].item.Some? && ops[0].item.value.Saved? ==> AddressesKept(m, ops[0].item.value.coins))
     && LoadsKeepAddresses(Step(m, ops[0]), ops[1..]))
  }

  /** After any run, loads that move no coin included, every balance is the sum a full scan finds. */
  lemma {:induction false} RunBalances(m: Contents, ops: seq<Op>, address: string)
    requires Sound(m) && LoadsKeepAddresses(m, ops) && address != ""
    ensures Sound(Run(m, ops))
    ensures Balance(Run(m, ops), address) == SumOver(Run(m, ops).utxos, AvailableAt(Run(m, ops), address))
    decreases |ops|
  {
    BalanceIsScan(m, address);
    if ops == [] {
    } else {
      StepKeepsSound(m, ops[0]);
      hide Sound, Step;
      RunBalances(Step(m, ops[0]), ops[1..], address);
    }
  }

  lemma StepKeepsSound(m: Contents, op: Op)
    requires Sound(m)
    requires op.Load? && op.item.Some? && op.item.value.Saved? ==> AddressesKept(m, op.item.value.coins)
    ensures Sound(Step(m, op))
  {
    hide Sound, AfterAdd, AfterSpend, AfterImport, LoadAll, AddressesKept;
    match op
    case Add(input) => if input.Usable() { AddKeepsSound(m, input.Fresh()); }
    case Spend(keys, txid) => SpendKeepsSound(m, keys, txid);
    case Import(data, merge) => ImportKeepsSound(m, data, merge);
    case Load(item) =>
      if item.Some? && item.value.Saved? {
        LoadKeepsSound(m, item.value.coins);
        TotalsDoNotMatter(LoadAll(m, item.value.coins), AfterLoad(m, item).metadata);
      }
  }

  lemma TotalsDoNotMatter(m: Contents, metadata: Totals)
    ensures Sound(m.(metadata := metadata)) <==> Sound(m)
  {
    hide NoRepeats;
    assert IndexAgrees(m.(metadata := metadata)) <==> IndexAgrees(m);
  }

  /** An item that is missing, unreadable or without coins changes nothing; one without totals leaves them. */
  lemma LoadsNothing(m: Contents, coins: seq<Coin>)
    ensures AfterLoad(m, None) == m && AfterLoad(m, Some(Unreadable)) == m && AfterLoad(m, Some(NoCoins)) == m
    ensures AfterLoad(m, Some(Saved(coins, None))).metadata == m.metadata
    ensures AfterLoad(m, Some(Saved(coins, None))).spentUTXOs == m.spentUTXOs
  {
    LoadLeavesRest(m, coins);
  }

  lemma {:induction false} LoadLeavesRest(m: Contents, coins: seq<Coin>)
    ensures LoadAll(m, coins).metadata == m.metadata && LoadAll(m, coins).spentUTXOs == m.spentUTXOs
  {
    if coins == [] {
    } else {
      LoadLeavesRest(m, coins[..|coins| - 1]);
    }
  }

  // ---- saving, then loading into a fresh manager ----

  lemma {:induction false} ValuesAreListed(utxos: Coins, order: seq<Key>)
    requires forall k | k in order :: k in utxos && utxos[k].Id() == k
    ensures forall c | c in Values(utxos, order) :: c.Id() in order && c == utxos[c.Id()]
  {
    if order == [] {
    } else {
      ValuesAreListed(utxos, order[..|order| - 1]);
      assert order == order[..|order| - 1] + [order[|order| - 1]];
    }
  }

  function Restrict(utxos: Coins, order: seq<Key>): Coins { map k | k in order && k in utxos :: utxos[k] }

  lemma RestrictNext(utxos: Coins, front: seq<Key>, k: Key)
    requires k in utxos
    ensures Restrict(utxos, front + [k]) == Restrict(utxos, front)[k := utxos[k]]
  {}

  lemma {:induction false} LoadValues(utxos: Coins, order: seq<Key>)
    requires NoRepeats(order) && forall k | k in order :: k in utxos && utxos[k].Id() == k
    ensures LoadAll(EMPTY, Values(utxos, order)).order == order
    ensures LoadAll(EMPTY, Values(utxos, order)).utxos == Restrict(utxos, order)
    ensures LoadAll(EMPTY, Values(utxos, order)).spentUTXOs == map[]
  {
    if order == [] {
    } else {
      var front, k := order[..|order| - 1], order[|order| - 1];
      assert order == front + [k] && k !in front;
      LoadValues(utxos, front);
      hide NoRepeats, Restrict, LoadAll;
      LoadOneMore(EMPTY, Values(utxos, front), utxos[k]);
      RestrictNext(utxos, front, k);
      assert Values(utxos, order) == Values(utxos, front) + [utxos[k]];
    }
  }

  lemma LoadOneMore(m: Contents, coins: seq<Coin>, c: Coin)
    ensures var before, after := LoadAll(m, coins), LoadAll(m, coins + [c]);
      && after.order == Insert(before.order, c.Id()) && after.utxos == before.utxos[c.Id() := c]
      && after.spentUTXOs == before.spentUTXOs
  {
    assert (coins + [c])[..|coins|] == coins;
  }

  lemma LoadedCoins(m: Contents)
    requires Ordered(m)
    ensures var n := LoadAll(EMPTY, Values(m.utxos, m.order));
      && n.order == m.order && n.utxos == m.utxos && n.spentUTXOs == map[]
      && AddressesKept(EMPTY, Values(m.utxos, m.order))
  {
    hide NoRepeats, Values, LoadAll;
    LoadValues(m.utxos, m.order);
    ValuesAreListed(m.utxos, m.order);
    assert Restrict(m.utxos, m.order) == m.utxos;
  }

  lemma SaveThenLoadCoins(m: Contents)
    requires Sound(m)
    ensures var n := AfterLoad(EMPTY, Some(ToSave(m)));
      && n.order == m.order && n.utxos == m.utxos && n.metadata == m.metadata && n.spentUTXOs == map[] && Sound(n)
  {
    var coins := Values(m.utxos, m.order);
    LoadedCoins(m);
    EmptyIsSound();
    LoadKeepsSound(EMPTY, coins);
    TotalsDoNotMatter(LoadAll(EMPTY, coins), m.metadata);
    hide Sound, LoadAll, Values, AddressesKept;
  }

  lemma EmptyIsSound()
    ensures Sound(EMPTY)
  {}

  /**
   * Saving and loading into a fresh manager restores every coin with its status, the order, the
   * totals and the balance of every address but the empty one; the spent map is not restored.
   */
  lemma SaveThenLoad(m: Contents, address: string)
    requires Sound(m) && address != ""
    ensures var n := AfterLoad(EMPTY, Some(ToSave(m)));
      && n.order == m.order && n.utxos == m.utxos && n.metadata == m.metadata && Sound(n)
      && Balance(n, address) == Balance(m, address)
    ensures AfterLoad(EMPTY, Some(ToSave(m))).spentUTXOs == m.spentUTXOs <==> m.spentUTXOs == map[]
  {
    var n := AfterLoad(EMPTY, Some(ToSave(m)));
    SaveThenLoadCoins(m);
    hide Ordered, NoRepeats, ToSave, AfterLoad;
    BalanceIsScan(m, address);
    BalanceIsScan(n, address);
    assert AvailableAt(m, address) == AvailableAt(n, address);
  }

  // ---- the recorded totals ----

  predicate TotalsCurrent(m: Contents) { m.metadata == Totals(|m.order|, TotalValue(m.utxos, m.order)) }

  lemma {:induction false} ImportLoopTotals(m: Contents, inputs: seq<Input>)
    ensures AddWhileUsable(m, inputs).0 == m || TotalsCurrent(AddWhileUsable(m, inputs).0)
    ensures inputs != [] && !inputs[0].Usable() ==> AddWhileUsable(m, inputs) == (m, false)
    ensures inputs != [] && inputs[0].Usable() && m.utxos == map[] ==> AddWhileUsable(m, inputs).0.utxos != map[]
  {
    if inputs == [] {
    } else {
      var front, last := inputs[..|inputs| - 1], inputs[|inputs| - 1];
      ImportLoopTotals(m, front);
      var (before, ok) := AddWhileUsable(m, front);
      if |inputs| == 1 { assert front == []; } else { assert front[0] == inputs[0]; }
      if ok && last.Usable() {
        assert last.Fresh().Id() in AfterAdd(before, last.Fresh()).0.utxos;
      }
    }
  }

  /**
   * A replacing import clears the coins but not the recorded totals, so the totals are right after
   * it only if some coin was added, or they were zero before.
   */
  lemma ImportTotals(m: Contents, data: Imported, merge: bool)
    requires TotalsCurrent(m)
    ensures TotalsCurrent(AfterImport(m, data, merge).0)
       <==> data.NotJson? || merge || m.metadata == Totals(0, 0)
            || (data.List? && data.inputs != [] && data.inputs[0].Usable())
  {
    if !data.NotJson? {
      var cleared := Cleared(m, merge);
      if data.List? { ImportLoopTotals(cleared, data.inputs); }
    }
  }
  // ---- what an import saves ----

  /** The usable inputs up to the first unusable one. */
  ghost predicate Reached(inputs: seq<Input>, i: nat)
    requires i < |inputs|
  {
    forall j | 0 <= j <= i :: inputs[j].Usable()
  }

  lemma {:induction false} LoopGoesOn(m: Contents, inputs: seq<Input>)
    ensures AddWhileUsable(m, inputs).1 <==> inputs == [] || Reached(inputs, |inputs| - 1)
    ensures !AddsCoin(m, inputs) ==> AddWhileUsable(m, inputs).0 == m
  {
    if inputs == [] {
    } else {
      var front := inputs[..|inputs| - 1];
      LoopGoesOn(m, front);
      assert forall j | 0 <= j < |front| :: inputs[j] == front[j];
    }
  }

  /** The loop adds a coin exactly when it reaches an input whose coin is not there at the start. */
  lemma {:induction false} AddsCoinWhen(m: Contents, inputs: seq<Input>)
    ensures AddsCoin(m, inputs)
       <==> exists i :: 0 <= i < |inputs| && Reached(inputs, i) && inputs[i].Fresh().Id() !in m.utxos
  {
    if inputs == [] {
    } else {
      var n := |inputs| - 1;
      var front := inputs[..n];
      AddsCoinWhen(m, front);
      LoopGoesOn(m, front);
      assert forall i | 0 <= i < n :: inputs[i] == front[i];
      assert forall i | 0 <= i < n :: Reached(inputs, i) <==> Reached(front, i);
      hide Reached;
      if exists i :: 0 <= i < n && Reached(front, i) && front[i].Fresh().Id() !in m.utxos {
        var i :| 0 <= i < n && Reached(front, i) && front[i].Fresh().Id() !in m.utxos;
        assert Reached(inputs, i);
      } else {
        LastInput(m, inputs);
      }
    }
  }

  lemma LastInput(m: Contents, inputs: seq<Input>)
    requires inputs != [] && !AddsCoin(m, inputs[..|inputs| - 1])
    ensures AddsCoin(m, inputs)
       <==> Reached(inputs, |inputs| - 1) && inputs[|inputs| - 1].Fresh().Id() !in m.utxos
  {
    var front, last := inputs[..|inputs| - 1], inputs[|inputs| - 1];
    LoopGoesOn(m, front);
    ReachedNext(inputs);
    hide Reached, AddWhileUsable, Put, WithIndex, Refreshed;
    assert AddsCoin(m, inputs) <==> AddWhileUsable(m, front).1 && last.Usable() && AfterAdd(m, last.Fresh()).1;
  }

  lemma ReachedNext(inputs: seq<Input>)
    requires inputs != []
    ensures var n := |inputs| - 1;
      Reached(inputs, n) <==> (n == 0 || Reached(inputs[..n], n - 1)) && inputs[n].Usable()
  {
    var n := |inputs| - 1;
    assert forall j | 0 <= j < n :: inputs[j] == inputs[..n][j];
  }

  /**
   * What a fresh manager finds after an import under automatic saving from a saved state: the
   * imported coins if the import added one, and otherwise the coins from before it, which a replacing
   * import has cleared only in memory.
   */
  lemma ImportThenLoad(m: Contents, data: Imported, merge: bool)
    requires Sound(m)
    ensures var n := AfterImport(m, data, merge).0;
      var item := Some(ToSave(if ImportSaves(m, data, merge) then n else m));
      AfterLoad(EMPTY, item).utxos == n.utxos
      <==> ImportSaves(m, data, merge) || merge || data.NotJson? || m.utxos == map[]
  {
    var n := AfterImport(m, data, merge).0;
    ImportKeepsSound(m, data, merge);
    SaveThenLoadCoins(m);
    SaveThenLoadCoins(n);
    hide Sound, AfterLoad, ToSave;
    if data.List? { LoopGoesOn(Cleared(m, merge), data.inputs); }
  }

  /** A replacing import adds a coin, and so saves, exactly when its first input is usable. */
  lemma ReplacingImportSaves(m: Contents, data: Imported)
    ensures ImportSaves(m, data, false) <==> data.List? && data.inputs != [] && data.inputs[0].Usable()
  {
    if data.List? {
      AddsCoinWhen(Cleared(m, false), data.inputs);
      assert data.inputs != [] ==> (data.inputs[0].Usable() <==> Reached(data.inputs, 0));
    }
  }

  // ---- what the coins hold ----

  /** The list for an address holds exactly its available coins, each once. */
  lemma ListIsScan(m: Contents, address: string)
    requires Sound(m) && address != ""
    ensures forall c :: c in UTXOsForAddress(m, address)
                   <==> c.Id() in m.utxos && m.utxos[c.Id()] == c && c.status == "available" && c.address == address
    ensures NoCoinTwice(UTXOsForAddress(m, address))
  {
    AvailableAmongIs(m, IndexedKeys(m.index, address));
  }

  lemma {:induction false} AvailableAmongIs(m: Contents, keys: seq<Key>)
    requires Ordered(m) && NoRepeats(keys)
    ensures forall c :: c in AvailableAmong(m.utxos, keys)
                   <==> c.Id() in keys && c.Id() in m.utxos && m.utxos[c.Id()] == c && c.status == "available"
    ensures NoCoinTwice(AvailableAmong(m.utxos, keys))
  {
    if keys == [] {
    } else {
      var front, k := keys[..|keys| - 1], keys[|keys| - 1];
      assert keys == front + [k] && k !in front;
      AvailableAmongIs(m, front);
      var rest := AvailableAmong(m.utxos, front);
      assert forall i | 0 <= i < |rest| :: rest[i] in rest;
      hide NoRepeats;
    }
  }

  ghost function Members(order: seq<Key>): set<Key> { set k | k in order }

  lemma MembersNext(order: seq<Key>)
    requires NoRepeats(order) && order != []
    ensures var (front, k) := (order[..|order| - 1], order[|order| - 1]);
      && NoRepeats(front) && k !in Members(front) && k in Members(order) && Members(order) - {k} == Members(front)
      && |Members(order)| == |Members(front)| + 1
  {
    var (front, k) := (order[..|order| - 1], order[|order| - 1]);
    assert order == front + [k];
    assert Members(order) - {k} == Members(front) && Members(order) == Members(front) + {k};
  }

  /** The total counts every coin of the map once. */
  lemma TotalIsSum(m: Contents)
    requires Ordered(m)
    ensures TotalValue(m.utxos, m.order) == SumOver(m.utxos, m.utxos.Keys) && |m.order| == |m.utxos|
  {
    TotalAlong(m.utxos, m.order);
    assert Members(m.order) == m.utxos.Keys;
    assert |m.utxos| == |m.utxos.Keys|;
  }

  lemma {:induction false} TotalAlong(utxos: Coins, order: seq<Key>)
    requires NoRepeats(order) && forall k | k in order :: k in utxos
    ensures Members(order) <= utxos.Keys && |Members(order)| == |order|
    ensures TotalValue(utxos, order) == SumOver(utxos, Members(order))
  {
    if order == [] {
      assert Members(order) == {};
    } else {
      var (front, k) := (order[..|order| - 1], order[|order| - 1]);
      MembersNext(order);
      assert k in order && order == front + [k];
      hide NoRepeats, SumOver;
      TotalAlong(utxos, front);
      assert Members(order) == Members(front) + {k};
      SumOverPick(utxos, Members(order), k);
    }
  }

  /** The coin that a usable input describes. */
  ghost predicate Describes(input: Input, c: Coin)
    requires input.Usable()
  {
    && c.txid == input.txid && c.vout == input.vout.value && c.address == input.address
    && c.satoshis == input.satoshis && c.script == input.script
    && c.status == "available" && c.spentInTx == None
  }

  /** Adding a new coin: it is there as described, at the end of the order, and the total rises by its amount. */
  lemma AddedCoin(m: Contents, input: Input)
    requires Sound(m) && input.Usable() && Key(input.txid, input.vout.value) !in m.utxos
    ensures AfterAdd(m, input.Fresh()).1
    ensures var (n, k) := (AfterAdd(m, input.Fresh()).0, Key(input.txid, input.vout.value));
      && n.order == m.order + [k] && n.utxos.Keys == m.utxos.Keys + {k} && Describes(input, n.utxos[k])
      && (forall j | j in m.utxos :: n.utxos[j] == m.utxos[j]) && n.spentUTXOs == m.spentUTXOs
      && n.metadata == Totals(|m.utxos| + 1, SumOver(m.utxos, m.utxos.Keys) + input.satoshis)
  {
    hide AfterAdd, Sound, Ordered, IndexAgrees, TotalValue, SumOver, Input.Fresh, Describes;
    var (n, c) := (AfterAdd(m, input.Fresh()).0, input.Fresh());
    FreshDescribes(input);
    AddKeepsSound(m, c);
    SoundParts(m);
    SoundParts(n);
    AddedContents(m, c);
    AddedTotals(m, n, c);
    OneMore(m.utxos, c);
  }

  lemma FreshDescribes(input: Input)
    requires input.Usable()
    ensures input.Fresh().Id() == Key(input.txid, input.vout.value) && Describes(input, input.Fresh())
    ensures input.Fresh().satoshis == input.satoshis
  {}

  lemma OneMore(utxos: Coins, c: Coin)
    requires c.Id() !in utxos
    ensures var more := utxos[c.Id() := c];
      more.Keys == utxos.Keys + {c.Id()} && more[c.Id()] == c && forall j | j in utxos :: more[j] == utxos[j]
  {}

  /** The balance of its address rises by its amount, and no other balance changes. */
  lemma AddedCoinBalance(m: Contents, input: Input, address: string)
    requires Sound(m) && input.Usable() && Key(input.txid, input.vout.value) !in m.utxos && address != ""
    ensures Balance(AfterAdd(m, input.Fresh()).0, address)
         == Balance(m, address) + if address == input.address then input.satoshis else 0
  {
    hide AfterAdd, Sound, Ordered, IndexAgrees, TotalValue, Balance;
    var (n, c) := (AfterAdd(m, input.Fresh()).0, input.Fresh());
    AddKeepsSound(m, c);
    SoundParts(m);
    SoundParts(n);
    AddedContents(m, c);
    AddedBalance(m, n, c, address);
  }

  lemma SoundParts(m: Contents)
    requires Sound(m)
    ensures Ordered(m) && IndexAgrees(m)
  {}

  lemma AddedContents(m: Contents, c: Coin)
    requires Ordered(m) && c.Id() !in m.utxos
    ensures AfterAdd(m, c).1
    ensures var n := AfterAdd(m, c).0;
      && n.order == m.order + [c.Id()] && n.utxos == m.utxos[c.Id() := c] && n.spentUTXOs == m.spentUTXOs
      && n.metadata == Totals(|n.order|, TotalValue(n.utxos, n.order))
  {
    hide NoRepeats, TotalValue, IndexedKeys;
  }

  lemma AddedTotals(m: Contents, n: Contents, c: Coin)
    requires Ordered(m) && Ordered(n) && c.Id() !in m.utxos && n.utxos == m.utxos[c.Id() := c]
    ensures |n.order| == |m.utxos| + 1
    ensures TotalValue(n.utxos, n.order) == SumOver(m.utxos, m.utxos.Keys) + c.satoshis
  {
    TotalIsSum(n);
    hide Ordered, TotalValue, SumOver;
    SumWithOneMore(m.utxos, c.Id(), c);
    CountWithOneMore(m.utxos, c.Id(), c);
  }

  lemma SumWithOneMore(utxos: Coins, k: Key, c: Coin)
    requires k !in utxos
    ensures var more := utxos[k := c]; SumOver(more, more.Keys) == SumOver(utxos, utxos.Keys) + c.satoshis
  {
    var more := utxos[k := c];
    hide SumOver;
    SumOverPick(more, more.Keys, k);
    SumOverSame(utxos, more, utxos.Keys);
    assert more.Keys - {k} == utxos.Keys;
  }

  lemma CountWithOneMore(utxos: Coins, k: Key, c: Coin)
    requires k !in utxos
    ensures |utxos[k := c]| == |utxos| + 1
  {}

  lemma AddedBalance(m: Contents, n: Contents, c: Coin, address: string)
    requires IndexAgrees(m) && IndexAgrees(n) && c.Id() !in m.utxos && n.utxos == m.utxos[c.Id() := c]
    requires c.Available() && address != ""
    ensures Balance(n, address) == Balance(m, address) + if address == c.address then c.satoshis else 0
  {
    BalanceIsScan(m, address);
    BalanceIsScan(n, address);
    hide IndexAgrees, Balance;
    SumOverSame(m.utxos, n.utxos, AvailableAt(m, address));
    if address == c.address {
      assert AvailableAt(n, address) - {c.Id()} == AvailableAt(m, address);
      SumOverPick(n.utxos, AvailableAt(n, address), c.Id());
    } else {
      assert AvailableAt(n, address) == AvailableAt(m, address);
    }
  }

  /** A coin that is there already is left as it is, whatever the input says. */
  lemma KnownCoin(m: Contents, input: Input)
    requires input.Usable() && Key(input.txid, input.vout.value) in m.utxos
    ensures AfterAdd(m, input.Fresh()) == (m, false)
  {}

  ghost function KeyAt(inputs: seq<Input>, i: nat): Key
    requires i < |inputs| && inputs[i].Usable()
  {
    Key(inputs[i].txid, inputs[i].vout.value)
  }

  /** The loop reaches input `i`, and it is the first to name its coin, which is not there at the start. */
  ghost predicate Brings(m: Contents, inputs: seq<Input>, i: nat)
    requires i < |inputs|
  {
    && Reached(inputs, i) && KeyAt(inputs, i) !in m.utxos
    && forall j | 0 <= j < i :: KeyAt(inputs, j) != KeyAt(inputs, i)
  }

  lemma BringsFront(m: Contents, inputs: seq<Input>, i: nat)
    requires i < |inputs| - 1
    ensures Brings(m, inputs, i) <==> Brings(m, inputs[..|inputs| - 1], i)
    ensures Reached(inputs, i) <==> Reached(inputs[..|inputs| - 1], i)
  {
    var front := inputs[..|inputs| - 1];
    assert forall j | 0 <= j <= i :: inputs[j] == front[j];
    assert forall j | 0 <= j <= i && inputs[j].Usable() :: KeyAt(inputs, j) == KeyAt(front, j);
  }

  lemma AddLeaves(m: Contents, c: Coin, k: Key)
    ensures k in m.utxos ==> k in AfterAdd(m, c).0.utxos && AfterAdd(m, c).0.utxos[k] == m.utxos[k]
    ensures k !in m.utxos ==> (k in AfterAdd(m, c).0.utxos <==> k == c.Id())
    ensures k !in m.utxos && k == c.Id() ==> AfterAdd(m, c).0.utxos[k] == c
  {
    hide TotalValue, IndexedKeys, Insert;
  }

  lemma ImportNext(m: Contents, inputs: seq<Input>)
    requires inputs != []
    ensures var (last, before) := (inputs[|inputs| - 1], AddWhileUsable(m, inputs[..|inputs| - 1]).0);
      AddWhileUsable(m, inputs).0
      == if Reached(inputs, |inputs| - 1) then AfterAdd(before, last.Fresh()).0 else before
  {
    LoopGoesOn(m, inputs[..|inputs| - 1]);
    ReachedNext(inputs);
    hide AfterAdd;
  }

  /** An import loop leaves every coin there before as it is. */
  lemma {:induction false} ImportKeeps(m: Contents, inputs: seq<Input>, k: Key)
    requires k in m.utxos
    ensures k in AddWhileUsable(m, inputs).0.utxos && AddWhileUsable(m, inputs).0.utxos[k] == m.utxos[k]
  {
    if inputs == [] {
    } else {
      var last := |inputs| - 1;
      ImportNext(m, inputs);
      ImportKeeps(m, inputs[..last], k);
      if Reached(inputs, last) { AddLeaves(AddWhileUsable(m, inputs[..last]).0, inputs[last].Fresh(), k); }
    }
  }

  /** A coin that was not there before was brought by some input. */
  lemma {:induction false} ImportBringsOnly(m: Contents, inputs: seq<Input>, k: Key)
    requires k !in m.utxos
    ensures k in AddWhileUsable(m, inputs).0.utxos <==> BroughtBy(m, inputs, k, |inputs|)
  {
    if inputs == [] {
    } else {
      var last := |inputs| - 1;
      var front := inputs[..last];
      ImportNext(m, inputs);
      ImportBringsOnly(m, front, k);
      if Reached(inputs, last) { AddLeaves(AddWhileUsable(m, front).0, inputs[last].Fresh(), k); }
      hide AddWhileUsable, AfterAdd, BroughtBy, Brings, Reached;
      LastBrings(m, inputs, k);
    }
  }

  /** `k` is brought by one of the first `n` inputs. */
  ghost predicate BroughtBy(m: Contents, inputs: seq<Input>, k: Key, n: nat)
    requires n <= |inputs|
  {
    exists i :: 0 <= i < n && Brings(m, inputs, i) && KeyAt(inputs, i) == k
  }

  lemma LastBrings(m: Contents, inputs: seq<Input>, k: Key)
    requires inputs != [] && k !in m.utxos
    ensures var last := |inputs| - 1;
      BroughtBy(m, inputs, k, |inputs|)
      <==> BroughtBy(m, inputs[..last], k, last) || (Reached(inputs, last) && KeyAt(inputs, last) == k)
  {
    var last := |inputs| - 1;
    if BroughtBy(m, inputs, k, |inputs|) {
      var i: nat :| i < |inputs| && Brings(m, inputs, i) && KeyAt(inputs, i) == k;
      if i < last {
        BringsFront(m, inputs, i);
        assert Brings(m, inputs[..last], i) && KeyAt(inputs[..last], i) == k;
      }
    }
    if BroughtBy(m, inputs[..last], k, last) {
      var i: nat :| i < last && Brings(m, inputs[..last], i) && KeyAt(inputs[..last], i) == k;
      BringsFront(m, inputs, i);
      assert Brings(m, inputs, i) && KeyAt(inputs, i) == k;
    }
    if Reached(inputs, last) && KeyAt(inputs, last) == k {
      var i := FirstWith(inputs, last, k);
      assert Brings(m, inputs, i) && KeyAt(inputs, i) == k;
    }
  }

  lemma {:induction false} FirstWith(inputs: seq<Input>, i: nat, k: Key) returns (first: nat)
    requires i < |inputs| && Reached(inputs, i) && KeyAt(inputs, i) == k
    ensures first <= i && Reached(inputs, first) && KeyAt(inputs, first) == k
    ensures forall j | 0 <= j < first :: KeyAt(inputs, j) != k
  {
    if j :| 0 <= j < i && KeyAt(inputs, j) == k {
      first := FirstWith(inputs, j, k);
    } else {
      first := i;
    }
  }

  /** A coin that is brought is there as its first input describes it. */
  lemma {:induction false} ImportedCoin(m: Contents, inputs: seq<Input>, i: nat)
    requires i < |inputs| && Brings(m, inputs, i)
    ensures KeyAt(inputs, i) in AddWhileUsable(m, inputs).0.utxos
    ensures Describes(inputs[i], AddWhileUsable(m, inputs).0.utxos[KeyAt(inputs, i)])
  {
    var last := |inputs| - 1;
    var (front, k) := (inputs[..last], KeyAt(inputs, i));
    var before := AddWhileUsable(m, front).0;
    ImportNext(m, inputs);
    if i < last {
      BringsFront(m, inputs, i);
      ImportedCoin(m, front, i);
    } else {
      KnownBefore(m, inputs);
    }
    hide AddWhileUsable;
    if Reached(inputs, last) { AddLeaves(before, inputs[last].Fresh(), k); }
  }

  /** What an import adds to the balance of an address: the amounts of the coins it brings there. */
  ghost function Brought(m: Contents, inputs: seq<Input>, n: nat, address: string): int
    requires n <= |inputs|
  {
    if n == 0 then 0
    else
      Brought(m, inputs, n - 1, address)
      + if Brings(m, inputs, n - 1) && inputs[n - 1].address == address then inputs[n - 1].satoshis else 0
  }

  lemma {:induction false} BroughtFront(m: Contents, inputs: seq<Input>, n: nat, address: string)
    requires n < |inputs|
    ensures Brought(m, inputs, n, address) == Brought(m, inputs[..|inputs| - 1], n, address)
  {
    if n == 0 {
    } else {
      BringsFront(m, inputs, n - 1);
      BroughtFront(m, inputs, n - 1, address);
    }
  }

  lemma {:induction false} ImportBalance(m: Contents, inputs: seq<Input>, address: string)
    requires Sound(m) && address != ""
    ensures Balance(AddWhileUsable(m, inputs).0, address)
         == Balance(m, address) + Brought(m, inputs, |inputs|, address)
  {
    hide Sound, Balance;
    if inputs == [] {
    } else {
      var last := |inputs| - 1;
      var front := inputs[..last];
      var before := AddWhileUsable(m, front).0;
      ImportBalance(m, front, address);
      BroughtFront(m, inputs, last, address);
      ImportNext(m, inputs);
      ImportLoopKeepsSound(m, front);
      if Reached(inputs, last) {
        KnownBefore(m, inputs);
        if KeyAt(inputs, last) in before.utxos {
          KnownCoin(before, inputs[last]);
        } else {
          AddedCoinBalance(before, inputs[last], address);
        }
      }
    }
  }

  /** The last input of a loop is new when its turn comes exactly when it brings its coin. */
  lemma KnownBefore(m: Contents, inputs: seq<Input>)
    requires inputs != [] && Reached(inputs, |inputs| - 1)
    ensures var last := |inputs| - 1;
      Brings(m, inputs, last) <==> KeyAt(inputs, last) !in AddWhileUsable(m, inputs[..last]).0.utxos
  {
    var last := |inputs| - 1;
    var (front, k) := (inputs[..last], KeyAt(inputs, last));
    hide AddWhileUsable;
    assert forall j | 0 <= j < last && inputs[j].Usable() :: KeyAt(inputs, j) == KeyAt(front, j);
    if k in m.utxos {
      ImportKeeps(m, front, k);
    } else {
      ImportBringsOnly(m, front, k);
      if j :| 0 <= j < last && KeyAt(inputs, j) == k {
        var first := FirstWith(front, j, k);
        assert Brings(m, front, first) && KeyAt(front, first) == k;
      } else {
        assert Brings(m, inputs, last);
      }
    }
  }

  /** The answer of an import: whether every input was usable. */
  lemma ImportAnswer(m: Contents, data: Imported, merge: bool)
    ensures AfterImport(m, data, merge).1
       <==> data.NoList? || (data.List? && forall i | 0 <= i < |data.inputs| :: data.inputs[i].Usable())
  {
    if data.List? { LoopGoesOn(Cleared(m, merge), data.inputs); }
  }

  /** Every coin returned, and every one newly recorded as spent, names the transaction, or the default. */
  lemma SpentInName(m: Contents, keys: seq<Key>, txid: string)
    requires Ordered(m)
    ensures var (n, spent) := AfterSpend(m, keys, txid);
      var name := if txid == "" then "browser-spend" else txid;
      && (forall c | c in spent :: c.status == "spent" && c.spentInTx == Some(name))
      && (forall k :: k in n.spentUTXOs
                 <==> k in m.spentUTXOs || (k in keys && k in m.utxos && m.utxos[k].Available()))
      && (forall k | k in keys && k in m.utxos && m.utxos[k].Available() :: n.spentUTXOs[k] == name)
      && (forall k | k in m.spentUTXOs && !(k in keys && k in m.utxos && m.utxos[k].Available()) ::
            n.spentUTXOs[k] == m.spentUTXOs[k])
  {
    var name := if txid == "" then "browser-spend" else txid;
    SpendMarks(m, keys, name);
    SpendReturns(m, keys, name);
    SpentMap(m, keys, name);
  }

  lemma {:induction false} SpentMap(m: Contents, keys: seq<Key>, txid: string)
    ensures var n := SpendAll(m, keys, txid).0;
      && (forall k :: k in n.spentUTXOs
                 <==> k in m.spentUTXOs || (k in keys && k in m.utxos && m.utxos[k].Available()))
      && (forall k | k in keys && k in m.utxos && m.utxos[k].Available() :: n.spentUTXOs[k] == txid)
      && (forall k | k in m.spentUTXOs && !(k in keys && k in m.utxos && m.utxos[k].Available()) ::
            n.spentUTXOs[k] == m.spentUTXOs[k])
  {
    if keys == [] {
    } else {
      var front, k := keys[..|keys| - 1], keys[|keys| - 1];
      assert keys == front + [k];
      SpentMap(m, front, txid);
      SpendMarks(m, front, txid);
    }
  }

  /** The place a key is first named at. */
  function FirstAt(keys: seq<Key>, k: Key): nat
    requires k in keys
  {
    if k in keys[..|keys| - 1] then FirstAt(keys[..|keys| - 1], k) else |keys| - 1
  }

  ghost predicate InOrder(keys: seq<Key>, spent: seq<Coin>) {
    && (forall c | c in spent :: c.Id() in keys)
    && forall a, b | 0 <= a < b < |spent| :: FirstAt(keys, spent[a].Id()) < FirstAt(keys, spent[b].Id())
  }

  lemma OrderKept(front: seq<Key>, k: Key, spent: seq<Coin>)
    requires InOrder(front, spent)
    ensures InOrder(front + [k], spent)
    ensures forall c | c in spent :: FirstAt(front + [k], c.Id()) < |front|
  {
    var keys := front + [k];
    assert keys[..|keys| - 1] == front;
    forall c | c in spent ensures c.Id() in keys && FirstAt(keys, c.Id()) == FirstAt(front, c.Id()) < |front| {
      FirstAtBelow(front, c.Id());
    }
    hide FirstAt;
    assert forall a | 0 <= a < |spent| :: spent[a] in spent;
  }

  lemma OrderGrows(front: seq<Key>, spent: seq<Coin>, c: Coin)
    requires InOrder(front, spent) && c.Id() !in front
    ensures InOrder(front + [c.Id()], spent + [c])
  {
    var keys := front + [c.Id()];
    assert keys[..|keys| - 1] == front && FirstAt(keys, c.Id()) == |front|;
    OrderKept(front, c.Id(), spent);
    hide FirstAt;
    assert forall a | 0 <= a < |spent| :: spent[a] in spent;
  }

  /** The coins are returned in the order in which they are first named. */
  lemma {:induction false} SpentInOrder(m: Contents, keys: seq<Key>, txid: string)
    requires Ordered(m)
    ensures InOrder(keys, SpendAll(m, keys, txid).1)
  {
    if keys == [] {
    } else {
      var front, k := keys[..|keys| - 1], keys[|keys| - 1];
      assert keys == front + [k];
      SpentInOrder(m, front, txid);
      SpendMarks(m, front, txid);
      var (before, spent) := SpendAll(m, front, txid);
      hide Marked, NoRepeats, InOrder, Ordered;
      if k in before.utxos && before.utxos[k].Available() {
        SpentAlready(m, before, front, k, txid);
        IdsKept(m, before, front, k, txid);
        OrderGrows(front, spent, MarkSpent(before, k, txid).utxos[k]);
      } else {
        OrderKept(front, k, spent);
      }
    }
  }

  lemma FirstAtBelow(keys: seq<Key>, k: Key)
    requires k in keys
    ensures FirstAt(keys, k) < |keys|
  {
    if k in keys[..|keys| - 1] { FirstAtBelow(keys[..|keys| - 1], k); }
  }

  lemma SpentAlready(m: Contents, before: Contents, front: seq<Key>, k: Key, txid: string)
    requires Marked(m, before, front, txid) && k in before.utxos && before.utxos[k].Available()
    ensures k !in front
  {}

  lemma IdsKept(m: Contents, before: Contents, front: seq<Key>, k: Key, txid: string)
    requires Ordered(m) && Marked(m, before, front, txid) && k in before.utxos
    ensures before.utxos[k].Id() == k
  {}

  /** A replacing import starts from nothing but the recorded totals; a merging one from what is there. */
  lemma ImportStarts(m: Contents, data: Imported)
    requires data.List?
    ensures AfterImport(m, data, false) == AddWhileUsable(EMPTY.(metadata := m.metadata), data.inputs)
    ensures AfterImport(m, data, true) == AddWhileUsable(m, data.inputs)
    ensures AfterImport(m, data, false).0.spentUTXOs == map[]
    ensures AfterImport(m, data, true).0.spentUTXOs == m.spentUTXOs
  {
    ImportSpendsNothing(Cleared(m, false), data.inputs);
    ImportSpendsNothing(m, data.inputs);
  }

  lemma {:induction false} ImportSpendsNothing(m: Contents, inputs: seq<Input>)
    ensures AddWhileUsable(m, inputs).0.spentUTXOs == m.spentUTXOs
  {
    if inputs == [] {
    } else {
      ImportSpendsNothing(m, inputs[..|inputs| - 1]);
    }
  }
}
