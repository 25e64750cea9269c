/** What every run of register, spend and add keeps, and what breaks it. */
module LedgerInvariants {
  import opened Ledger
  import opened Wrappers

  // ---- wallet lists and the global set are two views of the same coins ----

  ghost predicate NoRepeats(utxos: seq<Coin>) {
    forall i, j | 0 <= i < j < |utxos| :: utxos[i].outpoint != utxos[j].outpoint
  }

  /** Every listed coin is in the global set under the wallet that lists it. */
  ghost predicate ListedIsGlobal(wallets: Wallets, coins: CoinSet) {
    forall a, c | a in wallets && c in wallets[a].utxos ::
      c.outpoint in coins && coins[c.outpoint] == OwnedCoin(c, a)
  }

  /** Every global coin is listed by its owner. */
  ghost predicate GlobalIsListed(wallets: Wallets, coins: CoinSet) {
    forall o | o in coins ::
      coins[o].coin.outpoint == o && coins[o].owner in wallets && coins[o].coin in wallets[coins[o].owner].utxos
  }

  /** The wallet lists are a duplicate-free partition of the global set by owner. */
  ghost predicate Partition(wallets: Wallets, coins: CoinSet) {
    && (forall a | a in wallets :: NoRepeats(wallets[a].utxos))
    && ListedIsGlobal(wallets, coins)
    && GlobalIsListed(wallets, coins)
  }

  ghost predicate Partitioned(s: State) { Partition(s.wallets, s.globalUTXOSet) }

  lemma {:induction false} DropRemoves(utxos: seq<Coin>, o: Outpoint)
    requires NoRepeats(utxos)
    ensures NoRepeats(Drop(utxos, o))
    ensures forall c :: c in Drop(utxos, o) <==> c in utxos && c.outpoint != o
  {
    if utxos == [] {
    } else {
      var front, last := utxos[..|utxos| - 1], utxos[|utxos| - 1];
      DropRemoves(front, o);
      assert utxos == front + [last];
      forall c | c in front ensures c.outpoint != last.outpoint {
        var i :| 0 <= i < |front| && front[i] == c;
        assert utxos[i] == c;
      }
    }
  }

  lemma {:induction false} DropAbsent(utxos: seq<Coin>, o: Outpoint)
    requires forall c | c in utxos :: c.outpoint != o
    ensures Drop(utxos, o) == utxos
  {
    if utxos == [] {
    } else {
      DropAbsent(utxos[..|utxos| - 1], o);
    }
  }

  lemma {:induction false} SumDrop(utxos: seq<Coin>, c: Coin)
    requires NoRepeats(utxos) && c in utxos
    ensures SumCoins(Drop(utxos, c.outpoint)) == SumCoins(utxos) - c.satoshis
  {
    var front, last := utxos[..|utxos| - 1], utxos[|utxos| - 1];
    assert utxos == front + [last];
    if last == c {
      forall d | d in front ensures d.outpoint != c.outpoint {
        var i :| 0 <= i < |front| && front[i] == d;
        assert utxos[i] == d;
      }
      DropAbsent(front, c.outpoint);
    } else {
      var i :| 0 <= i < |utxos| && utxos[i] == c;
      assert front[i] == c && utxos[|utxos| - 1] == last;
      SumDrop(front, c);
      var rest := Drop(front, c.outpoint);
      assert (rest + [last])[..|rest|] == rest;
    }
  }

  lemma {:induction false} SumWalletsEmpty(wallets: Wallets)
    requires forall a | a in wallets :: wallets[a].utxos == []
    ensures SumWallets(wallets) == 0
    decreases |wallets|
  {
    if wallets == map[] {
    } else {
      var a :| a in wallets;
      SumWalletsPick(wallets, a);
      SumWalletsEmpty(wallets - {a});
    }
  }

  /** Taking one coin out of the global set and out of its owner's list leaves a partition. */
  lemma PartitionWithout(wallets: Wallets, coins: CoinSet, o: Outpoint)
    requires Partition(wallets, coins) && o in coins
    ensures var a := coins[o].owner;
      Partition(wallets[a := wallets[a].(utxos := Drop(wallets[a].utxos, o))], coins - {o})
  {
    var a := coins[o].owner;
    var kept := Drop(wallets[a].utxos, o);
    DropRemoves(wallets[a].utxos, o);
    hide NoRepeats, Drop;
    ListedWithout(wallets, coins, o, kept);
    GlobalWithout(wallets, coins, o, kept);
  }

  lemma ListedWithout(wallets: Wallets, coins: CoinSet, o: Outpoint, kept: seq<Coin>)
    requires ListedIsGlobal(wallets, coins) && o in coins && coins[o].owner in wallets
    requires forall c :: c in kept <==> c in wallets[coins[o].owner].utxos && c.outpoint != o
    ensures var a := coins[o].owner; ListedIsGlobal(wallets[a := wallets[a].(utxos := kept)], coins - {o})
  {
    var w := wallets[coins[o].owner := wallets[coins[o].owner].(utxos := kept)];
    forall b, c | b in w && c in w[b].utxos
      ensures c.outpoint in coins - {o} && (coins - {o})[c.outpoint] == OwnedCoin(c, b)
    {
      assert c in wallets[b].utxos;
    }
  }

  lemma GlobalWithout(wallets: Wallets, coins: CoinSet, o: Outpoint, kept: seq<Coin>)
    requires GlobalIsListed(wallets, coins) && o in coins
    requires forall c :: c in kept <==> c in wallets[coins[o].owner].utxos && c.outpoint != o
    ensures var a := coins[o].owner; GlobalIsListed(wallets[a := wallets[a].(utxos := kept)], coins - {o})
  {}

  lemma ListedNeedsCoins(wallets: Wallets, coins: CoinSet, a: string)
    requires ListedIsGlobal(wallets, coins) && a in wallets
    ensures wallets[a].utxos != [] ==> coins != map[]
  {
    if wallets[a].utxos != [] {
      var c := wallets[a].utxos[0];
      assert c in wallets[a].utxos && c.outpoint in coins;
    }
  }

  /** So the wallet totals add up to the global total. */
  lemma {:induction false} TotalsAgree(wallets: Wallets, coins: CoinSet)
    requires Partition(wallets, coins)
    ensures SumWallets(wallets) == SumGlobal(coins)
    decreases |coins|
  {
    if coins == map[] {
      forall a | a in wallets ensures wallets[a].utxos == [] { ListedNeedsCoins(wallets, coins, a); }
      SumWalletsEmpty(wallets);
    } else {
      var o :| o in coins;
      var a := coins[o].owner;
      var wallet := wallets[a].(utxos := Drop(wallets[a].utxos, o));
      PartitionWithout(wallets, coins, o);
      TotalsAgree(wallets[a := wallet], coins - {o});
      SumGlobalPick(coins, o);
      SumWalletsReplace(wallets, a, wallet);
      SumDrop(wallets[a].utxos, coins[o].coin);
    }
  }

  lemma TotalsDoNotMatter(wallets: Wallets, coins: CoinSet)
    ensures Partition(WithTotals(wallets), coins) <==> Partition(wallets, coins)
  {
    var w := WithTotals(wallets);
    assert forall a | a in wallets :: w[a].utxos == wallets[a].utxos;
  }

  lemma SpendKeepsPartition(s: State, o: Outpoint, txid: string)
    requires Partitioned(s) && AfterSpend(s, o, txid).Ok?
    ensures Partitioned(AfterSpend(s, o, txid).value)
  {
    var a := s.globalUTXOSet[o].owner;
    var wallets := s.wallets[a := s.wallets[a].(utxos := Drop(s.wallets[a].utxos, o))];
    PartitionWithout(s.wallets, s.globalUTXOSet, o);
    TotalsDoNotMatter(wallets, s.globalUTXOSet - {o});
  }

  lemma NotListed(wallets: Wallets, coins: CoinSet, a: string, o: Outpoint)
    requires ListedIsGlobal(wallets, coins) && a in wallets && o !in coins
    ensures !Lists(wallets[a].utxos, o)
  {
    forall i | 0 <= i < |wallets[a].utxos| ensures wallets[a].utxos[i].outpoint != o {
      assert wallets[a].utxos[i] in wallets[a].utxos;
    }
  }

  /** Putting a new coin into the global set and at the end of a wallet's list leaves a partition. */
  lemma PartitionWith(wallets: Wallets, coins: CoinSet, coin: Coin, wallet: Wallet, owner: string)
    requires Partition(wallets, coins) && coin.outpoint !in coins
    requires wallet.utxos == (if owner in wallets then wallets[owner].utxos else []) + [coin]
    ensures Partition(wallets[owner := wallet], coins[coin.outpoint := OwnedCoin(coin, owner)])
  {
    var w, more := wallets[owner := wallet], coins[coin.outpoint := OwnedCoin(coin, owner)];
    if owner in wallets { NotListed(wallets, coins, owner, coin.outpoint); }
    assert NoRepeats(wallet.utxos);
    hide NoRepeats;
    forall b, c | b in w && c in w[b].utxos ensures c.outpoint in more && more[c.outpoint] == OwnedCoin(c, b) {
      assert (c == coin && b == owner) || (b in wallets && c in wallets[b].utxos);
    }
    forall p | p in more
      ensures more[p].coin.outpoint == p && more[p].owner in w && more[p].coin in w[more[p].owner].utxos
    {
      assert p == coin.outpoint || p in coins;
    }
  }

  lemma AddKeepsPartition(s: State, coin: Coin, owner: string)
    requires Partitioned(s)
    ensures Partitioned(AfterAdd(s, coin, owner))
  {
    if coin.outpoint !in s.globalUTXOSet {
      var wallet := if owner in s.wallets then s.wallets[owner] else Wallet(owner, [], 0);
      if owner in s.wallets { NotListed(s.wallets, s.globalUTXOSet, owner, coin.outpoint); }
      var more := wallet.(utxos := wallet.utxos + [coin]);
      PartitionWith(s.wallets, s.globalUTXOSet, coin, more, owner);
      hide Partition;
      TotalsDoNotMatter(s.wallets[owner := more], s.globalUTXOSet[coin.outpoint := OwnedCoin(coin, owner)]);
    }
  }

  ghost predicate NoListRepeats(wallets: Wallets) { forall a | a in wallets :: NoRepeats(wallets[a].utxos) }

  /** Adding never lists an outpoint twice in a wallet, whatever the wallets hold before. */
  lemma AddNeverRepeats(s: State, coin: Coin, owner: string)
    requires NoListRepeats(s.wallets)
    ensures NoListRepeats(AfterAdd(s, coin, owner).wallets)
  {
    if coin.outpoint !in s.globalUTXOSet {
      var utxos := if owner in s.wallets then s.wallets[owner].utxos else [];
      if !Lists(utxos, coin.outpoint) { Appended(utxos, coin); }
      var more := if Lists(utxos, coin.outpoint) then utxos else utxos + [coin];
      assert NoRepeats(more);
      hide NoRepeats, SumCoins, SumGlobal, Lists;
    }
  }

  lemma Appended(utxos: seq<Coin>, coin: Coin)
    requires NoRepeats(utxos) && !Lists(utxos, coin.outpoint)
    ensures NoRepeats(utxos + [coin])
  {
    assert forall i | 0 <= i < |utxos| :: utxos[i].outpoint != coin.outpoint;
  }

  // ---- registering ----

  lemma {:induction false} PutAllEffect(coins: CoinSet, owner: string, utxos: seq<Coin>)
    ensures forall o :: o in PutAll(coins, owner, utxos) <==> o in coins || Lists(utxos, o)
    ensures forall o | o in coins && !Lists(utxos, o) :: PutAll(coins, owner, utxos)[o] == coins[o]
    ensures forall o | Lists(utxos, o) ::
      && PutAll(coins, owner, utxos)[o].owner == owner
      && PutAll(coins, owner, utxos)[o].coin in utxos
      && PutAll(coins, owner, utxos)[o].coin.outpoint == o
  {
    if utxos == [] {
    } else {
      var front, last := utxos[..|utxos| - 1], utxos[|utxos| - 1];
      PutAllEffect(coins, owner, front);
      assert utxos == front + [last];
      forall o ensures Lists(utxos, o) <==> Lists(front, o) || last.outpoint == o {
        if Lists(front, o) {
          var i :| 0 <= i < |front| && front[i].outpoint == o;
          assert utxos[i].outpoint == o;
        }
        if last.outpoint == o { assert utxos[|utxos| - 1].outpoint == o; }
        if Lists(utxos, o) && last.outpoint != o {
          var i :| 0 <= i < |utxos| && utxos[i].outpoint == o;
          assert front[i].outpoint == o;
        }
      }
    }
  }

  /** Of coins with one outpoint in a registration, the last one is written. */
  lemma {:induction false} LastPutWins(coins: CoinSet, owner: string, utxos: seq<Coin>, i: nat)
    requires i < |utxos| && forall j | i < j < |utxos| :: utxos[j].outpoint != utxos[i].outpoint
    ensures utxos[i].outpoint in PutAll(coins, owner, utxos)
    ensures PutAll(coins, owner, utxos)[utxos[i].outpoint] == OwnedCoin(utxos[i], owner)
  {
    var front := utxos[..|utxos| - 1];
    if i == |front| {
    } else {
      assert utxos[|front|].outpoint != utxos[i].outpoint;
      assert forall j | 0 <= j < |front| :: front[j] == utxos[j];
      LastPutWins(coins, owner, front, i);
    }
  }

  /**
   * What a caller of `registerWallet` has to see to: no repeated outpoint, none that another wallet
   * owns, and on an address already registered none of its coins left out.
   */
  ghost predicate Fits(s: State, address: string, utxos: seq<Coin>) {
    && NoRepeats(utxos)
    && (forall o | Lists(utxos, o) && o in s.globalUTXOSet :: s.globalUTXOSet[o].owner == address)
    && (forall o | o in s.globalUTXOSet && s.globalUTXOSet[o].owner == address :: Lists(utxos, o))
  }

  lemma ListedOnce(utxos: seq<Coin>, c: Coin, d: Coin)
    requires NoRepeats(utxos) && c in utxos && d in utxos && c.outpoint == d.outpoint
    ensures c == d
  {
    var i :| 0 <= i < |utxos| && utxos[i] == c;
    var j :| 0 <= j < |utxos| && utxos[j] == d;
  }

  lemma ListsMember(utxos: seq<Coin>, c: Coin)
    requires c in utxos
    ensures Lists(utxos, c.outpoint)
  {
    var i :| 0 <= i < |utxos| && utxos[i] == c;
  }

  lemma FittingKeepsPartition(s: State, address: string, utxos: seq<Coin>)
    requires Partitioned(s) && Fits(s, address, utxos)
    ensures Partition(s.wallets[address := Wallet(address, utxos, 0)], PutAll(s.globalUTXOSet, address, utxos))
  {
    var wallets := s.wallets[address := Wallet(address, utxos, 0)];
    var coins := PutAll(s.globalUTXOSet, address, utxos);
    PutAllEffect(s.globalUTXOSet, address, utxos);
    hide NoRepeats, PutAll, Lists;
    forall a, c | a in wallets && c in wallets[a].utxos
      ensures c.outpoint in coins && coins[c.outpoint] == OwnedCoin(c, a)
    {
      if a == address {
        ListsMember(utxos, c);
        ListedOnce(utxos, c, coins[c.outpoint].coin);
      } else {
        assert !Lists(utxos, c.outpoint);
      }
    }
    forall o | o in coins
      ensures coins[o].coin.outpoint == o && coins[o].owner in wallets && coins[o].coin in wallets[coins[o].owner].utxos
    {
      if !Lists(utxos, o) { assert s.globalUTXOSet[o].owner != address; }
    }
  }

  lemma OthersKeepTheirs(s: State, address: string, wallet: Wallet, coins: CoinSet, o: Outpoint)
    requires Partitioned(s) && o in s.globalUTXOSet
    requires ListedIsGlobal(s.wallets[address := wallet], coins)
    ensures s.globalUTXOSet[o].owner == address || (o in coins && coins[o].owner == s.globalUTXOSet[o].owner)
  {
    var a, c := s.globalUTXOSet[o].owner, s.globalUTXOSet[o].coin;
    if a != address {
      assert c in s.wallets[address := wallet][a].utxos;
    }
  }

  lemma PartitionFits(s: State, address: string, utxos: seq<Coin>)
    requires Partitioned(s)
    requires Partition(s.wallets[address := Wallet(address, utxos, 0)], PutAll(s.globalUTXOSet, address, utxos))
    ensures Fits(s, address, utxos)
  {
    var wallets := s.wallets[address := Wallet(address, utxos, 0)];
    var coins := PutAll(s.globalUTXOSet, address, utxos);
    PutAllEffect(s.globalUTXOSet, address, utxos);
    assert wallets[address].utxos == utxos;
    forall o | Lists(utxos, o) && o in s.globalUTXOSet ensures s.globalUTXOSet[o].owner == address {
      OthersKeepTheirs(s, address, Wallet(address, utxos, 0), coins, o);
    }
    forall o | o in s.globalUTXOSet && s.globalUTXOSet[o].owner == address ensures Lists(utxos, o) {
      assert o in coins;
      var c := coins[o].coin;
      assert coins[o].owner == address && c in utxos;
      var i :| 0 <= i < |utxos| && utxos[i] == c;
    }
  }

  /** Registering keeps the partition exactly when the new list fits. */
  lemma RegisterKeepsPartition(s: State, address: string, utxos: seq<Coin>)
    requires Partitioned(s)
    ensures Partitioned(AfterRegister(s, address, utxos)) <==> Fits(s, address, utxos)
  {
    var wallets := s.wallets[address := Wallet(address, utxos, 0)];
    var coins := PutAll(s.globalUTXOSet, address, utxos);
    TotalsDoNotMatter(wallets, coins);
    if Fits(s, address, utxos) { FittingKeepsPartition(s, address, utxos); }
    if Partition(wallets, coins) { PartitionFits(s, address, utxos); }
  }

  /** Registering an owner again with no coins leaves its coins in the global set and in no list. */
  lemma EmptyRegistrationOrphans(s: State, o: Outpoint)
    requires Partitioned(s) && o in s.globalUTXOSet
    ensures var a := s.globalUTXOSet[o].owner;
      var t := AfterRegister(s, a, []);
      && o in t.globalUTXOSet && t.globalUTXOSet[o].owner == a && t.wallets[a].utxos == [] && !Partitioned(t)
  {
    RegisterKeepsPartition(s, s.globalUTXOSet[o].owner, []);
  }

  /** Registering another address with a coin that has an owner puts it into both lists. */
  lemma SharedRegistrationDuplicates(s: State, o: Outpoint, b: string)
    requires Partitioned(s) && o in s.globalUTXOSet && b != s.globalUTXOSet[o].owner
    ensures var (a, coin) := (s.globalUTXOSet[o].owner, s.globalUTXOSet[o].coin);
      var t := AfterRegister(s, b, [coin]);
      && a in t.wallets && coin in t.wallets[a].utxos && coin in t.wallets[b].utxos && !Partitioned(t)
  {
    var coin := s.globalUTXOSet[o].coin;
    RegisterKeepsPartition(s, b, [coin]);
    assert [coin][0].outpoint == o;
    assert Lists([coin], o);
  }

  /** An unregistered address fits exactly with distinct outpoints that are not in the global set. */
  lemma NewAddressFits(s: State, address: string, utxos: seq<Coin>)
    requires Partitioned(s) && address !in s.wallets
    ensures Fits(s, address, utxos)
       <==> NoRepeats(utxos) && forall o | Lists(utxos, o) :: o !in s.globalUTXOSet
  {}

  // ---- runs ----

  ghost predicate AllFit(s: State, ops: seq<Op>)
    decreases |ops|
  {
    ops == [] || ((ops[0].Register? ==> Fits(s, ops[0].address, ops[0].utxos)) && AllFit(Step(s, ops[0]), ops[1..]))
  }

  /** The recorded totals are the sums of what is stored. */
  ghost predicate TotalsCurrent(s: State) {
    && s.metadata.totalUTXOs == |s.globalUTXOSet|
    && s.metadata.totalValue == SumGlobal(s.globalUTXOSet)
    && forall a | a in s.wallets :: s.wallets[a].totalValue == SumCoins(s.wallets[a].utxos)
  }

  lemma StepTotals(s: State, op: Op)
    requires TotalsCurrent(s)
    ensures TotalsCurrent(Step(s, op))
  {}

  /** Over any run: the lists partition the global set, and the recorded totals are right and agree. */
  lemma {:induction false} RunKeepsPartition(s: State, ops: seq<Op>)
    requires Partitioned(s) && TotalsCurrent(s) && AllFit(s, ops)
    ensures Partitioned(Run(s, ops)) && TotalsCurrent(Run(s, ops))
    ensures Run(s, ops).metadata.totalValue == SumWallets(Run(s, ops).wallets)
    decreases |ops|
  {
    TotalsAgree(s.wallets, s.globalUTXOSet);
    if ops == [] {
    } else {
      StepTotals(s, ops[0]);
      match ops[0] {
        case Register(address, utxos) => RegisterKeepsPartition(s, address, utxos);
        case Spend(o, txid) => if AfterSpend(s, o, txid).Ok? { SpendKeepsPartition(s, o, txid); }
        case Add(coin, owner) => AddKeepsPartition(s, coin, owner);
      }
      RunKeepsPartition(Step(s, ops[0]), ops[1..]);
    }
  }

  // ---- spent once, spent for ever ----

  ghost predicate Spends(s: State, op: Op, o: Outpoint) {
    op.Spend? && op.outpoint == o && AfterSpend(s, o, op.txid).Ok?
  }

  /** How often a run manages to spend `o`. */
  ghost function TimesSpent(s: State, ops: seq<Op>, o: Outpoint): nat
    decreases |ops|
  {
    if ops == [] then 0
    else (if Spends(s, ops[0], o) then 1 else 0) + TimesSpent(Step(s, ops[0]), ops[1..], o)
  }

  lemma StepKeepsSpent(s: State, op: Op, o: Outpoint)
    ensures o in Step(s, op).spentUTXOs <==> o in s.spentUTXOs || Spends(s, op, o)
    ensures o in s.spentUTXOs ==> Step(s, op).spentUTXOs[o] == s.spentUTXOs[o]
    ensures Spends(s, op, o) ==> Step(s, op).spentUTXOs[o] == SpentCoin(s.globalUTXOSet[o], op.txid)
  {}

  /**
   * In every run of register, add and spend, whatever is registered or added again: an outpoint is
   * spent at most once, its record is never changed, and from then on it is not available.
   */
  lemma {:induction false} SpentForEver(s: State, ops: seq<Op>, o: Outpoint)
    ensures o in s.spentUTXOs ==> TimesSpent(s, ops, o) == 0 && o in Run(s, ops).spentUTXOs
    ensures o in s.spentUTXOs ==> Run(s, ops).spentUTXOs[o] == s.spentUTXOs[o]
    ensures TimesSpent(s, ops, o) <= 1
    ensures o in Run(s, ops).spentUTXOs <==> o in s.spentUTXOs || TimesSpent(s, ops, o) == 1
    ensures o in Run(s, ops).spentUTXOs ==> !Available(Run(s, ops), o)
    decreases |ops|
  {
    if ops == [] {
    } else {
      StepKeepsSpent(s, ops[0], o);
      SpentForEver(Step(s, ops[0]), ops[1..], o);
    }
  }
  // ---- outcomes of a spend, and what no operation touches ----

  /** A spend succeeds exactly for available coins; otherwise a missing coin is reported before a spent one. */
  lemma SpendOutcomes(s: State, o: Outpoint, txid: string)
    ensures AfterSpend(s, o, txid).Ok? <==> o in s.globalUTXOSet && o !in s.spentUTXOs
    ensures AfterSpend(s, o, txid).Ok? <==> Available(s, o)
    ensures AfterSpend(s, o, txid) == Err(DoesNotExist) <==> o !in s.globalUTXOSet
    ensures o !in s.globalUTXOSet && o !in s.spentUTXOs ==> GetUTXO(s, o) == Lookup(false, false, None)
    ensures AfterSpend(s, o, txid) == Err(AlreadySpent) <==> o in s.globalUTXOSet && o in s.spentUTXOs
  {
    hide WithTotals, Drop, SumGlobal;
  }

  /** A coin spent once does not exist at the second try, and is already spent once it has been added again. */
  lemma SecondSpend(s: State, o: Outpoint, first: string, second: string, coin: Coin, owner: string)
    requires AfterSpend(s, o, first).Ok? && coin.outpoint == o
    ensures var t := AfterSpend(s, o, first).value;
      && t.spentUTXOs[o] == SpentCoin(s.globalUTXOSet[o], first)
      && GetUTXO(s, o) == Lookup(true, false, Some(s.globalUTXOSet[o].coin))
      && GetUTXO(t, o) == Lookup(false, true, Some(s.globalUTXOSet[o].coin))
      && AfterSpend(t, o, second) == Err(DoesNotExist)
      && AfterSpend(AfterAdd(t, coin, owner), o, second) == Err(AlreadySpent)
  {
    hide WithTotals, Drop, SumGlobal;
  }

  ghost predicate Named(wallets: Wallets) { forall a | a in wallets :: wallets[a].address == a }

  lemma StepKeepsRecords(s: State, op: Op)
    ensures Step(s, op).history == s.history && Step(s, op).metadata.blockHeight == s.metadata.blockHeight
    ensures Named(s.wallets) ==> Named(Step(s, op).wallets)
    ensures op.Register? ==> Step(s, op).metadata.totalWallets == |Step(s, op).wallets|
    ensures !op.Register? ==> Step(s, op).metadata.totalWallets == s.metadata.totalWallets
  {
    hide Drop, SumGlobal, SumCoins, PutAll, Lists;
    if op.Register? {
      SameKeys(s.wallets[op.address := Wallet(op.address, op.utxos, 0)]);
    }
  }

  lemma SameKeys(wallets: Wallets)
    ensures |WithTotals(wallets)| == |wallets|
  {
    assert WithTotals(wallets).Keys == wallets.Keys;
    assert |WithTotals(wallets)| == |WithTotals(wallets).Keys| && |wallets| == |wallets.Keys|;
  }

  /** No run of coin operations changes the history or the height, and every wallet keeps its own name. */
  lemma {:induction false} RunKeepsRecords(s: State, ops: seq<Op>)
    requires Named(s.wallets)
    ensures Named(Run(s, ops).wallets) && Run(s, ops).history == s.history
    ensures Run(s, ops).metadata.blockHeight == s.metadata.blockHeight
    decreases |ops|
  {
    hide Step, Named;
    if ops == [] {
    } else {
      StepKeepsRecords(s, ops[0]);
      RunKeepsRecords(Step(s, ops[0]), ops[1..]);
    }
  }

  // ---- the spent set and the global set ----

  /** No coin is listed as spent and unspent at once, so everything in the totals can still be spent. */
  ghost predicate Disjoint(s: State) { forall o | o in s.globalUTXOSet :: o !in s.spentUTXOs }

  /** The operation writes `o` into the global set, unless it is there. */
  ghost predicate Brings(op: Op, o: Outpoint) {
    match op
    case Register(_, utxos) => Lists(utxos, o)
    case Add(coin, _) => coin.outpoint == o
    case Spend(_, _) => false
  }

  /** No operation brings an outpoint that has been spent by then. */
  ghost predicate NeverBringsBack(s: State, ops: seq<Op>)
    decreases |ops|
  {
    ops == [] ||
    ((forall o | Brings(ops[0], o) :: o !in s.spentUTXOs) && NeverBringsBack(Step(s, ops[0]), ops[1..]))
  }

  lemma StepGlobal(s: State, op: Op, o: Outpoint)
    ensures o in Step(s, op).globalUTXOSet
       <==> (o in s.globalUTXOSet && !Spends(s, op, o)) || Brings(op, o)
  {
    if op.Register? {
      PutAllEffect(s.globalUTXOSet, op.address, op.utxos);
      hide PutAll, Lists;
    }
  }

  /** A coin in both sets stays in both: it is in every total, and can never be spent. */
  lemma {:induction false} StuckForEver(s: State, ops: seq<Op>, o: Outpoint)
    requires o in s.globalUTXOSet && o in s.spentUTXOs
    ensures o in Run(s, ops).globalUTXOSet && o in Run(s, ops).spentUTXOs
    decreases |ops|
  {
    if ops == [] {
    } else {
      StepGlobal(s, ops[0], o);
      StepKeepsSpent(s, ops[0], o);
      hide Step;
      StuckForEver(Step(s, ops[0]), ops[1..], o);
    }
  }

  lemma StepKeepsDisjoint(s: State, op: Op)
    requires Disjoint(s)
    ensures Disjoint(Step(s, op)) <==> forall o | Brings(op, o) :: o !in s.spentUTXOs
  {
    hide Brings, Step;
    forall o
      ensures o in Step(s, op).globalUTXOSet && o in Step(s, op).spentUTXOs <==> Brings(op, o) && o in s.spentUTXOs
    {
      StepGlobal(s, op, o);
      StepKeepsSpent(s, op, o);
      assert Spends(s, op, o) ==> !Brings(op, o) by { SpendBringsNothing(op, o); }
    }
  }

  lemma SpendBringsNothing(op: Op, o: Outpoint)
    ensures op.Spend? ==> !Brings(op, o)
  {}

  /** Over any run the two sets stay apart exactly when nothing already spent is added or registered again. */
  lemma {:induction false} RunKeepsDisjoint(s: State, ops: seq<Op>)
    requires Disjoint(s)
    ensures Disjoint(Run(s, ops)) <==> NeverBringsBack(s, ops)
    decreases |ops|
  {
    hide Brings, Step;
    if ops == [] {
    } else {
      StepKeepsDisjoint(s, ops[0]);
      var t := Step(s, ops[0]);
      if Disjoint(t) {
        RunKeepsDisjoint(t, ops[1..]);
      } else {
        var o :| o in t.globalUTXOSet && o in t.spentUTXOs;
        StuckForEver(t, ops[1..], o);
      }
    }
  }
}
