/** The simulated chain: a global coin set, a set of spent coins and a coin list per wallet. */
module Ledger {
  import opened Wrappers
  import Decimal

  datatype Outpoint = Outpoint(txid: string, vout: nat) {
    /** The property name the JavaScript objects are keyed by. */
    function Key(): string { txid + ":" + Decimal.Text(vout) }
  }

  datatype Coin = Coin(outpoint: Outpoint, satoshis: int)

  datatype OwnedCoin = OwnedCoin(coin: Coin, owner: string)

  datatype SpentCoin = SpentCoin(owned: OwnedCoin, spentInTx: string)

  datatype Wallet = Wallet(address: string, utxos: seq<Coin>, totalValue: int)

  datatype Metadata = Metadata(totalWallets: nat, totalUTXOs: nat, totalValue: int, blockHeight: nat)

  datatype HistoryEntry = HistoryEntry(txid: string, inputCount: nat, outputCount: nat, fee: int)

  type CoinSet = map<Outpoint, OwnedCoin>
  type Wallets = map<string, Wallet>

  datatype State = State(metadata: Metadata, wallets: Wallets, globalUTXOSet: CoinSet,
                         spentUTXOs: map<Outpoint, SpentCoin>, history: seq<HistoryEntry>)

  datatype Lookup = Lookup(exists_: bool, spent: bool, coin: Option<Coin>)

  datatype SpendError = DoesNotExist | AlreadySpent

  lemma LastColon(o: Outpoint)
    ensures |o.txid| < |o.Key()| && o.Key()[|o.txid|] == ':'
    ensures forall i | |o.txid| < i < |o.Key()| :: o.Key()[i] != ':'
  {
    forall i | |o.txid| < i < |o.Key()| ensures Decimal.IsDigit(o.Key()[i]) {
      assert o.Key()[i] == Decimal.Text(o.vout)[i - |o.txid| - 1];
    }
  }

  /** Outpoints and their text keys are interchangeable. */
  lemma KeyInjective(a: Outpoint, b: Outpoint)
    requires a.Key() == b.Key()
    ensures a == b
  {
    LastColon(a);
    LastColon(b);
    assert |a.txid| == |b.txid|;
    assert a.txid == a.Key()[..|a.txid|] == b.txid;
    assert Decimal.Text(a.vout) == a.Key()[|a.txid| + 1..] == Decimal.Text(b.vout);
    Decimal.TextInjective(a.vout, b.vout);
  }

  // ---- sums ----

  function SumCoins(coins: seq<Coin>): int {
    if coins == [] then 0 else SumCoins(coins[..|coins| - 1]) + coins[|coins| - 1].satoshis
  }

  ghost function SumGlobal(coins: CoinSet): int {
    if coins == map[] then 0
    else
      var o :| o in coins;
      coins[o].coin.satoshis + SumGlobal(coins - {o})
  }

  ghost function SumWallets(wallets: Wallets): int {
    if wallets == map[] then 0
    else
      var a :| a in wallets;
      SumCoins(wallets[a].utxos) + SumWallets(wallets - {a})
  }

  lemma {:induction false} SumGlobalPick(coins: CoinSet, o: Outpoint)
    requires o in coins
    ensures SumGlobal(coins) == coins[o].coin.satoshis + SumGlobal(coins - {o})
    decreases |coins|
  {
    var p :| p in coins && SumGlobal(coins) == coins[p].coin.satoshis + SumGlobal(coins - {p});
    if p != o {
      SumGlobalPick(coins - {p}, o);
      SumGlobalPick(coins - {o}, p);
      assert coins - {p} - {o} == coins - {o} - {p};
    }
  }

  lemma SumGlobalPut(coins: CoinSet, o: Outpoint, coin: OwnedCoin)
    requires o !in coins
    ensures SumGlobal(coins[o := coin]) == SumGlobal(coins) + coin.coin.satoshis
  {
    SumGlobalPick(coins[o := coin], o);
    assert coins[o := coin] - {o} == coins;
  }

  lemma {:induction false} SumWalletsPick(wallets: Wallets, a: string)
    requires a in wallets
    ensures SumWallets(wallets) == SumCoins(wallets[a].utxos) + SumWallets(wallets - {a})
    decreases |wallets|
  {
    var b :| b in wallets && SumWallets(wallets) == SumCoins(wallets[b].utxos) + SumWallets(wallets - {b});
    if b != a {
      SumWalletsPick(wallets - {b}, a);
      SumWalletsPick(wallets - {a}, b);
      assert wallets - {b} - {a} == wallets - {a} - {b};
    }
  }

  lemma SumWalletsReplace(wallets: Wallets, a: string, wallet: Wallet)
    requires a in wallets
    ensures SumWallets(wallets[a := wallet])
         == SumWallets(wallets) - SumCoins(wallets[a].utxos) + SumCoins(wallet.utxos)
  {
    SumWalletsPick(wallets, a);
    SumWalletsPick(wallets[a := wallet], a);
    assert wallets[a := wallet] - {a} == wallets - {a};
  }

  // ---- the operations, as functions on the stored state ----

  /** `updateBlockchainMetadata` */
  ghost function Refreshed(s: State): State {
    s.(metadata := s.metadata.(totalUTXOs := |s.globalUTXOSet|, totalValue := SumGlobal(s.globalUTXOSet)),
       wallets := WithTotals(s.wallets))
  }

  function WithTotals(wallets: Wallets): Wallets {
    map a | a in wallets :: wallets[a].(totalValue := SumCoins(wallets[a].utxos))
  }

  /** The coins written one after the other; a repeated outpoint is overwritten. */
  function PutAll(coins: CoinSet, owner: string, utxos: seq<Coin>): CoinSet {
    if utxos == [] then coins
    else
      var last := utxos[|utxos| - 1];
      PutAll(coins, owner, utxos[..|utxos| - 1])[last.outpoint := OwnedCoin(last, owner)]
  }

  ghost function AfterRegister(s: State, address: string, utxos: seq<Coin>): State {
    var wallets := s.wallets[address := Wallet(address, utxos, 0)];
    Refreshed(s.(wallets := wallets, globalUTXOSet := PutAll(s.globalUTXOSet, address, utxos),
                 metadata := s.metadata.(totalWallets := |wallets|)))
  }

  function GetUTXO(s: State, o: Outpoint): Lookup {
    if o in s.spentUTXOs then Lookup(false, true, Some(s.spentUTXOs[o].owned.coin))
    else if o in s.globalUTXOSet then Lookup(true, false, Some(s.globalUTXOSet[o].coin))
    else Lookup(false, false, None)
  }

  /** `isUTXOAvailable` */
  predicate Available(s: State, o: Outpoint) {
    GetUTXO(s, o).exists_ && !GetUTXO(s, o).spent
  }

  function Drop(utxos: seq<Coin>, o: Outpoint): seq<Coin> {
    if utxos == [] then []
    else
      var rest, last := Drop(utxos[..|utxos| - 1], o), utxos[|utxos| - 1];
      if last.outpoint == o then rest else rest + [last]
  }

  ghost function AfterSpend(s: State, o: Outpoint, txid: string): Result<State, SpendError> {
    if o !in s.globalUTXOSet then Err(DoesNotExist)
    else if o in s.spentUTXOs then Err(AlreadySpent)
    else
      var coin := s.globalUTXOSet[o];
      var wallets := if coin.owner in s.wallets
                     then s.wallets[coin.owner := s.wallets[coin.owner].(utxos := Drop(s.wallets[coin.owner].utxos, o))]
                     else s.wallets;
      Ok(Refreshed(s.(spentUTXOs := s.spentUTXOs[o := SpentCoin(coin, txid)],
                      globalUTXOSet := s.globalUTXOSet - {o}, wallets := wallets)))
  }

  predicate Lists(utxos: seq<Coin>, o: Outpoint) { exists i :: 0 <= i < |utxos| && utxos[i].outpoint == o }

  ghost function AfterAdd(s: State, coin: Coin, owner: string): State {
    if coin.outpoint in s.globalUTXOSet then s
    else
      var wallet := if owner in s.wallets then s.wallets[owner] else Wallet(owner, [], 0);
      var utxos := if Lists(wallet.utxos, coin.outpoint) then wallet.utxos else wallet.utxos + [coin];
      Refreshed(s.(globalUTXOSet := s.globalUTXOSet[coin.outpoint := OwnedCoin(coin, owner)],
                   wallets := s.wallets[owner := wallet.(utxos := utxos)]))
  }

  datatype Op = Register(address: string, utxos: seq<Coin>) | Spend(outpoint: Outpoint, txid: string)
              | Add(coin: Coin, owner: string)

  /** A spend that throws saves nothing. */
  ghost function Step(s: State, op: Op): State {
    match op
    case Register(address, utxos) => AfterRegister(s, address, utxos)
    case Spend(o, txid) => (match AfterSpend(s, o, txid) case Ok(t) => t case Err(_) => s)
    case Add(coin, owner) => AfterAdd(s, coin, owner)
  }

  ghost function Run(s: State, ops: seq<Op>): State
    decreases |ops|
  {
    if ops == [] then s else Run(Step(s, ops[0]), ops[1..])
  }

  // ---- the stored state, edited on a loaded copy and saved ----

  class BlockchainState {
    var saved: State

    constructor ()
      ensures saved == State(Metadata(0, 0, 0, 0), map[], map[], map[], [])
    {
      saved := State(Metadata(0, 0, 0, 0), map[], map[], map[], []);
    }

    method RegisterWallet(address: string, utxos: seq<Coin>) returns (state: State)
      modifies this
      ensures saved == AfterRegister(old(saved), address, utxos) && state == saved
    {
      state := saved;
      state := state.(wallets := state.wallets[address := Wallet(address, utxos, 0)]);
      for i := 0 to |utxos|
        invariant state == old(saved).(wallets := old(saved).wallets[address := Wallet(address, utxos, 0)],
                                       globalUTXOSet := PutAll(old(saved).globalUTXOSet, address, utxos[..i]))
      {
        assert utxos[..i + 1][..i] == utxos[..i];
        var coins := state.globalUTXOSet[utxos[i].outpoint := OwnedCoin(utxos[i], address)];
        state := state.(globalUTXOSet := coins);
      }
      assert utxos[..|utxos|] == utxos;
      state := state.(metadata := state.metadata.(totalWallets := |state.wallets|));
      state := UpdateBlockchainMetadata(state);
      saved := state;
    }

    method SpendUTXO(o: Outpoint, txid: string) returns (r: Result<(), SpendError>)
      modifies this
      ensures match AfterSpend(old(saved), o, txid)
              case Ok(s) => r.Ok? && saved == s
              case Err(e) => r == Err(e) && saved == old(saved)
    {
      var state := saved;
      if o !in state.globalUTXOSet { return Err(DoesNotExist); }
      if o in state.spentUTXOs { return Err(AlreadySpent); }
      var coin := state.globalUTXOSet[o];
      state := state.(spentUTXOs := state.spentUTXOs[o := SpentCoin(coin, txid)]);
      state := state.(globalUTXOSet := state.globalUTXOSet - {o});
      if coin.owner in state.wallets {
        var utxos := Filter(state.wallets[coin.owner].utxos, o);
        state := state.(wallets := state.wallets[coin.owner := state.wallets[coin.owner].(utxos := utxos)]);
      }
      state := UpdateBlockchainMetadata(state);
      saved := state;
      r := Ok(());
    }

    method AddUTXO(coin: Coin, owner: string)
      modifies this
      ensures saved == AfterAdd(old(saved), coin, owner)
    {
      var state := saved;
      if coin.outpoint in state.globalUTXOSet { return; }
      state := state.(globalUTXOSet := state.globalUTXOSet[coin.outpoint := OwnedCoin(coin, owner)]);
      if owner !in state.wallets {
        state := state.(wallets := state.wallets[owner := Wallet(owner, [], 0)]);
      }
      var wallet := state.wallets[owner];
      if !exists i :: 0 <= i < |wallet.utxos| && wallet.utxos[i].outpoint == coin.outpoint {
        wallet := wallet.(utxos := wallet.utxos + [coin]);
      }
      state := state.(wallets := state.wallets[owner := wallet]);
      assert state.wallets == old(saved).wallets[owner := wallet];
      state := UpdateBlockchainMetadata(state);
      saved := state;
    }
  }

  method Filter(utxos: seq<Coin>, o: Outpoint) returns (kept: seq<Coin>)
    ensures kept == Drop(utxos, o)
  {
    kept := [];
    for i := 0 to |utxos|
      invariant kept == Drop(utxos[..i], o)
    {
      assert utxos[..i + 1][..i] == utxos[..i];
      if utxos[i].outpoint != o { kept := kept + [utxos[i]]; }
    }
    assert utxos[..|utxos|] == utxos;
  }

  method SumOf(coins: seq<Coin>) returns (sum: int)
    ensures sum == SumCoins(coins)
  {
    sum := 0;
    for i := 0 to |coins|
      invariant sum == SumCoins(coins[..i])
    {
      assert coins[..i + 1][..i] == coins[..i];
      sum := sum + coins[i].satoshis;
    }
    assert coins[..|coins|] == coins;
  }

  method TotalOf(coins: CoinSet) returns (totalValue: int)
    ensures totalValue == SumGlobal(coins)
  {
    var rest := coins;
    totalValue := 0;
    while rest != map[]
      invariant totalValue + SumGlobal(rest) == SumGlobal(coins)
      decreases |rest|
    {
      var o :| o in rest;
      SumGlobalPick(rest, o);
      totalValue, rest := totalValue + rest[o].coin.satoshis, rest - {o};
    }
  }

  method RefreshWallets(before: Wallets) returns (wallets: Wallets)
    ensures wallets == WithTotals(before)
  {
    hide SumCoins;
    var todo := before.Keys;
    wallets := before;
    while todo != {}
      invariant todo <= before.Keys == wallets.Keys
      invariant forall a | a in wallets :: wallets[a] == if a in todo then before[a] else WithTotals(before)[a]
      decreases |todo|
    {
      var a :| a in todo;
      var total := SumOf(wallets[a].utxos);
      wallets, todo := wallets[a := wallets[a].(totalValue := total)], todo - {a};
    }
  }

  method UpdateBlockchainMetadata(s: State) returns (r: State)
    ensures r == Refreshed(s)
  {
    var totalValue := TotalOf(s.globalUTXOSet);
    var wallets := RefreshWallets(s.wallets);
    r := s.(metadata := s.metadata.(totalUTXOs := |s.globalUTXOSet|, totalValue := totalValue), wallets := wallets);
  }
}
