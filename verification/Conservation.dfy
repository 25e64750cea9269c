/** Where the value goes when transactions are accepted. */
module Conservation {
  import opened Ledger
  import opened LedgerInvariants
  import opened Mining
  import opened Wrappers

  // ---- one transaction ----

  /** Like `InputValue`, but a repeated input counts once. */
  function DistinctValue(s: State, inputs: seq<Outpoint>): int {
    if inputs == [] then 0
    else
      var n := |inputs| - 1;
      DistinctValue(s, inputs[..n]) + if inputs[n] in inputs[..n] then 0 else CoinValue(s, inputs[n])
  }

  /** The outputs that become coins: their address can be read and their outpoint is free. */
  function CreatedValue(s: State, txid: string, outputs: seq<Output>): int {
    if outputs == [] then 0
    else
      var n := |outputs| - 1;
      CreatedValue(s, txid, outputs[..n])
      + if outputs[n].owner.Some? && Outpoint(txid, n) !in s.globalUTXOSet then outputs[n].satoshis else 0
  }

  /** `t` is `s` with the available ones of `inputs` moved to the spent set. */
  ghost predicate Moved(s: State, t: State, inputs: seq<Outpoint>) {
    && (forall o :: Available(t, o) <==> Available(s, o) && o !in inputs)
    && (forall o :: o in t.globalUTXOSet <==> o in s.globalUTXOSet && !(Available(s, o) && o in inputs))
    && (forall o :: o in t.globalUTXOSet ==> t.globalUTXOSet[o] == s.globalUTXOSet[o])
    && (forall o :: o in t.spentUTXOs <==> o in s.spentUTXOs || (Available(s, o) && o in inputs))
  }

  lemma OneMoved(s: State, o: Outpoint, txid: string)
    ensures var t := TrySpend(s, o, txid);
      if Available(s, o)
      then t.globalUTXOSet == s.globalUTXOSet - {o}
           && t.spentUTXOs == s.spentUTXOs[o := SpentCoin(s.globalUTXOSet[o], txid)]
      else t == s
  {
    hide WithTotals, Drop, SumGlobal;
  }

  lemma MovedNext(s: State, t: State, u: State, front: seq<Outpoint>, o: Outpoint, txid: string)
    requires Moved(s, t, front)
    requires if Available(t, o)
             then u.globalUTXOSet == t.globalUTXOSet - {o}
                  && u.spentUTXOs == t.spentUTXOs[o := SpentCoin(t.globalUTXOSet[o], txid)]
             else u == t
    ensures Moved(s, u, front + [o])
  {}

  /** Spending the inputs in order makes exactly them unavailable and leaves the other coins alone. */
  lemma {:induction false} SpendAllEffect(s: State, inputs: seq<Outpoint>, txid: string)
    ensures Moved(s, SpendAll(s, inputs, txid), inputs)
  {
    if inputs == [] {
    } else {
      hide Moved, TrySpend;
      var n := |inputs| - 1;
      SpendAllEffect(s, inputs[..n], txid);
      OneMoved(SpendAll(s, inputs[..n], txid), inputs[n], txid);
      MovedNext(s, SpendAll(s, inputs[..n], txid), SpendAll(s, inputs, txid), inputs[..n], inputs[n], txid);
      assert inputs == inputs[..n] + [inputs[n]];
    }
  }

  lemma {:induction false} SpendAllValue(s: State, inputs: seq<Outpoint>, txid: string)
    ensures SumGlobal(SpendAll(s, inputs, txid).globalUTXOSet) == SumGlobal(s.globalUTXOSet) - DistinctValue(s, inputs)
  {
    if inputs == [] {
    } else {
      var n := |inputs| - 1;
      var t := SpendAll(s, inputs[..n], txid);
      SpendAllValue(s, inputs[..n], txid);
      SpendAllEffect(s, inputs[..n], txid);
      if Available(t, inputs[n]) { SumGlobalPick(t.globalUTXOSet, inputs[n]); }
    }
  }

  lemma {:induction false} AddAllValue(s: State, txid: string, outputs: seq<Output>)
    ensures SumGlobal(AddAll(s, txid, outputs).globalUTXOSet)
         == SumGlobal(s.globalUTXOSet) + CreatedValue(s, txid, outputs)
    ensures forall o :: o in AddAll(s, txid, outputs).globalUTXOSet ==>
      o in s.globalUTXOSet || (o.txid == txid && o.vout < |outputs|)
    ensures forall o :: o in s.globalUTXOSet ==> o in AddAll(s, txid, outputs).globalUTXOSet
    ensures AddAll(s, txid, outputs).spentUTXOs == s.spentUTXOs
  {
    if outputs == [] {
    } else {
      var n := |outputs| - 1;
      AddAllValue(s, txid, outputs[..n]);
      var before, coin := AddAll(s, txid, outputs[..n]), Coin(Outpoint(txid, n), outputs[n].satoshis);
      if outputs[n].owner.Some? && coin.outpoint !in before.globalUTXOSet {
        SumGlobalPut(before.globalUTXOSet, coin.outpoint, OwnedCoin(coin, outputs[n].owner.value));
      }
    }
  }

  /**
   * The balance of any transaction, accepted or not: what leaves the coin set is the fee, less what
   * repeated inputs were counted twice for, plus the outputs that never became coins.
   */
  lemma BalanceEquation(s: State, tx: Transaction)
    ensures SumGlobal(Settled(s, tx).globalUTXOSet)
         == SumGlobal(s.globalUTXOSet) - Fee(s, tx)
            + (InputValue(s, tx.inputs) - DistinctValue(s, tx.inputs))
            - (OutputValue(tx.outputs) - CreatedValue(SpendAll(s, tx.inputs, tx.id), tx.id, tx.outputs))
  {
    SpendAllValue(s, tx.inputs, tx.id);
    AddAllValue(SpendAll(s, tx.inputs, tx.id), tx.id, tx.outputs);
  }

  // ---- accepted transactions ----

  ghost predicate Distinct(inputs: seq<Outpoint>) {
    forall i, j | 0 <= i < j < |inputs| :: inputs[i] != inputs[j]
  }

  /** Every output pays an address that can be read, at an outpoint not yet in the coin set. */
  ghost predicate CleanOutputs(s: State, tx: Transaction) {
    forall i | 0 <= i < |tx.outputs| :: tx.outputs[i].owner.Some? && Outpoint(tx.id, i) !in s.globalUTXOSet
  }

  ghost predicate PositiveCoins(s: State) {
    forall o | o in s.globalUTXOSet :: s.globalUTXOSet[o].coin.satoshis > 0
  }

  lemma {:induction false} NoInputErrors(s: State, inputs: seq<Outpoint>)
    ensures InputErrors(s, inputs) == [] <==> forall o | o in inputs :: Available(s, o)
  {
    hide Available;
    if inputs == [] {
    } else {
      var n := |inputs| - 1;
      NoInputErrors(s, inputs[..n]);
      assert inputs == inputs[..n] + [inputs[n]];
    }
  }

  lemma {:induction false} NoOutputErrors(outputs: seq<Output>)
    ensures OutputErrors(outputs) == []
       <==> forall i | 0 <= i < |outputs| :: outputs[i].satoshis > 0 && outputs[i].hasScript
  {
    if outputs == [] {
    } else {
      var n := |outputs| - 1;
      NoOutputErrors(outputs[..n]);
      assert forall i | 0 <= i < n :: outputs[i] == outputs[..n][i];
    }
  }

  /** What acceptance means, besides the two checks left open. */
  lemma Accepted(checks: Checks, s: State, tx: Transaction)
    ensures Validate(checks, s, tx).Valid() <==>
      && checks.hexErrors(tx) == [] && checks.signatureErrors(s.globalUTXOSet, s.spentUTXOs, tx) == []
      && (forall o | o in tx.inputs :: Available(s, o))
      && (forall i | 0 <= i < |tx.outputs| :: tx.outputs[i].satoshis > 0 && tx.outputs[i].hasScript)
      && Fee(s, tx) >= 0
  {
    NoInputErrors(s, tx.inputs);
    NoOutputErrors(tx.outputs);
  }

  /** One error per unavailable input, naming its place, in order. */
  lemma {:induction false} InputErrorsAre(s: State, inputs: seq<Outpoint>)
    ensures forall e | e in InputErrors(s, inputs) :: e.MissingInput?
    ensures forall i :: MissingInput(i) in InputErrors(s, inputs)
                   <==> 0 <= i < |inputs| && !Available(s, inputs[i])
    ensures forall a, b | 0 <= a < b < |InputErrors(s, inputs)| ::
      InputErrors(s, inputs)[a].i < InputErrors(s, inputs)[b].i
  {
    hide Available;
    if inputs == [] {
    } else {
      var n := |inputs| - 1;
      var front := InputErrors(s, inputs[..n]);
      InputErrorsAre(s, inputs[..n]);
      assert forall a | 0 <= a < |front| :: front[a] in front && front[a] == MissingInput(front[a].i);
    }
  }

  /** The errors of one output: the amount before the script. */
  function ErrorsOf(output: Output, n: nat): seq<ValidationError> {
    (if output.satoshis <= 0 then [BadAmount(n)] else []) + if output.hasScript then [] else [NoScript(n)]
  }

  lemma OutputErrorsNext(outputs: seq<Output>)
    requires outputs != []
    ensures var n := |outputs| - 1; OutputErrors(outputs) == OutputErrors(outputs[..n]) + ErrorsOf(outputs[n], n)
  {}

  lemma ErrorsOfOne(output: Output, n: nat)
    ensures forall e | e in ErrorsOf(output, n) :: (e.BadAmount? || e.NoScript?) && e.i == n
    ensures BadAmount(n) in ErrorsOf(output, n) <==> output.satoshis <= 0
    ensures NoScript(n) in ErrorsOf(output, n) <==> !output.hasScript
    ensures InOrder(ErrorsOf(output, n))
  {}

  /** One error per amount that is not positive and per missing script, naming the place. */
  lemma {:induction false} OutputErrorsAre(outputs: seq<Output>)
    ensures forall e | e in OutputErrors(outputs) :: (e.BadAmount? || e.NoScript?) && 0 <= e.i < |outputs|
    ensures forall i :: BadAmount(i) in OutputErrors(outputs) <==> 0 <= i < |outputs| && outputs[i].satoshis <= 0
    ensures forall i :: NoScript(i) in OutputErrors(outputs) <==> 0 <= i < |outputs| && !outputs[i].hasScript
  {
    if outputs == [] {
    } else {
      var n := |outputs| - 1;
      OutputErrorsNext(outputs);
      ErrorsOfOne(outputs[n], n);
      hide OutputErrors, ErrorsOf;
      OutputErrorsAre(outputs[..n]);
      assert forall i | 0 <= i < n :: outputs[i] == outputs[..n][i];
    }
  }

  ghost predicate InOrder(errors: seq<ValidationError>)
    requires forall e | e in errors :: e.BadAmount? || e.NoScript?
  {
    forall a, b | 0 <= a < b < |errors| ::
      errors[a].i < errors[b].i || (errors[a].i == errors[b].i && errors[a].BadAmount? && errors[b].NoScript?)
  }

  /** The places go up, and at one place the amount comes first. */
  lemma {:induction false} OutputErrorsInOrder(outputs: seq<Output>)
    ensures forall e | e in OutputErrors(outputs) :: e.BadAmount? || e.NoScript?
    ensures InOrder(OutputErrors(outputs))
  {
    OutputErrorsAre(outputs);
    if outputs == [] {
    } else {
      var n := |outputs| - 1;
      OutputErrorsNext(outputs);
      ErrorsOfOne(outputs[n], n);
      hide OutputErrors, ErrorsOf, InOrder;
      OutputErrorsAre(outputs[..n]);
      OutputErrorsInOrder(outputs[..n]);
      OrderGrows(OutputErrors(outputs[..n]), ErrorsOf(outputs[n], n), n);
    }
  }

  lemma OrderGrows(front: seq<ValidationError>, tail: seq<ValidationError>, n: nat)
    requires forall e | e in front :: (e.BadAmount? || e.NoScript?) && e.i < n
    requires forall e | e in tail :: (e.BadAmount? || e.NoScript?) && e.i == n
    requires InOrder(front) && InOrder(tail)
    ensures InOrder(front + tail)
  {
    var errors := front + tail;
    forall a, b | 0 <= a < b < |errors|
      ensures errors[a].i < errors[b].i || (errors[a].i == errors[b].i && errors[a].BadAmount? && errors[b].NoScript?)
    {
      if a < |front| <= b { assert errors[a] in front && errors[b] in tail; }
    }
  }

  /** The report: the five lists in this order, and a warning from a fee of 10001 on. */
  lemma ReportIs(checks: Checks, s: State, tx: Transaction)
    ensures Validate(checks, s, tx).highFee <==> InputValue(s, tx.inputs) - OutputValue(tx.outputs) > 10000
    ensures Validate(checks, s, tx).errors
         == checks.hexErrors(tx) + InputErrors(s, tx.inputs)
            + checks.signatureErrors(s.globalUTXOSet, s.spentUTXOs, tx) + OutputErrors(tx.outputs)
            + if OutputValue(tx.outputs) > InputValue(s, tx.inputs)
              then [OutputsExceedInputs(OutputValue(tx.outputs), InputValue(s, tx.inputs))] else []
  {}

  lemma {:induction false} CleanAllCreated(s: State, txid: string, outputs: seq<Output>)
    requires forall i | 0 <= i < |outputs| :: outputs[i].owner.Some? && Outpoint(txid, i) !in s.globalUTXOSet
    ensures CreatedValue(s, txid, outputs) == OutputValue(outputs)
  {
    if outputs == [] {
    } else {
      var n := |outputs| - 1;
      assert forall i | 0 <= i < n :: outputs[i] == outputs[..n][i];
      CleanAllCreated(s, txid, outputs[..n]);
    }
  }

  lemma {:induction false} DistinctCountsOnce(s: State, inputs: seq<Outpoint>)
    requires PositiveCoins(s) && forall o | o in inputs :: Available(s, o)
    ensures DistinctValue(s, inputs) <= InputValue(s, inputs)
    ensures DistinctValue(s, inputs) == InputValue(s, inputs) <==> Distinct(inputs)
  {
    if inputs == [] {
    } else {
      var n := |inputs| - 1;
      var front := inputs[..n];
      assert inputs == front + [inputs[n]];
      DistinctCountsOnce(s, front);
      assert CoinValue(s, inputs[n]) > 0;
      DistinctGrows(inputs);
    }
  }

  lemma DistinctGrows(inputs: seq<Outpoint>)
    requires inputs != []
    ensures Distinct(inputs) <==> Distinct(inputs[..|inputs| - 1]) && inputs[|inputs| - 1] !in inputs[..|inputs| - 1]
  {
    var n := |inputs| - 1;
    var front := inputs[..n];
    if Distinct(inputs) {
      assert forall i | 0 <= i < n :: front[i] == inputs[i];
    }
    if inputs[n] !in front {
      assert forall i | 0 <= i < n :: inputs[i] in front;
    }
  }

  lemma {:induction false} DistinctValueOfDistinct(s: State, inputs: seq<Outpoint>)
    requires Distinct(inputs)
    ensures DistinctValue(s, inputs) == InputValue(s, inputs)
  {
    if inputs == [] {
    } else {
      DistinctGrows(inputs);
      DistinctValueOfDistinct(s, inputs[..|inputs| - 1]);
    }
  }

  /** With clean outputs and coins of positive value, exactly the distinct-input transactions conserve value. */
  lemma AcceptedConserves(checks: Checks, s: State, tx: Transaction)
    requires Validate(checks, s, tx).Valid() && CleanOutputs(s, tx) && PositiveCoins(s)
    ensures SumGlobal(Settled(s, tx).globalUTXOSet) == SumGlobal(s.globalUTXOSet) - Fee(s, tx) <==> Distinct(tx.inputs)
  {
    Accepted(checks, s, tx);
    SpendAllEffect(s, tx.inputs, tx.id);
    CleanAllCreated(SpendAll(s, tx.inputs, tx.id), tx.id, tx.outputs);
    DistinctCountsOnce(s, tx.inputs);
    BalanceEquation(s, tx);
  }

  /** A repeated input passes every check at fee zero and creates value: one coin is spent and paid out twice. */
  lemma RepeatedInputInflates(checks: Checks, s: State, o: Outpoint, id: string, owner: string)
    requires CoinValue(s, o) > 0 && Outpoint(id, 0) !in s.globalUTXOSet
    requires checks.hexErrors(Doubled(s, o, id, owner)) == []
    requires checks.signatureErrors(s.globalUTXOSet, s.spentUTXOs, Doubled(s, o, id, owner)) == []
    ensures Validate(checks, s, Doubled(s, o, id, owner)).Valid() && Fee(s, Doubled(s, o, id, owner)) == 0
    ensures SumGlobal(Settled(s, Doubled(s, o, id, owner)).globalUTXOSet)
         == SumGlobal(s.globalUTXOSet) + CoinValue(s, o)
  {
    var tx := Doubled(s, o, id, owner);
    DoubledValues(s, o, id, owner);
    assert Available(s, o);
    hide Fee, Validate, CoinValue, Available, Settled, SpendAll, AddAll, DistinctValue, CreatedValue, InputValue,
         OutputValue;
    Accepted(checks, s, tx);
    var t := SpendAll(s, tx.inputs, id);
    SpentLeavesFree(s, tx.inputs, id, Outpoint(id, 0));
    CleanAllCreated(t, id, tx.outputs);
    BalanceEquation(s, tx);
  }

  lemma SpentLeavesFree(s: State, inputs: seq<Outpoint>, txid: string, o: Outpoint)
    requires o !in s.globalUTXOSet
    ensures o !in SpendAll(s, inputs, txid).globalUTXOSet
  {
    SpendAllEffect(s, inputs, txid);
  }

  /** A transaction that names one coin twice and pays out twice its value. */
  function Doubled(s: State, o: Outpoint, id: string, owner: string): Transaction {
    Transaction(id, [o, o], [Output(2 * CoinValue(s, o), true, Some(owner))])
  }

  lemma DoubledValues(s: State, o: Outpoint, id: string, owner: string)
    ensures var tx := Doubled(s, o, id, owner);
      && Fee(s, tx) == 0 && InputValue(s, tx.inputs) == 2 * CoinValue(s, o)
      && DistinctValue(s, tx.inputs) == CoinValue(s, o)
  {
    var tx := Doubled(s, o, id, owner);
    hide CoinValue;
    assert DistinctValue(s, [o]) == DistinctValue(s, []) + CoinValue(s, o);
    assert DistinctValue(s, tx.inputs) == DistinctValue(s, [o]);
    assert tx.inputs[..1] == [o] && [o][..0] == [] && tx.outputs[..0] == [];
    assert InputValue(s, [o]) == InputValue(s, []) + CoinValue(s, o);
    assert InputValue(s, tx.inputs) == InputValue(s, [o]) + CoinValue(s, o);
    assert OutputValue(tx.outputs) == OutputValue([]) + 2 * CoinValue(s, o);
  }

  // ---- runs of the step as described ----

  ghost function KeptStep(checks: Checks, s: State, tx: Transaction): State {
    if Validate(checks, s, tx).Valid() then Kept(s, tx) else s
  }

  ghost function KeptRun(checks: Checks, s: State, txs: seq<Transaction>): State
    decreases |txs|
  {
    if txs == [] then s else KeptRun(checks, KeptStep(checks, s, txs[0]), txs[1..])
  }

  /** The fees of the accepted transactions, each computed where it is accepted. */
  ghost function Fees(checks: Checks, s: State, txs: seq<Transaction>): seq<int>
    decreases |txs|
  {
    if txs == [] then []
    else
      (if Validate(checks, s, txs[0]).Valid() then [Fee(s, txs[0])] else [])
      + Fees(checks, KeptStep(checks, s, txs[0]), txs[1..])
  }

  function Sum(values: seq<int>): int {
    if values == [] then 0 else values[0] + Sum(values[1..])
  }

  /** The inputs of all accepted transactions, in order. */
  ghost function AcceptedInputs(checks: Checks, s: State, txs: seq<Transaction>): seq<Outpoint>
    decreases |txs|
  {
    if txs == [] then []
    else
      (if Validate(checks, s, txs[0]).Valid() then txs[0].inputs else [])
      + AcceptedInputs(checks, KeptStep(checks, s, txs[0]), txs[1..])
  }

  /** Every transaction accepted along the run has distinct inputs and clean outputs. */
  ghost predicate AllPlain(checks: Checks, s: State, txs: seq<Transaction>)
    decreases |txs|
  {
    txs == [] ||
    ((Validate(checks, s, txs[0]).Valid() ==> Distinct(txs[0].inputs) && CleanOutputs(s, txs[0]))
     && AllPlain(checks, KeptStep(checks, s, txs[0]), txs[1..]))
  }

  lemma PlainStepConserves(checks: Checks, s: State, tx: Transaction)
    requires Validate(checks, s, tx).Valid() && Distinct(tx.inputs) && CleanOutputs(s, tx)
    ensures SumGlobal(Kept(s, tx).globalUTXOSet) == SumGlobal(s.globalUTXOSet) - Fee(s, tx)
    ensures Fee(s, tx) >= 0
  {
    Accepted(checks, s, tx);
    SpendAllEffect(s, tx.inputs, tx.id);
    CleanAllCreated(SpendAll(s, tx.inputs, tx.id), tx.id, tx.outputs);
    DistinctValueOfDistinct(s, tx.inputs);
    BalanceEquation(s, tx);
  }

  /** After a transaction is accepted its inputs are spent, and what was spent before still is. */
  lemma KeptSpends(checks: Checks, s: State, tx: Transaction, o: Outpoint)
    requires Validate(checks, s, tx).Valid()
    ensures o in Kept(s, tx).spentUTXOs <==> o in s.spentUTXOs || o in tx.inputs
    ensures o in tx.inputs ==> o !in s.spentUTXOs
  {
    Accepted(checks, s, tx);
    SpendAllEffect(s, tx.inputs, tx.id);
    AddAllValue(SpendAll(s, tx.inputs, tx.id), tx.id, tx.outputs);
  }

  lemma {:induction false} AcceptedWereUnspent(checks: Checks, s: State, txs: seq<Transaction>, o: Outpoint)
    requires o in AcceptedInputs(checks, s, txs)
    ensures o !in s.spentUTXOs
    decreases |txs|
  {
    hide Validate, Kept;
    if Validate(checks, s, txs[0]).Valid() {
      KeptSpends(checks, s, txs[0], o);
    }
    if !(Validate(checks, s, txs[0]).Valid() && o in txs[0].inputs) {
      AcceptedWereUnspent(checks, KeptStep(checks, s, txs[0]), txs[1..], o);
    }
  }

  lemma DistinctConcat(p: seq<Outpoint>, q: seq<Outpoint>)
    requires Distinct(p) && Distinct(q) && forall o | o in q :: o !in p
    ensures Distinct(p + q)
  {
    forall i, j | 0 <= i < j < |p + q| ensures (p + q)[i] != (p + q)[j] {
      if i < |p| <= j {
        assert q[j - |p|] in q;
      }
    }
  }

  /**
   * Over any run of such transactions the coin set loses exactly the fees, no fee is negative, and
   * no outpoint is an input of two accepted transactions, or of one twice.
   */
  lemma {:induction false} RunConserves(checks: Checks, s: State, txs: seq<Transaction>)
    requires AllPlain(checks, s, txs)
    ensures SumGlobal(KeptRun(checks, s, txs).globalUTXOSet)
         == SumGlobal(s.globalUTXOSet) - Sum(Fees(checks, s, txs))
    ensures forall fee | fee in Fees(checks, s, txs) :: fee >= 0
    ensures Distinct(AcceptedInputs(checks, s, txs))
    decreases |txs|
  {
    hide Validate, Kept, Fee, SumGlobal, CleanOutputs;
    if txs == [] {
    } else {
      var tx, t := txs[0], KeptStep(checks, s, txs[0]);
      RunConserves(checks, t, txs[1..]);
      var rest := Fees(checks, t, txs[1..]);
      if Validate(checks, s, tx).Valid() {
        PlainStepConserves(checks, s, tx);
        assert ([Fee(s, tx)] + rest)[1..] == rest;
        var later := AcceptedInputs(checks, t, txs[1..]);
        forall o | o in later ensures o !in tx.inputs {
          AcceptedWereUnspent(checks, t, txs[1..], o);
          KeptSpends(checks, s, tx, o);
        }
        DistinctConcat(tx.inputs, later);
      } else {
        assert [] + rest == rest;
        assert [] + AcceptedInputs(checks, t, txs[1..]) == AcceptedInputs(checks, t, txs[1..]);
      }
    }
  }

  // ---- runs in which inputs may repeat ----

  lemma {:induction false} AddedArePositive(s: State, txid: string, outputs: seq<Output>)
    requires PositiveCoins(s) && forall i | 0 <= i < |outputs| :: outputs[i].satoshis > 0
    ensures PositiveCoins(AddAll(s, txid, outputs))
  {
    if outputs == [] {
    } else {
      var n := |outputs| - 1;
      assert forall i | 0 <= i < n :: outputs[i] == outputs[..n][i];
      AddedArePositive(s, txid, outputs[..n]);
    }
  }

  /** Acceptance keeps every coin positive. */
  lemma KeptArePositive(checks: Checks, s: State, tx: Transaction)
    requires Validate(checks, s, tx).Valid() && PositiveCoins(s)
    ensures PositiveCoins(Kept(s, tx))
  {
    Accepted(checks, s, tx);
    SpendAllEffect(s, tx.inputs, tx.id);
    AddedArePositive(SpendAll(s, tx.inputs, tx.id), tx.id, tx.outputs);
  }

  ghost predicate AllClean(checks: Checks, s: State, txs: seq<Transaction>)
    decreases |txs|
  {
    txs == [] ||
    ((Validate(checks, s, txs[0]).Valid() ==> CleanOutputs(s, txs[0]))
     && AllClean(checks, KeptStep(checks, s, txs[0]), txs[1..]))
  }

  /** No accepted transaction of the run names an input twice. */
  ghost predicate AllDistinct(checks: Checks, s: State, txs: seq<Transaction>)
    decreases |txs|
  {
    txs == [] ||
    ((Validate(checks, s, txs[0]).Valid() ==> Distinct(txs[0].inputs))
     && AllDistinct(checks, KeptStep(checks, s, txs[0]), txs[1..]))
  }

  lemma AcceptedNeverDestroys(checks: Checks, s: State, tx: Transaction)
    requires Validate(checks, s, tx).Valid() && CleanOutputs(s, tx) && PositiveCoins(s)
    ensures SumGlobal(Kept(s, tx).globalUTXOSet) >= SumGlobal(s.globalUTXOSet) - Fee(s, tx)
    ensures SumGlobal(Kept(s, tx).globalUTXOSet) == SumGlobal(s.globalUTXOSet) - Fee(s, tx) <==> Distinct(tx.inputs)
  {
    AcceptedConserves(checks, s, tx);
    hide Distinct, Fee, SumGlobal, CreatedValue, DistinctValue, InputValue, OutputValue;
    Accepted(checks, s, tx);
    SpendAllEffect(s, tx.inputs, tx.id);
    CleanAllCreated(SpendAll(s, tx.inputs, tx.id), tx.id, tx.outputs);
    DistinctCountsOnce(s, tx.inputs);
    BalanceEquation(s, tx);
  }

  /**
   * From positive coins and with clean outputs, a run never destroys value beyond the fees, and
   * conserves it exactly when no accepted transaction names an input twice.
   */
  lemma {:induction false} RunConservesExactly(checks: Checks, s: State, txs: seq<Transaction>)
    requires PositiveCoins(s) && AllClean(checks, s, txs)
    ensures PositiveCoins(KeptRun(checks, s, txs))
    ensures SumGlobal(KeptRun(checks, s, txs).globalUTXOSet)
         >= SumGlobal(s.globalUTXOSet) - Sum(Fees(checks, s, txs))
    ensures SumGlobal(KeptRun(checks, s, txs).globalUTXOSet)
         == SumGlobal(s.globalUTXOSet) - Sum(Fees(checks, s, txs))
       <==> AllDistinct(checks, s, txs)
    decreases |txs|
  {
    hide Validate, Kept, Fee, SumGlobal, CleanOutputs, PositiveCoins, Distinct;
    if txs == [] {
    } else {
      var tx, t := txs[0], KeptStep(checks, s, txs[0]);
      var rest := Fees(checks, t, txs[1..]);
      if Validate(checks, s, tx).Valid() {
        KeptArePositive(checks, s, tx);
        AcceptedNeverDestroys(checks, s, tx);
        assert ([Fee(s, tx)] + rest)[1..] == rest;
      } else {
        assert [] + rest == rest;
      }
      RunConservesExactly(checks, t, txs[1..]);
    }
  }

  // ---- the wallet lists under the same step ----

  lemma {:induction false} SpendAllPartition(s: State, inputs: seq<Outpoint>, txid: string)
    requires Partitioned(s)
    ensures Partitioned(SpendAll(s, inputs, txid))
  {
    hide Partitioned;
    if inputs == [] {
    } else {
      var n := |inputs| - 1;
      SpendAllPartition(s, inputs[..n], txid);
      var t := SpendAll(s, inputs[..n], txid);
      if AfterSpend(t, inputs[n], txid).Ok? { SpendKeepsPartition(t, inputs[n], txid); }
    }
  }

  lemma {:induction false} AddAllPartition(s: State, txid: string, outputs: seq<Output>)
    requires Partitioned(s)
    ensures Partitioned(AddAll(s, txid, outputs))
  {
    hide Partitioned;
    if outputs == [] {
    } else {
      var n := |outputs| - 1;
      AddAllPartition(s, txid, outputs[..n]);
      if outputs[n].owner.Some? {
        AddKeepsPartition(AddAll(s, txid, outputs[..n]), Coin(Outpoint(txid, n), outputs[n].satoshis),
                          outputs[n].owner.value);
      }
    }
  }

  lemma {:induction false} RunKeepsWallets(checks: Checks, s: State, txs: seq<Transaction>)
    requires Partitioned(s)
    ensures Partitioned(KeptRun(checks, s, txs))
    ensures SumWallets(KeptRun(checks, s, txs).wallets) == SumGlobal(KeptRun(checks, s, txs).globalUTXOSet)
    decreases |txs|
  {
    if txs == [] {
      TotalsAgree(s.wallets, s.globalUTXOSet);
    } else {
      SpendAllPartition(s, txs[0].inputs, txs[0].id);
      AddAllPartition(SpendAll(s, txs[0].inputs, txs[0].id), txs[0].id, txs[0].outputs);
      RunKeepsWallets(checks, KeptStep(checks, s, txs[0]), txs[1..]);
    }
  }

  // ---- who gets what ----

  /** The output at place `i` is a coin of its own amount and owner. */
  ghost predicate Owned(coins: CoinSet, txid: string, output: Output, i: nat) {
    && output.owner.Some? && Outpoint(txid, i) in coins
    && coins[Outpoint(txid, i)] == OwnedCoin(Coin(Outpoint(txid, i), output.satoshis), output.owner.value)
  }

  /** Every clean output becomes such a coin. */
  lemma {:induction false} AddAllOwns(s: State, txid: string, outputs: seq<Output>, i: nat)
    requires forall j | 0 <= j < |outputs| :: outputs[j].owner.Some? && Outpoint(txid, j) !in s.globalUTXOSet
    requires i < |outputs|
    ensures Owned(AddAll(s, txid, outputs).globalUTXOSet, txid, outputs[i], i)
  {
    hide AfterAdd;
    var n := |outputs| - 1;
    var before, output := AddAll(s, txid, outputs[..n]), outputs[n];
    assert forall j | 0 <= j < n :: outputs[j] == outputs[..n][j];
    AddAllValue(s, txid, outputs[..n]);
    OneAdded(before, Coin(Outpoint(txid, n), output.satoshis), output.owner.value);
    if i < n {
      AddAllOwns(s, txid, outputs[..n], i);
    }
  }

  lemma OneAdded(s: State, coin: Coin, owner: string)
    requires coin.outpoint !in s.globalUTXOSet
    ensures AfterAdd(s, coin, owner).globalUTXOSet == s.globalUTXOSet[coin.outpoint := OwnedCoin(coin, owner)]
  {
    hide WithTotals, SumGlobal;
  }

  /** After the described step every clean output is a coin of its owner, and in that owner's list. */
  lemma OutputsReachTheirOwners(s: State, tx: Transaction, i: nat)
    requires Partitioned(s) && CleanOutputs(s, tx) && i < |tx.outputs|
    ensures var (t, o, owner) := (Kept(s, tx), Outpoint(tx.id, i), tx.outputs[i].owner.value);
      var coin := Coin(o, tx.outputs[i].satoshis);
      && o in t.globalUTXOSet && t.globalUTXOSet[o] == OwnedCoin(coin, owner)
      && owner in t.wallets && coin in t.wallets[owner].utxos
  {
    SpendAllEffect(s, tx.inputs, tx.id);
    SpendAllPartition(s, tx.inputs, tx.id);
    var spent := SpendAll(s, tx.inputs, tx.id);
    AddAllOwns(spent, tx.id, tx.outputs, i);
    AddAllPartition(spent, tx.id, tx.outputs);
  }

  /** Every input of an accepted transaction is recorded as spent in it, as the coin it was. */
  lemma InputsAreRecorded(checks: Checks, s: State, tx: Transaction, o: Outpoint)
    requires Validate(checks, s, tx).Valid() && o in tx.inputs
    ensures o in s.globalUTXOSet
    ensures o in Kept(s, tx).globalUTXOSet ==> o.txid == tx.id && o.vout < |tx.outputs|
    ensures o in Kept(s, tx).spentUTXOs && Kept(s, tx).spentUTXOs[o] == SpentCoin(s.globalUTXOSet[o], tx.id)
  {
    Accepted(checks, s, tx);
    SpendAllEffect(s, tx.inputs, tx.id);
    SpendAllRecords(s, tx.inputs, tx.id, o);
    AddAllValue(SpendAll(s, tx.inputs, tx.id), tx.id, tx.outputs);
  }

  lemma {:induction false} SpendAllRecords(s: State, inputs: seq<Outpoint>, txid: string, o: Outpoint)
    requires o in inputs && Available(s, o)
    ensures var t := SpendAll(s, inputs, txid);
      o in t.spentUTXOs && t.spentUTXOs[o] == SpentCoin(s.globalUTXOSet[o], txid)
  {
    var n := |inputs| - 1;
    var t := SpendAll(s, inputs[..n], txid);
    assert inputs == inputs[..n] + [inputs[n]];
    SpendAllEffect(s, inputs[..n], txid);
    OneMoved(t, inputs[n], txid);
    hide TrySpend;
    if o in inputs[..n] { SpendAllRecords(s, inputs[..n], txid, o); }
  }

  /** What the wallet list of an address adds up to. */
  function Listed(s: State, address: string): int {
    if address in s.wallets then SumCoins(s.wallets[address].utxos) else 0
  }

  function PaidTo(outputs: seq<Output>, address: string): int {
    if outputs == [] then 0
    else
      var n := |outputs| - 1;
      PaidTo(outputs[..n], address) + if outputs[n].owner == Some(address) then outputs[n].satoshis else 0
  }

  /** The available coins of an address among the inputs, each counted once. */
  function SpentFrom(s: State, inputs: seq<Outpoint>, address: string): int {
    if inputs == [] then 0
    else
      var n := |inputs| - 1;
      SpentFrom(s, inputs[..n], address)
      + if inputs[n] !in inputs[..n] && Available(s, inputs[n]) && s.globalUTXOSet[inputs[n]].owner == address
        then s.globalUTXOSet[inputs[n]].coin.satoshis else 0
  }

  lemma SpendListed(s: State, o: Outpoint, txid: string, address: string)
    requires Partitioned(s)
    ensures Listed(TrySpend(s, o, txid), address)
         == Listed(s, address)
            - if Available(s, o) && s.globalUTXOSet[o].owner == address then s.globalUTXOSet[o].coin.satoshis else 0
  {
    if Available(s, o) {
      var owner := s.globalUTXOSet[o].owner;
      SumDrop(s.wallets[owner].utxos, s.globalUTXOSet[o].coin);
      hide SumCoins, SumGlobal, Drop, NoRepeats;
    }
  }

  lemma AddListed(s: State, coin: Coin, owner: string, address: string)
    requires Partitioned(s) && coin.outpoint !in s.globalUTXOSet
    ensures Listed(AfterAdd(s, coin, owner), address)
         == Listed(s, address) + if address == owner then coin.satoshis else 0
  {
    var utxos := if owner in s.wallets then s.wallets[owner].utxos else [];
    if owner in s.wallets { NotListed(s.wallets, s.globalUTXOSet, owner, coin.outpoint); }
    assert SumCoins([]) == 0;
    assert (utxos + [coin])[..|utxos|] == utxos && SumCoins(utxos + [coin]) == SumCoins(utxos) + coin.satoshis;
    hide SumCoins, SumGlobal, Partitioned;
  }

  lemma {:induction false} SpendAllListed(s: State, inputs: seq<Outpoint>, txid: string, address: string)
    requires Partitioned(s)
    ensures Listed(SpendAll(s, inputs, txid), address) == Listed(s, address) - SpentFrom(s, inputs, address)
  {
    hide Partitioned, TrySpend, Listed;
    if inputs == [] {
    } else {
      var n := |inputs| - 1;
      var t := SpendAll(s, inputs[..n], txid);
      SpendAllListed(s, inputs[..n], txid, address);
      SpendAllPartition(s, inputs[..n], txid);
      SpendAllEffect(s, inputs[..n], txid);
      SpendListed(t, inputs[n], txid, address);
    }
  }

  lemma {:induction false} AddAllListed(s: State, txid: string, outputs: seq<Output>, address: string)
    requires Partitioned(s)
    requires forall i | 0 <= i < |outputs| :: outputs[i].owner.Some? && Outpoint(txid, i) !in s.globalUTXOSet
    ensures Listed(AddAll(s, txid, outputs), address) == Listed(s, address) + PaidTo(outputs, address)
  {
    hide Partitioned, Listed, AfterAdd;
    if outputs == [] {
    } else {
      var n := |outputs| - 1;
      var t := AddAll(s, txid, outputs[..n]);
      assert forall i | 0 <= i < n :: outputs[i] == outputs[..n][i];
      AddAllListed(s, txid, outputs[..n], address);
      AddAllPartition(s, txid, outputs[..n]);
      AddAllValue(s, txid, outputs[..n]);
      AddListed(t, Coin(Outpoint(txid, n), outputs[n].satoshis), outputs[n].owner.value, address);
    }
  }

  /** Conservation owner by owner: a wallet list changes by the outputs paid to it less its own coins that are spent. */
  lemma OwnerBalance(s: State, tx: Transaction, address: string)
    requires Partitioned(s) && CleanOutputs(s, tx)
    ensures Listed(Kept(s, tx), address)
         == Listed(s, address) + PaidTo(tx.outputs, address) - SpentFrom(s, tx.inputs, address)
  {
    SpendAllEffect(s, tx.inputs, tx.id);
    SpendAllPartition(s, tx.inputs, tx.id);
    SpendAllListed(s, tx.inputs, tx.id, address);
    AddAllListed(SpendAll(s, tx.inputs, tx.id), tx.id, tx.outputs, address);
  }

  /** What the accepted transactions of a run pay to an address, less what they spend from it. */
  ghost function NetPaid(checks: Checks, s: State, txs: seq<Transaction>, address: string): int
    decreases |txs|
  {
    if txs == [] then 0
    else
      (if Validate(checks, s, txs[0]).Valid()
       then PaidTo(txs[0].outputs, address) - SpentFrom(s, txs[0].inputs, address) else 0)
      + NetPaid(checks, KeptStep(checks, s, txs[0]), txs[1..], address)
  }

  lemma StepKeepsWallets(s: State, tx: Transaction)
    requires Partitioned(s)
    ensures Partitioned(Kept(s, tx))
  {
    SpendAllPartition(s, tx.inputs, tx.id);
    AddAllPartition(SpendAll(s, tx.inputs, tx.id), tx.id, tx.outputs);
  }

  lemma {:induction false} RunOwnerBalance(checks: Checks, s: State, txs: seq<Transaction>, address: string)
    requires Partitioned(s) && AllClean(checks, s, txs)
    ensures Listed(KeptRun(checks, s, txs), address) == Listed(s, address) + NetPaid(checks, s, txs, address)
    decreases |txs|
  {
    hide Validate, Kept, Partitioned, CleanOutputs, Listed;
    if txs == [] {
    } else {
      if Validate(checks, s, txs[0]).Valid() {
        OwnerBalance(s, txs[0], address);
        StepKeepsWallets(s, txs[0]);
      }
      RunOwnerBalance(checks, KeptStep(checks, s, txs[0]), txs[1..], address);
    }
  }

  // ---- the step as written ----

  ghost predicate SameCoins(s: State, t: State) {
    s.globalUTXOSet == t.globalUTXOSet && s.spentUTXOs == t.spentUTXOs && s.wallets == t.wallets
  }

  /**
   * The final save of the state loaded at the start undoes the spends and the adds: an accepted
   * transaction leaves the coins the described step leaves exactly when it has no inputs.
   */
  lemma FinalSaveUndoes(checks: Checks, s: State, tx: Transaction)
    requires Validate(checks, s, tx).Valid()
    ensures SameCoins(Overwritten(s, tx), Kept(s, tx)) <==> tx.inputs == []
  {
    Accepted(checks, s, tx);
    if tx.inputs == [] {
      if tx.outputs != [] { PositiveOutputs(tx.outputs); }
    } else {
      KeptSpends(checks, s, tx, tx.inputs[0]);
      assert tx.inputs[0] in Kept(s, tx).spentUTXOs && tx.inputs[0] !in Overwritten(s, tx).spentUTXOs;
    }
  }

  lemma {:induction false} PositiveOutputs(outputs: seq<Output>)
    requires forall i | 0 <= i < |outputs| :: outputs[i].satoshis > 0
    ensures OutputValue(outputs) >= |outputs|
  {
    if outputs == [] {
    } else {
      assert forall i | 0 <= i < |outputs| - 1 :: outputs[i] == outputs[..|outputs| - 1][i];
      PositiveOutputs(outputs[..|outputs| - 1]);
    }
  }

  lemma {:induction false} SameCoinsSameChecks(s: State, t: State, inputs: seq<Outpoint>)
    requires SameCoins(s, t)
    ensures InputErrors(s, inputs) == InputErrors(t, inputs) && InputValue(s, inputs) == InputValue(t, inputs)
  {
    if inputs == [] {
    } else {
      SameCoinsSameChecks(s, t, inputs[..|inputs| - 1]);
      assert Available(s, inputs[|inputs| - 1]) == Available(t, inputs[|inputs| - 1]);
    }
  }

  /** So a transaction accepted once is accepted every time it is sent, as long as nothing else changes the coins. */
  lemma AcceptedAgain(checks: Checks, s: State, tx: Transaction)
    requires Validate(checks, s, tx).Valid()
    ensures Validate(checks, Overwritten(s, tx), tx).Valid()
  {
    SameCoinsSameChecks(s, Overwritten(s, tx), tx.inputs);
  }

  // ---- runs of the step as written ----

  ghost function WrittenRun(checks: Checks, s: State, txs: seq<Transaction>): State
    decreases |txs|
  {
    if txs == [] then s
    else WrittenRun(checks, if Validate(checks, s, txs[0]).Valid() then Overwritten(s, txs[0]) else s, txs[1..])
  }

  /** The transactions that the state at the start accepts. */
  function AcceptedAtStart(checks: Checks, s: State, txs: seq<Transaction>): seq<Transaction> {
    if txs == [] then []
    else (if Validate(checks, s, txs[0]).Valid() then [txs[0]] else []) + AcceptedAtStart(checks, s, txs[1..])
  }

  /** The entry of the history for an accepted transaction, its fee being computed when the inputs are gone. */
  function EntryFor(tx: Transaction): HistoryEntry {
    HistoryEntry(tx.id, |tx.inputs|, |tx.outputs|, -OutputValue(tx.outputs))
  }

  function EntriesFor(txs: seq<Transaction>): seq<HistoryEntry> {
    if txs == [] then [] else [EntryFor(txs[0])] + EntriesFor(txs[1..])
  }

  lemma OverwrittenIs(checks: Checks, s: State, tx: Transaction)
    requires Validate(checks, s, tx).Valid()
    ensures SameCoins(s, Overwritten(s, tx)) && Overwritten(s, tx).history == s.history + [EntryFor(tx)]
    ensures Overwritten(s, tx).metadata == s.metadata.(blockHeight := s.metadata.blockHeight + 1)
  {
    RecordedFee(checks, s, tx);
  }

  lemma {:induction false} SameAccepted(checks: Checks, s: State, t: State, txs: seq<Transaction>)
    requires SameCoins(s, t)
    ensures AcceptedAtStart(checks, s, txs) == AcceptedAtStart(checks, t, txs)
  {
    if txs == [] {
    } else {
      SameCoinsSameChecks(s, t, txs[0].inputs);
      SameAccepted(checks, s, t, txs[1..]);
    }
  }

  lemma AcceptedNext(checks: Checks, s: State, txs: seq<Transaction>)
    requires txs != []
    ensures var rest := AcceptedAtStart(checks, s, txs[1..]);
      AcceptedAtStart(checks, s, txs) == if Validate(checks, s, txs[0]).Valid() then [txs[0]] + rest else rest
  {
    hide Validate;
  }

  /**
   * A whole run as written moves no coin: every transaction is judged by the coins at the start, and
   * the accepted ones only add their entries to the history and one each to the height.
   */
  lemma {:induction false} RunAsWritten(checks: Checks, s: State, txs: seq<Transaction>)
    ensures var (t, accepted) := (WrittenRun(checks, s, txs), AcceptedAtStart(checks, s, txs));
      && SameCoins(s, t) && t.history == s.history + EntriesFor(accepted)
      && t.metadata == s.metadata.(blockHeight := s.metadata.blockHeight + |accepted|)
    decreases |txs|
  {
    hide Validate, Overwritten;
    if txs == [] {
    } else {
      AcceptedNext(checks, s, txs);
      if Validate(checks, s, txs[0]).Valid() {
        var t := Overwritten(s, txs[0]);
        OverwrittenIs(checks, s, txs[0]);
        SameAccepted(checks, s, t, txs[1..]);
        RunAsWritten(checks, t, txs[1..]);
        var rest := AcceptedAtStart(checks, s, txs[1..]);
        assert ([txs[0]] + rest)[1..] == rest;
        HistoryGrows(s.history, EntryFor(txs[0]), EntriesFor(rest));
      } else {
        RunAsWritten(checks, s, txs[1..]);
      }
    }
  }

  lemma HistoryGrows(history: seq<HistoryEntry>, e: HistoryEntry, rest: seq<HistoryEntry>)
    ensures history + [e] + rest == history + ([e] + rest)
  {}

  lemma {:induction false} NothingAvailable(s: State, inputs: seq<Outpoint>)
    requires forall o | o in inputs :: !Available(s, o)
    ensures InputValue(s, inputs) == 0
  {
    if inputs == [] {
    } else {
      NothingAvailable(s, inputs[..|inputs| - 1]);
    }
  }

  /**
   * The fee that goes into the history is computed when the inputs are gone: it is minus the output
   * value, which is the fee charged exactly when the inputs are worth nothing.
   */
  lemma RecordedFee(checks: Checks, s: State, tx: Transaction)
    requires Validate(checks, s, tx).Valid()
    ensures |Overwritten(s, tx).history| == |s.history| + 1
    ensures Overwritten(s, tx).history[|s.history|].fee == -OutputValue(tx.outputs)
    ensures Overwritten(s, tx).history[|s.history|].fee == Fee(s, tx) <==> InputValue(s, tx.inputs) == 0
  {
    forall o | o in tx.inputs ensures !Available(Settled(s, tx), o) {
      KeptSpends(checks, s, tx, o);
    }
    NothingAvailable(Settled(s, tx), tx.inputs);
  }
}
