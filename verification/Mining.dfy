/** The miner: validates a transaction against the stored coins, then spends its inputs and adds its outputs. */
module Mining {
  import opened Ledger
  import opened Wrappers

  /** `owner` is the text of `output.script.toAddress()`, None when that throws. */
  datatype Output = Output(satoshis: int, hasScript: bool, owner: Option<string>)

  datatype Transaction = Transaction(id: string, inputs: seq<Outpoint>, outputs: seq<Output>)

  datatype ValidationError =
    | Malformed(why: string) | MissingInput(i: int) | SpentInput(i: int) | BadAmount(i: int) | NoScript(i: int)
    | OutputsExceedInputs(outputs: int, inputs: int)

  datatype Validation = Validation(errors: seq<ValidationError>, highFee: bool) {
    predicate Valid() { errors == [] }
  }

  /** The checks of the raw form and of the signatures, of which only the errors they report are used. */
  datatype Checks = Checks(hexErrors: Transaction -> seq<ValidationError>,
                           signatureErrors: (CoinSet, map<Outpoint, SpentCoin>, Transaction) -> seq<ValidationError>)

  // ---- validation, as functions of the stored state ----

  function CoinValue(s: State, o: Outpoint): int {
    if Available(s, o) then s.globalUTXOSet[o].coin.satoshis else 0
  }

  /** Sum over the inputs as listed; a repeated input counts every time. */
  function InputValue(s: State, inputs: seq<Outpoint>): int {
    if inputs == [] then 0
    else InputValue(s, inputs[..|inputs| - 1]) + CoinValue(s, inputs[|inputs| - 1])
  }

  function OutputValue(outputs: seq<Output>): int {
    if outputs == [] then 0 else OutputValue(outputs[..|outputs| - 1]) + outputs[|outputs| - 1].satoshis
  }

  function Fee(s: State, tx: Transaction): int { InputValue(s, tx.inputs) - OutputValue(tx.outputs) }

  function InputErrors(s: State, inputs: seq<Outpoint>): seq<ValidationError> {
    if inputs == [] then []
    else
      var n := |inputs| - 1;
      InputErrors(s, inputs[..n]) + if Available(s, inputs[n]) then [] else [MissingInput(n)]
  }

  function OutputErrors(outputs: seq<Output>): seq<ValidationError> {
    if outputs == [] then []
    else
      var n := |outputs| - 1;
      OutputErrors(outputs[..n]) + (if outputs[n].satoshis <= 0 then [BadAmount(n)] else [])
      + (if outputs[n].hasScript then [] else [NoScript(n)])
  }

  function BalanceErrors(s: State, tx: Transaction): seq<ValidationError> {
    if Fee(s, tx) < 0 then [OutputsExceedInputs(OutputValue(tx.outputs), InputValue(s, tx.inputs))] else []
  }

  function Validate(checks: Checks, s: State, tx: Transaction): Validation {
    Validation(checks.hexErrors(tx) + InputErrors(s, tx.inputs)
               + checks.signatureErrors(s.globalUTXOSet, s.spentUTXOs, tx)
               + OutputErrors(tx.outputs) + BalanceErrors(s, tx),
               Fee(s, tx) > 10000)
  }

  // ---- what processing does ----

  ghost function TrySpend(s: State, o: Outpoint, txid: string): State { Step(s, Spend(o, txid)) }

  ghost function SpendAll(s: State, inputs: seq<Outpoint>, txid: string): State {
    if inputs == [] then s else TrySpend(SpendAll(s, inputs[..|inputs| - 1], txid), inputs[|inputs| - 1], txid)
  }

  ghost function AddAll(s: State, txid: string, outputs: seq<Output>): State {
    if outputs == [] then s
    else
      var n := |outputs| - 1;
      var before := AddAll(s, txid, outputs[..n]);
      if outputs[n].owner.Some?
      then AfterAdd(before, Coin(Outpoint(txid, n), outputs[n].satoshis), outputs[n].owner.value)
      else before
  }

  /** The coins after the spends and the adds. */
  ghost function Settled(s: State, tx: Transaction): State {
    AddAll(SpendAll(s, tx.inputs, tx.id), tx.id, tx.outputs)
  }

  /** The history entry and block height that processing adds, with the fee computed on `after`. */
  function Recorded(s: State, tx: Transaction, after: State): State {
    s.(history := s.history + [HistoryEntry(tx.id, |tx.inputs|, |tx.outputs|, Fee(after, tx))],
       metadata := s.metadata.(blockHeight := s.metadata.blockHeight + 1))
  }

  /** The step as described: the spends and adds are kept. */
  ghost function Kept(s: State, tx: Transaction): State { Recorded(Settled(s, tx), tx, Settled(s, tx)) }

  /** The step as written: the state loaded before the spends and adds is saved over them. */
  ghost function Overwritten(s: State, tx: Transaction): State { Recorded(s, tx, Settled(s, tx)) }

  // ---- the methods ----

  class MinerSimulator {
    const chain: BlockchainState
    const checks: Checks

    constructor (chain: BlockchainState, checks: Checks)
      ensures this.chain == chain && this.checks == checks
    {
      this.chain, this.checks := chain, checks;
    }

    method ValidateTransactionInputs(tx: Transaction) returns (errors: seq<ValidationError>)
      ensures errors == InputErrors(chain.saved, tx.inputs)
    {
      errors := [];
      for i := 0 to |tx.inputs|
        invariant errors == InputErrors(chain.saved, tx.inputs[..i])
      {
        assert tx.inputs[..i + 1][..i] == tx.inputs[..i];
        var lookup := GetUTXO(chain.saved, tx.inputs[i]);
        if !lookup.exists_ {
          errors := errors + [MissingInput(i)];
        } else if lookup.spent {
          errors := errors + [SpentInput(i)];
        }
      }
      assert tx.inputs[..|tx.inputs|] == tx.inputs;
    }

    method ValidateTransactionOutputs(tx: Transaction) returns (errors: seq<ValidationError>)
      ensures errors == OutputErrors(tx.outputs)
    {
      errors := [];
      for i := 0 to |tx.outputs|
        invariant errors == OutputErrors(tx.outputs[..i])
      {
        assert tx.outputs[..i + 1][..i] == tx.outputs[..i];
        if tx.outputs[i].satoshis <= 0 { errors := errors + [BadAmount(i)]; }
        if !tx.outputs[i].hasScript { errors := errors + [NoScript(i)]; }
      }
      assert tx.outputs[..|tx.outputs|] == tx.outputs;
    }

    /** Also the body of `calculateTransactionFee`. */
    method Balance(tx: Transaction) returns (inputValue: int, outputValue: int)
      ensures inputValue == InputValue(chain.saved, tx.inputs) && outputValue == OutputValue(tx.outputs)
    {
      inputValue, outputValue := 0, 0;
      for i := 0 to |tx.inputs|
        invariant inputValue == InputValue(chain.saved, tx.inputs[..i])
      {
        assert tx.inputs[..i + 1][..i] == tx.inputs[..i];
        var lookup := GetUTXO(chain.saved, tx.inputs[i]);
        if lookup.exists_ { inputValue := inputValue + lookup.coin.value.satoshis; }
      }
      for i := 0 to |tx.outputs|
        invariant outputValue == OutputValue(tx.outputs[..i])
      {
        assert tx.outputs[..i + 1][..i] == tx.outputs[..i];
        outputValue := outputValue + tx.outputs[i].satoshis;
      }
      assert tx.inputs[..|tx.inputs|] == tx.inputs && tx.outputs[..|tx.outputs|] == tx.outputs;
    }

    method ValidateTransaction(tx: Transaction) returns (v: Validation)
      ensures v == Validate(checks, chain.saved, tx)
    {
      var inputErrors := ValidateTransactionInputs(tx);
      var outputErrors := ValidateTransactionOutputs(tx);
      var inputValue, outputValue := Balance(tx);
      var fee := inputValue - outputValue;
      var balanceErrors := if fee < 0 then [OutputsExceedInputs(outputValue, inputValue)] else [];
      v := Validation(checks.hexErrors(tx) + inputErrors
                      + checks.signatureErrors(chain.saved.globalUTXOSet, chain.saved.spentUTXOs, tx)
                      + outputErrors + balanceErrors, fee > 10000);
    }

    method SpendInputs(tx: Transaction)
      modifies chain
      ensures chain.saved == SpendAll(old(chain.saved), tx.inputs, tx.id)
    {
      hide AfterSpend;
      for i := 0 to |tx.inputs|
        invariant chain.saved == SpendAll(old(chain.saved), tx.inputs[..i], tx.id)
      {
        assert tx.inputs[..i + 1][..i] == tx.inputs[..i];
        var _ := chain.SpendUTXO(tx.inputs[i], tx.id);
      }
      assert tx.inputs[..|tx.inputs|] == tx.inputs;
    }

    method AddOutputs(tx: Transaction)
      modifies chain
      ensures chain.saved == AddAll(old(chain.saved), tx.id, tx.outputs)
    {
      hide AfterAdd;
      for i := 0 to |tx.outputs|
        invariant chain.saved == AddAll(old(chain.saved), tx.id, tx.outputs[..i])
      {
        assert tx.outputs[..i + 1][..i] == tx.outputs[..i];
        var output := tx.outputs[i];
        if output.owner.Some? {
          chain.AddUTXO(Coin(Outpoint(tx.id, i), output.satoshis), output.owner.value);
        }
      }
      assert tx.outputs[..|tx.outputs|] == tx.outputs;
    }

    method SpendInputsAndAddOutputs(tx: Transaction)
      modifies chain
      ensures chain.saved == Settled(old(chain.saved), tx)
    {
      SpendInputs(tx);
      AddOutputs(tx);
    }

    method ProcessTransaction(tx: Transaction)
      modifies chain
      ensures chain.saved == Overwritten(old(chain.saved), tx)
    {
      var state := chain.saved;
      SpendInputsAndAddOutputs(tx);
      var inputValue, outputValue := Balance(tx);
      state := state.(history := state.history
                                 + [HistoryEntry(tx.id, |tx.inputs|, |tx.outputs|, inputValue - outputValue)]);
      state := state.(metadata := state.metadata.(blockHeight := state.metadata.blockHeight + 1));
      chain.saved := state;
    }

    method AcceptTransaction(tx: Transaction) returns (accepted: bool, v: Validation)
      modifies chain
      ensures v == Validate(checks, old(chain.saved), tx) && accepted == v.Valid()
      ensures chain.saved == if accepted then Overwritten(old(chain.saved), tx) else old(chain.saved)
    {
      v := ValidateTransaction(tx);
      accepted := |v.errors| == 0;
      if accepted { ProcessTransaction(tx); }
    }
  }
}
