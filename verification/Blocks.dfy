/** The development miner: a mempool, and blocks linked by hash. */
module Blocks {
  import opened Wrappers

  /** `id` may be empty, in which case the block records the text of the transaction. */
  datatype Transaction = Transaction(id: string, text: string, verifies: bool) {
    function Label(): string { if id != "" then id else text }
  }

  /** What a block hash is computed from. */
  datatype Record = Record(height: nat, timestamp: int, previousBlockHash: string, transactions: seq<string>)

  /** The first block has no hash. */
  datatype Block = Block(height: nat, timestamp: int, transactions: seq<Transaction>, previousBlockHash: string,
                         hash: Option<string>)

  /** Hash of the JSON text of a record, in hexadecimal; the text determines the record. */
  type Hasher = Record -> string

  const NO_HASH: string := seq(64, _ => '0')

  datatype State = State(currentBlock: Block, mempool: seq<Transaction>)

  function Genesis(timestamp: int): Block { Block(0, timestamp, [], "", None) }

  function Labels(transactions: seq<Transaction>): seq<string> {
    seq(|transactions|, i requires 0 <= i < |transactions| => transactions[i].Label())
  }

  function RecordOf(b: Block): Record { Record(b.height, b.timestamp, b.previousBlockHash, Labels(b.transactions)) }

  /** How many elements `splice(0, n)` takes. */
  function Taken(n: int, length: nat): nat { if n <= 0 then 0 else if n < length then n else length }

  function NextBlock(hash: Hasher, tip: Block, transactions: seq<Transaction>, timestamp: int): Block {
    var previous := if tip.hash.Some? && tip.hash.value != "" then tip.hash.value else NO_HASH;
    var b := Block(tip.height + 1, timestamp, transactions, previous, None);
    b.(hash := Some(hash(RecordOf(b))))
  }

  datatype Op = Accept(transaction: Transaction) | Mine(maxTransactions: int, timestamp: int) | Reset(timestamp: int)

  predicate Accepts(validateScripts: bool, transaction: Transaction) { !validateScripts || transaction.verifies }

  function Step(hash: Hasher, validateScripts: bool, s: State, op: Op): State {
    match op
    case Accept(transaction) =>
      if Accepts(validateScripts, transaction) then s.(mempool := s.mempool + [transaction]) else s
    case Mine(maxTransactions, timestamp) =>
      var n := Taken(maxTransactions, |s.mempool|);
      State(NextBlock(hash, s.currentBlock, s.mempool[..n], timestamp), s.mempool[n..])
    case Reset(timestamp) => State(Genesis(timestamp), [])
  }

  class SmartMiner {
    var currentBlock: Block
    var mempool: seq<Transaction>
    const hash: Hasher
    const validateScripts: bool

    function View(): State
      reads this
    {
      State(currentBlock, mempool)
    }

    constructor (hash: Hasher, validateScripts: bool, timestamp: int)
      ensures this.hash == hash && this.validateScripts == validateScripts
      ensures View() == State(Genesis(timestamp), [])
    {
      this.hash, this.validateScripts := hash, validateScripts;
      currentBlock, mempool := Genesis(timestamp), [];
    }

    method AcceptTransaction(transaction: Transaction) returns (accepted: bool)
      modifies this
      ensures accepted <==> (validateScripts ==> transaction.verifies)
      ensures mempool == if accepted then old(mempool) + [transaction] else old(mempool)
      ensures View() == Step(hash, validateScripts, old(View()), Accept(transaction))
    {
      if validateScripts && !transaction.verifies { return false; }
      mempool := mempool + [transaction];
      accepted := true;
    }

    method MineBlock(maxTransactions: int, timestamp: int) returns (block: Block)
      modifies this
      ensures View() == Step(hash, validateScripts, old(View()), Mine(maxTransactions, timestamp))
      ensures block == currentBlock
    {
      var n := if maxTransactions <= 0 then 0 else if maxTransactions < |mempool| then maxTransactions else |mempool|;
      var transactions := mempool[..n];
      mempool := mempool[n..];
      var previous := if currentBlock.hash.Some? && currentBlock.hash.value != ""
                      then currentBlock.hash.value else NO_HASH;
      block := Block(currentBlock.height + 1, timestamp, transactions, previous, None);
      var labels := [];
      for i := 0 to |transactions|
        invariant labels == Labels(transactions[..i])
      {
        labels := labels + [transactions[i].Label()];
      }
      assert transactions[..|transactions|] == transactions;
      block := block.(hash := Some(hash(Record(block.height, block.timestamp, block.previousBlockHash, labels))));
      currentBlock := block;
    }

    method ResetMiner(timestamp: int)
      modifies this
      ensures View() == Step(hash, validateScripts, old(View()), Reset(timestamp))
    {
      currentBlock := Genesis(timestamp);
      mempool := [];
    }
  }

  // ---- runs, with everything since the last reset remembered ----

  /** The miner, the blocks mined and the transactions accepted since the last reset. */
  datatype Trace = Trace(state: State, blocks: seq<Block>, accepted: seq<Transaction>)

  function TraceStep(hash: Hasher, validateScripts: bool, t: Trace, op: Op): Trace {
    var next := Step(hash, validateScripts, t.state, op);
    match op
    case Accept(transaction) =>
      Trace(next, t.blocks, if Accepts(validateScripts, transaction) then t.accepted + [transaction] else t.accepted)
    case Mine(_, _) => Trace(next, t.blocks + [next.currentBlock], t.accepted)
    case Reset(_) => Trace(next, [], [])
  }

  function Run(hash: Hasher, validateScripts: bool, t: Trace, ops: seq<Op>): Trace
    decreases |ops|
  {
    if ops == [] then t else Run(hash, validateScripts, TraceStep(hash, validateScripts, t, ops[0]), ops[1..])
  }

  function Start(timestamp: int): Trace { Trace(State(Genesis(timestamp), []), [], []) }

  function Mined(blocks: seq<Block>): seq<Transaction> {
    if blocks == [] then [] else Mined(blocks[..|blocks| - 1]) + blocks[|blocks| - 1].transactions
  }

  /** Block i of a chain is the next block after block i - 1, the first one after the genesis block. */
  ghost predicate Chain(hash: Hasher, blocks: seq<Block>) {
    && (blocks != [] ==> exists timestamp ::
          blocks[0] == NextBlock(hash, Genesis(timestamp), blocks[0].transactions, blocks[0].timestamp))
    && forall i | 0 < i < |blocks| ::
          blocks[i] == NextBlock(hash, blocks[i - 1], blocks[i].transactions, blocks[i].timestamp)
  }

  ghost predicate Consistent(hash: Hasher, t: Trace) {
    && t.accepted == Mined(t.blocks) + t.state.mempool
    && Chain(hash, t.blocks)
    && (if t.blocks == [] then t.state.currentBlock == Genesis(t.state.currentBlock.timestamp)
        else t.state.currentBlock == t.blocks[|t.blocks| - 1])
  }

  lemma ChainGrows(hash: Hasher, blocks: seq<Block>, tip: Block, b: Block)
    requires Chain(hash, blocks) && b == NextBlock(hash, tip, b.transactions, b.timestamp)
    requires tip == if blocks == [] then Genesis(tip.timestamp) else blocks[|blocks| - 1]
    ensures Chain(hash, blocks + [b]) && Mined(blocks + [b]) == Mined(blocks) + b.transactions
  {
    hide NextBlock;
    var more := blocks + [b];
    assert more[..|blocks|] == blocks;
    forall i | 0 < i < |more|
      ensures more[i] == NextBlock(hash, more[i - 1], more[i].transactions, more[i].timestamp)
    {
      if i < |blocks| {
        assert blocks[i] == NextBlock(hash, blocks[i - 1], blocks[i].transactions, blocks[i].timestamp);
      }
    }
  }

  lemma Regroup(a: seq<Transaction>, b: seq<Transaction>, c: seq<Transaction>)
    ensures (a + b) + c == a + (b + c)
  {}

  lemma MineConsistent(hash: Hasher, t: Trace, n: nat, timestamp: int)
    requires Consistent(hash, t) && n <= |t.state.mempool|
    ensures var b := NextBlock(hash, t.state.currentBlock, t.state.mempool[..n], timestamp);
      Consistent(hash, Trace(State(b, t.state.mempool[n..]), t.blocks + [b], t.accepted))
  {
    var taken, left := t.state.mempool[..n], t.state.mempool[n..];
    var b := NextBlock(hash, t.state.currentBlock, taken, timestamp);
    assert b.transactions == taken && b.timestamp == timestamp;
    hide NextBlock, Chain, Mined;
    assert t.state.mempool == taken + left;
    ChainGrows(hash, t.blocks, t.state.currentBlock, b);
    Regroup(Mined(t.blocks), taken, left);
  }

  lemma StepConsistent(hash: Hasher, validateScripts: bool, t: Trace, op: Op)
    requires Consistent(hash, t)
    ensures Consistent(hash, TraceStep(hash, validateScripts, t, op))
  {
    hide NextBlock, Chain, Mined;
    match op
    case Accept(transaction) =>
      Regroup(Mined(t.blocks), t.state.mempool, [transaction]);
    case Mine(maxTransactions, timestamp) =>
      MineConsistent(hash, t, Taken(maxTransactions, |t.state.mempool|), timestamp);
    case Reset(_) =>
      NoBlocks(hash);
  }

  lemma NoBlocks(hash: Hasher)
    ensures Chain(hash, []) && Mined([]) == []
  {}

  lemma {:induction false} RunConsistent(hash: Hasher, validateScripts: bool, t: Trace, ops: seq<Op>)
    requires Consistent(hash, t)
    ensures Consistent(hash, Run(hash, validateScripts, t, ops))
    decreases |ops|
  {
    if ops == [] {
    } else {
      StepConsistent(hash, validateScripts, t, ops[0]);
      RunConsistent(hash, validateScripts, TraceStep(hash, validateScripts, t, ops[0]), ops[1..]);
    }
  }

  lemma StartConsistent(hash: Hasher, timestamp: int)
    ensures Consistent(hash, Start(timestamp))
  {}

  lemma {:induction false} Heights(hash: Hasher, blocks: seq<Block>, i: nat)
    requires Chain(hash, blocks) && i < |blocks|
    ensures blocks[i].height == i + 1 && blocks[i].hash == Some(hash(RecordOf(blocks[i])))
  {
    if i == 0 {
    } else {
      Heights(hash, blocks, i - 1);
    }
  }

  /**
   * Over any run from a new miner: the transactions of the blocks mined since the last reset, then
   * the mempool, are the transactions accepted since then in order; block heights count up from 1.
   */
  lemma NothingLost(hash: Hasher, validateScripts: bool, timestamp: int, ops: seq<Op>)
    ensures var t := Run(hash, validateScripts, Start(timestamp), ops);
      && Mined(t.blocks) + t.state.mempool == t.accepted
      && t.state.currentBlock.height == |t.blocks|
      && forall i | 0 <= i < |t.blocks| :: t.blocks[i].height == i + 1
  {
    StartConsistent(hash, timestamp);
    RunConsistent(hash, validateScripts, Start(timestamp), ops);
    var t := Run(hash, validateScripts, Start(timestamp), ops);
    forall i | 0 <= i < |t.blocks| ensures t.blocks[i].height == i + 1 { Heights(hash, t.blocks, i); }
  }

  // ---- the tip hash fixes the history ----

  ghost predicate Collision(hash: Hasher, r: Record, q: Record) { r != q && hash(r) == hash(q) }

  /** The records of the two chains, compared place by place. */
  ghost predicate SameRecords(p: seq<Block>, q: seq<Block>) {
    |p| == |q| && forall i | 0 <= i < |p| :: RecordOf(p[i]) == RecordOf(q[i])
  }

  ghost predicate Collides(hash: Hasher, p: seq<Block>, q: seq<Block>) {
    exists i, j :: 0 <= i < |p| && 0 <= j < |q| && Collision(hash, RecordOf(p[i]), RecordOf(q[j]))
  }

  lemma SameRecordsOneMore(p: seq<Block>, q: seq<Block>)
    requires p != [] && q != [] && SameRecords(p[..|p| - 1], q[..|q| - 1])
    requires RecordOf(p[|p| - 1]) == RecordOf(q[|q| - 1])
    ensures SameRecords(p, q)
  {
    hide RecordOf;
    var m := |p| - 1;
    forall i | 0 <= i < |p| ensures RecordOf(p[i]) == RecordOf(q[i]) {
      if i < m { assert p[..m][i] == p[i] && q[..m][i] == q[i]; }
    }
  }

  lemma CollidesOneMore(hash: Hasher, p: seq<Block>, q: seq<Block>)
    requires p != [] && q != [] && Collides(hash, p[..|p| - 1], q[..|q| - 1])
    ensures Collides(hash, p, q)
  {
    hide RecordOf, Collision;
    var p', q' := p[..|p| - 1], q[..|q| - 1];
    var i, j :| 0 <= i < |p'| && 0 <= j < |q'| && Collision(hash, RecordOf(p'[i]), RecordOf(q'[j]));
    assert p[i] == p'[i] && q[j] == q'[j];
  }

  /**
   * Two chains with the same tip hash have the same heights, timestamps, links and transaction
   * labels back to the first block, or they exhibit two different records with one hash.
   */
  lemma {:induction false} TipFixesHistory(hash: Hasher, p: seq<Block>, q: seq<Block>)
    requires forall r :: hash(r) != ""
    requires Chain(hash, p) && Chain(hash, q) && p != [] && q != []
    requires p[|p| - 1].hash == q[|q| - 1].hash
    ensures SameRecords(p, q) || Collides(hash, p, q)
    decreases |p|
  {
    var m, n := |p| - 1, |q| - 1;
    Heights(hash, p, m);
    Heights(hash, q, n);
    if RecordOf(p[m]) != RecordOf(q[n]) {
      assert Collision(hash, RecordOf(p[m]), RecordOf(q[n]));
    } else if m > 0 {
      var p', q' := p[..m], q[..n];
      Heights(hash, p, m - 1);
      Heights(hash, q, n - 1);
      assert p[m].previousBlockHash == q[n].previousBlockHash;
      assert p'[m - 1] == p[m - 1] && q'[n - 1] == q[n - 1];
      TipFixesHistory(hash, p', q');
      hide SameRecords, Collides;
      if SameRecords(p', q') { SameRecordsOneMore(p, q); } else { CollidesOneMore(hash, p, q); }
    }
  }

  /** The same for any two runs from a new miner that have mined since their last reset. */
  lemma EqualTips(hash: Hasher, validateScripts: bool, time1: int, ops1: seq<Op>, time2: int, ops2: seq<Op>)
    requires forall r :: hash(r) != ""
    requires var p := Run(hash, validateScripts, Start(time1), ops1);
      var q := Run(hash, validateScripts, Start(time2), ops2);
      && p.blocks != [] && q.blocks != [] && p.state.currentBlock.hash == q.state.currentBlock.hash
    ensures var p := Run(hash, validateScripts, Start(time1), ops1);
      var q := Run(hash, validateScripts, Start(time2), ops2);
      SameRecords(p.blocks, q.blocks) || Collides(hash, p.blocks, q.blocks)
  {
    hide RecordOf, Run, Chain, Mined, NextBlock;
    StartConsistent(hash, time1);
    StartConsistent(hash, time2);
    RunConsistent(hash, validateScripts, Start(time1), ops1);
    RunConsistent(hash, validateScripts, Start(time2), ops2);
    TipFixesHistory(hash, Run(hash, validateScripts, Start(time1), ops1).blocks,
                    Run(hash, validateScripts, Start(time2), ops2).blocks);
  }

  // ---- what a block holds, and what its hash fixes of the transactions ----

  /** The next block takes the first transactions of the mempool, as many as asked for, and links to the tip. */
  lemma MinedBlockIs(hash: Hasher, validateScripts: bool, s: State, maxTransactions: int, timestamp: int)
    ensures var t := Step(hash, validateScripts, s, Mine(maxTransactions, timestamp));
      var b := t.currentBlock;
      && b.transactions + t.mempool == s.mempool
      && (maxTransactions <= 0 ==> b.transactions == [])
      && (0 <= maxTransactions <= |s.mempool| ==> |b.transactions| == maxTransactions)
      && (maxTransactions >= |s.mempool| ==> t.mempool == [])
      && b.height == s.currentBlock.height + 1 && b.timestamp == timestamp
      && (s.currentBlock.hash.Some? && s.currentBlock.hash.value != ""
          ==> b.previousBlockHash == s.currentBlock.hash.value)
      && (s.currentBlock.hash.None? ==> |b.previousBlockHash| == 64
                                        && forall i | 0 <= i < 64 :: b.previousBlockHash[i] == '0')
      && b.hash == Some(hash(Record(b.height, timestamp, b.previousBlockHash, Labels(b.transactions))))
  {}

  /** A new or reset miner has an empty block of height 0 without a hash, and no transactions. */
  lemma GenesisIs(hash: Hasher, validateScripts: bool, s: State, timestamp: int)
    ensures var t := Step(hash, validateScripts, s, Reset(timestamp));
      && t == Start(timestamp).state && t.mempool == [] && t.currentBlock.transactions == []
      && t.currentBlock.height == 0 && t.currentBlock.timestamp == timestamp && t.currentBlock.hash == None
  {}

  /** A transaction without an id goes by its text. */
  ghost predicate SameName(t: Transaction, u: Transaction) {
    (t.id != "" && u.id != "" ==> t.id == u.id) && (t.id == "" && u.id == "" ==> t.text == u.text)
  }

  /** Two blocks of one height, time and link, whose transactions go by the same names one by one. */
  ghost predicate SameBlock(b: Block, c: Block) {
    && b.height == c.height && b.timestamp == c.timestamp && b.previousBlockHash == c.previousBlockHash
    && |b.transactions| == |c.transactions|
    && forall i | 0 <= i < |b.transactions| :: SameName(b.transactions[i], c.transactions[i])
  }

  /** Equal records are of blocks that say the same; blocks that differ in a name have different records. */
  lemma RecordTells(b: Block, c: Block)
    ensures RecordOf(b) == RecordOf(c) ==> SameBlock(b, c)
    ensures forall i | 0 <= i < |b.transactions| && i < |c.transactions| ::
      !SameName(b.transactions[i], c.transactions[i]) ==> RecordOf(b) != RecordOf(c)
  {
    if RecordOf(b) == RecordOf(c) {
      var (l, m) := (Labels(b.transactions), Labels(c.transactions));
      assert l == m;
      forall i | 0 <= i < |b.transactions| ensures SameName(b.transactions[i], c.transactions[i]) {
        assert l[i] == m[i];
      }
    }
  }

  ghost predicate AllNamed(blocks: seq<Block>) {
    forall i, j | 0 <= i < |blocks| && 0 <= j < |blocks[i].transactions| :: blocks[i].transactions[j].id != ""
  }

  function Ids(transactions: seq<Transaction>): (ids: seq<string>)
    ensures |ids| == |transactions|
    ensures forall i | 0 <= i < |ids| :: ids[i] == transactions[i].id
  {
    seq(|transactions|, i requires 0 <= i < |transactions| => transactions[i].id)
  }

  /** The same blocks, place by place, down to the ids of their transactions. */
  ghost predicate SameHistory(p: seq<Block>, q: seq<Block>) {
    |p| == |q| && forall i | 0 <= i < |p| ::
      SameBlock(p[i], q[i]) && (AllNamed([p[i], q[i]]) ==> Ids(p[i].transactions) == Ids(q[i].transactions))
  }

  lemma SameRecordsSameHistory(p: seq<Block>, q: seq<Block>)
    requires SameRecords(p, q)
    ensures SameHistory(p, q)
  {
    hide RecordOf;
    forall i | 0 <= i < |p|
      ensures SameBlock(p[i], q[i]) && (AllNamed([p[i], q[i]]) ==> Ids(p[i].transactions) == Ids(q[i].transactions))
    {
      RecordTells(p[i], q[i]);
      if AllNamed([p[i], q[i]]) { NamedAlike(p[i], q[i]); }
    }
  }

  lemma NamedAlike(b: Block, c: Block)
    requires SameBlock(b, c) && AllNamed([b, c])
    ensures Ids(b.transactions) == Ids(c.transactions)
  {
    var pair := [b, c];
    forall i | 0 <= i < |b.transactions| ensures b.transactions[i].id == c.transactions[i].id {
      assert pair[0].transactions[i].id != "" && pair[1].transactions[i].id != "";
    }
  }

  /**
   * So the tip hash fixes the transactions: chains of transactions with ids that end in one hash have
   * the same heights, times, links and lists of ids back to the first block, or show a collision.
   */
  lemma TipFixesTransactions(hash: Hasher, p: seq<Block>, q: seq<Block>)
    requires forall r :: hash(r) != ""
    requires Chain(hash, p) && Chain(hash, q) && p != [] && q != []
    requires p[|p| - 1].hash == q[|q| - 1].hash
    ensures SameHistory(p, q) || Collides(hash, p, q)
    ensures AllNamed(p) && AllNamed(q) && !Collides(hash, p, q) ==>
      |p| == |q| && forall i | 0 <= i < |p| :: Ids(p[i].transactions) == Ids(q[i].transactions)
  {
    TipFixesHistory(hash, p, q);
    hide RecordOf, Chain, SameRecords, Collides, SameBlock;
    if SameRecords(p, q) {
      SameRecordsSameHistory(p, q);
      if AllNamed(p) && AllNamed(q) {
        forall i | 0 <= i < |p| ensures Ids(p[i].transactions) == Ids(q[i].transactions) {
          assert AllNamed([p[i], q[i]]);
        }
      }
    }
  }

  /** The same for two runs of the miner. */
  lemma EqualTipsEqualTransactions(hash: Hasher, validateScripts: bool, time1: int, ops1: seq<Op>, time2: int,
                                   ops2: seq<Op>)
    requires forall r :: hash(r) != ""
    requires var p := Run(hash, validateScripts, Start(time1), ops1);
      var q := Run(hash, validateScripts, Start(time2), ops2);
      && p.blocks != [] && q.blocks != [] && p.state.currentBlock.hash == q.state.currentBlock.hash
    ensures var p := Run(hash, validateScripts, Start(time1), ops1).blocks;
      var q := Run(hash, validateScripts, Start(time2), ops2).blocks;
      && (SameHistory(p, q) || Collides(hash, p, q))
      && (AllNamed(p) && AllNamed(q) && !Collides(hash, p, q) ==>
            |p| == |q| && forall i | 0 <= i < |p| :: Ids(p[i].transactions) == Ids(q[i].transactions))
  {
    hide RecordOf, Run, Chain, Mined, NextBlock, SameHistory, Collides, AllNamed, Ids;
    StartConsistent(hash, time1);
    StartConsistent(hash, time2);
    RunConsistent(hash, validateScripts, Start(time1), ops1);
    RunConsistent(hash, validateScripts, Start(time2), ops2);
    TipFixesTransactions(hash, Run(hash, validateScripts, Start(time1), ops1).blocks,
                         Run(hash, validateScripts, Start(time2), ops2).blocks);
  }

  /** Every block of a run links to the one before it, the first to the hash of 64 zeros. */
  lemma Links(hash: Hasher, blocks: seq<Block>, i: nat)
    requires forall r :: hash(r) != ""
    requires Chain(hash, blocks) && i < |blocks|
    ensures i > 0 ==> blocks[i - 1].hash == Some(blocks[i].previousBlockHash)
    ensures i == 0 ==> |blocks[0].previousBlockHash| == 64
    ensures i == 0 ==> forall j | 0 <= j < |blocks[0].previousBlockHash| :: blocks[0].previousBlockHash[j] == '0'
  {
    if i > 0 { Heights(hash, blocks, i - 1); }
  }
}
