/**
  Processing the transactions of a block in turn (core/state_processor.go), and
  the recomputation of the receipt fields that are not stored (SetReceiptsData
  in core/blockchain.go).
 */
module StateProcessors {
  import opened Prelude
  import opened Wei
  import opened StateTransitions

  /** A transaction; the sender is absent when its signature is not valid. */
  datatype Transaction = Transaction(hash: Hash, sender: Option<Address>, to: Option<Address>, nonce: nat,
                                     gasLimit: nat, gasPrice: nat, value: nat, data: Bytes)

  datatype Block = Block(number: nat, hash: Hash, gasLimit: nat, coinbase: Address, txs: seq<Transaction>)

  datatype Log = Log(data: nat, blockNumber: nat, blockHash: Hash, txHash: Hash, txIndex: nat, index: nat)

  datatype Receipt = Receipt(failed: bool, cumulative: nat, logs: seq<Log>,
                             txHash: Hash, contract: Option<Address>, gasUsed: int)

  /** The address of a contract that `sender` creates at a nonce. */
  type Creator = (Address, nat) -> Address

  function MessageOf(tx: Transaction): Message
    requires tx.sender.Some?
  {
    Message(tx.sender.value, tx.to, tx.nonce, true, tx.gasLimit, tx.gasPrice, tx.value, tx.data)
  }

  /** The logs of transaction `i`, numbered from `start` within the block. */
  function LogsOf(block: Block, i: nat, data: seq<nat>, start: nat): (logs: seq<Log>)
    requires i < |block.txs|
    ensures |logs| == |data|
  {
    seq(|data|, k requires 0 <= k < |data| => Log(data[k], block.number, block.hash, block.txs[i].hash, i, start + k))
  }

  function ContractOf(create: Creator, tx: Transaction): Option<Address> {
    if tx.to.None? then Some(create(if tx.sender.Some? then tx.sender.value else 0, tx.nonce)) else None
  }

  function ReceiptOf(block: Block, create: Creator, i: nat, out: Outcome, cumulative: nat, start: nat): Receipt
    requires i < |block.txs| && out.Applied?
  {
    Receipt(out.failed, cumulative, LogsOf(block, i, out.logs, start), block.txs[i].hash,
            ContractOf(create, block.txs[i]), out.usedGas)
  }

  /** Applies one transaction: the pool and the running total move by the same
      amount in opposite directions. */
  method ApplyTransaction(block: Block, create: Creator, i: nat, evm: Evm, homestead: bool, gp: GasPool, state: StateDB,
                          usedGas: nat, logSize: nat)
    returns (receipt: Option<Receipt>, total: nat, ghost out: Outcome)
    requires i < |block.txs| && Conserving(evm)
    modifies gp, state
    ensures receipt.Some? <==> Applicable(block, i, evm, homestead, old(state.Now()), old(gp.gas))
    ensures receipt.Some? ==> StepOk(block, i, evm, homestead, old(state.Now()), out, state.Now())
    ensures receipt.Some? ==> total == usedGas + out.usedGas && gp.gas + total == old(gp.gas) + usedGas
    ensures receipt.Some? ==> receipt.value == ReceiptOf(block, create, i, out, total, logSize)
    ensures receipt.Some? ==> Total(state.balances) == Total(old(state.balances))
  {
    var tx := block.txs[i];
    if tx.sender.None? {
      return None, usedGas, Rejected(ErrOutOfGas);
    }
    var st := new StateTransition(gp, state, MessageOf(tx));
    var applied := st.TransitionDb(evm, homestead, block.coinbase);
    if applied.Rejected? {
      return None, usedGas, applied;
    }
    state.Finalise();
    total := usedGas + applied.usedGas;
    receipt := Some(Receipt(applied.failed, total, LogsOf(block, i, applied.logs, logSize), tx.hash,
                            if tx.to.None? then Some(create(tx.sender.value, tx.nonce)) else None, applied.usedGas));
    out := applied;
  }

  /** Transaction `i` can be applied to `w` with `pool` gas left in the block. */
  predicate Applicable(block: Block, i: nat, evm: Evm, homestead: bool, w: World, pool: nat)
    requires i < |block.txs|
  {
    block.txs[i].sender.Some? && Accepted(evm, MessageOf(block.txs[i]), w, pool, homestead)
  }

  /** Transaction `i` takes the state from `w` to `w'` with outcome `out`. */
  predicate StepOk(block: Block, i: nat, evm: Evm, homestead: bool, w: World, out: Outcome, w': World)
    requires i < |block.txs|
  {
    && out.Applied? && Applicable(block, i, evm, homestead, w, block.txs[i].gasLimit)
    && Settled(evm, MessageOf(block.txs[i]), w, homestead, block.coinbase, out, w'.balances, w'.nonces)
    && w'.refund == 0
  }

  ghost predicate AllApplied(outs: seq<Outcome>) {
    forall i :: 0 <= i < |outs| ==> outs[i].Applied?
  }

  /** The gas used by all of these transactions. */
  ghost function GasOf(outs: seq<Outcome>): nat
    requires AllApplied(outs)
  {
    if outs == [] then 0 else GasOf(outs[..|outs| - 1]) + outs[|outs| - 1].usedGas
  }

  /** The number of logs that all of these transactions wrote. */
  ghost function LogCount(outs: seq<Outcome>): nat
    requires AllApplied(outs)
  {
    if outs == [] then 0 else LogCount(outs[..|outs| - 1]) + |outs[|outs| - 1].logs|
  }

  /** The first |outs| transactions take the state through `worlds`. Before each
      of them the pool holds the block's limit less all gas used so far. */
  ghost predicate Traced(block: Block, evm: nat -> Evm, homestead: bool, worlds: seq<World>, outs: seq<Outcome>) {
    && |outs| <= |block.txs| && |worlds| == |outs| + 1 && AllApplied(outs) && GasOf(outs) <= block.gasLimit
    && forall i: nat :: i < |outs| ==> TracedAt(block, evm, homestead, worlds, outs, i)
  }

  ghost predicate TracedAt(block: Block, evm: nat -> Evm, homestead: bool, worlds: seq<World>, outs: seq<Outcome>,
                           i: nat)
    requires i < |outs| <= |block.txs| && |worlds| == |outs| + 1 && AllApplied(outs)
  {
    Moves(block, i, evm(i), homestead, worlds[i], GasOf(outs[..i]), outs[i], worlds[i + 1])
  }

  /** After `used` gas, transaction `i` fits into the block and takes the state on. */
  predicate Moves(block: Block, i: nat, evm: Evm, homestead: bool, w: World, used: nat, out: Outcome, w': World)
    requires i < |block.txs|
  {
    && used <= block.gasLimit && Applicable(block, i, evm, homestead, w, block.gasLimit - used)
    && StepOk(block, i, evm, homestead, w, out, w')
  }

  /** Receipts carry prefix sums of gas and number the logs through the block. */
  ghost predicate ReceiptsOk(block: Block, create: Creator, outs: seq<Outcome>, receipts: seq<Receipt>) {
    && AllApplied(outs) && |receipts| == |outs| <= |block.txs|
    && forall i: nat :: i < |receipts| ==> ReceiptAt(block, create, outs, receipts, i)
  }

  ghost predicate ReceiptAt(block: Block, create: Creator, outs: seq<Outcome>, receipts: seq<Receipt>, i: nat)
    requires i < |receipts| == |outs| <= |block.txs| && AllApplied(outs)
  {
    receipts[i] == ReceiptOf(block, create, i, outs[i], GasOf(outs[..i + 1]), LogCount(outs[..i]))
  }

  lemma TraceExtends(block: Block, evm: nat -> Evm, homestead: bool, worlds: seq<World>, outs: seq<Outcome>,
                     out: Outcome, w: World)
    requires Traced(block, evm, homestead, worlds, outs) && |outs| < |block.txs| && out.Applied?
    requires GasOf(outs) + out.usedGas <= block.gasLimit
    requires Moves(block, |outs|, evm(|outs|), homestead, worlds[|outs|], GasOf(outs), out, w)
    ensures Traced(block, evm, homestead, worlds + [w], outs + [out])
    ensures GasOf(outs + [out]) == GasOf(outs) + out.usedGas && LogCount(outs + [out]) == LogCount(outs) + |out.logs|
  {
    var worlds', outs' := worlds + [w], outs + [out];
    assert outs'[..|outs|] == outs;
    forall i: nat | i < |outs'| ensures TracedAt(block, evm, homestead, worlds', outs', i) {
      if i < |outs| {
        assert TracedAt(block, evm, homestead, worlds, outs, i);
        TracedAtKept(block, evm, homestead, worlds, outs, out, w, i);
      }
    }
  }

  lemma TracedAtKept(block: Block, evm: nat -> Evm, homestead: bool, worlds: seq<World>, outs: seq<Outcome>,
                     out: Outcome, w: World, i: nat)
    requires i < |outs| < |block.txs| && |worlds| == |outs| + 1 && AllApplied(outs) && out.Applied?
    requires TracedAt(block, evm, homestead, worlds, outs, i)
    ensures AllApplied(outs + [out]) && TracedAt(block, evm, homestead, worlds + [w], outs + [out], i)
  {
    var worlds', outs' := worlds + [w], outs + [out];
    assert outs'[..i] == outs[..i] && outs'[i] == outs[i];
    assert worlds'[i] == worlds[i] && worlds'[i + 1] == worlds[i + 1];
  }

  lemma ReceiptsExtend(block: Block, create: Creator, outs: seq<Outcome>, receipts: seq<Receipt>,
                       out: Outcome, receipt: Receipt, i: nat, total: nat, start: nat)
    requires ReceiptsOk(block, create, outs, receipts) && |outs| == i < |block.txs| && out.Applied?
    requires total == GasOf(outs) + out.usedGas && start == LogCount(outs)
    requires receipt == ReceiptOf(block, create, i, out, total, start)
    ensures ReceiptsOk(block, create, outs + [out], receipts + [receipt])
  {
    var outs', receipts' := outs + [out], receipts + [receipt];
    assert outs'[..|outs|] == outs && outs'[..|outs| + 1] == outs';
    forall k: nat | k < |receipts'| ensures ReceiptAt(block, create, outs', receipts', k) {
      if k < |receipts| {
        assert ReceiptAt(block, create, outs, receipts, k);
        assert outs'[..k] == outs[..k] && outs'[..k + 1] == outs[..k + 1];
      }
    }
  }

  /** Processes all transactions, or stops at the first that cannot be applied to
      the state and the gas left by those before it. */
  method Process(block: Block, create: Creator, evm: nat -> Evm, homestead: bool, state: StateDB)
    returns (result: Option<(seq<Receipt>, seq<Log>, nat)>, ghost worlds: seq<World>, ghost outs: seq<Outcome>)
    requires forall i: nat {:trigger evm(i)} :: Conserving(evm(i))
    modifies state
    ensures Traced(block, evm, homestead, worlds, outs) && worlds[0] == old(state.Now())
    ensures result.Some? <==> |outs| == |block.txs|
    ensures result.None? ==>
      !Applicable(block, |outs|, evm(|outs|), homestead, worlds[|outs|], block.gasLimit - GasOf(outs))
    ensures result.Some? ==> ReceiptsOk(block, create, outs, result.value.0) && result.value.2 == GasOf(outs)
    ensures result.Some? ==> result.value.1 == AllLogs(result.value.0) && state.Now() == worlds[|outs|]
    ensures result.Some? ==> Total(state.balances) == Total(old(state.balances))
  {
    var gp := new GasPool();
    gp.AddGas(block.gasLimit);
    var receipts, allLogs, totalUsedGas, logSize := [], [], 0, 0;
    worlds, outs := [state.Now()], [];
    for i := 0 to |block.txs|
      invariant fresh(gp) && |outs| == i && Traced(block, evm, homestead, worlds, outs)
      invariant worlds[0] == old(state.Now()) && worlds[i] == state.Now()
      invariant totalUsedGas == GasOf(outs) && gp.gas + totalUsedGas == block.gasLimit && logSize == LogCount(outs)
      invariant ReceiptsOk(block, create, outs, receipts) && allLogs == AllLogs(receipts)
      invariant Total(state.balances) == Total(old(state.balances))
    {
      var receipt, total, out :=
        ApplyTransaction(block, create, i, evm(i), homestead, gp, state, totalUsedGas, logSize);
      if receipt.None? {
        return None, worlds, outs;
      }
      TraceExtends(block, evm, homestead, worlds, outs, out, state.Now());
      ReceiptsExtend(block, create, outs, receipts, out, receipt.value, i, total, logSize);
      worlds, outs := worlds + [state.Now()], outs + [out];
      totalUsedGas, logSize := total, logSize + |receipt.value.logs|;
      receipts, allLogs := receipts + [receipt.value], allLogs + receipt.value.logs;
      assert receipts[..i] + [receipt.value] == receipts;
    }
    result := Some((receipts, allLogs, totalUsedGas));
  }

  function AllLogs(receipts: seq<Receipt>): seq<Log> {
    if receipts == [] then [] else AllLogs(receipts[..|receipts| - 1]) + receipts[|receipts| - 1].logs
  }

  // ---------- what a processed block says of its transactions ----------

  /** Every applied transaction is signed, carries its sender's nonce, is paid for up front
      and fits into what is left of the block. */
  lemma AppliedFits(block: Block, evm: nat -> Evm, homestead: bool, worlds: seq<World>, outs: seq<Outcome>, i: nat)
    requires Traced(block, evm, homestead, worlds, outs) && i < |outs|
    ensures var tx, w := block.txs[i], worlds[i];
      && tx.sender.Some? && Get(w.nonces, tx.sender.value) == tx.nonce && tx.gasLimit < WORD
      && tx.gasLimit * tx.gasPrice <= Get(w.balances, tx.sender.value)
      && GasOf(outs[..i]) + tx.gasLimit <= block.gasLimit
  {
    assert TracedAt(block, evm, homestead, worlds, outs, i);
    FeeIs(block.txs[i].gasLimit, block.txs[i].gasPrice);
  }

  /** The machine runs a transaction's own bytes and value, from its sender to its recipient. */
  predicate RunsTx(tx: Transaction, call: Call) {
    match call
    case Create(sender, data, gas, value) =>
      tx.to == None && Some(sender) == tx.sender && data == tx.data && value == tx.value && gas <= tx.gasLimit
    case CallTo(sender, to, data, gas, value) =>
      tx.to == Some(to) && Some(sender) == tx.sender && data == tx.data && value == tx.value && gas <= tx.gasLimit
  }

  lemma AppliedRuns(block: Block, evm: nat -> Evm, homestead: bool, worlds: seq<World>, outs: seq<Outcome>, i: nat)
    returns (given: World, call: Call)
    requires Traced(block, evm, homestead, worlds, outs) && i < |outs| && NoncesFit(worlds[i].nonces)
    ensures RunsTx(block.txs[i], call)
    ensures var x := evm(i)(given, call);
      && outs[i].logs == x.logs && outs[i].requiredGas + x.gas == block.txs[i].gasLimit
      && worlds[i + 1].nonces == x.world.nonces
  {
    assert TracedAt(block, evm, homestead, worlds, outs, i);
    given, call := ExecutionRuns(evm(i), MessageOf(block.txs[i]), worlds[i], homestead);
  }

  /** No account's nonce falls from one transaction to a later one, and a sender's rises. */
  lemma {:induction false} NonceClimbs(block: Block, evm: nat -> Evm, homestead: bool, worlds: seq<World>,
                                       outs: seq<Outcome>, a: Address, i: nat, j: nat)
    requires Traced(block, evm, homestead, worlds, outs) && i < j <= |outs|
    requires forall k: nat :: k < |outs| ==> Climbing(evm(k), worlds[k], a)
    ensures Get(worlds[j].nonces, a) >= Get(worlds[i].nonces, a) + if block.txs[i].sender == Some(a) then 1 else 0
    decreases j
  {
    var k := j - 1;
    assert TracedAt(block, evm, homestead, worlds, outs, k) && Climbing(evm(k), worlds[k], a);
    var msg := MessageOf(block.txs[k]);
    AppliedKeepsUp(evm(k), msg, worlds[k], homestead, block.coinbase, outs[k], worlds[j].balances, worlds[j].nonces, a);
    if i < k {
      NonceClimbs(block, evm, homestead, worlds, outs, a, i, k);
    } else if block.txs[i].sender == Some(a) {
      AppliedAdvances(evm(k), msg, worlds[k], block.gasLimit, homestead, block.coinbase, outs[k], worlds[j].balances,
                      worlds[j].nonces);
    }
  }

  /** The account's nonce is below the wrap and the machine does not lower it. */
  ghost predicate Climbing(evm: Evm, w: World, a: Address) {
    NoncesFit(w.nonces) && Get(w.nonces, a) < WORD - 1 && Advancing(evm, a)
  }

  /** A sender's transactions of one block carry rising nonces; none is applied twice. */
  lemma RisingNonces(block: Block, evm: nat -> Evm, homestead: bool, worlds: seq<World>, outs: seq<Outcome>,
                     a: Address, i: nat, j: nat)
    requires Traced(block, evm, homestead, worlds, outs) && i < j < |outs|
    requires block.txs[i].sender == block.txs[j].sender == Some(a)
    requires forall k: nat :: k < |outs| ==> Climbing(evm(k), worlds[k], a)
    ensures block.txs[i].nonce < block.txs[j].nonce
  {
    AppliedFits(block, evm, homestead, worlds, outs, i);
    AppliedFits(block, evm, homestead, worlds, outs, j);
    NonceClimbs(block, evm, homestead, worlds, outs, a, i, j);
  }

  /** The logs of the block are numbered from zero without a gap, whichever transaction wrote them. */
  lemma {:induction false} LogsNumbered(block: Block, create: Creator, outs: seq<Outcome>, receipts: seq<Receipt>,
                                        n: nat)
    requires ReceiptsOk(block, create, outs, receipts) && n <= |receipts|
    ensures |AllLogs(receipts[..n])| == LogCount(outs[..n])
    ensures forall k :: 0 <= k < |AllLogs(receipts[..n])| ==> AllLogs(receipts[..n])[k].index == k
  {
    if n > 0 {
      LogsNumbered(block, create, outs, receipts, n - 1);
      assert receipts[..n][..n - 1] == receipts[..n - 1] && outs[..n][..n - 1] == outs[..n - 1];
      assert ReceiptAt(block, create, outs, receipts, n - 1);
    }
  }

  /** A receipt names its transaction and block, the sums of gas differ by what was used, and a
      contract address is given exactly for a creation. */
  lemma ReceiptTells(block: Block, create: Creator, outs: seq<Outcome>, receipts: seq<Receipt>, i: nat)
    requires ReceiptsOk(block, create, outs, receipts) && i < |receipts|
    ensures var r := receipts[i];
      && r.txHash == block.txs[i].hash && r.gasUsed == outs[i].usedGas && r.failed == outs[i].failed
      && r.cumulative - (if i == 0 then 0 else receipts[i - 1].cumulative) == r.gasUsed
      && (r.contract.Some? <==> block.txs[i].to.None?)
      && (r.contract.Some? && block.txs[i].sender.Some? ==>
            r.contract.value == create(block.txs[i].sender.value, block.txs[i].nonce))
      && |r.logs| == |outs[i].logs|
      && (forall k :: 0 <= k < |r.logs| ==> r.logs[k].data == outs[i].logs[k])
      && (forall k :: 0 <= k < |r.logs| ==> r.logs[k].blockHash == block.hash && r.logs[k].blockNumber == block.number)
      && (forall k :: 0 <= k < |r.logs| ==> r.logs[k].txHash == r.txHash && r.logs[k].txIndex == i)
  {
    assert ReceiptAt(block, create, outs, receipts, i);
    GasOfOne(outs, i);
    if i > 0 {
      assert ReceiptAt(block, create, outs, receipts, i - 1);
    } else {
      assert outs[..0] == [];
    }
  }

  // ---------- the receipt fields that are not stored ----------

  /** How many logs the receipts hold. */
  function LogsIn(receipts: seq<Receipt>): nat {
    if receipts == [] then 0 else LogsIn(receipts[..|receipts| - 1]) + |receipts[|receipts| - 1].logs|
  }

  /** Log `k` of receipt `j` with its position in the block. */
  function PlacedLog(block: Block, receipts: seq<Receipt>, j: nat, k: nat): Log
    requires j < |receipts| <= |block.txs| && k < |receipts[j].logs|
  {
    Log(receipts[j].logs[k].data, block.number, block.hash, block.txs[j].hash, j, LogsIn(receipts[..j]) + k)
  }

  ghost predicate LogsPlaced(block: Block, receipts: seq<Receipt>, j: nat, logs: seq<Log>)
    requires j < |receipts| <= |block.txs|
  {
    |logs| == |receipts[j].logs| && forall k: nat :: k < |logs| ==> logs[k] == PlacedLog(block, receipts, j, k)
  }

  /** Receipt `j` of `after` is receipt `j` of `before` with all derived fields set. */
  ghost predicate Derived(block: Block, create: Creator, before: seq<Receipt>, after: seq<Receipt>, j: nat)
    requires j < |before| == |after| <= |block.txs|
  {
    && after[j].failed == before[j].failed && after[j].cumulative == before[j].cumulative
    && after[j].txHash == block.txs[j].hash
    && after[j].contract == (if block.txs[j].to.None? then ContractOf(create, block.txs[j]) else before[j].contract)
    && after[j].gasUsed == before[j].cumulative - (if j == 0 then 0 else before[j - 1].cumulative)
    && LogsPlaced(block, before, j, after[j].logs)
  }

  method SetReceiptsData(block: Block, create: Creator, receipts: array<Receipt>)
    requires receipts.Length <= |block.txs|
    modifies receipts
    ensures forall j: nat :: j < receipts.Length ==> Derived(block, create, old(receipts[..]), receipts[..], j)
  {
    ghost var before := receipts[..];
    var logIndex := 0;
    for j := 0 to receipts.Length
      invariant logIndex == LogsIn(before[..j])
      invariant forall i :: j <= i < receipts.Length ==> receipts[i] == before[i]
      invariant forall i: nat :: i < j ==> Derived(block, create, before, receipts[..], i)
    {
      var tx := block.txs[j];
      ghost var was := receipts[..];
      var contract := receipts[j].contract;
      if tx.to.None? {
        var from := if tx.sender.Some? then tx.sender.value else 0;
        contract := Some(create(from, tx.nonce));
      }
      assert j > 0 ==> Derived(block, create, before, was, j - 1);
      var gasUsed: int := receipts[j].cumulative - if j == 0 then 0 else receipts[j - 1].cumulative;
      var logs := PlaceLogs(block, receipts[j].logs, j, tx.hash, logIndex);
      assert before[..j + 1][..j] == before[..j];
      logIndex := logIndex + |logs|;
      receipts[j] := receipts[j].(txHash := tx.hash, contract := contract, gasUsed := gasUsed, logs := logs);
      forall i: nat | i < j + 1 ensures Derived(block, create, before, receipts[..], i) {
        if i < j {
          assert Derived(block, create, before, was, i);
        }
      }
    }
  }

  method PlaceLogs(block: Block, logs0: seq<Log>, j: nat, txHash: Hash, start: nat) returns (logs: seq<Log>)
    ensures |logs| == |logs0|
    ensures forall k :: 0 <= k < |logs| ==>
      logs[k] == Log(logs0[k].data, block.number, block.hash, txHash, j, start + k)
  {
    logs := logs0;
    var logIndex := start;
    for k := 0 to |logs0|
      invariant |logs| == |logs0| && logIndex == start + k
      invariant forall i :: 0 <= i < k ==> logs[i] == Log(logs0[i].data, block.number, block.hash, txHash, j, start + i)
      invariant forall i :: k <= i < |logs| ==> logs[i] == logs0[i]
    {
      logs := logs[k := logs[k].(blockNumber := block.number, blockHash := block.hash, txHash := txHash, txIndex := j,
                                 index := logIndex)];
      logIndex := logIndex + 1;
    }
  }

  function StripLog(log: Log): Log {
    Log(log.data, 0, 0, 0, 0, 0)
  }

  /** What the database keeps of a receipt. */
  function Strip(r: Receipt): Receipt {
    Receipt(r.failed, r.cumulative, seq(|r.logs|, k requires 0 <= k < |r.logs| => StripLog(r.logs[k])), 0, None, 0)
  }

  function StripAll(receipts: seq<Receipt>): seq<Receipt> {
    seq(|receipts|, j requires 0 <= j < |receipts| => Strip(receipts[j]))
  }

  lemma {:induction false} StoredLogCount(block: Block, create: Creator, outs: seq<Outcome>, receipts: seq<Receipt>,
                                          n: nat)
    requires ReceiptsOk(block, create, outs, receipts) && n <= |receipts|
    ensures LogsIn(StripAll(receipts)[..n]) == LogCount(outs[..n])
  {
    if n > 0 {
      var stored := StripAll(receipts);
      StoredLogCount(block, create, outs, receipts, n - 1);
      assert stored[..n][..n - 1] == stored[..n - 1] && outs[..n][..n - 1] == outs[..n - 1];
      assert ReceiptAt(block, create, outs, receipts, n - 1);
    }
  }

  /** Receipts of a processed block come back whole from what is stored of them. */
  lemma ReceiptsRecovered(block: Block, create: Creator, outs: seq<Outcome>, receipts: seq<Receipt>,
                          after: seq<Receipt>)
    requires ReceiptsOk(block, create, outs, receipts) && |after| == |receipts|
    requires forall j: nat :: j < |after| ==> Derived(block, create, StripAll(receipts), after, j)
    ensures after == receipts
  {
    var stored := StripAll(receipts);
    forall j: nat | j < |receipts| ensures after[j] == receipts[j] {
      assert Derived(block, create, stored, after, j) && ReceiptAt(block, create, outs, receipts, j);
      StoredLogCount(block, create, outs, receipts, j);
      GasOfOne(outs, j);
      if j > 0 {
        assert ReceiptAt(block, create, outs, receipts, j - 1);
      }
      assert after[j].logs == receipts[j].logs;
    }
  }

  lemma GasOfOne(outs: seq<Outcome>, j: nat)
    requires AllApplied(outs) && j < |outs|
    ensures GasOf(outs[..j + 1]) == GasOf(outs[..j]) + outs[j].usedGas
  {
    assert outs[..j + 1][..j] == outs[..j];
  }
}
