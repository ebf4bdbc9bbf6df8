/**
  One transaction's passage through the gas accounting of
  core/state_transition.go, with the block's gas pool of core/gaspool.go. The
  virtual machine is any function that conserves wei and returns no more gas
  than it was given.
 */
module StateTransitions {
  import opened Prelude
  import opened Wei

  const TX_GAS: nat := 21000
  const TX_GAS_CONTRACT_CREATION: nat := 53000
  const TX_DATA_ZERO_GAS: nat := 4
  const TX_DATA_NON_ZERO_GAS: nat := 68

  datatype Message = Message(from: Address, to: Option<Address>, nonce: nat, checkNonce: bool,
                             gasLimit: nat, gasPrice: nat, value: nat, data: Bytes)

  /** What the virtual machine sees and leaves of the state. */
  datatype World = World(balances: Balances, nonces: map<Address, nat>, refund: nat)

  datatype Call = Create(sender: Address, data: Bytes, gas: nat, value: nat)
                | CallTo(sender: Address, to: Address, data: Bytes, gas: nat, value: nat)

  datatype VmError = NoVmError | InsufficientBalance | OtherVmError

  datatype Executed = Executed(world: World, gas: nat, error: VmError, logs: seq<nat>)

  type Evm = (World, Call) -> Executed

  /** The machine moves wei but neither makes nor destroys any, and hands back no
      more gas than it got. */
  ghost predicate Conserving(evm: Evm) {
    forall w, c {:trigger evm(w, c)} ::
      evm(w, c).gas <= c.gas && Total(evm(w, c).world.balances) == Total(w.balances)
  }

  datatype Error = ErrOutOfGas | ErrInsufficientBalanceForGas | ErrGasLimitReached | ErrNonceTooHigh | ErrNonceTooLow
                 | ErrInsufficientBalance

  datatype Outcome = Rejected(error: Error) | Applied(requiredGas: nat, usedGas: nat, failed: bool, logs: seq<nat>)

  // ---------- intrinsic gas ----------

  /** Every zero byte costs 4 gas and every other byte 68. */
  function DataGas(data: Bytes): nat {
    if data == [] then 0
    else DataGas(data[..|data| - 1]) + if data[|data| - 1] == 0 then TX_DATA_ZERO_GAS else TX_DATA_NON_ZERO_GAS
  }

  function BaseGas(contractCreation: bool, homestead: bool): nat {
    if contractCreation && homestead then TX_GAS_CONTRACT_CREATION else TX_GAS
  }

  /** How many bytes are zero. */
  ghost function ZeroBytes(data: Bytes): nat {
    |set i | 0 <= i < |data| && data[i] == 0|
  }

  /** What the zero bytes and the other bytes cost together. */
  lemma {:induction false} DataGasIs(data: Bytes)
    ensures ZeroBytes(data) <= |data| && DataGas(data) == 4 * ZeroBytes(data) + 68 * (|data| - ZeroBytes(data))
  {
    if data != [] {
      var n := |data| - 1;
      var init := data[..n];
      DataGasIs(init);
      var before, after := set i | 0 <= i < n && init[i] == 0, set i | 0 <= i < |data| && data[i] == 0;
      assert after == before + if data[n] == 0 then {n} else {};
    }
  }

  method IntrinsicGas(data: Bytes, contractCreation: bool, homestead: bool) returns (igas: nat)
    ensures igas == BaseGas(contractCreation, homestead) + DataGas(data)
    ensures igas == (if contractCreation && homestead then 53000 else 21000)
                    + 4 * ZeroBytes(data) + 68 * (|data| - ZeroBytes(data))
  {
    DataGasIs(data);
    igas := if contractCreation && homestead then TX_GAS_CONTRACT_CREATION else TX_GAS;
    if |data| > 0 {
      var nz := 0;
      for i := 0 to |data|
        invariant 0 <= nz <= i
        invariant DataGas(data[..i]) == nz * TX_DATA_NON_ZERO_GAS + (i - nz) * TX_DATA_ZERO_GAS
      {
        assert data[..i + 1][..i] == data[..i];
        if data[i] != 0 {
          nz := nz + 1;
        }
      }
      assert data[..|data|] == data;
      igas := igas + nz * TX_DATA_NON_ZERO_GAS;
      igas := igas + (|data| - nz) * TX_DATA_ZERO_GAS;
    }
  }

  // ---------- the price of gas ----------

  /** The product of gas and price, as repeated addition. */
  function Fee(gas: nat, price: nat): nat {
    if gas == 0 then 0 else Fee(gas - 1, price) + price
  }

  /** That is what the code multiplies out. */
  lemma {:induction false} FeeIs(gas: nat, price: nat)
    ensures Fee(gas, price) == gas * price
  {
    if gas > 0 {
      FeeIs(gas - 1, price);
      assert gas * price == (gas - 1) * price + price;
    }
  }

  lemma {:induction false} Distribute(a: nat, b: nat, price: nat)
    ensures Fee(a + b, price) == Fee(a, price) + Fee(b, price)
  {
    if b > 0 {
      Distribute(a, b - 1, price);
    }
  }

  // ---------- the gas pool ----------

  class GasPool {
    var gas: nat

    constructor ()
      ensures gas == 0
    {
      gas := 0;
    }

    method AddGas(amount: nat)
      modifies this
      ensures gas == old(gas) + amount
    {
      gas := gas + amount;
    }

    method SubGas(amount: nat) returns (ok: bool)
      modifies this
      ensures ok == (amount <= old(gas))
      ensures gas == if ok then old(gas) - amount else old(gas)
    {
      if gas < amount {
        return false;
      }
      gas := gas - amount;
      return true;
    }
  }

  // ---------- the state ----------

  class StateDB {
    var balances: Balances
    var nonces: map<Address, nat>
    var refund: nat

    constructor (w: World)
      ensures Now() == w
    {
      balances, nonces, refund := w.balances, w.nonces, w.refund;
    }

    function Now(): World
      reads this
    {
      World(balances, nonces, refund)
    }

    method SetWorld(w: World)
      modifies this
      ensures Now() == w
    {
      balances, nonces, refund := w.balances, w.nonces, w.refund;
    }

    method AddBalance(a: Address, amount: nat)
      modifies this`balances
      ensures balances == old(balances)[a := Get(old(balances), a) + amount]
    {
      balances := balances[a := Get(balances, a) + amount];
    }

    method SubBalance(a: Address, amount: nat)
      requires amount <= Get(balances, a)
      modifies this`balances
      ensures balances == old(balances)[a := Get(old(balances), a) - amount]
    {
      balances := balances[a := Get(balances, a) - amount];
    }

    /** Clears the refund counter between transactions. */
    method Finalise()
      modifies this`refund
      ensures refund == 0
    {
      refund := 0;
    }
  }

  lemma SettledFrom(evm: Evm, msg: Message, w: World, homestead: bool, coinbase: Address, out: Outcome, gas: nat)
    requires Fee(msg.gasLimit, msg.gasPrice) <= Get(w.balances, msg.from) && Intrinsic(msg, homestead) <= msg.gasLimit
    requires var x := Execution(evm, msg, w, homestead);
      && x.gas <= msg.gasLimit - Intrinsic(msg, homestead)
      && gas == x.gas + Min((msg.gasLimit - x.gas) / 2, x.world.refund) <= msg.gasLimit
      && out == Applied(msg.gasLimit - x.gas, msg.gasLimit - gas, x.error != NoVmError, x.logs)
    ensures var x := Execution(evm, msg, w, homestead);
      Settled(evm, msg, w, homestead, coinbase, out,
              Credit(Credit(x.world.balances, msg.from, Fee(gas, msg.gasPrice)),
                     coinbase, Fee(msg.gasLimit - gas, msg.gasPrice)),
              x.world.nonces)
  {
  }

  lemma {:induction false} ExecutionConserves(evm: Evm, msg: Message, w: World, homestead: bool)
    requires Conserving(evm)
    requires Fee(msg.gasLimit, msg.gasPrice) <= Get(w.balances, msg.from) && Intrinsic(msg, homestead) <= msg.gasLimit
    ensures var x := Execution(evm, msg, w, homestead);
      Total(x.world.balances) == Total(Prepaid(msg, w.balances)) && x.gas <= msg.gasLimit - Intrinsic(msg, homestead)
  {
  }

  /** No wei is made or lost, whoever the coinbase is. */
  lemma SettledConserves(evm: Evm, msg: Message, w: World, homestead: bool, coinbase: Address, out: Outcome,
                         balances: Balances, nonces: map<Address, nat>)
    requires Conserving(evm) && out.Applied?
    requires Fee(msg.gasLimit, msg.gasPrice) <= Get(w.balances, msg.from) && Intrinsic(msg, homestead) <= msg.gasLimit
    requires Settled(evm, msg, w, homestead, coinbase, out, balances, nonces)
    ensures Total(balances) == Total(w.balances)
  {
    var x := Execution(evm, msg, w, homestead);
    ExecutionConserves(evm, msg, w, homestead);
    Distribute(msg.gasLimit - out.usedGas, out.usedGas, msg.gasPrice);
    Flow(w.balances, msg.from, x.world.balances, coinbase,
         Fee(msg.gasLimit - out.usedGas, msg.gasPrice), Fee(out.usedGas, msg.gasPrice));
  }

  /** What the sender prepays comes back as the rest and the coinbase's part. */
  lemma Flow(before: Balances, from: Address, run: Balances, coinbase: Address, rest: nat, used: nat)
    requires rest + used <= Get(before, from)
    requires Total(run) == Total(before[from := Get(before, from) - (rest + used)])
    ensures Total(Credit(Credit(run, from, rest), coinbase, used)) == Total(before)
  {
    TotalSet(before, from, Get(before, from) - (rest + used));
    TotalSet(run, from, Get(run, from) + rest);
    var paid := Credit(run, from, rest);
    TotalSet(paid, coinbase, Get(paid, coinbase) + used);
  }

  lemma CreditTwice(balances: Balances, a: Address, x: nat, y: nat)
    ensures Credit(Credit(balances, a, x), a, y) == Credit(balances, a, x + y)
  {
  }

  lemma RefundSum(balances: Balances, a: Address, gas: nat, refund: nat, price: nat)
    ensures Credit(Credit(balances, a, Fee(gas, price)), a, Fee(refund, price)) ==
            Credit(balances, a, Fee(gas + refund, price))
  {
    Distribute(gas, refund, price);
    CreditTwice(balances, a, Fee(gas, price), Fee(refund, price));
  }

  lemma RefundFits(gas: nat, initialGas: nat, refund: nat)
    requires gas <= initialGas < WORD && refund <= (initialGas - gas) / 2
    ensures (gas + refund) % WORD == gas + refund <= initialGas
  {
  }

  // ---------- the transition ----------

  predicate NonceOk(msg: Message, nonces: map<Address, nat>) {
    msg.checkNonce ==> Get(nonces, msg.from) == msg.nonce
  }

  predicate Affords(msg: Message, balances: Balances, pool: nat) {
    msg.gasLimit < WORD && Fee(msg.gasLimit, msg.gasPrice) <= Get(balances, msg.from) && msg.gasLimit <= pool
  }

  /** Why gas cannot be bought: the first of the three checks that fails. */
  function PurchaseError(msg: Message, balances: Balances, pool: nat): Option<Error> {
    if msg.gasLimit >= WORD then Some(ErrOutOfGas)
    else if msg.gasLimit * msg.gasPrice > Get(balances, msg.from) then Some(ErrInsufficientBalanceForGas)
    else if msg.gasLimit > pool then Some(ErrGasLimitReached)
    else None
  }

  function Credit(balances: Balances, a: Address, amount: nat): Balances {
    balances[a := Get(balances, a) + amount]
  }

  /** The balances once the sender has paid for the whole gas limit. */
  function Prepaid(msg: Message, balances: Balances): Balances
    requires Fee(msg.gasLimit, msg.gasPrice) <= Get(balances, msg.from)
  {
    balances[msg.from := Get(balances, msg.from) - Fee(msg.gasLimit, msg.gasPrice)]
  }

  function Intrinsic(msg: Message, homestead: bool): nat {
    BaseGas(msg.to.None?, homestead) + DataGas(msg.data)
  }

  /** What the machine makes of a message whose gas is paid for. */
  function Execution(evm: Evm, msg: Message, w: World, homestead: bool): Executed
    requires Fee(msg.gasLimit, msg.gasPrice) <= Get(w.balances, msg.from) && Intrinsic(msg, homestead) <= msg.gasLimit
  {
    var paid := w.(balances := Prepaid(msg, w.balances));
    var gas := msg.gasLimit - Intrinsic(msg, homestead);
    match msg.to
    case None => evm(paid, Create(msg.from, msg.data, gas, msg.value))
    case Some(to) =>
      evm(paid.(nonces := w.nonces[msg.from := (Get(w.nonces, msg.from) + 1) % WORD]),
          CallTo(msg.from, to, msg.data, gas, msg.value))
  }

  predicate Accepted(evm: Evm, msg: Message, w: World, pool: nat, homestead: bool) {
    && NonceOk(msg, w.nonces) && Affords(msg, w.balances, pool) && Intrinsic(msg, homestead) <= msg.gasLimit
    && Execution(evm, msg, w, homestead).error != InsufficientBalance
  }

  /** The accounts after an applied message: the sender has the price of all gas
      not used, the coinbase that of the gas used; at most half of the gas
      required is refunded. */
  predicate Settled(evm: Evm, msg: Message, w: World, homestead: bool, coinbase: Address, out: Outcome,
                    balances: Balances, nonces: map<Address, nat>)
    requires out.Applied? && Fee(msg.gasLimit, msg.gasPrice) <= Get(w.balances, msg.from)
    requires Intrinsic(msg, homestead) <= msg.gasLimit
  {
    var x := Execution(evm, msg, w, homestead);
    && out.requiredGas == msg.gasLimit - x.gas
    && out.usedGas == out.requiredGas - Min(out.requiredGas / 2, x.world.refund)
    && Intrinsic(msg, homestead) <= out.requiredGas <= msg.gasLimit
    && balances == Credit(Credit(x.world.balances, msg.from, Fee(msg.gasLimit - out.usedGas, msg.gasPrice)),
                          coinbase, Fee(out.usedGas, msg.gasPrice))
    && nonces == x.world.nonces && out.failed == (x.error != NoVmError) && out.logs == x.logs
  }

  // ---------- what the machine is given, and nonces ----------

  /** The call that a message makes with `gas` left. */
  predicate Calls(msg: Message, gas: nat, call: Call) {
    match call
    case Create(sender, data, g, value) =>
      msg.to == None && sender == msg.from && data == msg.data && g == gas && value == msg.value
    case CallTo(sender, to, data, g, value) =>
      msg.to == Some(to) && sender == msg.from && data == msg.data && g == gas && value == msg.value
  }

  /** `given` is `w` once the sender has paid for the gas limit and, for a call, counted the message. */
  predicate Given(msg: Message, w: World, given: World) {
    && given.refund == w.refund && given.balances.Keys == w.balances.Keys + {msg.from}
    && (forall a :: a in w.balances && a != msg.from ==> given.balances[a] == w.balances[a])
    && Get(given.balances, msg.from) + msg.gasLimit * msg.gasPrice == Get(w.balances, msg.from)
    && Counted(msg, w.nonces, given.nonces)
  }

  /** A call raises the sender's nonce, which wraps at 2^64, and no other; a creation raises none. */
  predicate Counted(msg: Message, before: map<Address, nat>, after: map<Address, nat>) {
    && (msg.to.None? ==> after == before)
    && (msg.to.Some? ==>
          && after.Keys == before.Keys + {msg.from}
          && (forall a :: a in before && a != msg.from ==> after[a] == before[a])
          && Get(after, msg.from) == if Get(before, msg.from) == WORD - 1 then 0 else Get(before, msg.from) + 1)
  }

  /** Nonces are 64-bit numbers. */
  ghost predicate NoncesFit(nonces: map<Address, nat>) {
    forall a :: a in nonces ==> nonces[a] < WORD
  }

  /** The machine is run on the message itself, on the account that has paid, and with the gas left. */
  lemma ExecutionRuns(evm: Evm, msg: Message, w: World, homestead: bool) returns (given: World, call: Call)
    requires Fee(msg.gasLimit, msg.gasPrice) <= Get(w.balances, msg.from) && Intrinsic(msg, homestead) <= msg.gasLimit
    requires NoncesFit(w.nonces)
    ensures Given(msg, w, given) && Calls(msg, msg.gasLimit - Intrinsic(msg, homestead), call)
    ensures Execution(evm, msg, w, homestead) == evm(given, call)
  {
    FeeIs(msg.gasLimit, msg.gasPrice);
    var gas := msg.gasLimit - Intrinsic(msg, homestead);
    given := w.(balances := Prepaid(msg, w.balances));
    match msg.to {
      case None =>
        call := Create(msg.from, msg.data, gas, msg.value);
      case Some(to) =>
        given := given.(nonces := w.nonces[msg.from := (Get(w.nonces, msg.from) + 1) % WORD]);
        call := CallTo(msg.from, to, msg.data, gas, msg.value);
    }
  }

  /** The bytes of the message and its kind, in gas. */
  ghost function Upfront(msg: Message, homestead: bool): nat {
    DataGasIs(msg.data);
    (if msg.to.None? && homestead then 53000 else 21000)
    + 4 * ZeroBytes(msg.data) + 68 * (|msg.data| - ZeroBytes(msg.data))
  }

  /** The outcome is that of one run of the machine; the sender gets the price of the gas
      not used, the coinbase that of the gas used, and nobody else anything. */
  ghost predicate RanOnce(evm: Evm, msg: Message, w: World, gas: nat, coinbase: Address, out: Outcome,
                          balances: Balances, nonces: map<Address, nat>)
    requires out.Applied?
  {
    exists given, call {:trigger evm(given, call)} ::
      && Given(msg, w, given) && Calls(msg, gas, call)
      && var x := evm(given, call);
         && x.error != InsufficientBalance && out.failed == (x.error != NoVmError) && out.logs == x.logs
         && nonces == x.world.nonces && out.requiredGas + x.gas == msg.gasLimit
         && out.usedGas == out.requiredGas - Min(out.requiredGas / 2, x.world.refund)
         && Paid(x.world.balances, msg.from, msg.gasLimit - out.usedGas, coinbase, out.usedGas, msg.gasPrice, balances)
  }

  /** The sender gets the price of `rest` gas and the coinbase that of `used` gas. */
  ghost predicate Paid(run: Balances, from: Address, rest: int, coinbase: Address, used: int, price: nat,
                       balances: Balances) {
    forall a {:trigger Get(balances, a)} ::
      Get(balances, a) ==
      Get(run, a) + (if a == from then rest * price else 0) + (if a == coinbase then used * price else 0)
  }

  lemma CreditsPaid(run: Balances, from: Address, rest: nat, coinbase: Address, used: nat, price: nat)
    ensures Paid(run, from, rest, coinbase, used, price,
                 Credit(Credit(run, from, Fee(rest, price)), coinbase, Fee(used, price)))
  {
    FeeIs(rest, price);
    FeeIs(used, price);
  }

  lemma SettledRanOnce(evm: Evm, msg: Message, w: World, homestead: bool, coinbase: Address, out: Outcome,
                       balances: Balances, nonces: map<Address, nat>)
    requires Fee(msg.gasLimit, msg.gasPrice) <= Get(w.balances, msg.from) && Intrinsic(msg, homestead) <= msg.gasLimit
    requires Execution(evm, msg, w, homestead).error != InsufficientBalance && NoncesFit(w.nonces)
    requires out.Applied? && Settled(evm, msg, w, homestead, coinbase, out, balances, nonces)
    ensures Upfront(msg, homestead) == Intrinsic(msg, homestead)
    ensures RanOnce(evm, msg, w, msg.gasLimit - Intrinsic(msg, homestead), coinbase, out, balances, nonces)
  {
    DataGasIs(msg.data);
    var given, call := ExecutionRuns(evm, msg, w, homestead);
    var x := evm(given, call);
    CreditsPaid(x.world.balances, msg.from, msg.gasLimit - out.usedGas, coinbase, out.usedGas, msg.gasPrice);
  }

  lemma RanCounted(evm: Evm, msg: Message, w: World, gas: nat, coinbase: Address, out: Outcome, balances: Balances,
                   nonces: map<Address, nat>)
    requires out.Applied? && RanOnce(evm, msg, w, gas, coinbase, out, balances, nonces)
    ensures KeepsNonces(evm) ==> Counted(msg, w.nonces, nonces)
  {
  }

  lemma AppliedTells(evm: Evm, msg: Message, w: World, homestead: bool, coinbase: Address, out: Outcome,
                     balances: Balances, nonces: map<Address, nat>)
    requires Fee(msg.gasLimit, msg.gasPrice) <= Get(w.balances, msg.from) && Intrinsic(msg, homestead) <= msg.gasLimit
    requires Execution(evm, msg, w, homestead).error != InsufficientBalance && NoncesFit(w.nonces)
    requires out.Applied? && Settled(evm, msg, w, homestead, coinbase, out, balances, nonces)
    ensures Upfront(msg, homestead) <= msg.gasLimit
    ensures RanOnce(evm, msg, w, msg.gasLimit - Upfront(msg, homestead), coinbase, out, balances, nonces)
    ensures KeepsNonces(evm) ==> Counted(msg, w.nonces, nonces)
  {
    SettledRanOnce(evm, msg, w, homestead, coinbase, out, balances, nonces);
    RanCounted(evm, msg, w, msg.gasLimit - Intrinsic(msg, homestead), coinbase, out, balances, nonces);
  }

  /** Why a message is refused: the first check that fails. */
  ghost function Refusal(evm: Evm, msg: Message, w: World, pool: nat, homestead: bool): Option<Error> {
    if msg.checkNonce && Get(w.nonces, msg.from) < msg.nonce then Some(ErrNonceTooHigh)
    else if msg.checkNonce && Get(w.nonces, msg.from) > msg.nonce then Some(ErrNonceTooLow)
    else if PurchaseError(msg, w.balances, pool).Some? then PurchaseError(msg, w.balances, pool)
    else if Upfront(msg, homestead) > msg.gasLimit then Some(ErrOutOfGas)
    else
      FeeIs(msg.gasLimit, msg.gasPrice);
      DataGasIs(msg.data);
      if Execution(evm, msg, w, homestead).error == InsufficientBalance then Some(ErrInsufficientBalance) else None
  }

  /** What is refunded is at most half of what was required, and all of the counter if that is no more. */
  lemma RefundAtMostHalf(evm: Evm, msg: Message, w: World, homestead: bool, coinbase: Address, out: Outcome,
                         balances: Balances, nonces: map<Address, nat>)
    requires Fee(msg.gasLimit, msg.gasPrice) <= Get(w.balances, msg.from) && Intrinsic(msg, homestead) <= msg.gasLimit
    requires out.Applied? && Settled(evm, msg, w, homestead, coinbase, out, balances, nonces)
    ensures var refund := Execution(evm, msg, w, homestead).world.refund;
      && 0 <= 2 * (out.requiredGas - out.usedGas) <= out.requiredGas
      && (if 2 * refund <= out.requiredGas then out.requiredGas - out.usedGas == refund
          else 2 * (out.requiredGas - out.usedGas) >= out.requiredGas - 1)
  {
  }

  /** The machine never lowers the account's nonce, and a creation by it raises it
      unless the value cannot be paid. */
  ghost predicate Advancing(evm: Evm, a: Address) {
    forall w, c {:trigger evm(w, c)} ::
      && Get(evm(w, c).world.nonces, a) >= Get(w.nonces, a)
      && (c.Create? && c.sender == a && evm(w, c).error != InsufficientBalance ==>
            Get(evm(w, c).world.nonces, a) > Get(w.nonces, a))
  }

  ghost predicate KeepsNonces(evm: Evm) {
    forall w, c {:trigger evm(w, c)} :: evm(w, c).world.nonces == w.nonces
  }

  /** Below the wrap an applied message carries the sender's nonce, if it checks it, and leaves a higher one. */
  lemma AppliedAdvances(evm: Evm, msg: Message, w: World, pool: nat, homestead: bool, coinbase: Address, out: Outcome,
                        balances: Balances, nonces: map<Address, nat>)
    requires NoncesFit(w.nonces) && Accepted(evm, msg, w, pool, homestead) && Advancing(evm, msg.from)
    requires out.Applied? && Settled(evm, msg, w, homestead, coinbase, out, balances, nonces)
    requires Get(w.nonces, msg.from) < WORD - 1
    ensures msg.checkNonce ==> Get(w.nonces, msg.from) == msg.nonce
    ensures Get(nonces, msg.from) > Get(w.nonces, msg.from)
  {
    var given, call := ExecutionRuns(evm, msg, w, homestead);
    assert Get(evm(given, call).world.nonces, msg.from) >= Get(given.nonces, msg.from);
  }

  /** No account's nonce falls. */
  lemma AppliedKeepsUp(evm: Evm, msg: Message, w: World, homestead: bool, coinbase: Address, out: Outcome,
                       balances: Balances, nonces: map<Address, nat>, a: Address)
    requires Fee(msg.gasLimit, msg.gasPrice) <= Get(w.balances, msg.from) && Intrinsic(msg, homestead) <= msg.gasLimit
    requires NoncesFit(w.nonces) && Advancing(evm, a) && Get(w.nonces, a) < WORD - 1
    requires out.Applied? && Settled(evm, msg, w, homestead, coinbase, out, balances, nonces)
    ensures Get(nonces, a) >= Get(w.nonces, a)
  {
    var given, call := ExecutionRuns(evm, msg, w, homestead);
    assert Get(evm(given, call).world.nonces, a) >= Get(given.nonces, a);
  }

  /** A message that checks its nonce is not accepted again, in any later state in which the
      sender's nonce has not fallen, by any machine. */
  lemma NotAppliedAgain(evm: Evm, msg: Message, w: World, pool: nat, homestead: bool, coinbase: Address, out: Outcome,
                        balances: Balances, nonces: map<Address, nat>,
                        evm': Evm, w': World, pool': nat, homestead': bool)
    requires NoncesFit(w.nonces) && Accepted(evm, msg, w, pool, homestead) && Advancing(evm, msg.from)
    requires out.Applied? && Settled(evm, msg, w, homestead, coinbase, out, balances, nonces)
    requires msg.checkNonce && msg.nonce < WORD - 1 && Get(w'.nonces, msg.from) >= Get(nonces, msg.from)
    ensures !Accepted(evm', msg, w', pool', homestead')
  {
    AppliedAdvances(evm, msg, w, pool, homestead, coinbase, out, balances, nonces);
  }

  class StateTransition {
    const gp: GasPool
    const state: StateDB
    const msg: Message
    var gas: nat
    var initialGas: nat

    constructor (gp: GasPool, state: StateDB, msg: Message)
      ensures this.gp == gp && this.state == state && this.msg == msg && gas == 0 && initialGas == 0
    {
      this.gp, this.state, this.msg, gas, initialGas := gp, state, msg, 0, 0;
    }

    /** The gas counter is a 64-bit number that never exceeds what was bought. */
    ghost predicate Bought()
      reads this
    {
      gas <= initialGas < WORD
    }

    function GasUsed(): int
      reads this
    {
      initialGas - gas
    }

    method UseGas(amount: nat) returns (ok: bool)
      requires Bought()
      modifies this`gas
      ensures Bought() && ok == (amount <= old(gas)) && gas == if ok then old(gas) - amount else old(gas)
    {
      if gas < amount {
        return false;
      }
      gas := gas - amount;
      return true;
    }

    /** Buys the whole gas limit up front, from the pool and from the sender. */
    method BuyGas() returns (error: Option<Error>)
      requires gas == 0
      modifies this, gp, state`balances
      ensures error.None? <==> Affords(msg, old(state.balances), old(gp.gas))
      ensures error == PurchaseError(msg, old(state.balances), old(gp.gas))
      ensures error.Some? ==> gp.gas == old(gp.gas) && state.balances == old(state.balances)
      ensures error.None? ==> Bought() && gas == initialGas == msg.gasLimit && gp.gas == old(gp.gas) - msg.gasLimit
      ensures error.None? ==> state.balances == Prepaid(msg, old(state.balances))
    {
      if msg.gasLimit >= WORD {
        return Some(ErrOutOfGas);
      }
      var cost := msg.gasLimit * msg.gasPrice;
      FeeIs(msg.gasLimit, msg.gasPrice);
      if Get(state.balances, msg.from) < cost {
        return Some(ErrInsufficientBalanceForGas);
      }
      var ok := gp.SubGas(msg.gasLimit);
      if !ok {
        return Some(ErrGasLimitReached);
      }
      gas := (gas + msg.gasLimit) % WORD;
      initialGas := msg.gasLimit;
      state.SubBalance(msg.from, cost);
      return None;
    }

    method PreCheck() returns (error: Option<Error>)
      requires gas == 0
      modifies this, gp, state`balances
      ensures error.None? <==> NonceOk(msg, state.nonces) && Affords(msg, old(state.balances), old(gp.gas))
      ensures error == Some(ErrNonceTooHigh) <==> msg.checkNonce && Get(state.nonces, msg.from) < msg.nonce
      ensures error == Some(ErrNonceTooLow) <==> msg.checkNonce && Get(state.nonces, msg.from) > msg.nonce
      ensures NonceOk(msg, state.nonces) ==> error == PurchaseError(msg, old(state.balances), old(gp.gas))
      ensures error.Some? ==> gp.gas == old(gp.gas) && state.balances == old(state.balances)
      ensures error.None? ==> Bought() && gas == initialGas == msg.gasLimit && gp.gas == old(gp.gas) - msg.gasLimit
      ensures error.None? ==> state.balances == Prepaid(msg, old(state.balances))
    {
      if msg.checkNonce {
        var nonce := Get(state.nonces, msg.from);
        if nonce < msg.nonce {
          return Some(ErrNonceTooHigh);
        } else if nonce > msg.nonce {
          return Some(ErrNonceTooLow);
        }
      }
      error := BuyGas();
    }

    /** Returns unused gas at its price, plus a refund of at most half the gas used.
        The product with the price is formed in the refund counter's own number
        when that is the smaller one. */
    method RefundGas()
      requires Bought()
      modifies this`gas, gp, state`balances, state`refund
      ensures Bought() && initialGas == old(initialGas) && gp.gas == old(gp.gas) + gas
      ensures gas == old(gas) + Min(old(GasUsed()) / 2, old(state.refund))
      ensures state.balances == Credit(old(state.balances), msg.from, Fee(gas, msg.gasPrice))
      ensures state.nonces == old(state.nonces)
    {
      PayGas(msg.from, gas);
      var uhalf := GasUsed() / 2;
      var refund := Min(uhalf, state.refund);
      RefundFits(gas, initialGas, refund);
      RefundSum(old(state.balances), msg.from, gas, refund, msg.gasPrice);
      gas := (gas + refund) % WORD;
      if uhalf > state.refund {
        MultiplyRefund(refund);
      }
      PayGas(msg.from, refund);
      gp.AddGas(gas);
    }

    /** Gives an account the price of an amount of gas. */
    method PayGas(a: Address, amount: nat)
      modifies state`balances
      ensures state.balances == Credit(old(state.balances), a, Fee(amount, msg.gasPrice))
    {
      FeeIs(amount, msg.gasPrice);
      state.AddBalance(a, amount * msg.gasPrice);
    }

    method MultiplyRefund(refund: nat)
      modifies state`refund
      ensures state.refund == refund * msg.gasPrice
    {
      state.refund := refund * msg.gasPrice;
    }

    /** Pays back the sender and pays the coinbase. */
    method Settle(coinbase: Address)
      requires Bought()
      modifies this`gas, gp, state`balances, state`refund
      ensures Bought() && initialGas == old(initialGas) && gp.gas == old(gp.gas) + gas
      ensures gas == old(gas) + Min(old(GasUsed()) / 2, old(state.refund))
      ensures state.balances ==
        Credit(Credit(old(state.balances), msg.from, Fee(gas, msg.gasPrice)), coinbase, Fee(GasUsed(), msg.gasPrice))
      ensures state.nonces == old(state.nonces)
    {
      RefundGas();
      PayGas(coinbase, GasUsed());
    }

    /** Pays the intrinsic gas and runs the machine on the rest. */
    method Execute(evm: Evm, homestead: bool, ghost w: World) returns (result: Option<Executed>)
      requires Bought() && gas == initialGas == msg.gasLimit && Conserving(evm)
      requires Fee(msg.gasLimit, msg.gasPrice) <= Get(w.balances, msg.from)
      requires state.Now() == w.(balances := Prepaid(msg, w.balances))
      modifies this`gas, state
      ensures result.None? <==> Intrinsic(msg, homestead) > msg.gasLimit
      ensures result.Some? ==> result.value == Execution(evm, msg, w, homestead) && state.Now() == result.value.world
      ensures result.Some? ==> gas == result.value.gas <= msg.gasLimit - Intrinsic(msg, homestead)
    {
      var intrinsicGas := IntrinsicGas(msg.data, msg.to.None?, homestead);
      if intrinsicGas >= WORD {
        return None;
      }
      var ok := UseGas(intrinsicGas);
      if !ok {
        return None;
      }
      ExecutionConserves(evm, msg, w, homestead);
      var done := RunMachine(evm, homestead, w);
      state.SetWorld(done.world);
      gas := done.gas;
      return Some(done);
    }

    /** Counts a call in the sender's nonce and runs the machine with the gas left. */
    method RunMachine(evm: Evm, homestead: bool, ghost w: World) returns (done: Executed)
      requires Fee(msg.gasLimit, msg.gasPrice) <= Get(w.balances, msg.from)
      requires Intrinsic(msg, homestead) <= msg.gasLimit && gas == msg.gasLimit - Intrinsic(msg, homestead)
      requires state.Now() == w.(balances := Prepaid(msg, w.balances))
      modifies state
      ensures done == Execution(evm, msg, w, homestead)
    {
      if msg.to.None? {
        done := evm(state.Now(), Create(msg.from, msg.data, gas, msg.value));
      } else {
        state.nonces := state.nonces[msg.from := (Get(state.nonces, msg.from) + 1) % WORD];
        done := evm(state.Now(), CallTo(msg.from, msg.to.value, msg.data, gas, msg.value));
      }
    }

    /** Applies the message. On success wei is conserved, the pool has paid exactly for
        the gas used and the machine was run once on the message; a refusal names the
        first check that failed. */
    method TransitionDb(evm: Evm, homestead: bool, coinbase: Address) returns (out: Outcome)
      requires gas == 0 && Conserving(evm)
      modifies this, gp, state
      ensures out.Applied? <==> Accepted(evm, msg, old(state.Now()), old(gp.gas), homestead)
      ensures out.Applied? ==> Bought() && initialGas == msg.gasLimit < WORD && out.usedGas == GasUsed()
      ensures out.Applied? ==> gp.gas == old(gp.gas) - out.usedGas
      ensures out.Applied? ==>
        Settled(evm, msg, old(state.Now()), homestead, coinbase, out, state.balances, state.nonces)
      ensures out.Applied? ==> Total(state.balances) == Total(old(state.balances))
      ensures Refusal(evm, msg, old(state.Now()), old(gp.gas), homestead) ==
        if out.Applied? then None else Some(out.error)
      ensures out.Applied? && NoncesFit(old(state.nonces)) ==>
        && Upfront(msg, homestead) <= msg.gasLimit
        && RanOnce(evm, msg, old(state.Now()), msg.gasLimit - Upfront(msg, homestead), coinbase, out,
                   state.balances, state.nonces)
      ensures out.Applied? && NoncesFit(old(state.nonces)) && KeepsNonces(evm) ==>
        Counted(msg, old(state.nonces), state.nonces)
    {
      ghost var w := state.Now();
      out := Conserve(evm, homestead, coinbase);
      if out.Applied? {
        if NoncesFit(w.nonces) {
          AppliedTells(evm, msg, w, homestead, coinbase, out, state.balances, state.nonces);
        }
      }
    }

    method Conserve(evm: Evm, homestead: bool, coinbase: Address) returns (out: Outcome)
      requires gas == 0 && Conserving(evm)
      modifies this, gp, state
      ensures out.Applied? <==> Accepted(evm, msg, old(state.Now()), old(gp.gas), homestead)
      ensures out.Applied? ==> Bought() && initialGas == msg.gasLimit < WORD && out.usedGas == GasUsed()
      ensures out.Applied? ==> gp.gas == old(gp.gas) - out.usedGas
      ensures out.Applied? ==>
        Settled(evm, msg, old(state.Now()), homestead, coinbase, out, state.balances, state.nonces)
      ensures out.Applied? ==> Total(state.balances) == Total(old(state.balances))
      ensures Refusal(evm, msg, old(state.Now()), old(gp.gas), homestead) ==
        if out.Applied? then None else Some(out.error)
    {
      ghost var w := state.Now();
      out := Transition(evm, homestead, coinbase);
      if out.Applied? {
        SettledConserves(evm, msg, w, homestead, coinbase, out, state.balances, state.nonces);
      }
    }

    method Transition(evm: Evm, homestead: bool, coinbase: Address) returns (out: Outcome)
      requires gas == 0 && Conserving(evm)
      modifies this, gp, state
      ensures out.Applied? <==> Accepted(evm, msg, old(state.Now()), old(gp.gas), homestead)
      ensures out.Applied? ==> Bought() && initialGas == msg.gasLimit < WORD && out.usedGas == GasUsed()
      ensures out.Applied? ==> gp.gas == old(gp.gas) - out.usedGas
      ensures out.Applied? ==>
        Settled(evm, msg, old(state.Now()), homestead, coinbase, out, state.balances, state.nonces)
      ensures Refusal(evm, msg, old(state.Now()), old(gp.gas), homestead) ==
        if out.Applied? then None else Some(out.error)
    {
      ghost var w := state.Now();
      FeeIs(msg.gasLimit, msg.gasPrice);
      DataGasIs(msg.data);
      var error := PreCheck();
      if error.Some? {
        return Rejected(error.value);
      }
      out := Complete(evm, homestead, coinbase, w);
    }

    /** The part of the transition after the gas is bought. */
    method Complete(evm: Evm, homestead: bool, coinbase: Address, ghost w: World) returns (out: Outcome)
      requires Bought() && gas == initialGas == msg.gasLimit && Conserving(evm)
      requires Fee(msg.gasLimit, msg.gasPrice) <= Get(w.balances, msg.from)
      requires state.Now() == w.(balances := Prepaid(msg, w.balances))
      modifies this`gas, gp, state
      ensures out.Applied? <==>
        Intrinsic(msg, homestead) <= msg.gasLimit && Execution(evm, msg, w, homestead).error != InsufficientBalance
      ensures out.Rejected? ==>
        out.error == if Intrinsic(msg, homestead) > msg.gasLimit then ErrOutOfGas else ErrInsufficientBalance
      ensures out.Applied? ==> Bought() && out.usedGas == GasUsed() && gp.gas == old(gp.gas) + gas
      ensures out.Applied? ==> Settled(evm, msg, w, homestead, coinbase, out, state.balances, state.nonces)
    {
      var done := Execute(evm, homestead, w);
      if done.None? {
        return Rejected(ErrOutOfGas);
      }
      if done.value.error == InsufficientBalance {
        return Rejected(ErrInsufficientBalance);
      }
      var requiredGas: nat := GasUsed();
      Settle(coinbase);
      out := Applied(requiredGas, GasUsed(), done.value.error != NoVmError, done.value.logs);
      SettledFrom(evm, msg, w, homestead, coinbase, out, gas);
    }
  }
}
