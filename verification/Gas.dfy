/**
 Gas and ether accounting: intrinsic gas, the block gas pool, one message, one block.
 The virtual machine and the end-of-transaction clean-up of the state are parameters;
 whatever they do to the total balance is theirs.
 */
module Gas {
  import opened Transactions
  import opened Sums

  const MAX_UINT64: nat := 0xFFFF_FFFF_FFFF_FFFF
  const TX_GAS: nat := 21000
  const TX_GAS_CONTRACT_CREATION: nat := 53000
  const TX_DATA_ZERO_GAS: nat := 4
  const TX_DATA_NON_ZERO_GAS_FRONTIER: nat := 68
  const TX_DATA_NON_ZERO_GAS_EIP2028: nat := 16

  type Uint64 = x: int | 0 <= x <= MAX_UINT64

  // ---------- intrinsic gas ----------

  function NonZeroBytes(data: seq<Byte>): (n: nat)
    ensures n <= |data|
  {
    if data == [] then 0 else NonZeroBytes(data[..|data| - 1]) + (if data[|data| - 1] != 0 then 1 else 0)
  }

  function NonZeroGas(eip2028: bool): (g: nat) {
    if eip2028 then TX_DATA_NON_ZERO_GAS_EIP2028 else TX_DATA_NON_ZERO_GAS_FRONTIER
  }

  /** The true sum, with no regard to the width of a machine word. */
  function IntrinsicSum(data: seq<Byte>, creation: bool, eip2028: bool): (g: nat) {
    (if creation then TX_GAS_CONTRACT_CREATION else TX_GAS)
    + NonZeroBytes(data) * NonZeroGas(eip2028)
    + (|data| - NonZeroBytes(data)) * TX_DATA_ZERO_GAS
  }

  /** The division test of the source is exactly the overflow test. */
  lemma DivisionTest(gas: nat, unit: nat, count: nat)
    requires gas <= MAX_UINT64 && 0 < unit
    ensures (MAX_UINT64 - gas) / unit < count <==> gas + count * unit > MAX_UINT64
  {
    var room := MAX_UINT64 - gas;
    var q := room / unit;
    assert room == q * unit + room % unit;
    if q < count {
      assert count * unit >= (q + 1) * unit by { MulMonotone(q + 1, count, unit); }
    } else {
      assert count * unit <= q * unit by { MulMonotone(count, q, unit); }
    }
  }

  lemma MulMonotone(a: nat, b: nat, c: nat)
    requires a <= b
    ensures a * c <= b * c
  {
  }

  /** Fails exactly when the true sum does not fit 64 bits; otherwise returns it. */
  method IntrinsicGas(data: seq<Byte>, creation: bool, eip2028: bool) returns (r: Option<Uint64>)
    ensures r.None? <==> IntrinsicSum(data, creation, eip2028) > MAX_UINT64
    ensures r.Some? ==> r.value == IntrinsicSum(data, creation, eip2028)
  {
    var gas := if creation then TX_GAS_CONTRACT_CREATION else TX_GAS;
    if |data| > 0 {
      var nz := 0;
      for i := 0 to |data|
        invariant nz == NonZeroBytes(data[..i])
      {
        assert data[..i + 1][..i] == data[..i];
        if data[i] != 0 {
          nz := nz + 1;
        }
      }
      assert data[..|data|] == data;
      var nonZeroGas := TX_DATA_NON_ZERO_GAS_FRONTIER;
      if eip2028 {
        nonZeroGas := TX_DATA_NON_ZERO_GAS_EIP2028;
      }
      DivisionTest(gas, nonZeroGas, nz);
      if (MAX_UINT64 - gas) / nonZeroGas < nz {
        return None;
      }
      gas := gas + nz * nonZeroGas;
      var z := |data| - nz;
      DivisionTest(gas, TX_DATA_ZERO_GAS, z);
      if (MAX_UINT64 - gas) / TX_DATA_ZERO_GAS < z {
        return None;
      }
      gas := gas + z * TX_DATA_ZERO_GAS;
    }
    return Some(gas);
  }

  // ---------- the block gas pool ----------

  class GasPool {
    var gas: Uint64

    constructor ()
      ensures gas == 0
    {
      gas := 0;
    }

    /** Refuses (the source panics) exactly when the sum would not fit 64 bits. */
    method AddGas(amount: Uint64) returns (ok: bool)
      modifies this
      ensures ok <==> old(gas) + amount <= MAX_UINT64
      ensures gas == if ok then old(gas) + amount else old(gas)
    {
      if gas > MAX_UINT64 - amount {
        return false;
      }
      gas := gas + amount;
      return true;
    }

    method SubGas(amount: Uint64) returns (ok: bool)
      modifies this
      ensures ok <==> amount <= old(gas)
      ensures gas == if ok then old(gas) - amount else old(gas)
    {
      if gas < amount {
        return false;
      }
      gas := gas - amount;
      return true;
    }
  }

  // ---------- one message ----------

  datatype World = World(balances: map<Address, int>, nonces: map<Address, nat>, refund: nat) {
    function Nonce(a: Address): (n: nat) {
      if a in nonces then nonces[a] else 0
    }

    function Pay(a: Address, amount: int): (w: World) {
      this.(balances := balances[a := Get(balances, a) + amount])
    }

    ghost function Total(): int {
      Sum(balances)
    }
  }

  datatype VmError = NoError | InsufficientBalance | OtherError
  datatype VmResult = VmResult(world: World, gasLeft: nat, error: VmError)

  /**
   What surrounds a transaction. `vm` runs its call or creation on a state with an amount
   of gas; `finalise` is the clean-up of the state after each transaction.
   */
  datatype Env = Env(
    vm: (World, Tx, nat) -> VmResult,
    finalise: World -> World,
    coinbase: Address,
    eip2028: bool,
    checkNonce: bool)

  /** The virtual machine returns no more gas than it was given. */
  ghost predicate Honest(env: Env) {
    forall w, tx, g :: env.vm(w, tx, g).gasLeft <= g
  }

  datatype Error =
    | NonceTooHigh | NonceTooLow | InsufficientFundsForGas | GasLimitReached
    | OutOfGas | TransferFailed | BadSignature

  /** What a message leaves behind: the state, the pool, and the gas used or the error. */
  datatype Outcome =
    | Done(world: World, pool: int, used: nat, failed: bool)
    | Failed(world: World, pool: int, error: Error)

  function Min(a: nat, b: nat): (m: nat) {
    if a <= b then a else b
  }

  /** The state the virtual machine starts from: the gas is paid, and a plain call bumps the nonce. */
  function Prepared(w: World, tx: Tx): (r: World) {
    var paid := w.Pay(tx.from, -(tx.gas * tx.price));
    if tx.creation then paid else paid.(nonces := paid.nonces[tx.from := paid.Nonce(tx.from) + 1])
  }

  /** What the virtual machine makes of the message. */
  function Execute(env: Env, w: World, tx: Tx): (r: VmResult)
    requires IntrinsicSum(tx.data, tx.creation, env.eip2028) <= tx.gas
  {
    env.vm(Prepared(w, tx), tx, tx.gas - IntrinsicSum(tx.data, tx.creation, env.eip2028))
  }

  /** Gas used after the refund, which is at most half of what was used before it. */
  function GasUsed(tx: Tx, out: VmResult): (used: nat)
    requires out.gasLeft <= tx.gas
    ensures used <= tx.gas - out.gasLeft <= 2 * used
  {
    var raw := tx.gas - out.gasLeft;
    raw - Min(raw / 2, out.world.refund)
  }

  /** After the virtual machine: unused gas goes back, the fee for the rest to the coinbase. */
  function Settle(env: Env, tx: Tx, out: VmResult, pool: int): (o: Outcome)
    requires out.gasLeft <= tx.gas
  {
    if out.error == InsufficientBalance then Failed(out.world, pool - tx.gas, TransferFailed)
    else
      var used := GasUsed(tx, out);
      Done(out.world.Pay(tx.from, (tx.gas - used) * tx.price).Pay(env.coinbase, used * tx.price),
           pool - used, used, out.error != NoError)
  }

  /** The message as a whole, from the state and the pool before it. */
  function ApplyMessage(env: Env, w: World, pool: int, tx: Tx): (o: Outcome)
    requires Honest(env)
  {
    if env.checkNonce && w.Nonce(tx.from) < tx.nonce then Failed(w, pool, NonceTooHigh)
    else if env.checkNonce && w.Nonce(tx.from) > tx.nonce then Failed(w, pool, NonceTooLow)
    else if Get(w.balances, tx.from) < tx.gas * tx.price then Failed(w, pool, InsufficientFundsForGas)
    else if pool < tx.gas then Failed(w, pool, GasLimitReached)
    else if tx.gas < IntrinsicSum(tx.data, tx.creation, env.eip2028) then
      Failed(w.Pay(tx.from, -(tx.gas * tx.price)), pool - tx.gas, OutOfGas)
    else
      Settle(env, tx, Execute(env, w, tx), pool)
  }

  lemma PayTotal(w: World, a: Address, amount: int)
    ensures w.Pay(a, amount).Total() == w.Total() + amount
  {
    SumUpdate(w.balances, a, Get(w.balances, a) + amount);
  }

  lemma Distribute(whole: int, part: int, price: int)
    ensures (whole - part) * price + part * price == whole * price
  {
  }

  /** What a message's fee does to account `a`: the sender pays it, the coinbase gets it. */
  ghost function FeeOn(env: Env, a: Address, tx: Tx, used: nat): (v: int) {
    (if a == env.coinbase then used * tx.price else 0) - (if a == tx.from then used * tx.price else 0)
  }

  /** What the virtual machine did to account `a`. */
  ghost function VmOn(env: Env, w: World, tx: Tx, a: Address): (v: int)
    requires IntrinsicSum(tx.data, tx.creation, env.eip2028) <= tx.gas
  {
    Get(Execute(env, w, tx).world.balances, a) - Get(Prepared(w, tx).balances, a)
  }

  /**
   A message that goes through moves the fee from the sender to the coinbase and otherwise changes each balance,
   and the total, by exactly what the virtual machine did; the pool pays for the gas used.
   */
  lemma MessageConserves(env: Env, w: World, pool: int, tx: Tx)
    requires Honest(env) && ApplyMessage(env, w, pool, tx).Done?
    ensures IntrinsicSum(tx.data, tx.creation, env.eip2028) <= tx.gas
    ensures var o, out := ApplyMessage(env, w, pool, tx), Execute(env, w, tx);
      && o.pool + o.used == pool
      && 0 <= o.pool
      && o.used <= tx.gas
      && o.world.nonces == out.world.nonces
      && (forall a :: Get(o.world.balances, a) == Get(w.balances, a) + VmOn(env, w, tx, a) + FeeOn(env, a, tx, o.used))
      && o.world.Total() - w.Total() == out.world.Total() - Prepared(w, tx).Total()
  {
    var o, out := ApplyMessage(env, w, pool, tx), Execute(env, w, tx);
    PayTotal(w, tx.from, -(tx.gas * tx.price));
    var back := out.world.Pay(tx.from, (tx.gas - o.used) * tx.price);
    PayTotal(out.world, tx.from, (tx.gas - o.used) * tx.price);
    PayTotal(back, env.coinbase, o.used * tx.price);
    Distribute(tx.gas, o.used, tx.price);
  }

  class StateDb {
    var world: World

    constructor (w: World)
      ensures world == w
    {
      world := w;
    }
  }

  class StateTransition {
    const env: Env
    const tx: Tx
    const gp: GasPool
    const state: StateDb
    var gas: int
    var initialGas: nat

    constructor (env: Env, tx: Tx, gp: GasPool, state: StateDb)
      ensures this.env == env && this.tx == tx && this.gp == gp && this.state == state
      ensures gas == 0
    {
      this.env, this.tx, this.gp, this.state := env, tx, gp, state;
      gas, initialGas := 0, 0;
    }

    /** Takes the gas from the block pool and its price from the sender, or neither. */
    method BuyGas() returns (err: Option<Error>)
      requires tx.gas <= MAX_UINT64 && gas == 0
      modifies this, gp, state
      ensures err.None? <==> tx.gas * tx.price <= Get(old(state.world).balances, tx.from) && tx.gas <= old(gp.gas)
      ensures err.None? ==> gas == initialGas == tx.gas && gp.gas == old(gp.gas) - tx.gas
                            && state.world == old(state.world).Pay(tx.from, -(tx.gas * tx.price))
      ensures err.Some? ==> gp.gas == old(gp.gas) && state.world == old(state.world)
      ensures err.Some? ==> err.value == if Get(old(state.world).balances, tx.from) < tx.gas * tx.price
                                         then InsufficientFundsForGas else GasLimitReached
    {
      var mgval := tx.gas * tx.price;
      if Get(state.world.balances, tx.from) < mgval {
        return Some(InsufficientFundsForGas);
      }
      var ok := gp.SubGas(tx.gas);
      if !ok {
        return Some(GasLimitReached);
      }
      gas := gas + tx.gas;
      initialGas := tx.gas;
      state.world := state.world.Pay(tx.from, -mgval);
      return None;
    }

    method PreCheck() returns (err: Option<Error>)
      requires tx.gas <= MAX_UINT64 && gas == 0 && Honest(env)
      modifies this, gp, state
      ensures err.None? ==> gas == initialGas == tx.gas && gp.gas == old(gp.gas) - tx.gas
                            && state.world == old(state.world).Pay(tx.from, -(tx.gas * tx.price))
                            && tx.gas * tx.price <= Get(old(state.world).balances, tx.from)
                            && (env.checkNonce ==> old(state.world).Nonce(tx.from) == tx.nonce)
      ensures err.Some? ==> ApplyMessage(env, old(state.world), old(gp.gas), tx)
                            == Failed(state.world, gp.gas, err.value)
    {
      if env.checkNonce {
        var nonce := state.world.Nonce(tx.from);
        if nonce < tx.nonce {
          return Some(NonceTooHigh);
        } else if nonce > tx.nonce {
          return Some(NonceTooLow);
        }
      }
      err := BuyGas();
    }

    /**
     Hands back up to half of the used gas, refunds its price, and returns the unused gas
     to the pool; the pool cannot overflow as long as it gave that gas out.
     */
    method RefundGas() returns (ok: bool)
      requires 0 <= gas <= initialGas <= MAX_UINT64
      modifies this, gp, state
      ensures initialGas == old(initialGas)
      ensures gas == old(gas) + Min((initialGas - old(gas)) / 2, old(state.world).refund) <= initialGas
      ensures state.world == old(state.world).Pay(tx.from, gas * tx.price)
      ensures ok <==> old(gp.gas) + gas <= MAX_UINT64
      ensures gp.gas == if ok then old(gp.gas) + gas else old(gp.gas)
    {
      var refund := (initialGas - gas) / 2;
      if refund > state.world.refund {
        refund := state.world.refund;
      }
      gas := gas + refund;
      state.world := state.world.Pay(tx.from, gas * tx.price);
      ok := gp.AddGas(gas);
    }

    /** The message, step by step on the state and the pool, does what `ApplyMessage` says. */
    method TransitionDb() returns (o: Outcome)
      requires tx.gas <= MAX_UINT64 && gas == 0 && Honest(env)
      modifies this, gp, state
      ensures o == ApplyMessage(env, old(state.world), old(gp.gas), tx)
      ensures state.world == o.world && gp.gas == o.pool
    {
      ghost var w, pool := state.world, gp.gas;
      var err := PreCheck();
      if err.Some? {
        return Failed(state.world, gp.gas, err.value);
      }
      var intrinsic := IntrinsicGas(tx.data, tx.creation, env.eip2028);
      if intrinsic.None? || gas < intrinsic.value {
        return Failed(state.world, gp.gas, OutOfGas);
      }
      gas := gas - intrinsic.value;
      if !tx.creation {
        state.world := state.world.(nonces := state.world.nonces[tx.from := state.world.Nonce(tx.from) + 1]);
      }
      assert state.world == Prepared(w, tx);
      var result := env.vm(state.world, tx, gas);
      assert result == Execute(env, w, tx);
      assert result.gasLeft <= gas;
      o := Finish(result, pool);
    }

    /** What is left to do once the virtual machine is done. */
    method Finish(result: VmResult, ghost pool: int) returns (o: Outcome)
      requires result.gasLeft <= tx.gas == initialGas <= MAX_UINT64
      requires gp.gas == pool - tx.gas && pool <= MAX_UINT64
      modifies this, gp, state
      ensures o == Settle(env, tx, result, pool)
      ensures state.world == o.world && gp.gas == o.pool
    {
      state.world, gas := result.world, result.gasLeft;
      if result.error == InsufficientBalance {
        return Failed(state.world, gp.gas, TransferFailed);
      }
      var ok := RefundGas();
      assert ok;
      state.world := state.world.Pay(env.coinbase, (initialGas - gas) * tx.price);
      return Done(state.world, gp.gas, initialGas - gas, result.error != NoError);
    }
  }

  // ---------- one block ----------

  datatype Receipt = Receipt(cumulative: nat, gasUsed: nat, failed: bool)

  datatype BlockOutcome =
    | Processed(world: World, pool: int, receipts: seq<Receipt>, used: nat)
    | Rejected(error: Error)

  /** One transaction: from the state and the pool before it to what it leaves behind. */
  type Step = (World, int, Tx) -> Outcome

  function MessageStep(env: Env): (step: Step)
    requires Honest(env)
  {
    (w: World, pool: int, tx: Tx) => ApplyMessage(env, w, pool, tx)
  }

  /** The transactions one after the other, each starting from what the last one left. */
  function RunBlock(step: Step, finalise: World -> World, w: World, pool: int, used: nat, txs: seq<Tx>): (r: BlockOutcome)
    decreases |txs|
  {
    if txs == [] then Processed(w, pool, [], used)
    else if !txs[0].signed then Rejected(BadSignature)
    else
      var o := step(w, pool, txs[0]);
      if o.Failed? then Rejected(o.error) else
      var rest := RunBlock(step, finalise, finalise(o.world), o.pool, used + o.used, txs[1..]);
      if rest.Rejected? then rest else
      rest.(receipts := [Receipt(used + o.used, o.used, o.failed)] + rest.receipts)
  }

  /** Something to watch about the state: the total balance, or the balance of one account. */
  type Measure = World -> int

  /** What the steps, their fees left aside, and the clean-ups between them did to the measure. */
  ghost function BlockDelta(step: Step, m: Measure, delta: (World, int, Tx) -> int, finalise: World -> World,
                            w: World, pool: int, txs: seq<Tx>): int
    decreases |txs|
  {
    if txs == [] || step(w, pool, txs[0]).Failed? then 0 else
    var o := step(w, pool, txs[0]);
    var next := finalise(o.world);
    delta(w, pool, txs[0]) + (m(next) - m(o.world)) + BlockDelta(step, m, delta, finalise, next, o.pool, txs[1..])
  }

  /** What the fees of a block's transactions add up to. */
  ghost function FeeSum(fee: (Tx, nat) -> int, rs: seq<Receipt>, txs: seq<Tx>): int
    requires |rs| == |txs|
  {
    if rs == [] then 0 else fee(txs[0], rs[0].gasUsed) + FeeSum(fee, rs[1..], txs[1..])
  }

  /** A step that goes through pays its gas from the pool and changes the measure by `delta` and the fee. */
  ghost predicate Conserving(step: Step, m: Measure, delta: (World, int, Tx) -> int, fee: (Tx, nat) -> int) {
    forall w, pool, tx {:trigger delta(w, pool, tx)} :: step(w, pool, tx).Done? ==>
      && step(w, pool, tx).pool + step(w, pool, tx).used == pool
      && 0 <= step(w, pool, tx).pool
      && m(step(w, pool, tx).world) == m(w) + delta(w, pool, tx) + fee(tx, step(w, pool, tx).used)
  }

  /** What the virtual machine did to the total balance during one message. */
  ghost function VmDelta(env: Env): (World, int, Tx) -> int
    requires Honest(env)
  {
    (w: World, pool: int, tx: Tx) =>
      if tx.gas < IntrinsicSum(tx.data, tx.creation, env.eip2028) then 0
      else Execute(env, w, tx).world.Total() - Prepared(w, tx).Total()
  }

  /** What the virtual machine did to one account during one message. */
  ghost function VmDeltaOf(env: Env, a: Address): (World, int, Tx) -> int
    requires Honest(env)
  {
    (w: World, pool: int, tx: Tx) =>
      if tx.gas < IntrinsicSum(tx.data, tx.creation, env.eip2028) then 0 else VmOn(env, w, tx, a)
  }

  ghost function BalanceOf(a: Address): Measure {
    (w: World) => Get(w.balances, a)
  }

  ghost function TotalBalance(): Measure {
    (w: World) => w.Total()
  }

  ghost function NoFee(): (Tx, nat) -> int {
    (tx: Tx, used: nat) => 0
  }

  ghost function FeeOf(env: Env, a: Address): (Tx, nat) -> int {
    (tx: Tx, used: nat) => FeeOn(env, a, tx, used)
  }

  lemma MessagesConserve(env: Env)
    requires Honest(env)
    ensures Conserving(MessageStep(env), TotalBalance(), VmDelta(env), NoFee())
  {
    forall w, pool, tx | MessageStep(env)(w, pool, tx).Done?
      ensures var o := MessageStep(env)(w, pool, tx);
        && o.pool + o.used == pool && 0 <= o.pool
        && o.world.Total() == w.Total() + VmDelta(env)(w, pool, tx)
    {
      MessageConserves(env, w, pool, tx);
    }
  }

  lemma MessagesPayFees(env: Env, a: Address)
    requires Honest(env)
    ensures Conserving(MessageStep(env), BalanceOf(a), VmDeltaOf(env, a), FeeOf(env, a))
  {
    forall w, pool, tx | MessageStep(env)(w, pool, tx).Done?
      ensures var o := MessageStep(env)(w, pool, tx);
        && o.pool + o.used == pool && 0 <= o.pool
        && Get(o.world.balances, a) == Get(w.balances, a) + VmDeltaOf(env, a)(w, pool, tx) + FeeOn(env, a, tx, o.used)
    {
      MessageConserves(env, w, pool, tx);
    }
  }

  ghost function TotalUsed(rs: seq<Receipt>): nat {
    if rs == [] then 0 else rs[0].gasUsed + TotalUsed(rs[1..])
  }

  /** Each receipt's cumulative figure is the running total of gas used up to it. */
  ghost predicate RunningTotals(rs: seq<Receipt>, used: nat) {
    forall i :: 0 <= i < |rs| ==> rs[i].cumulative == used + TotalUsed(rs[..i + 1])
  }

  lemma TotalsCons(x: Receipt, rs: seq<Receipt>, used: nat)
    requires x.cumulative == used + x.gasUsed && RunningTotals(rs, used + x.gasUsed)
    ensures RunningTotals([x] + rs, used)
    ensures TotalUsed([x] + rs) == x.gasUsed + TotalUsed(rs)
  {
    var all := [x] + rs;
    assert all[1..] == rs;
    forall i | 0 <= i < |all| ensures all[i].cumulative == used + TotalUsed(all[..i + 1]) {
      assert all[..i + 1][1..] == rs[..i];
    }
  }

  /** One transaction, then the rest of the block. */
  lemma Unfold(step: Step, finalise: World -> World, w: World, pool: int, used: nat, txs: seq<Tx>)
    requires txs != [] && txs[0].signed && step(w, pool, txs[0]).Done?
    ensures var o := step(w, pool, txs[0]);
      RunBlock(step, finalise, w, pool, used, txs)
      == Prepend([Receipt(used + o.used, o.used, o.failed)],
                 RunBlock(step, finalise, finalise(o.world), o.pool, used + o.used, txs[1..]))
  {
  }

  lemma OneStep(step: Step, finalise: World -> World, w: World, pool: int, used: nat, txs: seq<Tx>, rs: seq<Receipt>)
    returns (rest: BlockOutcome)
    requires txs != [] && txs[0].signed && step(w, pool, txs[0]).Done?
    ensures var o := step(w, pool, txs[0]);
      && rest == RunBlock(step, finalise, finalise(o.world), o.pool, used + o.used, txs[1..])
      && Prepend(rs, RunBlock(step, finalise, w, pool, used, txs))
         == Prepend(rs + [Receipt(used + o.used, o.used, o.failed)], rest)
  {
    var o := step(w, pool, txs[0]);
    rest := RunBlock(step, finalise, finalise(o.world), o.pool, used + o.used, txs[1..]);
    Unfold(step, finalise, w, pool, used, txs);
    PrependOne(rs, Receipt(used + o.used, o.used, o.failed), rest);
  }

  lemma StepConserves(step: Step, m: Measure, delta: (World, int, Tx) -> int, fee: (Tx, nat) -> int, w: World, pool: int, tx: Tx)
    requires Conserving(step, m, delta, fee) && step(w, pool, tx).Done?
    ensures var o := step(w, pool, tx);
      o.pool + o.used == pool && 0 <= o.pool && m(o.world) == m(w) + delta(w, pool, tx) + fee(tx, o.used)
  {
    var d := delta(w, pool, tx);
  }

  /**
   Over a block: what the pool lost is what was used, the receipts' cumulative figures are
   the running totals of gas used, and the measure changes by the steps, the clean-ups and the fees.
   */
  lemma {:induction false} BlockConserves(step: Step, m: Measure, delta: (World, int, Tx) -> int, fee: (Tx, nat) -> int,
                                          finalise: World -> World, w: World, pool: int, used: nat, txs: seq<Tx>)
    requires Conserving(step, m, delta, fee)
    requires RunBlock(step, finalise, w, pool, used, txs).Processed?
    ensures var r := RunBlock(step, finalise, w, pool, used, txs);
      && |r.receipts| == |txs|
      && r.pool + r.used == pool + used
      && (pool >= 0 ==> r.pool >= 0)
      && r.used == used + TotalUsed(r.receipts)
      && RunningTotals(r.receipts, used)
      && m(r.world) == m(w) + BlockDelta(step, m, delta, finalise, w, pool, txs) + FeeSum(fee, r.receipts, txs)
    decreases |txs|
  {
    var r := RunBlock(step, finalise, w, pool, used, txs);
    if txs != [] {
      var o := step(w, pool, txs[0]);
      var rest := RunBlock(step, finalise, finalise(o.world), o.pool, used + o.used, txs[1..]);
      Unfold(step, finalise, w, pool, used, txs);
      StepConserves(step, m, delta, fee, w, pool, txs[0]);
      BlockConserves(step, m, delta, fee, finalise, finalise(o.world), o.pool, used + o.used, txs[1..]);
      var x := Receipt(used + o.used, o.used, o.failed);
      TotalsCons(x, rest.receipts, used);
      assert r.receipts == [x] + rest.receipts && r.receipts[1..] == rest.receipts;
    }
  }

  /** A processed block's every prefix is processed, with the same receipts so far. */
  lemma {:induction false} BlockPrefix(step: Step, finalise: World -> World, w: World, pool: int, used: nat, txs: seq<Tx>, k: nat)
    requires k <= |txs| && RunBlock(step, finalise, w, pool, used, txs).Processed?
    ensures var r, part := RunBlock(step, finalise, w, pool, used, txs), RunBlock(step, finalise, w, pool, used, txs[..k]);
      part.Processed? && |r.receipts| == |txs| && part.receipts == r.receipts[..k]
    decreases |txs|
  {
    if txs != [] {
      var o := step(w, pool, txs[0]);
      Unfold(step, finalise, w, pool, used, txs);
      BlockPrefix(step, finalise, finalise(o.world), o.pool, used + o.used, txs[1..], if k == 0 then 0 else k - 1);
      if k > 0 {
        assert txs[..k][1..] == txs[1..][..k - 1];
        Unfold(step, finalise, w, pool, used, txs[..k]);
      }
    }
  }

  /**
   For the messages of a real block, after every prefix of its transactions: pool and used gas add up to the gas
   limit, the cumulative figures are the prefix sums, and the total balance changed by what the virtual machine
   and the clean-ups did.
   */
  lemma EtherConserved(env: Env, w: World, gasLimit: nat, txs: seq<Tx>, k: nat)
    requires Honest(env) && k <= |txs|
    ensures var r, part := RunBlock(MessageStep(env), env.finalise, w, gasLimit, 0, txs),
                           RunBlock(MessageStep(env), env.finalise, w, gasLimit, 0, txs[..k]);
      r.Processed? ==>
        && part.Processed? && |r.receipts| == |txs| && part.receipts == r.receipts[..k] && RunningTotals(part.receipts, 0)
        && part.pool + part.used == gasLimit && 0 <= part.pool && part.used == TotalUsed(part.receipts)
        && part.world.Total() ==
           w.Total() + BlockDelta(MessageStep(env), TotalBalance(), VmDelta(env), env.finalise, w, gasLimit, txs[..k])
  {
    var step := MessageStep(env);
    MessagesConserve(env);
    if RunBlock(step, env.finalise, w, gasLimit, 0, txs).Processed? {
      BlockPrefix(step, env.finalise, w, gasLimit, 0, txs, k);
      BlockConserves(step, TotalBalance(), VmDelta(env), NoFee(), env.finalise, w, gasLimit, 0, txs[..k]);
      NoFees(RunBlock(step, env.finalise, w, gasLimit, 0, txs[..k]).receipts, txs[..k]);
    }
  }

  lemma {:induction false} NoFees(rs: seq<Receipt>, txs: seq<Tx>)
    requires |rs| == |txs|
    ensures FeeSum(NoFee(), rs, txs) == 0
  {
    if rs != [] {
      NoFees(rs[1..], txs[1..]);
    }
  }

  /** What an account paid in fees, and what the coinbase collected: gas used times price over the receipts. */
  ghost function Collected(rs: seq<Receipt>, txs: seq<Tx>): (v: int)
    requires |rs| == |txs|
  {
    if rs == [] then 0 else rs[0].gasUsed * txs[0].price + Collected(rs[1..], txs[1..])
  }

  ghost function PaidBy(a: Address, rs: seq<Receipt>, txs: seq<Tx>): (v: int)
    requires |rs| == |txs|
  {
    if rs == [] then 0
    else (if txs[0].from == a then rs[0].gasUsed * txs[0].price else 0) + PaidBy(a, rs[1..], txs[1..])
  }

  lemma {:induction false} FeesSplit(env: Env, a: Address, rs: seq<Receipt>, txs: seq<Tx>)
    requires |rs| == |txs|
    ensures FeeSum(FeeOf(env, a), rs, txs) == (if a == env.coinbase then Collected(rs, txs) else 0) - PaidBy(a, rs, txs)
  {
    if rs != [] {
      FeesSplit(env, a, rs[1..], txs[1..]);
    }
  }

  /**
   Over a block the coinbase collects gas used times price of every receipt, each sender pays that of its own
   transactions, and beyond that a balance changes only by what the virtual machine and the clean-ups did to it.
   */
  lemma FeesPaid(env: Env, w: World, gasLimit: nat, txs: seq<Tx>, a: Address)
    requires Honest(env)
    ensures var r := RunBlock(MessageStep(env), env.finalise, w, gasLimit, 0, txs);
      r.Processed? ==>
        && |r.receipts| == |txs|
        && Get(r.world.balances, a) == Get(w.balances, a)
           + BlockDelta(MessageStep(env), BalanceOf(a), VmDeltaOf(env, a), env.finalise, w, gasLimit, txs)
           + (if a == env.coinbase then Collected(r.receipts, txs) else 0) - PaidBy(a, r.receipts, txs)
  {
    var step := MessageStep(env);
    MessagesPayFees(env, a);
    var r := RunBlock(step, env.finalise, w, gasLimit, 0, txs);
    if r.Processed? {
      BlockConserves(step, BalanceOf(a), VmDeltaOf(env, a), FeeOf(env, a), env.finalise, w, gasLimit, 0, txs);
      FeesSplit(env, a, r.receipts, txs);
    }
  }

  /** What is still to come of the block, from a point inside the loop. */
  ghost function Remaining(env: Env, w: World, pool: int, used: nat, txs: seq<Tx>): BlockOutcome
    requires Honest(env)
  {
    RunBlock(MessageStep(env), env.finalise, w, pool, used, txs)
  }

  /**
   Processing in the order of the block, with one pool holding the block's gas limit:
   pool gas plus used gas is the limit throughout, so nothing overflows.
   */
  method Process(env: Env, state: StateDb, gasLimit: Uint64, txs: seq<Tx>) returns (r: BlockOutcome)
    requires Honest(env)
    requires forall i :: 0 <= i < |txs| ==> txs[i].gas <= MAX_UINT64
    modifies state
    ensures r == RunBlock(MessageStep(env), env.finalise, old(state.world), gasLimit, 0, txs)
    ensures r.Processed? ==> state.world == r.world && r.pool + r.used == gasLimit && r.used <= MAX_UINT64
  {
    ghost var whole := Remaining(env, state.world, gasLimit, 0, txs);
    var receipts: seq<Receipt> := [];
    var usedGas: nat := 0;
    var gp := new GasPool();
    var ok := gp.AddGas(gasLimit);
    for i := 0 to |txs|
      invariant gp.gas + usedGas == gasLimit
      invariant whole == Prepend(receipts, Remaining(env, state.world, gp.gas, usedGas, txs[i..]))
    {
      assert txs[i..][1..] == txs[i + 1..];
      var receipt, err := ProcessNext(env, gp, state, usedGas, txs[i], txs[i..], receipts);
      if err.Some? {
        return Rejected(err.value);
      }
      usedGas := receipt.cumulative;
      receipts := receipts + [receipt];
    }
    r := Processed(state.world, gp.gas, receipts, usedGas);
  }

  /** The next transaction of the block and its receipt. */
  method ProcessNext(env: Env, gp: GasPool, state: StateDb, usedGas: nat, tx: Tx, ghost txs: seq<Tx>, ghost rs: seq<Receipt>)
    returns (receipt: Receipt, err: Option<Error>)
    requires Honest(env) && tx.gas <= MAX_UINT64 && txs != [] && txs[0] == tx
    modifies gp, state
    ensures err.Some? ==> Prepend(rs, Remaining(env, old(state.world), old(gp.gas), usedGas, txs)) == Rejected(err.value)
    ensures err.None? ==> receipt.cumulative == usedGas + receipt.gasUsed && gp.gas == old(gp.gas) - receipt.gasUsed
    ensures err.None? ==> Prepend(rs, Remaining(env, old(state.world), old(gp.gas), usedGas, txs))
                          == Prepend(rs + [receipt], Remaining(env, state.world, gp.gas, receipt.cumulative, txs[1..]))
  {
    receipt := Receipt(0, 0, false);
    if !tx.signed {
      return receipt, Some(BadSignature);
    }
    ghost var w, pool := state.world, gp.gas;
    var o := ApplyTransaction(env, tx, gp, state);
    assert o == MessageStep(env)(w, pool, tx);
    if o.Failed? {
      return receipt, Some(o.error);
    }
    ghost var rest := OneStep(MessageStep(env), env.finalise, w, pool, usedGas, txs, rs);
    return Receipt(usedGas + o.used, o.used, o.failed), None;
  }

  /** One message on the shared pool and state, with the clean-up after it. */
  method ApplyTransaction(env: Env, tx: Tx, gp: GasPool, state: StateDb) returns (o: Outcome)
    requires Honest(env) && tx.gas <= MAX_UINT64
    modifies gp, state
    ensures o == ApplyMessage(env, old(state.world), old(gp.gas), tx)
    ensures o.Done? ==> gp.gas == o.pool == old(gp.gas) - o.used && state.world == env.finalise(o.world)
  {
    var st := new StateTransition(env, tx, gp, state);
    o := st.TransitionDb();
    if o.Done? {
      MessageConserves(env, old(state.world), old(gp.gas), tx);
      state.world := env.finalise(state.world);
    }
  }

  ghost function Prepend(rs: seq<Receipt>, o: BlockOutcome): BlockOutcome {
    if o.Rejected? then o else o.(receipts := rs + o.receipts)
  }

  lemma PrependOne(rs: seq<Receipt>, x: Receipt, o: BlockOutcome)
    ensures Prepend(rs, Prepend([x], o)) == Prepend(rs + [x], o)
  {
    if o.Processed? {
      assert rs + ([x] + o.receipts) == rs + [x] + o.receipts;
    }
  }
}
