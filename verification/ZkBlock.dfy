/** The transaction loop of a zk block: one gas pool, a running total of used gas, one receipt per
    transaction. */
module ZkBlock {
  import opened Common
  import opened Balances
  import opened EffectiveGas
  import opened GasPool
  import opened Settlement
  import opened StateTransition

  const FORK_ID7_BLOCK_GAS_LIMIT: U64 := TWO_64 - 1

  /** A transaction with its percentage, intrinsic cost, EVM behaviour, and whether the engine calls
      it a service transaction. */
  datatype Tx = Tx(msg: Message, ep: Percentage, intrinsic: Intrinsic, evm: Evm, service: bool)

  /** Fork rules of the block. */
  datatype Rules = Rules(dragonfruit: bool, elderberry: bool)

  datatype Receipt = Receipt(gasUsed: U64, cumulativeGasUsed: U64, failed: bool)

  /** `receipts` go into the block, `infos` are the copies for the block-info tree. */
  datatype BlockResult =
    | Executed(usedGas: U64, receipts: seq<Receipt>, infos: seq<Receipt>)
    | Failed(index: nat, error: CoreError)

  /** `GetTxContext`: the message a transaction becomes. */
  function TxMessage(rules: Rules, tx: Tx): Message {
    var m := if rules.dragonfruit then tx.msg.(fees := Scale(tx.msg.fees, tx.ep)) else tx.msg;
    var m' := m.(checkNonce := true);
    if m'.fees.feeCap == 0 then m'.(isFree := tx.service) else m'
  }

  function BlockGasLimit(rules: Rules, headerLimit: U64): U64 {
    if rules.elderberry then headerLimit else FORK_ID7_BLOCK_GAS_LIMIT
  }

  /** Gas used by a list of receipts. */
  function SumUsed(rs: seq<Receipt>): nat {
    if rs == [] then 0 else SumUsed(rs[..|rs| - 1]) + rs[|rs| - 1].gasUsed
  }

  ghost predicate GoodTxs(txs: seq<Tx>) {
    forall i :: 0 <= i < |txs| ==> KeepsToGas(txs[i].evm)
  }

  /** Every receipt carries the prefix sum of used gas; before Elderberry the block's own copy is
      overwritten with the transaction's gas alone. */
  ghost predicate ReceiptsOk(rules: Rules, receipts: seq<Receipt>, infos: seq<Receipt>) {
    && |infos| == |receipts|
    && forall i :: 0 <= i < |receipts| ==>
         && infos[i].cumulativeGasUsed == SumUsed(receipts[..i + 1])
         && receipts[i].cumulativeGasUsed == if rules.elderberry then infos[i].cumulativeGasUsed else receipts[i].gasUsed
  }

  /** A transaction that passed every check turned one ledger into the next. */
  ghost predicate Step(env: Env, rules: Rules, tx: Tx, b: Ledger, b': Ledger) {
    && KeepsToGas(tx.evm) && Passed(TxMessage(rules, tx), tx.intrinsic)
    && Checked(env, TxMessage(rules, tx), b, OutcomeIn(env, rules, tx, b))
    && b' == Settle(env, TxMessage(rules, tx), OutcomeIn(env, rules, tx, b))
  }

  /** The checks of a transition on its sender, with the base fee on and the price within the cap. */
  predicate Checked(env: Env, m: Message, b: Ledger, o: Outcome) {
    && FeeCapChecked(env, m)
    && (!env.noBaseFee && m.fees.gasPrice <= m.fees.feeCap ==> WentThrough(env, m, b, o))
  }

  ghost function OutcomeIn(env: Env, rules: Rules, tx: Tx, b: Ledger): Outcome
    requires KeepsToGas(tx.evm) && Passed(TxMessage(rules, tx), tx.intrinsic)
  {
    OutcomeOf(env, TxMessage(rules, tx), tx.intrinsic, tx.evm, b)
  }

  /** A receipt and its block-info copy report what the transaction did; before Elderberry the copy
      passes an unsupported precompile off as success. */
  ghost predicate Reports(env: Env, rules: Rules, tx: Tx, b: Ledger, receipt: Receipt, info: Receipt) {
    && KeepsToGas(tx.evm) && Passed(TxMessage(rules, tx), tx.intrinsic)
    && var o := OutcomeIn(env, rules, tx, b);
    && receipt.gasUsed == info.gasUsed == GasUsed(env, TxMessage(rules, tx), o)
    && (receipt.failed <==> o.err != NoError)
    && (info.failed <==> o.err == OtherError || (o.err == UnsupportedPrecompile && rules.elderberry))
  }

  ghost predicate ReportsAt(env: Env, rules: Rules, txs: seq<Tx>, ledgers: seq<Ledger>,
                            receipts: seq<Receipt>, infos: seq<Receipt>, i: nat) {
    && i < |txs| && i < |ledgers| && i < |receipts| && i < |infos|
    && Reports(env, rules, txs[i], ledgers[i], receipts[i], infos[i])
  }

  ghost predicate AllReport(env: Env, rules: Rules, txs: seq<Tx>, ledgers: seq<Ledger>,
                            receipts: seq<Receipt>, infos: seq<Receipt>) {
    forall i :: 0 <= i < |receipts| ==> ReportsAt(env, rules, txs, ledgers, receipts, infos, i)
  }

  lemma ReportsGrow(env: Env, rules: Rules, txs: seq<Tx>, ledgers: seq<Ledger>, b: Ledger,
                    receipts: seq<Receipt>, infos: seq<Receipt>, receipt: Receipt, info: Receipt)
    requires AllReport(env, rules, txs, ledgers, receipts, infos)
    requires |infos| == |receipts| < |txs| && |ledgers| == |receipts| + 1
    requires Reports(env, rules, txs[|receipts|], ledgers[|receipts|], receipt, info)
    ensures AllReport(env, rules, txs, ledgers + [b], receipts + [receipt], infos + [info])
  {
    forall i | 0 <= i < |receipts| + 1
      ensures ReportsAt(env, rules, txs, ledgers + [b], receipts + [receipt], infos + [info], i)
    {
      assert i < |receipts| ==> ReportsAt(env, rules, txs, ledgers, receipts, infos, i);
    }
  }

  /** The ledgers before, between and after the first `n` transactions. */
  ghost predicate Trace(env: Env, rules: Rules, txs: seq<Tx>, ledgers: seq<Ledger>, n: nat) {
    n <= |txs| && |ledgers| == n + 1 && forall i :: 0 <= i < n ==> StepAt(env, rules, txs, ledgers, i)
  }

  ghost predicate StepAt(env: Env, rules: Rules, txs: seq<Tx>, ledgers: seq<Ledger>, i: nat)
    requires i < |txs| && i + 1 < |ledgers|
  {
    Step(env, rules, txs[i], ledgers[i], ledgers[i + 1])
  }

  lemma TraceGrows(env: Env, rules: Rules, txs: seq<Tx>, ledgers: seq<Ledger>, n: nat, b: Ledger)
    requires n < |txs| && Trace(env, rules, txs, ledgers, n) && Step(env, rules, txs[n], ledgers[n], b)
    ensures Trace(env, rules, txs, ledgers + [b], n + 1)
  {
    forall i | 0 <= i < n + 1
      ensures StepAt(env, rules, txs, ledgers + [b], i)
    {
      assert i < n ==> StepAt(env, rules, txs, ledgers, i);
    }
  }

  // ---------------------------------------------------------------------------------------------
  // What a transaction pays, from its own fields

  /** A price field as charged: from Dragonfruit on times ep + 1, in 256 bits, over 256. */
  function Charge(rules: Rules, tx: Tx, x: U256): nat {
    if rules.dragonfruit then x * (tx.ep + 1) % TWO_256 / 256 else x
  }

  function Price(rules: Rules, tx: Tx): nat {
    Charge(rules, tx, tx.msg.fees.gasPrice)
  }

  function FeeCap(rules: Rules, tx: Tx): nat {
    Charge(rules, tx, tx.msg.fees.feeCap)
  }

  /** Free of the base fee: with nothing to charge, as the engine says, else as the message says. */
  predicate Free(rules: Rules, tx: Tx) {
    if FeeCap(rules, tx) == 0 then tx.service else tx.msg.isFree
  }

  /** The tip per unit of gas: the price before London, then the unscaled tip as far as the cap allows. */
  function Tip(env: Env, rules: Rules, tx: Tx): nat {
    if !env.isLondon then Price(rules, tx)
    else if FeeCap(rules, tx) <= env.baseFee then 0
    else if tx.msg.fees.tip < FeeCap(rules, tx) - env.baseFee then tx.msg.fees.tip
    else FeeCap(rules, tx) - env.baseFee
  }

  /** Gas and blobs of the transaction, paid by its sender before the EVM starts. */
  function Upfront(env: Env, rules: Rules, tx: Tx): nat {
    tx.msg.gas * Price(rules, tx)
    + if env.isCancun && env.blobGasPrice.Some? then env.blobGasPrice.value * tx.msg.blobGas else 0
  }

  /** When the EVM starts, the sender has paid and nobody else. */
  ghost predicate Begins(env: Env, rules: Rules, tx: Tx, b: Ledger, start: Ledger) {
    forall a :: Balance(start, a) == (Balance(b, a) - if a == tx.msg.from then Upfront(env, rules, tx) else 0) % TWO_256
  }

  /** What one account is paid once the transaction used `used` gas; coinciding roles add up. */
  function Earns(env: Env, rules: Rules, tx: Tx, used: nat, a: Address): int
    requires used <= tx.msg.gas
  {
    (if a == tx.msg.from then (tx.msg.gas - used) * Price(rules, tx) else 0)
    + (if a == env.coinbase then used * Tip(env, rules, tx) else 0)
    + (if !Free(rules, tx) && env.isLondon && env.burntContract == Some(a) then used * env.baseFee else 0)
  }

  /** The gas used is what was spent less the capped refund, and every account is paid what it earns. */
  ghost predicate Ends(env: Env, rules: Rules, tx: Tx, o: Outcome, used: nat, b': Ledger) {
    && o.gasLeft <= tx.msg.gas
    && var spent := tx.msg.gas - o.gasLeft;
    && used == spent - Min(spent / (if env.isLondon then 5 else 2), o.refund) <= tx.msg.gas
    && forall a :: Balance(b', a) == (Balance(o.balances, a) + Earns(env, rules, tx, used, a)) % TWO_256
  }

  /** The transaction took one ledger to the next: charged, run, settled. */
  ghost predicate Pays(env: Env, rules: Rules, tx: Tx, b: Ledger, used: nat, b': Ledger) {
    && tx.intrinsic.gas.Some? && tx.intrinsic.gas.value <= tx.msg.gas
    && var start := Bought(env, TxMessage(rules, tx), b);
    && Begins(env, rules, tx, b, start)
    && Ends(env, rules, tx, tx.evm(start, tx.msg.gas - tx.intrinsic.gas.value), used, b')
  }

  lemma BeginsCharged(env: Env, rules: Rules, tx: Tx, b: Ledger)
    ensures Begins(env, rules, tx, b, Bought(env, TxMessage(rules, tx), b))
  {
    forall a
      ensures Balance(Bought(env, TxMessage(rules, tx), b), a)
              == (Balance(b, a) - if a == tx.msg.from then Upfront(env, rules, tx) else 0) % TWO_256
    {
      BoughtAccount(env, TxMessage(rules, tx), b, a);
    }
  }

  lemma EarnsGain(env: Env, rules: Rules, tx: Tx, used: nat, a: Address)
    requires used <= tx.msg.gas
    ensures Earns(env, rules, tx, used, a) == Gain(env, TxMessage(rules, tx), used, a)
  {
  }

  lemma EarnsEach(env: Env, rules: Rules, tx: Tx, b: Ledger, used: nat, b': Ledger, a: Address)
    requires GainsPaid(env, TxMessage(rules, tx), b, used, b')
    ensures used <= tx.msg.gas && Balance(b', a) == (Balance(b, a) + Earns(env, rules, tx, used, a)) % TWO_256
  {
    EarnsGain(env, rules, tx, used, a);
  }

  lemma EndsSettled(env: Env, rules: Rules, tx: Tx, o: Outcome, used: nat, b': Ledger)
    requires Settled(env, TxMessage(rules, tx), o, used, b')
    ensures Ends(env, rules, tx, o, used, b')
  {
    RefundCap(env, TxMessage(rules, tx), o);
    forall a
      ensures Balance(b', a) == (Balance(o.balances, a) + Earns(env, rules, tx, used, a)) % TWO_256
    {
      EarnsEach(env, rules, tx, o.balances, used, b', a);
    }
  }

  /** A settled transaction paid what its own fields say. */
  lemma SettledPays(env: Env, rules: Rules, tx: Tx, b: Ledger, used: nat, b': Ledger)
    requires KeepsToGas(tx.evm) && Passed(TxMessage(rules, tx), tx.intrinsic)
    requires Settled(env, TxMessage(rules, tx), OutcomeIn(env, rules, tx, b), used, b')
    ensures Pays(env, rules, tx, b, used, b')
  {
    BeginsCharged(env, rules, tx, b);
    EndsSettled(env, rules, tx, OutcomeIn(env, rules, tx, b), used, b');
  }

  // ---------------------------------------------------------------------------------------------
  // Which transactions are admitted

  /** Nonces and contracts at one point of a block. */
  datatype World = World(nonces: map<Address, U64>, contracts: set<Address>)

  /** What a transaction may have to pay at most: gas at the cap, the value, the most for its blobs. */
  function MostPaid(env: Env, rules: Rules, tx: Tx): nat {
    tx.msg.gas * FeeCap(rules, tx) + tx.msg.value + if env.isCancun then tx.msg.maxFeePerBlobGas * tx.msg.blobGas else 0
  }

  /** Under London the tip is within the cap, and a cap below the base fee is for free transactions only;
      both are waived for a transaction without fees when the base fee is off. */
  predicate FeesAllowed(env: Env, rules: Rules, tx: Tx) {
    || !env.isLondon || (env.noBaseFee && FeeCap(rules, tx) == 0 && tx.msg.fees.tip == 0)
    || (tx.msg.fees.tip <= FeeCap(rules, tx) && (env.baseFee <= FeeCap(rules, tx) || Free(rules, tx)))
  }

  /** Under Cancun blob gas has a price, within the transaction's limit, that fits, and room in the pool. */
  predicate BlobsAllowed(env: Env, tx: Tx, blobGas: U64) {
    env.isCancun ==>
      && env.blobGasPrice.Some? && env.blobGasPrice.value * tx.msg.blobGas < TWO_256 && tx.msg.blobGas <= blobGas
      && (tx.msg.blobGas == 0 || env.noBaseFee || env.blobGasPrice.value <= tx.msg.maxFeePerBlobGas)
  }

  /** The transaction is allowed at this point: its sender is no contract, is at its nonce and can pay
      for it, its fees and blobs are allowed, and its gas covers the intrinsic cost and is in the pool. */
  predicate Admitted(env: Env, rules: Rules, tx: Tx, w: World, b: Ledger, gas: U64, blobGas: U64) {
    && (if tx.msg.from in w.nonces then w.nonces[tx.msg.from] else 0) == tx.msg.nonce < TWO_64 - 1
    && tx.msg.from !in w.contracts
    && FeesAllowed(env, rules, tx) && BlobsAllowed(env, tx, blobGas)
    && tx.msg.gas * Price(rules, tx) < TWO_256 && MostPaid(env, rules, tx) <= Balance(b, tx.msg.from)
    && tx.intrinsic.gas.Some? && tx.intrinsic.gas.value <= tx.msg.gas <= gas && !tx.intrinsic.initCodeTooLarge
  }

  /** These are the checks of a transition on the message the transaction becomes. */
  lemma AdmittedIffAdmissible(env: Env, rules: Rules, tx: Tx, w: World, b: Ledger, gas: U64, blobGas: U64)
    ensures var m := TxMessage(rules, tx);
            Admitted(env, rules, tx, w, b, gas, blobGas) <==>
              && Admissible(env, m, w.nonces, w.contracts, Balance(b, m.from), gas, blobGas, false)
              && Passed(m, tx.intrinsic) && !tx.intrinsic.initCodeTooLarge
  {
    var m := TxMessage(rules, tx);
    assert FeesAllowed(env, rules, tx) <==> FeeCapChecked(env, m);
    assert MostPaid(env, rules, tx) == BalanceCheck(env, m);
    assert GasVal(m) == tx.msg.gas * Price(rules, tx);
  }

  /** A call moves the nonce of its sender by one; what else the EVM does to nonces is open. */
  predicate NonceMoves(m: Message, before: map<Address, U64>, after: map<Address, U64>) {
    m.to.Some? ==> Nonce(after, m.from) == (Nonce(before, m.from) + 1) % TWO_64
  }

  ghost predicate NonceMovesAt(txs: seq<Tx>, worlds: seq<World>, i: nat)
    requires i < |txs| && i + 1 < |worlds|
  {
    NonceMoves(txs[i].msg, worlds[i].nonces, worlds[i + 1].nonces)
  }

  /** Transaction `i` is admitted in its place: with the gas the earlier ones left of the limit, and
      the empty blob pool of a zk block. */
  ghost predicate AdmittedAt(env: Env, rules: Rules, txs: seq<Tx>, limit: U64, h: History, i: nat) {
    && i < |txs| && i < |h.ledgers| && i < |h.worlds| && i <= |h.receipts|
    && SumUsed(h.receipts[..i]) <= limit
    && Admitted(env, rules, txs[i], h.worlds[i], h.ledgers[i], limit - SumUsed(h.receipts[..i]), 0)
  }

  /** What happened so far in a block: the state at every point, and the receipts. */
  datatype History = History(ledgers: seq<Ledger>, worlds: seq<World>, receipts: seq<Receipt>, infos: seq<Receipt>)

  ghost predicate PaysAt(env: Env, rules: Rules, txs: seq<Tx>, h: History, i: nat) {
    && i < |txs| && i + 1 < |h.ledgers| && i < |h.receipts|
    && Pays(env, rules, txs[i], h.ledgers[i], h.receipts[i].gasUsed, h.ledgers[i + 1])
  }

  /** `n` transactions were each admitted in their place, charged, settled, and reported. */
  ghost predicate Happened(env: Env, rules: Rules, txs: seq<Tx>, limit: U64, h: History, n: nat) {
    && Trace(env, rules, txs, h.ledgers, n)
    && |h.worlds| == n + 1 && |h.receipts| == |h.infos| == n
    && ReceiptsOk(rules, h.receipts, h.infos)
    && AllReport(env, rules, txs, h.ledgers, h.receipts, h.infos)
    && SumUsed(h.receipts) <= limit
    && (forall i :: 0 <= i < n ==> AdmittedAt(env, rules, txs, limit, h, i))
    && (forall i :: 0 <= i < n ==> PaysAt(env, rules, txs, h, i))
    && (forall i :: 0 <= i < n ==> NonceMovesAt(txs, h.worlds, i))
  }

  function Then(h: History, b: Ledger, w: World, receipt: Receipt, info: Receipt): History {
    History(h.ledgers + [b], h.worlds + [w], h.receipts + [receipt], h.infos + [info])
  }

  lemma AdmittedStays(env: Env, rules: Rules, txs: seq<Tx>, limit: U64, h: History, h': History, i: nat)
    requires AdmittedAt(env, rules, txs, limit, h, i)
    requires h.ledgers <= h'.ledgers && h.worlds <= h'.worlds && h.receipts <= h'.receipts
    ensures AdmittedAt(env, rules, txs, limit, h', i)
  {
    assert h'.receipts[..i] == h.receipts[..i];
    assert h'.ledgers[i] == h.ledgers[i] && h'.worlds[i] == h.worlds[i];
  }

  lemma HappenedGrows(env: Env, rules: Rules, txs: seq<Tx>, limit: U64, h: History, n: nat,
                      b: Ledger, w: World, receipt: Receipt, info: Receipt)
    requires n < |txs| && Happened(env, rules, txs, limit, h, n) && AdmittedAt(env, rules, txs, limit, h, n)
    requires Step(env, rules, txs[n], h.ledgers[n], b) && Pays(env, rules, txs[n], h.ledgers[n], receipt.gasUsed, b)
    requires Reports(env, rules, txs[n], h.ledgers[n], receipt, info)
    requires NonceMoves(txs[n].msg, h.worlds[n].nonces, w.nonces)
    requires info.cumulativeGasUsed == SumUsed(h.receipts) + receipt.gasUsed <= limit
    requires receipt.cumulativeGasUsed == if rules.elderberry then info.cumulativeGasUsed else receipt.gasUsed
    ensures Happened(env, rules, txs, limit, Then(h, b, w, receipt, info), n + 1)
    ensures SumUsed(Then(h, b, w, receipt, info).receipts) == info.cumulativeGasUsed
  {
    var h' := Then(h, b, w, receipt, info);
    TraceGrows(env, rules, txs, h.ledgers, n, b);
    ReportsGrow(env, rules, txs, h.ledgers, b, h.receipts, h.infos, receipt, info);
    AppendReceipt(rules, h.receipts, h.infos, receipt, info);
    forall i | 0 <= i < n + 1
      ensures AdmittedAt(env, rules, txs, limit, h', i)
    {
      AdmittedStays(env, rules, txs, limit, h, h', i);
    }
    forall i | 0 <= i < n + 1
      ensures PaysAt(env, rules, txs, h', i)
    {
      assert i < n ==> PaysAt(env, rules, txs, h, i);
    }
    forall i | 0 <= i < n + 1
      ensures NonceMovesAt(txs, h'.worlds, i)
    {
      assert i < n ==> NonceMovesAt(txs, h.worlds, i);
    }
  }

  // ---------------------------------------------------------------------------------------------
  // The loop

  /** The receipt as it goes into the block: before Elderberry without the cumulative sum. */
  function BlockReceipt(rules: Rules, r: Result, usedGas: U64): Receipt
    requires r.Ok?
  {
    Receipt(r.usedGas, if rules.elderberry then usedGas else r.usedGas, r.err != NoError)
  }

  /** Its copy for the block-info tree. */
  function InfoReceipt(rules: Rules, r: Result, usedGas: U64): Receipt
    requires r.Ok?
  {
    Receipt(r.usedGas, usedGas, r.err != NoError && (rules.elderberry || r.err != UnsupportedPrecompile))
  }

  /** `ApplyTransaction_zkevm`. */
  method ApplyTransaction(env: Env, rules: Rules, gp: GasPool, state: WorldState, tx: Tx, usedGas: U64)
      returns (r: Result, usedGas': U64)
    requires KeepsToGas(tx.evm)
    modifies gp, state
    ensures r != Panicked
    ensures r.Ok? <==> old(Admitted(env, rules, tx, World(state.nonces, state.contracts), state.balances, gp.gas, gp.blobGas))
    ensures r.Ok? ==> gp.blobGas == old(gp.blobGas) - if env.isCancun then tx.msg.blobGas else 0
    ensures r.Ok? ==> NonceMoves(tx.msg, old(state.nonces), state.nonces)
    ensures r.Ok? ==>
              && usedGas' == AddGasUsed(usedGas, r.usedGas)
              && r.usedGas <= old(gp.gas) && gp.gas == old(gp.gas) - r.usedGas
              && Step(env, rules, tx, old(state.balances), state.balances)
              && Pays(env, rules, tx, old(state.balances), r.usedGas, state.balances)
              && Reports(env, rules, tx, old(state.balances), BlockReceipt(rules, r, usedGas'), InfoReceipt(rules, r, usedGas'))
  {
    var m := TxMessage(rules, tx);
    AdmittedIffAdmissible(env, rules, tx, World(state.nonces, state.contracts), state.balances, gp.gas, gp.blobGas);
    var st := new Transition(env, m, gp, state);
    r := st.TransitionDb(true, false, tx.intrinsic, tx.evm);
    usedGas' := usedGas;
    if r.Ok? {
      SettledPays(env, rules, tx, old(state.balances), r.usedGas, state.balances);
      assert Checked(env, m, old(state.balances), OutcomeIn(env, rules, tx, old(state.balances)));
      usedGas' := AddGasUsed(usedGas, r.usedGas);
    }
  }

  /** 64-bit addition. */
  function AddGasUsed(a: U64, b: U64): (r: U64)
    ensures a + b < TWO_64 ==> r == a + b
  {
    (a + b) % TWO_64
  }

  /** The transaction loop of `ExecuteBlockEphemerallyZk`, failing on the first rejected transaction. The
      ghost history starts from the state before the block; it ends with the state after it, or with
      that before the first transaction that is not admitted in its place. */
  method ExecuteBlock(env: Env, rules: Rules, headerLimit: U64, txs: seq<Tx>, state: WorldState)
      returns (res: BlockResult, gasLeft: U64, ghost h: History)
    requires GoodTxs(txs)
    modifies state
    ensures h.ledgers != [] && h.ledgers[0] == old(state.balances)
    ensures h.worlds != [] && h.worlds[0] == World(old(state.nonces), old(state.contracts))
    ensures BlockGasLimit(rules, headerLimit) == if rules.elderberry then headerLimit else 0xFFFF_FFFF_FFFF_FFFF
    ensures res.Executed? ==>
              && Happened(env, rules, txs, BlockGasLimit(rules, headerLimit), h, |txs|)
              && h.receipts == res.receipts && h.infos == res.infos
              && res.usedGas == SumUsed(res.receipts)
              && gasLeft + res.usedGas == BlockGasLimit(rules, headerLimit)
              && h.ledgers[|txs|] == state.balances && h.worlds[|txs|] == World(state.nonces, state.contracts)
    ensures res.Failed? ==>
              && res.index < |txs|
              && Happened(env, rules, txs, BlockGasLimit(rules, headerLimit), h, res.index)
              && !AdmittedAt(env, rules, txs, BlockGasLimit(rules, headerLimit), h, res.index)
  {
    var limit := BlockGasLimit(rules, headerLimit);
    var gp := new GasPool();
    var _ := gp.AddGas(limit);
    var usedGas: U64, receipts: seq<Receipt>, infos: seq<Receipt> := 0, [], [];
    h := History([state.balances], [World(state.nonces, state.contracts)], [], []);
    for k := 0 to |txs|
      invariant fresh(gp)
      invariant gp.gas + usedGas == limit && gp.blobGas == 0 && usedGas == SumUsed(receipts)
      invariant h.receipts == receipts && h.infos == infos
      invariant Happened(env, rules, txs, limit, h, k)
      invariant h.ledgers[0] == old(state.balances) && h.worlds[0] == World(old(state.nonces), old(state.contracts))
      invariant h.ledgers[k] == state.balances && h.worlds[k] == World(state.nonces, state.contracts)
    {
      assert h.receipts[..k] == h.receipts;
      var r, used := ApplyTransaction(env, rules, gp, state, txs[k], usedGas);
      if r.Err? {
        return Failed(k, r.error), gp.gas, h;
      }
      usedGas := used;
      var receipt, info := BlockReceipt(rules, r, usedGas), InfoReceipt(rules, r, usedGas);
      HappenedGrows(env, rules, txs, limit, h, k, state.balances, World(state.nonces, state.contracts), receipt, info);
      h := Then(h, state.balances, World(state.nonces, state.contracts), receipt, info);
      receipts, infos := receipts + [receipt], infos + [info];
    }
    res, gasLeft := Executed(usedGas, receipts, infos), gp.gas;
  }

  lemma AppendReceipt(rules: Rules, receipts: seq<Receipt>, infos: seq<Receipt>, fixed: Receipt, info: Receipt)
    requires ReceiptsOk(rules, receipts, infos)
    requires info.cumulativeGasUsed == SumUsed(receipts) + fixed.gasUsed
    requires fixed.cumulativeGasUsed == if rules.elderberry then info.cumulativeGasUsed else fixed.gasUsed
    ensures ReceiptsOk(rules, receipts + [fixed], infos + [info])
    ensures SumUsed(receipts + [fixed]) == SumUsed(receipts) + fixed.gasUsed
  {
    var rs := receipts + [fixed];
    assert rs[..|rs| - 1] == receipts;
    forall i | 0 <= i < |receipts|
      ensures infos[i].cumulativeGasUsed == SumUsed(rs[..i + 1])
    {
      assert rs[..i + 1] == receipts[..i + 1];
    }
    assert rs[..|rs|] == rs;
  }

  // ---------------------------------------------------------------------------------------------
  // Ether over a whole block

  /** The transaction has its EIP-1559 price under London, and one within its cap before. */
  predicate Priced(env: Env, rules: Rules, tx: Tx) {
    var f := TxMessage(rules, tx).fees;
    if env.isLondon then PriceRelation(f, env.baseFee) else f.gasPrice <= f.feeCap
  }

  ghost predicate AllPriced(env: Env, rules: Rules, txs: seq<Tx>) {
    !env.noBaseFee && forall i :: 0 <= i < |txs| ==> Priced(env, rules, txs[i])
  }

  /** What the EVM run of a transaction added to the total. */
  ghost function MintedBy(env: Env, rules: Rules, tx: Tx, b: Ledger): int
    requires KeepsToGas(tx.evm) && Passed(TxMessage(rules, tx), tx.intrinsic)
  {
    Delta(env, TxMessage(rules, tx), b, OutcomeIn(env, rules, tx, b))
  }

  /** Blob fee and uncredited base fee of a transaction. */
  ghost function DestroyedBy(env: Env, rules: Rules, tx: Tx, b: Ledger): int
    requires KeepsToGas(tx.evm) && Passed(TxMessage(rules, tx), tx.intrinsic)
  {
    var m, o := TxMessage(rules, tx), OutcomeIn(env, rules, tx, b);
    BlobFee(env, m) + GasUsed(env, m, o) * Burnt(env, m)
  }

  /** The run of the transaction leaves a supply that fits in 256 bits. */
  ghost predicate SupplyFits(env: Env, rules: Rules, tx: Tx, b: Ledger)
    requires KeepsToGas(tx.evm) && Passed(TxMessage(rules, tx), tx.intrinsic)
  {
    Total(b) + MintedBy(env, rules, tx, b) < TWO_256
  }

  /** One executed transaction: its own checks make up all else that conservation needs. */
  lemma TransactionConservesEther(env: Env, rules: Rules, tx: Tx, b: Ledger, b': Ledger)
    requires !env.noBaseFee && Priced(env, rules, tx)
    requires Step(env, rules, tx, b, b') && SupplyFits(env, rules, tx, b)
    ensures Total(b') == Total(b) + MintedBy(env, rules, tx, b) - DestroyedBy(env, rules, tx, b)
  {
    EtherConserved(env, TxMessage(rules, tx), b, OutcomeIn(env, rules, tx, b));
  }

  ghost predicate FitsAt(env: Env, rules: Rules, txs: seq<Tx>, ledgers: seq<Ledger>, i: nat) {
    && i < |txs| && i < |ledgers| && KeepsToGas(txs[i].evm) && Passed(TxMessage(rules, txs[i]), txs[i].intrinsic)
    && SupplyFits(env, rules, txs[i], ledgers[i])
  }

  ghost predicate AllFit(env: Env, rules: Rules, txs: seq<Tx>, ledgers: seq<Ledger>, n: nat) {
    forall i :: 0 <= i < n ==> FitsAt(env, rules, txs, ledgers, i)
  }

  /** What the first `n` transactions minted less what they destroyed. */
  ghost function Net(env: Env, rules: Rules, txs: seq<Tx>, ledgers: seq<Ledger>, n: nat): int
    requires AllFit(env, rules, txs, ledgers, n)
  {
    if n == 0 then 0
    else
      assert FitsAt(env, rules, txs, ledgers, n - 1);
      Net(env, rules, txs, ledgers, n - 1)
      + MintedBy(env, rules, txs[n - 1], ledgers[n - 1]) - DestroyedBy(env, rules, txs[n - 1], ledgers[n - 1])
  }

  /** After `n` transactions every unit of ether is accounted for. */
  ghost predicate Accounted(env: Env, rules: Rules, txs: seq<Tx>, ledgers: seq<Ledger>, n: nat) {
    && n < |ledgers|
    && AllFit(env, rules, txs, ledgers, n)
    && Total(ledgers[n]) == Total(ledgers[0]) + Net(env, rules, txs, ledgers, n)
  }

  lemma AccountedStep(env: Env, rules: Rules, txs: seq<Tx>, ledgers: seq<Ledger>, i: nat)
    requires i < |txs| && Trace(env, rules, txs, ledgers, |txs|) && AllPriced(env, rules, txs)
    requires AllFit(env, rules, txs, ledgers, i + 1) && Accounted(env, rules, txs, ledgers, i)
    ensures Accounted(env, rules, txs, ledgers, i + 1)
  {
    assert StepAt(env, rules, txs, ledgers, i) && FitsAt(env, rules, txs, ledgers, i);
    assert Priced(env, rules, txs[i]);
    TransactionConservesEther(env, rules, txs[i], ledgers[i], ledgers[i + 1]);
  }

  /** Over any block of well-priced transactions every unit of ether is accounted for: the total
      moves by what the EVM runs minted, minus blob fees and burnt base fees, and by nothing else. */
  lemma {:induction false} BlockConservesEther(env: Env, rules: Rules, txs: seq<Tx>, ledgers: seq<Ledger>, n: nat)
    requires n <= |txs| && Trace(env, rules, txs, ledgers, |txs|) && AllPriced(env, rules, txs)
    requires AllFit(env, rules, txs, ledgers, n)
    ensures Accounted(env, rules, txs, ledgers, n)
  {
    if n > 0 {
      BlockConservesEther(env, rules, txs, ledgers, n - 1);
      AccountedStep(env, rules, txs, ledgers, n - 1);
    }
  }

  // ---------------------------------------------------------------------------------------------
  // EVM runs that create no ether

  ghost predicate MintsNothing(evm: Evm) {
    forall b, g :: Total(evm(b, g).balances) <= Total(b)
  }

  ghost predicate NoneMints(txs: seq<Tx>) {
    forall i :: 0 <= i < |txs| ==> MintsNothing(txs[i].evm)
  }

  lemma SupplyKeepsFitting(env: Env, rules: Rules, tx: Tx, b: Ledger, b': Ledger)
    requires !env.noBaseFee && Priced(env, rules, tx) && MintsNothing(tx.evm)
    requires Step(env, rules, tx, b, b') && Total(b) < TWO_256
    ensures SupplyFits(env, rules, tx, b) && Total(b') <= Total(b)
  {
    TransactionConservesEther(env, rules, tx, b, b');
    MulMono(0, GasUsed(env, TxMessage(rules, tx), OutcomeIn(env, rules, tx, b)), Burnt(env, TxMessage(rules, tx)));
  }

  /** If no run mints and the supply fits at the start, it fits throughout. */
  lemma {:induction false} SupplyFitsThroughout(env: Env, rules: Rules, txs: seq<Tx>, ledgers: seq<Ledger>, n: nat)
    requires n <= |txs| && Trace(env, rules, txs, ledgers, |txs|) && AllPriced(env, rules, txs) && NoneMints(txs)
    requires Total(ledgers[0]) < TWO_256
    ensures AllFit(env, rules, txs, ledgers, n) && Total(ledgers[n]) <= Total(ledgers[0])
  {
    if n > 0 {
      var i := n - 1;
      SupplyFitsThroughout(env, rules, txs, ledgers, i);
      assert StepAt(env, rules, txs, ledgers, i) && Priced(env, rules, txs[i]) && MintsNothing(txs[i].evm);
      SupplyKeepsFitting(env, rules, txs[i], ledgers[i], ledgers[n]);
      assert FitsAt(env, rules, txs, ledgers, i);
    }
  }

  /** Executing a block of transactions with EIP-1559 prices whose EVM runs create no ether: the total
      changes by exactly what the runs did, minus blob fees, minus burnt base fees. */
  method ExecuteConserving(env: Env, rules: Rules, headerLimit: U64, txs: seq<Tx>, state: WorldState)
      returns (res: BlockResult, ghost ledgers: seq<Ledger>)
    requires GoodTxs(txs) && AllPriced(env, rules, txs) && NoneMints(txs) && Total(state.balances) < TWO_256
    modifies state
    ensures res.Executed? ==>
              && Trace(env, rules, txs, ledgers, |txs|) && ledgers[0] == old(state.balances)
              && AllFit(env, rules, txs, ledgers, |txs|)
              && Total(state.balances) == Total(old(state.balances)) + Net(env, rules, txs, ledgers, |txs|)
              && Total(state.balances) <= Total(old(state.balances))
  {
    var gasLeft;
    ghost var h;
    res, gasLeft, h := ExecuteBlock(env, rules, headerLimit, txs, state);
    ledgers := h.ledgers;
    if res.Executed? {
      SupplyFitsThroughout(env, rules, txs, ledgers, |txs|);
      BlockConservesEther(env, rules, txs, ledgers, |txs|);
    }
  }
}
