/** Applying one message: buying gas, the checks before it, the EVM run, refund, tip and burn. */
module StateTransition {
  import opened Common
  import opened Balances
  import opened EffectiveGas
  import opened GasPool
  import opened Settlement

  datatype CoreError =
    | ErrNonceTooHigh | ErrNonceTooLow | ErrNonceMax | ErrSenderNoEOA
    | ErrTipAboveFeeCap | ErrFeeCapTooLow | ErrInternalFailure | ErrMaxFeePerBlobGas
    | ErrInsufficientFunds | ErrBlobGasLimitReached | ErrGasLimitReached
    | ErrGasUintOverflow | ErrIntrinsicGas | ErrMaxInitCodeSizeExceeded

  datatype Result = Ok(usedGas: U64, err: VmError) | Err(error: CoreError) | Panicked

  /** An EVM: from balances and gas to an outcome. */
  type Evm = (Ledger, U64) -> Outcome

  ghost predicate KeepsToGas(evm: Evm) {
    forall b, g :: evm(b, g).gasLeft <= g
  }

  /** What the message costs before it runs; None is an overflow. */
  datatype Intrinsic = Intrinsic(gas: Option<U64>, initCodeTooLarge: bool)

  class WorldState {
    var balances: Ledger
    var nonces: map<Address, U64>
    var contracts: set<Address>

    constructor (balances: Ledger, nonces: map<Address, U64>, contracts: set<Address>)
      ensures this.balances == balances && this.nonces == nonces && this.contracts == contracts
    {
      this.balances, this.nonces, this.contracts := balances, nonces, contracts;
    }
  }

  function Nonce(nonces: map<Address, U64>, a: Address): U64 {
    if a in nonces then nonces[a] else 0
  }

  /** `CheckEip1559TxGasFeeCap`. */
  function CheckFeeCap(f: Fees, baseFee: U256, isFree: bool): (err: Option<CoreError>)
    ensures err == None <==> f.tip <= f.feeCap && (baseFee <= f.feeCap || isFree)
  {
    if f.feeCap < f.tip then Some(ErrTipAboveFeeCap)
    else if f.feeCap < baseFee && !isFree then Some(ErrFeeCapTooLow)
    else None
  }

  function CheckSender(m: Message, nonces: map<Address, U64>, contracts: set<Address>): (err: Option<CoreError>)
    ensures err == None <==> !m.checkNonce || (Nonce(nonces, m.from) == m.nonce < TWO_64 - 1 && m.from !in contracts)
    ensures err == Some(ErrNonceTooHigh) <==> m.checkNonce && m.nonce > Nonce(nonces, m.from)
    ensures err == Some(ErrNonceTooLow) <==> m.checkNonce && m.nonce < Nonce(nonces, m.from)
    ensures err == Some(ErrNonceMax) <==> m.checkNonce && m.nonce == Nonce(nonces, m.from) == TWO_64 - 1
  {
    if !m.checkNonce then None
    else if Nonce(nonces, m.from) < m.nonce then Some(ErrNonceTooHigh)
    else if Nonce(nonces, m.from) > m.nonce then Some(ErrNonceTooLow)
    else if (Nonce(nonces, m.from) + 1) % TWO_64 < Nonce(nonces, m.from) then Some(ErrNonceMax)
    else if m.from in contracts then Some(ErrSenderNoEOA)
    else None
  }

  /** Intrinsic gas is computable and covered. */
  predicate Passed(m: Message, intrinsic: Intrinsic) {
    intrinsic.gas.Some? && intrinsic.gas.value <= m.gas
  }

  /** The fee-cap check of London, skipped for calls without fees when the base fee is off. */
  predicate FeeCapChecked(env: Env, m: Message) {
    env.isLondon && !(env.noBaseFee && m.fees.feeCap == 0 && m.fees.tip == 0) ==>
      CheckFeeCap(m.fees, env.baseFee, m.isFree) == None
  }

  predicate BlobPriceChecked(env: Env, m: Message) {
    m.blobGas > 0 && env.isCancun ==>
      env.blobGasPrice.Some? && (env.noBaseFee || env.blobGasPrice.value <= m.maxFeePerBlobGas)
  }

  function BlobGasTaken(env: Env, m: Message): U64 {
    if env.isCancun then m.blobGas else 0
  }

  /** Gas and blobs can be bought: nothing overflows, the blob pool has room and, unless bailing out,
      the sender owns what the message may cost and the gas pool has room. */
  predicate CanBuy(env: Env, m: Message, balance: U256, gas: U64, blobGas: U64, bailout: bool) {
    && GasVal(m) < TWO_256
    && (env.isCancun ==> env.blobGasPrice.Some? && BlobFee(env, m) < TWO_256 && m.blobGas <= blobGas)
    && BalanceCheck(env, m) < TWO_256
    && (bailout || (BalanceCheck(env, m) <= balance && m.gas <= gas))
  }

  /** Every check made before any gas is paid. */
  predicate Admissible(env: Env, m: Message, nonces: map<Address, U64>, contracts: set<Address>,
                       balance: U256, gas: U64, blobGas: U64, bailout: bool) {
    && CheckSender(m, nonces, contracts) == None
    && FeeCapChecked(env, m)
    && BlobPriceChecked(env, m)
    && CanBuy(env, m, balance, gas, blobGas, bailout)
  }

  /** Balances and pools once gas is bought; only a bailout leaves the sender or the gas pool uncharged. */
  predicate Charged(env: Env, m: Message, b: Ledger, gas: U64, blobGas: U64, b': Ledger, gas': U64, blobGas': U64) {
    && b' == (if BalanceCheck(env, m) <= Balance(b, m.from) then Bought(env, m, b) else b)
    && gas' == (if m.gas <= gas then gas - m.gas else gas)
    && blobGas' == blobGas - BlobGasTaken(env, m)
  }

  /** The EVM outcome of a message that started from balances `b`. */
  ghost function OutcomeOf(env: Env, m: Message, intrinsic: Intrinsic, evm: Evm, b: Ledger): Outcome
    requires Passed(m, intrinsic)
  {
    evm(Bought(env, m, b), m.gas - intrinsic.gas.value)
  }

  /** Sum of two products or words; None as soon as a part or the sum exceeds 256 bits. */
  function AddOverflow(a: nat, b: nat): (r: Option<U256>)
    ensures r == None <==> a + b >= TWO_256
  {
    if a >= TWO_256 || b >= TWO_256 || a + b >= TWO_256 then None else Some(a + b)
  }

  /** Every account has its balance after the EVM plus its gain from the settlement, in 256 bits. */
  ghost predicate GainsPaid(env: Env, m: Message, b: Ledger, used: nat, b': Ledger) {
    used <= m.gas && forall a :: Balance(b', a) == (Balance(b, a) + Gain(env, m, used, a)) % TWO_256
  }

  /** The same without the refund to the sender. */
  ghost predicate FeesPaid(env: Env, m: Message, b: Ledger, used: nat, b': Ledger) {
    forall a :: Balance(b', a) == (Balance(b, a) + Fee(env, m, used, a)) % TWO_256
  }

  /** The message used `used` gas and was settled: unused gas went back to the sender. */
  ghost predicate Settled(env: Env, m: Message, o: Outcome, used: nat, b': Ledger) {
    && o.gasLeft <= m.gas && used == GasUsed(env, m, o) && b' == Settle(env, m, o)
    && GainsPaid(env, m, o.balances, used, b')
  }

  /** The message used `used` gas and paid its fees, and unused gas was kept. */
  ghost predicate SettledUnrefunded(env: Env, m: Message, o: Outcome, used: nat, b': Ledger) {
    && o.gasLeft <= m.gas && used == m.gas - o.gasLeft && b' == PayProducer(env, m, o.balances, Credits(env, m, used))
    && FeesPaid(env, m, o.balances, used, b')
  }

  lemma SettledGains(env: Env, m: Message, o: Outcome)
    requires o.gasLeft <= m.gas
    ensures GainsPaid(env, m, o.balances, GasUsed(env, m, o), Settle(env, m, o))
  {
    forall a
      ensures Balance(Settle(env, m, o), a) == (Balance(o.balances, a) + Gain(env, m, GasUsed(env, m, o), a)) % TWO_256
    {
      SettledAccount(env, m, o, a);
    }
  }

  lemma ProducerFees(env: Env, m: Message, b: Ledger, used: nat)
    requires used <= m.gas
    ensures FeesPaid(env, m, b, used, PayProducer(env, m, b, Credits(env, m, used)))
  {
    forall a
      ensures Balance(PayProducer(env, m, b, Credits(env, m, used)), a) == (Balance(b, a) + Fee(env, m, used, a)) % TWO_256
    {
      ProducerPaid(env, m, b, used, a);
    }
  }

  class Transition {
    const env: Env
    const msg: Message
    const gp: GasPool
    const state: WorldState
    var gasRemaining: U64
    var initialGas: U64

    constructor (env: Env, msg: Message, gp: GasPool, state: WorldState)
      ensures this.env == env && this.msg == msg && this.gp == gp && this.state == state
      ensures gasRemaining == 0 && initialGas == 0
    {
      this.env, this.msg, this.gp, this.state, gasRemaining, initialGas := env, msg, gp, state, 0, 0;
    }

    /** Reserve blob gas and price it. */
    method BuyBlobGas() returns (err: Option<CoreError>, blobGasVal: U256)
      modifies gp`blobGas
      ensures err == None <==>
                env.isCancun ==> env.blobGasPrice.Some? && BlobFee(env, msg) < TWO_256 && msg.blobGas <= old(gp.blobGas)
      ensures err == None ==> blobGasVal == BlobFee(env, msg)
      ensures gp.blobGas == old(gp.blobGas) - if err == None then BlobGasTaken(env, msg) else 0
    {
      blobGasVal := 0;
      if env.isCancun {
        if env.blobGasPrice.None? {
          return Some(ErrInternalFailure), 0;
        }
        if env.blobGasPrice.value * msg.blobGas >= TWO_256 {
          return Some(ErrInsufficientFunds), 0;
        }
        blobGasVal := env.blobGasPrice.value * msg.blobGas;
        var ok := gp.SubBlobGas(msg.blobGas);
        if !ok {
          return Some(ErrBlobGasLimitReached), 0;
        }
      }
      err := None;
    }

    /** gas * feeCap + value + most blob cost, with overflow at any step an error. */
    method RequiredBalance() returns (want: Option<U256>)
      ensures want == if BalanceCheck(env, msg) < TWO_256 then Some(BalanceCheck(env, msg)) else None
    {
      want := AddOverflow(msg.gas * msg.fees.feeCap, msg.value);
      if want != None && env.isCancun {
        want := AddOverflow(want.value, msg.maxFeePerBlobGas * msg.blobGas);
      }
    }

    /** On failure nothing is charged, except that blob gas stays taken if it was. */
    method BuyGas(gasBailout: bool) returns (err: Option<CoreError>)
      requires gasRemaining == 0
      modifies this, gp, state`balances
      ensures err == None <==> old(CanBuy(env, msg, Balance(state.balances, msg.from), gp.gas, gp.blobGas, gasBailout))
      ensures err == None ==> gasRemaining == initialGas == msg.gas
      ensures err == None ==>
                Charged(env, msg, old(state.balances), old(gp.gas), old(gp.blobGas), state.balances, gp.gas, gp.blobGas)
      ensures err != None ==> state.balances == old(state.balances) && gp.gas == old(gp.gas)
      ensures err != None ==>
                gp.blobGas == old(gp.blobGas) || gp.blobGas == old(gp.blobGas) - BlobGasTaken(env, msg)
    {
      var gasVal := GasVal(msg);
      if gasVal >= TWO_256 {
        return Some(ErrInsufficientFunds);
      }
      var blobErr, blobGasVal := BuyBlobGas();
      if blobErr != None {
        return blobErr;
      }
      var want := RequiredBalance();
      if want == None {
        return Some(ErrInsufficientFunds);
      }
      var subBalance := Balance(state.balances, msg.from) >= want.value;
      if !subBalance && !gasBailout {
        return Some(ErrInsufficientFunds);
      }
      var ok := gp.SubGas(msg.gas);
      if !ok && !gasBailout {
        return Some(ErrGasLimitReached);
      }
      gasRemaining, initialGas := msg.gas, msg.gas;
      if subBalance {
        state.balances := SubBalance(state.balances, msg.from, gasVal);
        state.balances := SubBalance(state.balances, msg.from, blobGasVal);
      }
      err := None;
    }

    method PreCheck(gasBailout: bool) returns (err: Option<CoreError>)
      requires gasRemaining == 0
      modifies this, gp, state`balances
      ensures err == None <==> old(Admissible(env, msg, state.nonces, state.contracts, Balance(state.balances, msg.from),
                                              gp.gas, gp.blobGas, gasBailout))
      ensures err == None ==> gasRemaining == initialGas == msg.gas
      ensures err == None ==>
                Charged(env, msg, old(state.balances), old(gp.gas), old(gp.blobGas), state.balances, gp.gas, gp.blobGas)
      ensures err != None ==> state.balances == old(state.balances) && gp.gas == old(gp.gas)
      ensures err != None ==>
                gp.blobGas == old(gp.blobGas) || gp.blobGas == old(gp.blobGas) - BlobGasTaken(env, msg)
    {
      err := CheckSender(msg, state.nonces, state.contracts);
      if err != None {
        return;
      }
      if env.isLondon {
        var skipCheck := env.noBaseFee && msg.fees.feeCap == 0 && msg.fees.tip == 0;
        if !skipCheck {
          err := CheckFeeCap(msg.fees, env.baseFee, msg.isFree);
          if err != None {
            return;
          }
        }
      }
      if msg.blobGas > 0 && env.isCancun {
        if env.blobGasPrice.None? {
          return Some(ErrInternalFailure);
        }
        if !env.noBaseFee && env.blobGasPrice.value > msg.maxFeePerBlobGas {
          return Some(ErrMaxFeePerBlobGas);
        }
      }
      err := BuyGas(gasBailout);
    }

    /** Cap the refund, pay the sender back for unused gas and return it to the pool. `ok` is false
        if the pool panicked. */
    method RefundGas(refundQuotient: nat, refund: U64) returns (ok: bool)
      requires 0 < refundQuotient && gasRemaining <= initialGas
      modifies `gasRemaining, state`balances, gp`gas
      ensures gasRemaining == old(gasRemaining) + Min((initialGas - old(gasRemaining)) / refundQuotient, refund)
      ensures gasRemaining <= initialGas
      ensures state.balances == AddBalance(old(state.balances), msg.from, Wrap(gasRemaining * msg.fees.gasPrice))
      ensures ok <==> old(gp.gas) + gasRemaining < TWO_64
      ensures ok ==> gp.gas == old(gp.gas) + gasRemaining
    {
      var cap := (initialGas - gasRemaining) / refundQuotient;
      DivAtMost(initialGas - gasRemaining, refundQuotient);
      gasRemaining := gasRemaining + Min(cap, refund);
      state.balances := AddBalance(state.balances, msg.from, Wrap(gasRemaining * msg.fees.gasPrice));
      ok := gp.AddGas(gasRemaining);
    }

    /** Tip to the block producer and, for paying messages under London, base fee to the burn contract. */
    method PayFees()
      requires gasRemaining <= initialGas == msg.gas
      modifies state`balances
      ensures var c := Credits(env, msg, initialGas - gasRemaining);
              state.balances == PayProducer(env, msg, old(state.balances), c)
      ensures FeesPaid(env, msg, old(state.balances), initialGas - gasRemaining, state.balances)
    {
      var c := Credits(env, msg, initialGas - gasRemaining);
      state.balances := AddBalance(state.balances, env.coinbase, Wrap(c.1));
      if Burns(env, msg) {
        state.balances := AddBalance(state.balances, env.burntContract.value, Wrap(c.2));
      }
      ProducerFees(env, msg, old(state.balances), initialGas - gasRemaining);
    }

    /** The gas left for the EVM, once intrinsic gas is paid. */
    method PayIntrinsicGas(intrinsic: Intrinsic) returns (err: Option<CoreError>)
      modifies `gasRemaining
      ensures err == None <==> intrinsic.gas.Some? && intrinsic.gas.value <= old(gasRemaining) && !intrinsic.initCodeTooLarge
      ensures err == None ==> gasRemaining == old(gasRemaining) - intrinsic.gas.value
    {
      if intrinsic.gas == None {
        return Some(ErrGasUintOverflow);
      }
      if gasRemaining < intrinsic.gas.value {
        return Some(ErrIntrinsicGas);
      }
      gasRemaining := gasRemaining - intrinsic.gas.value;
      if intrinsic.initCodeTooLarge {
        return Some(ErrMaxInitCodeSizeExceeded);
      }
      err := None;
    }

    /** After the EVM: refund, tip, burn. */
    method Finish(refunds: bool, o: Outcome) returns (ok: bool)
      requires initialGas == msg.gas && gasRemaining == o.gasLeft <= msg.gas && state.balances == o.balances
      modifies `gasRemaining, state`balances, gp`gas
      ensures gasRemaining <= msg.gas
      ensures ok && refunds ==>
                && Settled(env, msg, o, msg.gas - gasRemaining, state.balances)
                && gp.gas == old(gp.gas) + gasRemaining
      ensures !refunds ==>
                && ok && gp.gas == old(gp.gas)
                && SettledUnrefunded(env, msg, o, msg.gas - gasRemaining, state.balances)
      ensures old(gp.gas) + msg.gas < TWO_64 ==> ok
    {
      ok := true;
      if refunds {
        ok := RefundGas(Quotient(env), o.refund);
        if !ok {
          return;
        }
      }
      PayFees();
      SettledGains(env, msg, o);
    }

    /** Everything before the EVM runs. */
    method Prepare(gasBailout: bool, intrinsic: Intrinsic) returns (err: Option<CoreError>)
      requires gasRemaining == 0
      modifies this, gp, state
      ensures err == None <==>
                && old(Admissible(env, msg, state.nonces, state.contracts, Balance(state.balances, msg.from),
                                  gp.gas, gp.blobGas, gasBailout))
                && Passed(msg, intrinsic) && !intrinsic.initCodeTooLarge
      ensures err == None ==> initialGas == msg.gas && gasRemaining == msg.gas - intrinsic.gas.value
      ensures err == None ==>
                Charged(env, msg, old(state.balances), old(gp.gas), old(gp.blobGas), state.balances, gp.gas, gp.blobGas)
      ensures state.contracts == old(state.contracts)
      ensures state.nonces == if err == None && msg.to.Some?
                              then old(state.nonces)[msg.from := (old(Nonce(state.nonces, msg.from)) + 1) % TWO_64]
                              else old(state.nonces)
    {
      err := PreCheck(gasBailout);
      if err == None {
        err := PayIntrinsicGas(intrinsic);
        if err == None && msg.to.Some? {
          state.nonces := state.nonces[msg.from := (Nonce(state.nonces, msg.from) + 1) % TWO_64];
        }
      }
    }

    /** What the EVM does besides balances: it may create contracts and move nonces, but a call does
        not move the nonce of the sender. */
    method RunEvm(evm: Evm) returns (o: Outcome)
      modifies `gasRemaining, state
      ensures o == evm(old(state.balances), old(gasRemaining))
      ensures state.balances == o.balances && gasRemaining == o.gasLeft
      ensures msg.to.Some? ==> Nonce(state.nonces, msg.from) == old(Nonce(state.nonces, msg.from))
    {
      o := evm(state.balances, gasRemaining);
      state.balances, gasRemaining := o.balances, o.gasLeft;
      var nonces: map<Address, U64>, contracts: set<Address> := *, *;
      if msg.to.None? || Nonce(nonces, msg.from) == Nonce(state.nonces, msg.from) {
        state.nonces := nonces;
      }
      state.contracts := contracts;
    }

    /** `TransitionDb`. */
    method TransitionDb(refunds: bool, gasBailout: bool, intrinsic: Intrinsic, evm: Evm) returns (r: Result)
      requires gasRemaining == 0 && KeepsToGas(evm)
      modifies this, gp, state
      ensures r.Ok? ==> Passed(msg, intrinsic)
      ensures !gasBailout ==>
                (r.Ok? <==> && old(Admissible(env, msg, state.nonces, state.contracts, Balance(state.balances, msg.from),
                                              gp.gas, gp.blobGas, false))
                            && Passed(msg, intrinsic) && !intrinsic.initCodeTooLarge)
      ensures r.Ok? && !gasBailout && refunds ==>
                var o := OutcomeOf(env, msg, intrinsic, evm, old(state.balances));
                && Settled(env, msg, o, r.usedGas, state.balances) && r.err == o.err
                && gp.gas == old(gp.gas) - r.usedGas
      ensures r.Ok? && !gasBailout && !refunds ==>
                var o := OutcomeOf(env, msg, intrinsic, evm, old(state.balances));
                && SettledUnrefunded(env, msg, o, r.usedGas, state.balances) && r.err == o.err
                && gp.gas == old(gp.gas) - msg.gas
      ensures r.Ok? ==> gp.blobGas == old(gp.blobGas) - BlobGasTaken(env, msg)
      ensures !gasBailout ==> r != Panicked
      ensures r.Err? ==> state.nonces == old(state.nonces) && state.contracts == old(state.contracts)
      ensures r.Ok? && msg.to.Some? ==>
                Nonce(state.nonces, msg.from) == (old(Nonce(state.nonces, msg.from)) + 1) % TWO_64
    {
      var err := Prepare(gasBailout, intrinsic);
      if err != None {
        return Err(err.value);
      }
      var o := RunEvm(evm);
      var ok := Finish(refunds, o);
      if !ok {
        return Panicked;
      }
      r := Ok(initialGas - gasRemaining, o.err);
    }
  }

  /** A message that passed every check, with its price within its cap, went through: the sender is
      solvent and the prices are within the caps. */
  lemma AdmissibleWentThrough(env: Env, m: Message, nonces: map<Address, U64>, contracts: set<Address>,
                              b: Ledger, gas: U64, blobGas: U64, o: Outcome)
    requires Admissible(env, m, nonces, contracts, Balance(b, m.from), gas, blobGas, false)
    requires !env.noBaseFee && m.fees.gasPrice <= m.fees.feeCap && o.gasLeft <= m.gas
    ensures WentThrough(env, m, b, o)
    ensures env.isLondon ==> m.fees.tip <= m.fees.feeCap && (m.isFree || env.baseFee <= m.fees.feeCap)
  {
  }

  // ---------------------------------------------------------------------------------------------
  // Conservation, in terms of what is known before the run

  /** For every message that costs intrinsic gas and every EVM: a run conserves ether if and only if
      the price splits into tip and base fee. */
  lemma RunConservesIffPriceSplits(env: Env, m: Message, intrinsic: Intrinsic, evm: Evm, b: Ledger)
    requires KeepsToGas(evm) && Passed(m, intrinsic) && intrinsic.gas.value > 0
    requires WentThrough(env, m, b, OutcomeOf(env, m, intrinsic, evm, b))
    requires NoWrap(env, m, OutcomeOf(env, m, intrinsic, evm, b))
    ensures Conserved(env, m, b, OutcomeOf(env, m, intrinsic, evm, b)) <==> PriceSplits(env, m)
  {
    ConservedIffPriceSplits(env, m, b, OutcomeOf(env, m, intrinsic, evm, b));
  }

  /** Scaling leaves the tip alone, so under London a scaled single-price message is rejected for its
      tip, unless the percentage is full or the price is 0. */
  lemma ScaledLegacyRejected(price: U256, ep: Percentage, baseFee: U256, isFree: bool)
    ensures CheckFeeCap(Scale(LegacyFees(price), ep), baseFee, isFree) == Some(ErrTipAboveFeeCap)
            <==> price != 0 && !(ep == 255 && Fits(price, ep))
  {
    NonIncreasing(price, ep);
    FixedPoints(price, ep);
  }

  /** Prices of a dynamic-fee message scaled by half: it passes the fee-cap check, and the unscaled tip
      exceeds the scaled price. */
  lemma ScaledDynamicPrices(env: Env, m: Message)
    requires env.isLondon && env.baseFee == 50 && m.fees == Scale(DynamicFees(1000, 100, 50), 127)
    ensures PriceRelation(DynamicFees(1000, 100, 50), 50)
    ensures CheckFeeCap(m.fees, env.baseFee, m.isFree) == None
    ensures !PriceSplits(env, m) && BurnRate(env, m) < 0
    ensures m.fees.gasPrice <= m.fees.feeCap
  {
  }

  /** Every run of such a message that spends gas mints ether. */
  lemma ScaledDynamicMessageMints(env: Env, m: Message, b: Ledger, o: Outcome)
    requires env.isLondon && env.baseFee == 50 && m.fees == Scale(DynamicFees(1000, 100, 50), 127)
    requires WentThrough(env, m, b, o) && NoWrap(env, m, o) && o.gasLeft < m.gas
    ensures CheckFeeCap(m.fees, env.baseFee, m.isFree) == None
    ensures Total(Settle(env, m, o)) > Total(b) + Delta(env, m, b, o) - BlobFee(env, m)
  {
    ScaledDynamicPrices(env, m);
    MintsIffPriceBelowCredits(env, m, b, o);
  }

  /** Such runs exist for every funded sender: let the EVM use up the gas and move nothing, and there is
      more ether afterwards than before. */
  lemma MintingRun(env: Env, m: Message, b: Ledger) returns (o: Outcome)
    requires env.isLondon && env.baseFee == 50 && !env.isCancun
    requires m.fees == Scale(DynamicFees(1000, 100, 50), 127) && m.gas > 0
    requires BalanceCheck(env, m) <= Balance(b, m.from) && Total(b) + m.gas * 150 < TWO_256
    ensures o.balances == Bought(env, m, b) && WentThrough(env, m, b, o)
    ensures Total(Settle(env, m, o)) > Total(b)
  {
    o := Outcome(Bought(env, m, b), 0, 0, NoError);
    ScaledDynamicPrices(env, m);
    Solvent(env, m, b);
    CreditsWithin(env, m, o);
    ScaledDynamicMessageMints(env, m, b, o);
  }

  lemma CreditsWithin(env: Env, m: Message, o: Outcome)
    requires env.isLondon && env.baseFee == 50 && m.fees == Scale(DynamicFees(1000, 100, 50), 127)
    requires o.gasLeft == 0 && o.refund == 0
    ensures var c := Credits(env, m, GasUsed(env, m, o)); c.0 + c.1 + c.2 <= m.gas * 150
  {
    assert GasUsed(env, m, o) == m.gas;
    assert EffectiveTip(env, m) == 100;
  }
}
