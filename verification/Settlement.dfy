/** What one successful state transition does to the balances, as functions, and the conservation
    and solvency laws about them. */
module Settlement {
  import opened Common
  import opened Balances
  import opened EffectiveGas

  /** The block and configuration facts a transition reads. `blobGasPrice` is the price derived from
      ExcessBlobGas, when that is set and the derivation succeeds. */
  datatype Env = Env(coinbase: Address, baseFee: U256, isLondon: bool, isCancun: bool, noBaseFee: bool,
                     blobGasPrice: Option<U256>, burntContract: Option<Address>)

  datatype Message = Message(from: Address, to: Option<Address>, gas: U64, fees: Fees, value: U256,
                             nonce: U64, checkNonce: bool, isFree: bool,
                             blobGas: U64, maxFeePerBlobGas: U256)

  /** How an EVM run ended; the unsupported precompile is told apart for old receipts. */
  datatype VmError = NoError | UnsupportedPrecompile | OtherError

  /** The EVM run is arbitrary: new balances, gas left, refund counter, and how it ended. */
  datatype Outcome = Outcome(balances: Ledger, gasLeft: U64, refund: U64, err: VmError)

  const REFUND_QUOTIENT: nat := 2
  const REFUND_QUOTIENT_EIP3529: nat := 5

  function BlobFee(env: Env, m: Message): nat {
    if env.isCancun && env.blobGasPrice.Some? then env.blobGasPrice.value * m.blobGas else 0
  }

  function GasVal(m: Message): nat {
    m.gas * m.fees.gasPrice
  }

  /** What the sender must own: gas at the cap, the value, and the most the blobs may cost. */
  function BalanceCheck(env: Env, m: Message): nat {
    m.gas * m.fees.feeCap + m.value + if env.isCancun then m.maxFeePerBlobGas * m.blobGas else 0
  }

  /** Balances when the EVM starts. */
  function Bought(env: Env, m: Message, b: Ledger): Ledger {
    SubBalance(SubBalance(b, m.from, Wrap(GasVal(m))), m.from, Wrap(BlobFee(env, m)))
  }

  function Quotient(env: Env): nat {
    if env.isLondon then REFUND_QUOTIENT_EIP3529 else REFUND_QUOTIENT
  }

  /** Refunded gas: the counter, capped by a fraction of what was used. */
  function Refund(env: Env, m: Message, o: Outcome): nat
    requires o.gasLeft <= m.gas
  {
    Min((m.gas - o.gasLeft) / Quotient(env), o.refund)
  }

  function GasUsed(env: Env, m: Message, o: Outcome): (used: nat)
    requires o.gasLeft <= m.gas
    ensures used <= m.gas - o.gasLeft
  {
    m.gas - o.gasLeft - Refund(env, m, o)
  }

  function EffectiveTip(env: Env, m: Message): U256 {
    if !env.isLondon then m.fees.gasPrice
    else if m.fees.feeCap > env.baseFee then Min(m.fees.tip, m.fees.feeCap - env.baseFee)
    else 0
  }

  predicate Burns(env: Env, m: Message) {
    !m.isFree && env.isLondon && env.burntContract.Some?
  }

  /** The three credits of a settlement: unused gas to the sender, tip to the producer, base fee to
      the burn contract. */
  function Credits(env: Env, m: Message, used: nat): (c: (nat, nat, nat))
    requires used <= m.gas
  {
    ((m.gas - used) * m.fees.gasPrice, used * EffectiveTip(env, m), if Burns(env, m) then used * env.baseFee else 0)
  }

  /** 256-bit truncation of a product. */
  function Wrap(x: nat): (w: U256)
    ensures x < TWO_256 ==> w == x
  {
    x % TWO_256
  }

  function PayProducer(env: Env, m: Message, b: Ledger, c: (nat, nat, nat)): Ledger {
    var b' := AddBalance(b, env.coinbase, Wrap(c.1));
    if Burns(env, m) then AddBalance(b', env.burntContract.value, Wrap(c.2)) else b'
  }

  function Pay(env: Env, m: Message, b: Ledger, c: (nat, nat, nat)): Ledger {
    PayProducer(env, m, AddBalance(b, m.from, Wrap(c.0)), c)
  }

  /** Balances after the EVM, the refund to the sender, the tip and the burn credit. */
  function Settle(env: Env, m: Message, o: Outcome): Ledger
    requires o.gasLeft <= m.gas
  {
    Pay(env, m, o.balances, Credits(env, m, GasUsed(env, m, o)))
  }

  // ---------------------------------------------------------------------------------------------
  // Who pays and who is paid

  lemma WrapShift(z: int, q: int)
    ensures (z + TWO_256 * q) % TWO_256 == z % TWO_256
  {
  }

  /** Truncating a part first does not change a truncated sum. */
  lemma WrapSum(x: int, y: int)
    ensures (x + y % TWO_256) % TWO_256 == (x + y) % TWO_256
  {
    var r, q := y % TWO_256, y / TWO_256;
    WrapShift(x + r, q);
    assert x + y == x + r + TWO_256 * q;
  }

  function Owed(a: Address, to: Address, x: int): int {
    if a == to then x else 0
  }

  lemma CreditEach(b: Ledger, to: Address, x: nat, a: Address)
    ensures Balance(AddBalance(b, to, Wrap(x)), a) == (Balance(b, a) + Owed(a, to, x)) % TWO_256
  {
    WrapSum(Balance(b, to), x);
  }

  lemma DebitEach(b: Ledger, from: Address, x: nat, a: Address)
    ensures Balance(SubBalance(b, from, Wrap(x)), a) == (Balance(b, a) - Owed(a, from, x)) % TWO_256
  {
    var r, q := x % TWO_256, x / TWO_256;
    WrapShift(Balance(b, from) - x, q);
    assert Balance(b, from) - r == Balance(b, from) - x + TWO_256 * q;
  }

  /** One credit after another adds up, modulo 2^256. */
  lemma CreditAgain(b: Ledger, p: int, to: Address, x: nat, a: Address)
    requires Balance(b, a) == p % TWO_256
    ensures Balance(AddBalance(b, to, Wrap(x)), a) == (p + Owed(a, to, x)) % TWO_256
  {
    CreditEach(b, to, x, a);
    WrapSum(Owed(a, to, x), p);
  }

  lemma DebitAgain(b: Ledger, p: int, from: Address, x: nat, a: Address)
    requires Balance(b, a) == p % TWO_256
    ensures Balance(SubBalance(b, from, Wrap(x)), a) == (p - Owed(a, from, x)) % TWO_256
  {
    DebitEach(b, from, x, a);
    WrapSum(-Owed(a, from, x), p);
  }

  /** What the credits of a settlement are to one account; an account with several roles gets each. */
  function Share(env: Env, m: Message, c: (nat, nat, nat), a: Address): nat {
    (if a == m.from then c.0 else 0) + (if a == env.coinbase then c.1 else 0)
    + (if !m.isFree && env.isLondon && env.burntContract == Some(a) then c.2 else 0)
  }

  lemma ProducerEach(env: Env, m: Message, b: Ledger, p: int, c: (nat, nat, nat), a: Address)
    requires Balance(b, a) == p % TWO_256
    ensures Balance(PayProducer(env, m, b, c), a) == (p + Share(env, m, (0, c.1, c.2), a)) % TWO_256
  {
    CreditAgain(b, p, env.coinbase, c.1, a);
    if Burns(env, m) {
      var b' := AddBalance(b, env.coinbase, Wrap(c.1));
      CreditAgain(b', p + Owed(a, env.coinbase, c.1), env.burntContract.value, c.2, a);
    }
  }

  lemma PayEach(env: Env, m: Message, b: Ledger, c: (nat, nat, nat), a: Address)
    ensures Balance(Pay(env, m, b, c), a) == (Balance(b, a) + Share(env, m, c, a)) % TWO_256
  {
    CreditEach(b, m.from, c.0, a);
    ProducerEach(env, m, AddBalance(b, m.from, Wrap(c.0)), Balance(b, a) + Owed(a, m.from, c.0), c, a);
  }

  /** The tip per unit of gas, from the fee fields. */
  function TipPerGas(env: Env, f: Fees): nat {
    if !env.isLondon then f.gasPrice
    else if f.feeCap <= env.baseFee then 0
    else if f.tip < f.feeCap - env.baseFee then f.tip
    else f.feeCap - env.baseFee
  }

  /** What a settlement adds to one account: unused gas at the price for the sender, the tip on used gas
      for the producer, and the base fee on it for a burn contract, unless the message is free. */
  function Gain(env: Env, m: Message, used: nat, a: Address): int
    requires used <= m.gas
  {
    (if a == m.from then (m.gas - used) * m.fees.gasPrice else 0)
    + (if a == env.coinbase then used * TipPerGas(env, m.fees) else 0)
    + (if !m.isFree && env.isLondon && env.burntContract == Some(a) then used * env.baseFee else 0)
  }

  /** Every account after a settlement, whatever roles it has: its balance after the EVM plus its gain,
      in 256 bits. */
  lemma SettledAccount(env: Env, m: Message, o: Outcome, a: Address)
    requires o.gasLeft <= m.gas
    ensures Balance(Settle(env, m, o), a) == (Balance(o.balances, a) + Gain(env, m, GasUsed(env, m, o), a)) % TWO_256
  {
    PayEach(env, m, o.balances, Credits(env, m, GasUsed(env, m, o)), a);
    assert EffectiveTip(env, m) == TipPerGas(env, m.fees);
  }

  /** While the supply fits in 256 bits nothing wraps: each account has exactly its gain more. */
  lemma SettledAccountExact(env: Env, m: Message, o: Outcome, a: Address)
    requires o.gasLeft <= m.gas && NoWrap(env, m, o)
    ensures Balance(Settle(env, m, o), a) == Balance(o.balances, a) + Gain(env, m, GasUsed(env, m, o), a)
  {
    SettledAccount(env, m, o, a);
    BalanceAtMostTotal(o.balances, a);
    GainWithinCredits(env, m, GasUsed(env, m, o), a);
    SmallSum(Balance(o.balances, a), Gain(env, m, GasUsed(env, m, o), a));
  }

  lemma SmallSum(x: nat, y: nat)
    requires x + y < TWO_256
    ensures (x + y) % TWO_256 == x + y
  {
  }

  lemma GainWithinCredits(env: Env, m: Message, used: nat, a: Address)
    requires used <= m.gas
    ensures var c := Credits(env, m, used); Gain(env, m, used, a) == Share(env, m, c, a) <= c.0 + c.1 + c.2
  {
    assert EffectiveTip(env, m) == TipPerGas(env, m.fees);
  }

  /** What the fees on used gas add to one account, without the refund. */
  function Fee(env: Env, m: Message, used: nat, a: Address): int {
    (if a == env.coinbase then used * TipPerGas(env, m.fees) else 0)
    + (if !m.isFree && env.isLondon && env.burntContract == Some(a) then used * env.baseFee else 0)
  }

  /** The fees alone: every account after they are paid. */
  lemma ProducerPaid(env: Env, m: Message, b: Ledger, used: nat, a: Address)
    requires used <= m.gas
    ensures Balance(PayProducer(env, m, b, Credits(env, m, used)), a) == (Balance(b, a) + Fee(env, m, used, a)) % TWO_256
  {
    ProducerEach(env, m, b, Balance(b, a), Credits(env, m, used), a);
    assert EffectiveTip(env, m) == TipPerGas(env, m.fees);
  }

  /** Every account when the EVM starts: the sender has paid for all gas and for the blobs, nobody else
      anything. */
  lemma BoughtAccount(env: Env, m: Message, b: Ledger, a: Address)
    ensures var blobs := if env.isCancun && env.blobGasPrice.Some? then env.blobGasPrice.value * m.blobGas else 0;
            Balance(Bought(env, m, b), a)
            == (Balance(b, a) - if a == m.from then m.gas * m.fees.gasPrice + blobs else 0) % TWO_256
  {
    DebitEach(b, m.from, GasVal(m), a);
    var b' := SubBalance(b, m.from, Wrap(GasVal(m)));
    DebitAgain(b', Balance(b, a) - Owed(a, m.from, GasVal(m)), m.from, BlobFee(env, m), a);
  }

  // ---------------------------------------------------------------------------------------------
  // Refund cap

  /** EIP-3529: the refund is at most a fifth of the gas spent, a half before London. */
  lemma RefundCap(env: Env, m: Message, o: Outcome)
    requires o.gasLeft <= m.gas
    ensures var spent := m.gas - o.gasLeft;
            && Refund(env, m, o) == Min(spent / (if env.isLondon then 5 else 2), o.refund)
            && Refund(env, m, o) * Quotient(env) <= spent
            && Refund(env, m, o) <= o.refund
            && GasUsed(env, m, o) + Refund(env, m, o) == spent
  {
    var spent, q := m.gas - o.gasLeft, Quotient(env);
    assert spent / q * q <= spent;
    MulMono(Refund(env, m, o), spent / q, q);
  }

  // ---------------------------------------------------------------------------------------------
  // Solvency

  /** The checks of preCheck on prices: the price is within the cap and blobs cost at most their cap. */
  predicate PricesWithinCaps(env: Env, m: Message) {
    && m.fees.gasPrice <= m.fees.feeCap
    && (env.isCancun && m.blobGas > 0 ==> env.blobGasPrice.Some? && env.blobGasPrice.value <= m.maxFeePerBlobGas)
  }

  /** A sender who passes the balance check can pay for gas and blobs without underflow and still
      owns the value to transfer. */
  lemma Solvent(env: Env, m: Message, b: Ledger)
    requires PricesWithinCaps(env, m) && BalanceCheck(env, m) <= Balance(b, m.from)
    ensures GasVal(m) <= Balance(b, m.from) && BlobFee(env, m) <= Balance(b, m.from) - GasVal(m)
    ensures Balance(Bought(env, m, b), m.from) == Balance(b, m.from) - GasVal(m) - BlobFee(env, m)
    ensures Balance(Bought(env, m, b), m.from) >= m.value
    ensures Total(Bought(env, m, b)) == Total(b) - GasVal(m) - BlobFee(env, m)
  {
    MulMono(m.fees.gasPrice, m.fees.feeCap, m.gas);
    BlobFeeCapped(env, m);
    DebitSubtracts(b, m.from, GasVal(m));
    DebitSubtracts(SubBalance(b, m.from, GasVal(m)), m.from, BlobFee(env, m));
  }

  lemma BlobFeeCapped(env: Env, m: Message)
    requires PricesWithinCaps(env, m)
    ensures BlobFee(env, m) <= if env.isCancun then m.maxFeePerBlobGas * m.blobGas else 0
  {
    if env.isCancun && m.blobGas > 0 {
      MulMono(env.blobGasPrice.value, m.maxFeePerBlobGas, m.blobGas);
    }
  }

  // ---------------------------------------------------------------------------------------------
  // Conservation

  /** What leaves circulation per unit of gas: the price paid minus the tip and the credited burn. */
  function BurnRate(env: Env, m: Message): int {
    m.fees.gasPrice - EffectiveTip(env, m) - if Burns(env, m) then env.baseFee else 0
  }

  /** Credits that fit in the supply do not wrap and add up. */
  lemma PayTotal(env: Env, m: Message, b: Ledger, c: (nat, nat, nat))
    requires Total(b) + c.0 + c.1 + c.2 < TWO_256
    requires !Burns(env, m) ==> c.2 == 0
    ensures Total(Pay(env, m, b, c)) == Total(b) + c.0 + c.1 + c.2
  {
    CreditAdds(b, m.from, c.0);
    var b1 := AddBalance(b, m.from, c.0);
    CreditAdds(b1, env.coinbase, c.1);
    if Burns(env, m) {
      CreditAdds(AddBalance(b1, env.coinbase, c.1), env.burntContract.value, c.2);
    }
  }

  /** Paying for all gas and getting the unused part, the tip and the burn credit back changes the
      total by minus the burn rate per unit used. */
  lemma FeesPerUnit(env: Env, m: Message, used: nat)
    requires used <= m.gas
    ensures var c := Credits(env, m, used); GasVal(m) - c.0 - c.1 - c.2 == used * BurnRate(env, m)
  {
    MulAdd(m.gas - used, used, m.fees.gasPrice);
    var p: int, t: int, f: int := m.fees.gasPrice, EffectiveTip(env, m), if Burns(env, m) then env.baseFee else 0;
    MulAdd(p - t, -f, used);
    MulAdd(p, -t, used);
    NegMul(used, t);
    NegMul(used, f);
  }

  lemma NegMul(a: int, b: int)
    ensures a * -b == -(a * b)
  {
  }

  /** A transition that went through: the sender passed the checks and the EVM kept to its gas. */
  predicate WentThrough(env: Env, m: Message, b: Ledger, o: Outcome) {
    && PricesWithinCaps(env, m)
    && BalanceCheck(env, m) <= Balance(b, m.from)
    && o.gasLeft <= m.gas
  }

  /** What the EVM itself did to the total. */
  ghost function Delta(env: Env, m: Message, b: Ledger, o: Outcome): int {
    Total(o.balances) - Total(Bought(env, m, b))
  }

  /** No credit of the settlement exceeds the 256-bit supply. */
  ghost predicate NoWrap(env: Env, m: Message, o: Outcome)
    requires o.gasLeft <= m.gas
  {
    var c := Credits(env, m, GasUsed(env, m, o));
    Total(o.balances) + c.0 + c.1 + c.2 < TWO_256
  }

  /** The total of all balances moves by the EVM's own delta, minus the blob fee, minus the burn rate
      on every unit of gas used: for any prices whatever. */
  lemma TotalChange(env: Env, m: Message, b: Ledger, o: Outcome)
    requires WentThrough(env, m, b, o) && NoWrap(env, m, o)
    ensures Total(Settle(env, m, o)) ==
            Total(b) + Delta(env, m, b, o) - BlobFee(env, m) - GasUsed(env, m, o) * BurnRate(env, m)
  {
    Solvent(env, m, b);
    var used := GasUsed(env, m, o);
    PayTotal(env, m, o.balances, Credits(env, m, used));
    FeesPerUnit(env, m, used);
  }

  /** The part of the base fee a London message pays: all of it, unless a free message caps lower. */
  function BasePart(env: Env, m: Message): nat {
    if !env.isLondon then 0 else if Burns(env, m) then env.baseFee else Min(env.baseFee, m.fees.feeCap)
  }

  /** Base fee that leaves circulation per unit of gas: what is paid, unless credited. */
  function Burnt(env: Env, m: Message): nat {
    if Burns(env, m) then 0 else BasePart(env, m)
  }

  /** The price a London message pays splits into tip and base fee. */
  predicate PriceSplits(env: Env, m: Message) {
    !env.isLondon || EffectiveTip(env, m) + BasePart(env, m) == m.fees.gasPrice
  }

  /** Ether is conserved up to the blob fee and the base fee burn. */
  ghost predicate Conserved(env: Env, m: Message, b: Ledger, o: Outcome)
    requires o.gasLeft <= m.gas
  {
    Total(Settle(env, m, o)) == Total(b) + Delta(env, m, b, o) - BlobFee(env, m) - GasUsed(env, m, o) * Burnt(env, m)
  }

  /** Refunds never pay back all gas that was spent. */
  lemma SomeGasUsed(env: Env, m: Message, o: Outcome)
    requires o.gasLeft <= m.gas
    ensures GasUsed(env, m, o) == 0 <==> o.gasLeft == m.gas
  {
  }

  /** For every message that went through, ether is conserved if and only if nothing was spent or the
      price splits into tip and base fee. */
  lemma ConservedIffPriceSplits(env: Env, m: Message, b: Ledger, o: Outcome)
    requires WentThrough(env, m, b, o) && NoWrap(env, m, o)
    ensures Conserved(env, m, b, o) <==> o.gasLeft == m.gas || PriceSplits(env, m)
  {
    TotalChange(env, m, b, o);
    SomeGasUsed(env, m, o);
    MulCancel(GasUsed(env, m, o), BurnRate(env, m), Burnt(env, m));
  }

  /** For every message that went through, the settlement creates ether if and only if gas was spent
      and tip and credited base fee exceed the price. */
  lemma MintsIffPriceBelowCredits(env: Env, m: Message, b: Ledger, o: Outcome)
    requires WentThrough(env, m, b, o) && NoWrap(env, m, o)
    ensures Total(Settle(env, m, o)) > Total(b) + Delta(env, m, b, o) - BlobFee(env, m)
            <==> o.gasLeft < m.gas && BurnRate(env, m) < 0
  {
    TotalChange(env, m, b, o);
    SomeGasUsed(env, m, o);
    SignOfProduct(GasUsed(env, m, o), BurnRate(env, m));
  }

  lemma SignOfProduct(u: nat, r: int)
    ensures u * r < 0 <==> u > 0 && r < 0
  {
  }

  lemma MulCancel(u: int, x: int, y: int)
    ensures u * x == u * y <==> u == 0 || x == y
  {
    assert u * x - u * y == u * (x - y) by { MulAdd(x, -y, u); NegMul(u, y); }
    if u != 0 && x != y {
      MulNonZero(u, x - y);
    }
  }

  lemma MulNonZero(u: int, v: int)
    requires u != 0 && v != 0
    ensures u * v != 0
  {
  }

  /** The message has its EIP-1559 price, and pays the base fee unless it is free. */
  predicate PricedAsEip1559(env: Env, m: Message) {
    env.isLondon ==> PriceRelation(m.fees, env.baseFee) && (m.isFree || env.baseFee <= m.fees.feeCap)
  }

  /** The EIP-1559 relation makes the price split. */
  lemma RelationSplits(env: Env, m: Message)
    requires PricedAsEip1559(env, m)
    ensures PriceSplits(env, m)
    ensures !m.isFree ==> Burnt(env, m) == if env.isLondon && env.burntContract.None? then env.baseFee else 0
  {
  }

  /** Ether conservation under EIP-1559 prices: no wrap is possible while the supply fits in 256 bits,
      and the total changes by the EVM's delta minus the blob fee minus the burnt base fee. */
  lemma EtherConserved(env: Env, m: Message, b: Ledger, o: Outcome)
    requires WentThrough(env, m, b, o) && PricedAsEip1559(env, m)
    requires Total(b) + Delta(env, m, b, o) < TWO_256
    ensures NoWrap(env, m, o) && Conserved(env, m, b, o)
    ensures !m.isFree ==> Burnt(env, m) == if env.isLondon && env.burntContract.None? then env.baseFee else 0
  {
    var used := GasUsed(env, m, o);
    RelationSplits(env, m);
    Solvent(env, m, b);
    FeesPerUnit(env, m, used);
    MulMono(0, Burnt(env, m), used);
    ConservedIffPriceSplits(env, m, b, o);
  }
}
