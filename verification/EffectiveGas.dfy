/** Effective gas price scaling, and what it does to the fee fields of a message. */
module EffectiveGas {
  import opened Common

  /** Effective gas price percentage: one byte. */
  type Percentage = p: nat | p < 256

  const EFFECTIVE_GAS_PRICE_MAX_VAL := 256

  /** `CalculateEffectiveGas`: gas * (ep + 1) / 256, where the 256-bit product wraps. */
  function CalculateEffectiveGas(gas: U256, ep: Percentage): (r: U256)
    ensures r < TWO_248
  {
    gas * (ep + 1) % TWO_256 / EFFECTIVE_GAS_PRICE_MAX_VAL
  }

  predicate Fits(gas: U256, ep: Percentage) {
    gas * (ep + 1) < TWO_256
  }

  /** The price never goes up, wrapping or not. */
  lemma NonIncreasing(gas: U256, ep: Percentage)
    ensures CalculateEffectiveGas(gas, ep) <= gas
  {
    assert TWO_248 * 256 == TWO_256;
    MulMono(ep + 1, 256, gas);
    if gas < TWO_248 {
      assert gas * (ep + 1) <= gas * 256;
      assert CalculateEffectiveGas(gas, ep) <= gas * 256 / 256;
    }
  }

  /** Below overflow, scaling keeps the order of prices. */
  lemma Monotone(a: U256, b: U256, ep: Percentage)
    requires a <= b && Fits(b, ep)
    ensures Fits(a, ep) && CalculateEffectiveGas(a, ep) <= CalculateEffectiveGas(b, ep)
  {
    MulMono(a, b, ep + 1);
    Unwrapped(a * (ep + 1));
    Unwrapped(b * (ep + 1));
    DivMono(a * (ep + 1), b * (ep + 1));
  }

  lemma DivMono(x: nat, y: nat)
    requires x <= y
    ensures x / 256 <= y / 256
  {
  }

  lemma Unwrapped(product: nat)
    requires product < TWO_256
    ensures product % TWO_256 / 256 == product / 256
  {
  }

  lemma DivBelow(product: nat, gas: nat)
    requires product < gas * 256
    ensures product / 256 < gas
  {
  }

  /** The full percentage is the identity below overflow; nothing else leaves a price alone but 0. */
  lemma FixedPoints(gas: U256, ep: Percentage)
    ensures CalculateEffectiveGas(gas, ep) == gas <==> gas == 0 || (ep == 255 && Fits(gas, ep))
  {
    var product := gas * (ep + 1);
    MulMono(ep + 1, 256, gas);
    if !Fits(gas, ep) {
      assert gas >= TWO_248;
    } else if ep == 255 {
      Unwrapped(product);
      assert product == gas * 256;
    } else if gas > 0 {
      Unwrapped(product);
      MulMono(ep + 1, 255, gas);
      DivBelow(product, gas);
    }
  }

  /** Scaling keeps the order of all prices up to `b`. */
  ghost predicate KeepsOrder(b: U256, ep: Percentage) {
    forall x: U256, y: U256 :: x <= y <= b ==> CalculateEffectiveGas(x, ep) <= CalculateEffectiveGas(y, ep)
  }

  /** The order of prices is kept exactly as far as the product does not overflow. */
  lemma KeepsOrderIffFits(b: U256, ep: Percentage)
    ensures KeepsOrder(b, ep) <==> Fits(b, ep)
  {
    if Fits(b, ep) {
      forall x: U256, y: U256 | x <= y <= b
        ensures CalculateEffectiveGas(x, ep) <= CalculateEffectiveGas(y, ep)
      {
        MulMono(y, b, ep + 1);
        Monotone(x, y, ep);
      }
    } else {
      var c := FirstOverflow(b, ep);
      assert CalculateEffectiveGas(c - 1, ep) > CalculateEffectiveGas(c, ep);
    }
  }

  /** The least price that overflows is scaled to 0, the one below it to the largest scaled price. */
  lemma FirstOverflow(b: U256, ep: Percentage) returns (c: U256)
    requires !Fits(b, ep)
    ensures 0 < c <= b && Fits(c - 1, ep) && !Fits(c, ep)
    ensures CalculateEffectiveGas(c, ep) == 0 && CalculateEffectiveGas(c - 1, ep) == TWO_248 - 1
  {
    var q: nat := (TWO_256 - 1) / (ep + 1);
    var least := q + 1;
    Division(TWO_256 - 1, ep + 1);
    MulAdd(q, 1, ep + 1);
    if b < least {
      MulMono(b, q, ep + 1);
    }
    c := least;
    assert c * (ep + 1) == q * (ep + 1) + (ep + 1);
    Wrapped(c * (ep + 1));
    Unwrapped(q * (ep + 1));
    assert q * (ep + 1) >= TWO_256 - 256;
  }

  lemma Division(a: nat, d: nat)
    requires d > 0
    ensures a / d * d <= a < a / d * d + d
  {
  }

  lemma Wrapped(product: nat)
    requires TWO_256 <= product < TWO_256 + 256
    ensures product % TWO_256 / 256 == 0
  {
  }

  /** A pair that changes places: at the full percentage, the first price past overflow. */
  lemma OverflowBreaksOrder()
    ensures var a, b := TWO_248 - 1, TWO_248;
            a <= b && !Fits(b, 255) && CalculateEffectiveGas(a, 255) > CalculateEffectiveGas(b, 255)
  {
    assert TWO_248 * 256 == TWO_256;
    assert (TWO_248 - 1) * 256 == TWO_256 - 256;
    FixedPoints(TWO_248 - 1, 255);
    assert TWO_256 % TWO_256 == 0;
  }

  // ---------------------------------------------------------------------------------------------
  // Fee fields

  datatype Fees = Fees(gasPrice: U256, feeCap: U256, tip: U256)

  /** EIP-1559: the effective price is the base fee plus the tip, capped. */
  predicate PriceRelation(f: Fees, baseFee: U256) {
    f.gasPrice == Min(f.feeCap, f.tip + baseFee)
  }

  /** A legacy or access-list message: one price for everything. */
  function LegacyFees(price: U256): Fees {
    Fees(price, price, price)
  }

  /** A dynamic-fee message: base fee plus tip in 256-bit arithmetic, capped. */
  function DynamicFees(feeCap: U256, tip: U256, baseFee: U256): Fees {
    var sum := (baseFee + tip) % TWO_256;
    Fees(if sum > feeCap then feeCap else sum, feeCap, tip)
  }

  /** A dynamic-fee message has the EIP-1559 price exactly when base fee plus tip does not overflow, or
      wraps to no less than the cap; the latter only with a tip above the cap. */
  lemma DynamicPrice(feeCap: U256, tip: U256, baseFee: U256)
    ensures PriceRelation(DynamicFees(feeCap, tip, baseFee), baseFee) <==>
            baseFee + tip < TWO_256 || feeCap <= baseFee + tip - TWO_256
    ensures tip <= feeCap ==>
              (PriceRelation(DynamicFees(feeCap, tip, baseFee), baseFee) <==> baseFee + tip < TWO_256)
  {
  }

  /** `GetTxContext` from fork id 5 on: price and cap are scaled, the tip is not. */
  function Scale(f: Fees, ep: Percentage): Fees {
    f.(gasPrice := CalculateEffectiveGas(f.gasPrice, ep), feeCap := CalculateEffectiveGas(f.feeCap, ep))
  }

  /** A cap stays a cap for every price below it exactly when it does not overflow or scales to the
      largest scaled price. */
  lemma CapStaysCap(cap: U256, ep: Percentage)
    ensures (forall p: U256 :: p <= cap ==> CalculateEffectiveGas(p, ep) <= CalculateEffectiveGas(cap, ep))
            <==> Fits(cap, ep) || CalculateEffectiveGas(cap, ep) == TWO_248 - 1
  {
    if Fits(cap, ep) {
      forall p: U256 | p <= cap
        ensures CalculateEffectiveGas(p, ep) <= CalculateEffectiveGas(cap, ep)
      {
        Monotone(p, cap, ep);
      }
    } else {
      var c := FirstOverflow(cap, ep);
      assert CalculateEffectiveGas(c - 1, ep) == TWO_248 - 1;
    }
  }

  /** Scaling keeps gasPrice <= feeCap for every message whose cap does not overflow. */
  lemma ScaleKeepsCap(f: Fees, ep: Percentage)
    requires f.gasPrice <= f.feeCap && Fits(f.feeCap, ep)
    ensures Scale(f, ep).gasPrice <= Scale(f, ep).feeCap
  {
    Monotone(f.gasPrice, f.feeCap, ep);
  }

  /** Single-price messages keep the EIP-1559 price relation under every percentage and base fee. */
  lemma ScaleKeepsLegacyPrice(price: U256, ep: Percentage, baseFee: U256)
    ensures PriceRelation(Scale(LegacyFees(price), ep), baseFee)
  {
    NonIncreasing(price, ep);
  }

  /** The 256-bit product that is divided. */
  function Product(gas: U256, ep: Percentage): U256 {
    gas * (ep + 1) % TWO_256
  }

  /** Two products with the same multiples of 256 below them. */
  predicate SameBlock(p: nat, q: nat) {
    p - p % 256 <= q < p - p % 256 + 256
  }

  lemma SameBlockDivides(p: nat, q: nat)
    ensures SameBlock(p, q) <==> p / 256 == q / 256
  {
  }

  /** For a message in the EIP-1559 relation, scaling keeps the relation exactly when the cap binds,
      or base fee plus tip is 0, or its product and that of the cap lie between the same multiples of
      256, or the percentage is full, nothing overflows, and the cap stays above it. */
  lemma ScaleKeepsPrice(f: Fees, ep: Percentage, baseFee: U256)
    requires PriceRelation(f, baseFee)
    ensures PriceRelation(Scale(f, ep), baseFee) <==>
            var sum := f.tip + baseFee;
            || f.feeCap <= sum
            || sum == 0
            || SameBlock(Product(sum, ep), Product(f.feeCap, ep))
            || (ep == 255 && sum < TWO_248 && sum * 256 <= Product(f.feeCap, ep))
  {
    NonIncreasing(f.feeCap, ep);
    if f.feeCap > f.tip + baseFee {
      var sum := f.tip + baseFee;
      NonIncreasing(sum, ep);
      FixedPoints(sum, ep);
      SameBlockDivides(Product(sum, ep), Product(f.feeCap, ep));
      AtMostQuotient(sum, Product(f.feeCap, ep));
      assert ep == 255 ==> (Fits(sum, ep) <==> sum < TWO_248);
    }
  }

  lemma AtMostQuotient(x: nat, p: nat)
    ensures x <= p / 256 <==> x * 256 <= p
  {
  }
}
