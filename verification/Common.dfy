/** What several models share: options, machine words, hashes, and a little arithmetic. */
module Common {
  datatype Option<+T> = None | Some(value: T)

  const TWO_32: nat := 0x1_0000_0000
  const TWO_64: nat := 0x1_0000_0000_0000_0000
  const TWO_248: nat := 0x1_0000_0000_0000_0000_0000_0000_0000_0000_0000_0000_0000_0000_0000_0000_0000_00
  const TWO_256: nat := 0x1_0000_0000_0000_0000_0000_0000_0000_0000_0000_0000_0000_0000_0000_0000_0000_0000

  type U64 = x: nat | x < TWO_64
  type U256 = x: nat | x < TWO_256

  type Hash = nat

  /** The all-zero hash. */
  const ZERO_HASH: Hash := 0

  function Min(a: int, b: int): int {
    if a <= b then a else b
  }

  lemma MulMono(a: nat, b: nat, p: nat)
    requires a <= b
    ensures a * p <= b * p
    ensures p * a <= p * b
  {
    assert b * p == a * p + (b - a) * p;
  }

  lemma MulAdd(a: int, b: int, p: int)
    ensures (a + b) * p == a * p + b * p
    ensures p * (a + b) == p * a + p * b
  {
  }

  lemma DivAtMost(a: nat, d: nat)
    requires d > 0
    ensures a / d <= a
  {
    var q := a / d;
    assert q * d <= a;
    MulMono(1, d, q);
  }

  lemma SubsetCard<T>(a: set<T>, b: set<T>)
    requires a <= b
    ensures |a| <= |b|
  {
    assert b == a + (b - a);
  }
}
