/** Account balances as 256-bit words, and their total. */
module Balances {
  import opened Common

  type Address = nat
  type Ledger = map<Address, U256>

  function Balance(m: Ledger, a: Address): U256 {
    if a in m then m[a] else 0
  }

  /** uint256 addition wraps. */
  function AddBalance(m: Ledger, a: Address, x: nat): Ledger {
    m[a := (Balance(m, a) + x) % TWO_256]
  }

  /** uint256 subtraction wraps. */
  function SubBalance(m: Ledger, a: Address, x: nat): Ledger {
    m[a := (Balance(m, a) - x) % TWO_256]
  }

  ghost function Total(m: Ledger): nat {
    if m == map[] then 0
    else
      var a :| a in m;
      m[a] + Total(m - {a})
  }

  lemma {:induction false} TotalRemove(m: Ledger, a: Address)
    requires a in m
    ensures Total(m) == m[a] + Total(m - {a})
  {
    var x :| x in m && Total(m) == m[x] + Total(m - {x});
    if x != a {
      TotalRemove(m - {x}, a);
      TotalRemove(m - {a}, x);
      assert m - {x} - {a} == m - {a} - {x};
    }
  }

  lemma TotalUpdate(m: Ledger, a: Address, v: U256)
    ensures Total(m[a := v]) == Total(m) - Balance(m, a) + v
  {
    var m' := m[a := v];
    TotalRemove(m', a);
    if a in m {
      TotalRemove(m, a);
      assert m' - {a} == m - {a};
    } else {
      assert m' - {a} == m;
    }
  }

  /** A ledger of one account totals its balance; with `TotalUpdate` that fixes every total. */
  lemma TotalOfOne(a: Address, x: U256)
    ensures Total(map[a := x]) == x
  {
    TotalRemove(map[a := x], a);
    assert map[a := x] - {a} == map[];
  }

  lemma BalanceAtMostTotal(m: Ledger, a: Address)
    ensures Balance(m, a) <= Total(m)
  {
    if a in m {
      TotalRemove(m, a);
    }
  }

  /** A credit that fits in the total supply does not wrap and adds up. */
  lemma CreditAdds(m: Ledger, a: Address, x: nat)
    requires Total(m) + x < TWO_256
    ensures Total(AddBalance(m, a, x)) == Total(m) + x
    ensures Balance(AddBalance(m, a, x), a) == Balance(m, a) + x
  {
    BalanceAtMostTotal(m, a);
    TotalUpdate(m, a, (Balance(m, a) + x) % TWO_256);
  }

  /** A covered debit does not wrap and subtracts. */
  lemma DebitSubtracts(m: Ledger, a: Address, x: nat)
    requires x <= Balance(m, a)
    ensures Total(SubBalance(m, a, x)) == Total(m) - x
    ensures Balance(SubBalance(m, a, x), a) == Balance(m, a) - x
  {
    TotalUpdate(m, a, (Balance(m, a) - x) % TWO_256);
  }

  /** `CanTransfer`. */
  predicate CanTransfer(m: Ledger, sender: Address, amount: U256) {
    !(Balance(m, sender) < amount)
  }

  /** `Transfer`; with bailout the sender is not charged. */
  function Transfer(m: Ledger, sender: Address, recipient: Address, amount: U256, bailout: bool): Ledger {
    AddBalance(if bailout then m else SubBalance(m, sender, amount), recipient, amount)
  }

  /** A transfer the sender can make moves ether without creating any, also to oneself; a bailout
      transfer creates the amount. */
  lemma TransferConserves(m: Ledger, sender: Address, recipient: Address, amount: U256, bailout: bool)
    requires bailout || CanTransfer(m, sender, amount)
    requires Total(m) + (if bailout then amount else 0) < TWO_256
    ensures Total(Transfer(m, sender, recipient, amount, bailout)) == Total(m) + if bailout then amount else 0
    ensures !bailout && sender != recipient ==>
              && Balance(Transfer(m, sender, recipient, amount, false), sender) == Balance(m, sender) - amount
              && Balance(Transfer(m, sender, recipient, amount, false), recipient) == Balance(m, recipient) + amount
  {
    if bailout {
      CreditAdds(m, recipient, amount);
    } else {
      DebitSubtracts(m, sender, amount);
      CreditAdds(SubBalance(m, sender, amount), recipient, amount);
    }
  }

  /** Between two accounts, the sender loses exactly the amount if and only if they can transfer it. */
  lemma TransferExactIffCovered(m: Ledger, sender: Address, recipient: Address, amount: U256)
    requires sender != recipient
    ensures Balance(Transfer(m, sender, recipient, amount, false), sender) == Balance(m, sender) - amount
            <==> CanTransfer(m, sender, amount)
    ensures forall a :: a != sender && a != recipient ==>
              Balance(Transfer(m, sender, recipient, amount, false), a) == Balance(m, a)
  {
    var b := Balance(m, sender);
    if b >= amount {
      assert (b - amount) % TWO_256 == b - amount;
    }
  }
}
