/** The select-case list of an event feed: find, delete and deactivate, as functions on
    sequences and as in-place loops on the backing array. */
module CaseList {

  /** Identity of a subscriber channel. */
  type Channel = nat

  /** A select case: the receive case that interrupts a send, or one subscriber. */
  datatype Case = RemoveSub | Subscriber(ch: Channel)

  /** Index of the first subscriber case of `ch`, or -1. */
  function Find(cs: seq<Case>, ch: Channel): (i: int)
    ensures -1 <= i < |cs|
    ensures i >= 0 ==> cs[i] == Subscriber(ch) && Subscriber(ch) !in cs[..i]
    ensures i == -1 <==> Subscriber(ch) !in cs
  {
    if cs == [] then -1
    else if cs[0] == Subscriber(ch) then 0
    else
      var i := Find(cs[1..], ch);
      assert cs == [cs[0]] + cs[1..];
      if i == -1 then -1
      else
        assert cs[..i + 1] == [cs[0]] + cs[1..][..i];
        i + 1
  }

  function Delete(cs: seq<Case>, i: nat): seq<Case>
    requires i < |cs|
  {
    cs[..i] + cs[i + 1..]
  }

  /** Swap case `i` with the last case of the active prefix of length `k`; the prefix then ends before it. */
  function Deactivate(cs: seq<Case>, k: nat, i: nat): (r: seq<Case>)
    requires i < k <= |cs|
    ensures |r| == |cs|
  {
    cs[i := cs[k - 1]][k - 1 := cs[i]]
  }

  /** Every case after the head is a subscriber and the head receives unsubscriptions. */
  predicate WellFormed(cs: seq<Case>) {
    && |cs| >= 1
    && cs[0] == RemoveSub
    && RemoveSub !in cs[1..]
  }

  /** Deleting an active case takes one copy of it out of the prefix and keeps the tail. */
  lemma DeleteActive(cs: seq<Case>, k: nat, i: nat)
    requires 1 <= i < k <= |cs|
    ensures |Delete(cs, i)| == |cs| - 1
    ensures multiset(Delete(cs, i)[1..k - 1]) == multiset(cs[1..k]) - multiset{cs[i]}
    ensures Delete(cs, i)[k - 1..] == cs[k..]
    ensures Delete(cs, i)[0] == cs[0]
  {
    assert cs[1..k] == cs[1..i] + [cs[i]] + cs[i + 1..k];
    assert Delete(cs, i)[1..k - 1] == cs[1..i] + cs[i + 1..k];
  }

  /** Deleting a delivered case keeps the prefix and takes one copy of it out of the tail. */
  lemma DeleteDelivered(cs: seq<Case>, k: nat, i: nat)
    requires 1 <= k <= i < |cs|
    ensures |Delete(cs, i)| == |cs| - 1
    ensures Delete(cs, i)[..k] == cs[..k]
    ensures multiset(Delete(cs, i)[k..]) == multiset(cs[k..]) - multiset{cs[i]}
  {
    assert cs[k..] == cs[k..i] + [cs[i]] + cs[i + 1..];
    assert Delete(cs, i)[k..] == cs[k..i] + cs[i + 1..];
  }

  /** Deactivating moves exactly one case from the prefix to the tail. */
  lemma DeactivateMoves(cs: seq<Case>, k: nat, i: nat)
    requires 1 <= i < k <= |cs|
    ensures multiset(Deactivate(cs, k, i)[1..k - 1]) == multiset(cs[1..k]) - multiset{cs[i]}
    ensures Deactivate(cs, k, i)[k - 1..] == [cs[i]] + cs[k..]
    ensures multiset(Deactivate(cs, k, i)[k - 1..]) == multiset{cs[i]} + multiset(cs[k..])
    ensures Deactivate(cs, k, i)[0] == cs[0]
  {
    DeactivatedPrefix(cs, k, i);
    DeactivatedTail(cs, k, i);
  }

  /** Exchanged with the last active one, the case at `i` is the one that leaves the prefix from `i` on. */
  lemma DeactivatedRest(cs: seq<Case>, k: nat, i: nat)
    requires i < k <= |cs|
    ensures multiset(cs[i..k]) == multiset{cs[i]} + multiset(Deactivate(cs, k, i)[i..k - 1])
  {
    var r := Deactivate(cs, k, i);
    assert cs[i..k] == [cs[i]] + cs[i + 1..k];
    if i < k - 1 {
      assert r[i..k - 1] == [cs[k - 1]] + cs[i + 1..k - 1];
      assert cs[i + 1..k] == cs[i + 1..k - 1] + [cs[k - 1]];
    }
  }

  lemma FirstOfRange(cs: seq<Case>, i: nat, k: nat)
    requires i < k <= |cs|
    ensures multiset(cs[i..k]) == multiset{cs[i]} + multiset(cs[i + 1..k])
  {
    assert cs[i..k] == [cs[i]] + cs[i + 1..k];
  }

  lemma DeactivatedTail(cs: seq<Case>, k: nat, i: nat)
    requires 1 <= i < k <= |cs|
    ensures multiset(Deactivate(cs, k, i)[k - 1..]) == multiset{cs[i]} + multiset(cs[k..])
  {
    assert Deactivate(cs, k, i)[k - 1..] == [cs[i]] + cs[k..];
  }

  lemma DeactivatedPrefix(cs: seq<Case>, k: nat, i: nat)
    requires 1 <= i < k <= |cs|
    ensures multiset(Deactivate(cs, k, i)[1..k - 1]) == multiset(cs[1..k]) - multiset{cs[i]}
  {
    var last, r, front := cs[k - 1], Deactivate(cs, k, i), cs[1..k - 1];
    assert cs[1..k] == front + [last];
    assert multiset(cs[1..k]) == multiset(front) + multiset{last};
    if i < k - 1 {
      assert r[1..k - 1] == front[i - 1 := last];
      UpdateMultiset(front, i - 1, last);
      assert front[i - 1] == cs[i];
    } else {
      assert r[1..k - 1] == front;
    }
  }

  lemma UpdateMultiset(s: seq<Case>, j: nat, c: Case)
    requires j < |s|
    ensures multiset(s[j := c]) == multiset(s) + multiset{c} - multiset{s[j]}
  {
    assert s == s[..j] + [s[j]] + s[j + 1..];
    assert s[j := c] == s[..j] + [c] + s[j + 1..];
  }

  lemma SplitMultiset(cs: seq<Case>, k: nat)
    requires 1 <= k <= |cs|
    ensures multiset(cs[1..]) == multiset(cs[1..k]) + multiset(cs[k..])
  {
    assert cs[1..] == cs[1..k] + cs[k..];
  }

  /** `caseList.find` on the first `n` cells of the backing array. */
  method FindIn(a: array<Case>, n: nat, ch: Channel) returns (index: int)
    requires n <= a.Length
    ensures index == Find(a[..n], ch)
  {
    for i := 0 to n
      invariant Subscriber(ch) !in a[..i]
    {
      if a[i] == Subscriber(ch) {
        FirstIsFind(a[..n], ch, i);
        assert a[..n][..i] == a[..i];
        return i;
      }
    }
    return -1;
  }

  lemma FirstIsFind(cs: seq<Case>, ch: Channel, i: nat)
    requires i < |cs| && cs[i] == Subscriber(ch) && Subscriber(ch) !in cs[..i]
    ensures Find(cs, ch) == i
  {
    assert Find(cs, ch) <= i;
  }

  /** `caseList.delete`: shift the cells after `index` down by one, in place. */
  method DeleteIn(a: array<Case>, n: nat, index: nat)
    requires index < n <= a.Length
    modifies a
    ensures a[..n - 1] == Delete(old(a[..n]), index)
  {
    for j := index to n - 1
      invariant forall x :: 0 <= x < index || j <= x < n ==> a[x] == old(a[x])
      invariant forall x :: index <= x < j ==> a[x] == old(a[x + 1])
    {
      a[j] := a[j + 1];
    }
    ghost var was := old(a[..n]);
    forall x | 0 <= x < n - 1
      ensures a[x] == Delete(was, index)[x]
    {
      assert a[x] == if x < index then was[x] else was[x + 1];
    }
  }

  /** `caseList.deactivate`: swap in place with the end of the active prefix. */
  method DeactivateIn(a: array<Case>, n: nat, k: nat, index: nat)
    requires index < k <= n <= a.Length
    modifies a
    ensures a[..n] == Deactivate(old(a[..n]), k, index)
  {
    a[index], a[k - 1] := a[k - 1], a[index];
  }
}
