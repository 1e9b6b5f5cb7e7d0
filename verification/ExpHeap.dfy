/** The expiry heap of the peer-to-peer layer. Go's container/heap is taken at its contract: the
    least expiry is first after every push and pop, the arrangement of the rest is arbitrary. */
module ExpHeap {

  type Time = int
  type Key = nat

  datatype ExpItem = ExpItem(item: Key, exp: Time)

  predicate MinFirst(h: seq<ExpItem>) {
    forall i :: 0 <= i < |h| ==> h[0].exp <= h[i].exp
  }

  /** Some arrangement with the minimum first exists. */
  lemma {:induction false} ArrangementExists(h: seq<ExpItem>) returns (a: seq<ExpItem>)
    ensures multiset(a) == multiset(h) && MinFirst(a)
  {
    if |h| <= 1 {
      a := h;
    } else {
      var b := ArrangementExists(h[1..]);
      assert h == [h[0]] + h[1..];
      SameLength(b, h[1..]);
      a := if h[0].exp <= b[0].exp then [h[0]] + b else b + [h[0]];
    }
  }

  lemma SameLength(a: seq<ExpItem>, b: seq<ExpItem>)
    requires multiset(a) == multiset(b)
    ensures |a| == |b|
  {
    assert |multiset(a)| == |a| && |multiset(b)| == |b|;
  }

  lemma SameMembers(a: seq<ExpItem>, b: seq<ExpItem>)
    requires multiset(a) == multiset(b)
    ensures forall x :: x in a <==> x in b
  {
    forall x
      ensures x in a <==> x in b
    {
      assert x in a <==> x in multiset(a);
      assert x in b <==> x in multiset(b);
    }
  }

  /** The popped items are in order of expiry, and none expires after an item still there. */
  ghost predicate Drained(popped: seq<ExpItem>, rest: seq<ExpItem>) {
    && (forall i, j :: 0 <= i < j < |popped| ==> popped[i].exp <= popped[j].exp)
    && (forall i, j :: 0 <= i < |popped| && 0 <= j < |rest| ==> popped[i].exp <= rest[j].exp)
  }

  lemma DrainOne(popped: seq<ExpItem>, before: seq<ExpItem>, x: ExpItem, rest: seq<ExpItem>)
    requires Drained(popped, before) && before != [] && x == before[0] && MinFirst(before)
    requires multiset(before) == multiset(rest + [x])
    ensures Drained(popped + [x], rest)
  {
    SameMembers(before, rest + [x]);
    forall j | 0 <= j < |rest|
      ensures x.exp <= rest[j].exp && forall i :: 0 <= i < |popped| ==> popped[i].exp <= rest[j].exp
    {
      assert (rest + [x])[j] == rest[j];
      assert rest[j] in before;
      var k :| 0 <= k < |before| && before[k] == rest[j];
    }
  }

  class ExpHeap {
    var items: seq<ExpItem>

    ghost predicate Valid()
      reads this
    {
      MinFirst(items)
    }

    constructor ()
      ensures Valid() && items == []
    {
      items := [];
    }

    /** `nextExpiry`: a lower bound of all expiry times. */
    function NextExpiry(): (t: Time)
      requires Valid() && items != []
      reads this
      ensures forall i :: 0 <= i < |items| ==> t <= items[i].exp
    {
      items[0].exp
    }

    method Add(item: Key, exp: Time)
      requires Valid()
      modifies this
      ensures Valid()
      ensures multiset(items) == old(multiset(items)) + multiset{ExpItem(item, exp)}
    {
      ghost var w := ArrangementExists(items + [ExpItem(item, exp)]);
      var arranged :| multiset(arranged) == multiset(items + [ExpItem(item, exp)]) && MinFirst(arranged);
      items := arranged;
    }

    /** `heap.Pop`: takes out an item of least expiry. */
    method Pop() returns (x: ExpItem)
      requires Valid() && items != []
      modifies this
      ensures Valid()
      ensures x == old(items)[0]
      ensures old(multiset(items)) == multiset(items) + multiset{x}
    {
      x := items[0];
      ghost var w := ArrangementExists(items[1..]);
      assert items == [items[0]] + items[1..];
      var arranged :| multiset(arranged) == multiset(items[1..]) && MinFirst(arranged);
      items := arranged;
    }

    method Contains(item: Key) returns (found: bool)
      ensures found <==> exists x :: x in items && x.item == item
    {
      for i := 0 to |items|
        invariant forall j :: 0 <= j < i ==> items[j].item != item
      {
        if items[i].item == item {
          return true;
        }
      }
      return false;
    }

    /** `expire`: pops exactly the items that expired before `now`, in order of expiry. */
    method Expire(now: Time) returns (popped: seq<ExpItem>)
      requires Valid()
      modifies this
      ensures Valid()
      ensures old(multiset(items)) == multiset(popped) + multiset(items)
      ensures forall x :: x in popped ==> x.exp < now
      ensures forall x :: x in items ==> x.exp >= now
      ensures forall i, j :: 0 <= i < j < |popped| ==> popped[i].exp <= popped[j].exp
    {
      popped := [];
      while |items| > 0 && NextExpiry() < now
        invariant Valid()
        invariant old(multiset(items)) == multiset(popped) + multiset(items)
        invariant forall x :: x in popped ==> x.exp < now
        invariant Drained(popped, items)
        decreases |items|
      {
        ghost var before := items;
        var x := Pop();
        SameLength(before, items + [x]);
        DrainOne(popped, before, x, items);
        popped := popped + [x];
      }
      assert |items| > 0 ==> forall i :: 0 <= i < |items| ==> items[i].exp >= now;
    }
  }
}
