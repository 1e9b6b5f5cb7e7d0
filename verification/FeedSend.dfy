/** One Send call as the in-place loop it is: `cases` is a shrinking prefix of the array behind
    `sendCases`, successful sends are swapped past its end, and unsubscriptions received by the
    select delete from the same array. Which channel is ready, and who unsubscribes, is arbitrary. */
module FeedSend {
  import opened Common
  import opened CaseList
  import opened FeedProtocol

  const FIRST_SUB_SEND_CASE: nat := 1

  class Feed {
    var buf: array<Case>
    var len: nat
    var inbox: seq<Case>
    var etype: Option<ElemType>

    ghost predicate Valid()
      reads this, buf
    {
      && len <= buf.Length
      && WellFormed(buf[..len])
      && RemoveSub !in inbox
    }

    /** The subscriber cases of sendCases. */
    ghost function Subscribers(): multiset<Case>
      reads this, buf
      requires Valid()
    {
      multiset(buf[1..len])
    }

    constructor ()
      ensures Valid() && fresh(buf)
      ensures Subscribers() == multiset{} && inbox == [] && etype == None
    {
      buf := new Case[1](_ => RemoveSub);
      len, inbox, etype := 1, [], None;
    }

    method Typecheck(typ: ElemType) returns (ok: bool)
      modifies `etype
      ensures ok <==> old(etype) == None || old(etype) == Some(typ)
      ensures etype == if old(etype) == None then Some(typ) else old(etype)
    {
      if etype == None {
        etype := Some(typ);
        return true;
      }
      return etype.value == typ;
    }

    /** `append(f.sendCases, f.inbox...)`. */
    method MergeInbox()
      requires Valid()
      modifies this`buf, this`len, this`inbox
      ensures Valid() && fresh(buf)
      ensures Subscribers() == old(Subscribers()) + multiset(old(inbox))
      ensures inbox == []
    {
      var n := len + |inbox|;
      var all := buf[..len] + inbox;
      assert all[1..] == buf[1..len] + inbox;
      buf := new Case[n](i requires 0 <= i < n => all[i]);
      len, inbox := n, [];
      assert buf[..n] == all;
      assert buf[1..n] == all[1..];
    }

    /** One successful send to active case `i`. */
    method DeliverTo(d: SendRecord, i: nat, next: nat) returns (d': SendRecord)
      requires Valid() && d.phase != Locked && SendOk(d, buf[..len]) && 1 <= i < d.active && 1 <= next
      modifies buf
      ensures Valid() && SendOk(d', buf[..len])
      ensures d' == Delivered(d, old(buf[i]), next)
    {
      DeliverSendOk(d, buf[..len], i, next);
      DeactivateKeepsForm(buf[..len], d.active, i);
      d' := Delivered(d, buf[i], next);
      DeactivateIn(buf, len, d.active, i);
    }

    /** The select received the unsubscription of `ch`. */
    method RemoveDuringSend(d: SendRecord, ch: Channel) returns (d': SendRecord)
      requires Valid() && d.phase != Locked && SendOk(d, buf[..len]) && Subscriber(ch) in buf[..len]
      modifies buf, this`len
      ensures Valid() && len == old(len) - 1
      ensures d' == Removed(d, Subscriber(ch), Find(old(buf[..len]), ch)) && SendOk(d', buf[..len])
    {
      var index := FindIn(buf, len, ch);
      RemoveKeeps(d, buf[..len], ch);
      d' := Removed(d, Subscriber(ch), index);
      DeleteCase(index);
    }

    method DeleteCase(index: nat)
      requires index < len <= buf.Length
      modifies buf, this`len
      ensures len == old(len) - 1 && buf[..len] == Delete(old(buf[..len]), index)
    {
      DeleteIn(buf, len, index);
      len := len - 1;
    }

    /** Fast path: offer the value once to every active case; `if *` is whether the channel takes it. */
    method TryAll(d: SendRecord) returns (d': SendRecord, ghost offers: nat)
      requires Valid() && d.phase != Locked && SendOk(d, buf[..len])
      modifies buf
      ensures Valid() && SendOk(d', buf[..len]) && d'.phase != Locked
      ensures d'.active <= d.active && offers == d.active - 1
      ensures (d'.merged, d'.dropped, d'.late) == (d.merged, d.dropped, d.late)
    {
      offers := 0;
      d' := d.(i := FIRST_SUB_SEND_CASE, phase := Trying);
      while d'.i < d'.active
        invariant Valid() && SendOk(d', buf[..len]) && d'.phase == Trying
        invariant d'.i <= d'.active <= d.active && offers + d'.active - d'.i == d.active - 1
        invariant (d'.merged, d'.dropped, d'.late) == (d.merged, d.dropped, d.late)
        decreases d'.active - d'.i
      {
        if * {
          d' := DeliverTo(d', d'.i, d'.i);
        } else {
          d' := d'.(i := d'.i + 1);
        }
        offers := offers + 1;
      }
    }

    /** One blocking select: some active subscriber takes the value or someone unsubscribes. */
    method SelectRound(d: SendRecord) returns (d': SendRecord)
      requires Valid() && d.phase != Locked && SendOk(d, buf[..len]) && 1 < d.active
      modifies buf, this`len
      ensures Valid() && SendOk(d', buf[..len]) && d'.phase != Locked && d'.merged == d.merged
      ensures d'.active + len < d.active + old(len)
    {
      if * {
        var chosen: nat :| 1 <= chosen < d.active;
        d' := DeliverTo(d, chosen, 1);
      } else {
        assert buf[..len][1] == buf[..len][1..][0];
        assert Subscriber(buf[1].ch) in buf[..len];
        var ch: Channel :| Subscriber(ch) in buf[..len];
        d' := RemoveDuringSend(d, ch);
      }
    }

    /** Send until every active case is served or gone. */
    method SendLoop(d0: SendRecord) returns (d: SendRecord)
      requires Valid() && d0.phase != Locked && SendOk(d0, buf[..len])
      modifies buf, this`len
      ensures Valid() && SendOk(d, buf[..len]) && d.phase != Locked && d.active == 1 && d.merged == d0.merged
    {
      d := d0;
      while true
        invariant Valid() && SendOk(d, buf[..len]) && d.phase != Locked && d.merged == d0.merged
        decreases d.active + len
      {
        ghost var offers;
        d, offers := TryAll(d);
        if d.active == FIRST_SUB_SEND_CASE {
          break;
        }
        d := SelectRound(d);
      }
    }

    /** `Send`: returns the number of deliveries, or None when the value has the wrong type. */
    method Send(typ: ElemType) returns (nsent: Option<nat>, d: SendRecord)
      requires Valid()
      modifies this, buf
      ensures Valid() && inbox == []
      ensures nsent == None <==> old(etype) != None && old(etype) != Some(typ)
      ensures nsent == None ==> Subscribers() == old(Subscribers() + multiset(inbox))
      ensures nsent.Some? ==>
                && d.merged == old(Subscribers() + multiset(inbox))
                && FinishedOk(d)
                && nsent.value == |d.delivered|
                && d.merged == Subscribers() + d.dropped + d.late
    {
      MergeInbox();
      d := Start(buf[..len]);
      StartOk(buf[..len]);
      assert buf[..len][1..] == buf[1..len];
      var ok := Typecheck(typ);
      if !ok {
        return None, d;
      }
      d := SendLoop(d);
      nsent := Some(d.nsent);
      FinishedSend(d, buf[..len]);
      assert buf[..len][1..] == buf[1..len];
    }
  }

  function Start(cs: seq<Case>): SendRecord
    requires |cs| >= 1
  {
    SendRecord(Trying, FIRST_SUB_SEND_CASE, |cs|, 0, multiset(cs[1..]), multiset{}, multiset{}, multiset{})
  }

  lemma StartOk(cs: seq<Case>)
    requires |cs| >= 1
    ensures SendOk(Start(cs), cs)
  {
    assert cs[1..|cs|] == cs[1..] && cs[|cs|..] == [];
  }

  /** With nothing left to serve, the list is the starting list without the removed cases. */
  lemma FinishedSend(d: SendRecord, cs: seq<Case>)
    requires SendOk(d, cs) && d.phase != Locked && d.active == 1
    ensures FinishedOk(d)
    ensures d.merged == multiset(cs[1..]) + d.dropped + d.late
  {
    assert cs[1..1] == [];
  }

  lemma DeactivateKeepsForm(cs: seq<Case>, k: nat, i: nat)
    requires WellFormed(cs) && 1 <= i < k <= |cs|
    ensures WellFormed(Deactivate(cs, k, i))
  {
    var r := Deactivate(cs, k, i);
    assert forall j :: 1 <= j < |cs| ==> cs[j] == cs[1..][j - 1];
    assert forall j :: 1 <= j < |r| ==> r[j] != RemoveSub;
  }

  lemma RemoveKeeps(d: SendRecord, cs: seq<Case>, ch: Channel)
    requires d.phase != Locked && SendOk(d, cs) && WellFormed(cs) && Subscriber(ch) in cs
    ensures 1 <= Find(cs, ch)
    ensures WellFormed(Delete(cs, Find(cs, ch)))
    ensures SendOk(Removed(d, Subscriber(ch), Find(cs, ch)), Delete(cs, Find(cs, ch)))
  {
    RemoveSendOk(d, cs, Find(cs, ch));
    DeleteKeepsForm(cs, Find(cs, ch));
  }

  lemma DeleteKeepsForm(cs: seq<Case>, i: nat)
    requires WellFormed(cs) && 1 <= i < |cs|
    ensures WellFormed(Delete(cs, i))
  {
    var r := Delete(cs, i);
    assert forall j :: 1 <= j < |cs| ==> cs[j] == cs[1..][j - 1];
    assert forall j :: 1 <= j < |r| ==> r[j] != RemoveSub;
  }
}
