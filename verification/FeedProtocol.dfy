/** Concurrent Subscribe / Send / Unsubscribe on one event feed, as a state machine whose steps
    are the atomic actions of the goroutines (one critical section, one channel operation). */
module FeedProtocol {
  import opened Common
  import opened CaseList

  type SubId = nat
  type ElemType = nat

  /** Where a subscription is: subscribed; past the inbox check of `remove` and waiting in its
      select; holding the send lock inside `remove`; or removed. */
  datatype SubPhase = Live | Waiting | Holding | Gone
  datatype Sub = Sub(ch: Channel, phase: SubPhase)

  /** Program counter of the goroutine inside Send. */
  datatype SendPhase = Locked | Trying | Selecting

  /** Local state of the running Send. `merged` is the subscriber list it started from, `delivered`
      what it has sent to, `dropped` and `late` what was unsubscribed before and after delivery. */
  datatype SendRecord = SendRecord(phase: SendPhase, i: nat, active: nat, nsent: nat,
                                   merged: multiset<Case>, delivered: multiset<Case>,
                                   dropped: multiset<Case>, late: multiset<Case>)

  datatype State = State(inbox: seq<Case>, sendCases: seq<Case>, tokens: nat, etype: Option<ElemType>,
                         subs: map<SubId, Sub>, send: Option<SendRecord>, finished: seq<SendRecord>, panicked: bool)

  datatype Step =
    | Subscribe(id: SubId, ch: Channel, typ: ElemType)
    | UnsubscribeInInbox(id: SubId)
    | UnsubscribeWait(id: SubId)
    | UnsubscribeLock(id: SubId)
    | UnsubscribeDelete(id: SubId)
    | SendLock
    | SendMerge(typ: ElemType)
    | TrySend(ok: bool)
    | TryDone
    | SelectSend(j: nat)
    | SelectRemove(id: SubId)

  const Init := State([], [RemoveSub], 1, None, map[], None, [], false)

  predicate Typechecks(s: State, typ: ElemType) {
    s.etype.None? || s.etype.value == typ
  }

  predicate InPhase(s: State, id: SubId, p: SubPhase) {
    id in s.subs && s.subs[id].phase == p
  }

  predicate Sending(s: State, p: SendPhase) {
    s.send.Some? && s.send.value.phase == p
  }

  /** When the scheduler may take a step. */
  predicate Enabled(s: State, l: Step) {
    match l
    case Subscribe(id, ch, typ) => id !in s.subs && Typechecks(s, typ)
    case UnsubscribeInInbox(id) => InPhase(s, id, Live) && Subscriber(s.subs[id].ch) in s.inbox
    case UnsubscribeWait(id) => InPhase(s, id, Live) && Subscriber(s.subs[id].ch) !in s.inbox
    case UnsubscribeLock(id) => InPhase(s, id, Waiting) && s.tokens > 0
    case UnsubscribeDelete(id) => InPhase(s, id, Holding)
    case SendLock => s.send.None? && s.tokens > 0
    case SendMerge(typ) => Sending(s, Locked)
    case TrySend(ok) => Sending(s, Trying) && s.send.value.i < s.send.value.active <= |s.sendCases|
    case TryDone => Sending(s, Trying) && s.send.value.i >= s.send.value.active
    case SelectSend(j) => Sending(s, Selecting) && 1 <= j < s.send.value.active <= |s.sendCases|
    case SelectRemove(id) => Sending(s, Selecting) && s.send.value.active > 1 && InPhase(s, id, Waiting)
  }

  function SetPhase(s: State, id: SubId, p: SubPhase): State
    requires id in s.subs
  {
    s.(subs := s.subs[id := s.subs[id].(phase := p)])
  }

  /** `f.sendCases = f.sendCases.delete(f.sendCases.find(ch))`: slicing at -1 panics. */
  function DeleteChannel(s: State, ch: Channel): State {
    var index := Find(s.sendCases, ch);
    if index == -1 then s.(panicked := true) else s.(sendCases := Delete(s.sendCases, index))
  }

  /** The record after one successful send to case `c`. */
  function Delivered(d: SendRecord, c: Case, i: nat): SendRecord
    requires d.active >= 1
  {
    d.(phase := Trying, i := i, active := d.active - 1, nsent := d.nsent + 1, delivered := d.delivered + multiset{c})
  }

  /** The record after the unsubscription of the case at `index` has been served. */
  function Removed(d: SendRecord, c: Case, index: nat): SendRecord
    requires d.active >= 1
  {
    if index < d.active then d.(phase := Trying, i := 1, active := d.active - 1, dropped := d.dropped + multiset{c})
    else d.(phase := Trying, i := 1, late := d.late + multiset{c})
  }

  /** A successful send to case `j` of the active prefix. */
  function Deliver(s: State, j: nat, i: nat): State
    requires s.send.Some? && j < s.send.value.active <= |s.sendCases|
  {
    var d := s.send.value;
    s.(sendCases := Deactivate(s.sendCases, d.active, j), send := Some(Delivered(d, s.sendCases[j], i)))
  }

  /** The select chose removeSub: drop the first case of `ch`, shrinking the prefix if it was active. */
  function ServeRemoval(s: State, ch: Channel): State
    requires s.send.Some? && s.send.value.active >= 1
  {
    var index := Find(s.sendCases, ch);
    if index == -1 then s.(panicked := true)
    else DeleteChannel(s, ch).(send := Some(Removed(s.send.value, Subscriber(ch), index)))
  }

  function Release(s: State): State {
    s.(tokens := s.tokens + 1)
  }

  function Apply(s: State, l: Step): State
    requires Enabled(s, l)
  {
    match l
    case Subscribe(id, ch, typ) =>
      s.(inbox := s.inbox + [Subscriber(ch)], subs := s.subs[id := Sub(ch, Live)], etype := Some(typ))
    case UnsubscribeInInbox(id) =>
      SetPhase(s, id, Gone).(inbox := Delete(s.inbox, Find(s.inbox, s.subs[id].ch)))
    case UnsubscribeWait(id) => SetPhase(s, id, Waiting)
    case UnsubscribeLock(id) => SetPhase(s, id, Holding).(tokens := s.tokens - 1)
    case UnsubscribeDelete(id) => Release(DeleteChannel(SetPhase(s, id, Gone), s.subs[id].ch))
    case SendLock =>
      s.(tokens := s.tokens - 1,
         send := Some(SendRecord(Locked, 1, 1, 0, multiset{}, multiset{}, multiset{}, multiset{})))
    case SendMerge(typ) =>
      var cs := s.sendCases + s.inbox;
      var s' := s.(sendCases := cs, inbox := []);
      if !Typechecks(s, typ) then Release(s'.(send := None))
      else s'.(etype := Some(typ),
               send := Some(SendRecord(Trying, 1, |cs|, 0, multiset(if cs == [] then [] else cs[1..]), multiset{}, multiset{}, multiset{})))
    case TrySend(ok) =>
      var d := s.send.value;
      if ok then Deliver(s, d.i, d.i) else s.(send := Some(d.(i := d.i + 1)))
    case TryDone =>
      var d := s.send.value;
      if d.active == 1 then Release(s.(send := None, finished := s.finished + [d]))
      else s.(send := Some(d.(phase := Selecting)))
    case SelectSend(j) => Deliver(s, j, 1)
    case SelectRemove(id) => ServeRemoval(SetPhase(s, id, Gone), s.subs[id].ch)
  }

  /** A schedule is a run when every step is enabled where it is taken. */
  predicate IsRun(s: State, run: seq<Step>)
    decreases |run|
  {
    run == [] || (Enabled(s, run[0]) && IsRun(Apply(s, run[0]), run[1..]))
  }

  function After(s: State, run: seq<Step>): State
    requires IsRun(s, run)
    decreases |run|
  {
    if run == [] then s else After(Apply(s, run[0]), run[1..])
  }

  // ---------------------------------------------------------------------------------------------
  // Invariant

  function Subscribed(s: State, ch: Channel): set<SubId> {
    set id | id in s.subs && s.subs[id].ch == ch && s.subs[id].phase != Gone
  }

  /** Unsubscribers of `ch` that have left the inbox check and will delete from sendCases. */
  function Removers(s: State, ch: Channel): set<SubId> {
    set id | id in s.subs && s.subs[id].ch == ch && (s.subs[id].phase == Waiting || s.subs[id].phase == Holding)
  }

  function Holders(s: State): set<SubId> {
    set id | id in s.subs && s.subs[id].phase == Holding
  }

  /** Occurrences in inbox and sendCases equal live subscriptions, and every remover waiting at the
      select has a case of its own in sendCases. */
  predicate ChannelOk(s: State, ch: Channel) {
    && |Subscribed(s, ch)| == multiset(s.inbox)[Subscriber(ch)] + multiset(s.sendCases)[Subscriber(ch)]
    && |Removers(s, ch)| <= multiset(s.sendCases)[Subscriber(ch)]
  }

  ghost predicate Accounted(s: State) {
    && WellFormed(s.sendCases)
    && RemoveSub !in s.inbox
    && forall ch: Channel :: ChannelOk(s, ch)
  }

  /** One token: in the buffer, with the sender, or with one unsubscriber. */
  predicate OneToken(s: State) {
    s.tokens + (if s.send.Some? then 1 else 0) + |Holders(s)| == 1
  }

  /** `a` is still to be served, `t` has been served and is still subscribed. */
  predicate Balanced(d: SendRecord, a: multiset<Case>, t: multiset<Case>) {
    && d.merged == a + d.dropped + d.delivered
    && d.delivered == t + d.late
    && d.nsent == |d.delivered|
  }

  /** The running send: delivered and still-active cases partition what it started from. */
  predicate SendOk(d: SendRecord, cs: seq<Case>) {
    d.phase != Locked ==>
      && 1 <= d.i && 1 <= d.active <= |cs|
      && (d.phase == Selecting ==> 1 < d.active)
      && Balanced(d, multiset(cs[1..d.active]), multiset(cs[d.active..]))
  }

  /** What a finished Send promises: nobody is skipped except by unsubscribing, nobody outside the
      starting list is served, and the result counts the deliveries. */
  predicate FinishedOk(d: SendRecord) {
    && d.merged == d.dropped + d.delivered
    && d.late <= d.delivered
    && d.nsent == |d.delivered|
  }

  ghost predicate Inv(s: State) {
    && !s.panicked
    && Accounted(s)
    && OneToken(s)
    && (s.send.Some? ==> SendOk(s.send.value, s.sendCases))
    && (forall d :: d in s.finished ==> FinishedOk(d))
  }

  // ---------------------------------------------------------------------------------------------
  // Bookkeeping lemmas

  function With(ids: set<SubId>, id: SubId, present: bool): set<SubId> {
    if present then ids + {id} else ids - {id}
  }

  /** A phase change moves one subscription in and out of the counted sets of its own channel only. */
  lemma PhaseCounts(s: State, s': State, id: SubId, p: SubPhase, c: Channel)
    requires id in s.subs && s'.subs == SetPhase(s, id, p).subs
    ensures Subscribed(s', c) == if c == s.subs[id].ch then With(Subscribed(s, c), id, p != Gone) else Subscribed(s, c)
    ensures Removers(s', c) ==
            if c == s.subs[id].ch then With(Removers(s, c), id, p == Waiting || p == Holding) else Removers(s, c)
    ensures Holders(s') == With(Holders(s), id, p == Holding)
  {
  }

  lemma DeleteCounts(cs: seq<Case>, i: nat)
    requires i < |cs|
    ensures multiset(Delete(cs, i)) == multiset(cs) - multiset{cs[i]}
  {
    assert cs == cs[..i] + [cs[i]] + cs[i + 1..];
  }

  lemma DeactivateCounts(cs: seq<Case>, k: nat, i: nat)
    requires 1 <= i < k <= |cs|
    ensures multiset(Deactivate(cs, k, i)) == multiset(cs)
  {
    var swapped := cs[i := cs[k - 1]];
    UpdateMultiset(cs, i, cs[k - 1]);
    UpdateMultiset(swapped, k - 1, cs[i]);
  }

  lemma WellFormedCounts(cs: seq<Case>)
    requires |cs| >= 1
    ensures WellFormed(cs) <==> cs[0] == RemoveSub && multiset(cs)[RemoveSub] == 1
    ensures multiset(cs) == multiset{cs[0]} + multiset(cs[1..])
  {
    assert cs == [cs[0]] + cs[1..];
  }

  /** A remover past the inbox check always finds a case to delete. */
  lemma RemoverHasCase(s: State, id: SubId)
    requires Accounted(s)
    requires InPhase(s, id, Waiting) || InPhase(s, id, Holding)
    ensures 1 <= Find(s.sendCases, s.subs[id].ch)
  {
    var ch := s.subs[id].ch;
    assert ChannelOk(s, ch);
    assert id in Removers(s, ch);
    assert |Removers(s, ch)| >= |{id}| by { SubsetCard({id}, Removers(s, ch)); }
    assert multiset(s.sendCases)[Subscriber(ch)] >= 1;
  }

  // ---------------------------------------------------------------------------------------------
  // Accounted is kept by every step

  lemma SubscribeAccounted(s: State, id: SubId, ch: Channel, typ: ElemType)
    requires Accounted(s) && Enabled(s, Subscribe(id, ch, typ))
    ensures Accounted(Apply(s, Subscribe(id, ch, typ)))
  {
    var s' := Apply(s, Subscribe(id, ch, typ));
    forall c: Channel
      ensures ChannelOk(s', c)
    {
      assert ChannelOk(s, c);
      NewSubCounts(s, s', id, ch, c);
      AppendCounts(s.inbox, Subscriber(ch), Subscriber(c));
    }
  }

  lemma NewSubCounts(s: State, s': State, id: SubId, ch: Channel, c: Channel)
    requires id !in s.subs && s'.subs == s.subs[id := Sub(ch, Live)]
    ensures |Subscribed(s', c)| == |Subscribed(s, c)| + if c == ch then 1 else 0
    ensures Removers(s', c) == Removers(s, c)
    ensures Holders(s') == Holders(s)
  {
    assert Subscribed(s', c) == if c == ch then Subscribed(s, c) + {id} else Subscribed(s, c);
    assert id !in Subscribed(s, c);
  }

  lemma AppendCounts(cs: seq<Case>, c: Case, x: Case)
    ensures multiset(cs + [c])[x] == multiset(cs)[x] + if x == c then 1 else 0
  {
  }

  lemma UnsubscribeInInboxAccounted(s: State, id: SubId)
    requires Accounted(s) && Enabled(s, UnsubscribeInInbox(id))
    ensures Accounted(Apply(s, UnsubscribeInInbox(id)))
  {
    var s' := Apply(s, UnsubscribeInInbox(id));
    DeleteCounts(s.inbox, Find(s.inbox, s.subs[id].ch));
    forall c: Channel
      ensures ChannelOk(s', c)
    {
      assert ChannelOk(s, c);
      PhaseCounts(s, s', id, Gone, c);
      assert id !in Removers(s, c);
      assert c == s.subs[id].ch ==> id in Subscribed(s, c);
    }
  }

  /** Leaving the inbox check with an empty inbox count leaves enough cases for all removers. */
  lemma UnsubscribeWaitAccounted(s: State, id: SubId)
    requires Accounted(s) && Enabled(s, UnsubscribeWait(id))
    ensures Accounted(Apply(s, UnsubscribeWait(id)))
  {
    var s' := Apply(s, UnsubscribeWait(id));
    forall c: Channel
      ensures ChannelOk(s', c)
    {
      assert ChannelOk(s, c);
      PhaseCounts(s, s', id, Waiting, c);
      if c == s.subs[id].ch {
        assert id in Subscribed(s, c);
        assert Subscribed(s', c) == Subscribed(s, c);
        SubsetCard(Removers(s', c), Subscribed(s', c));
      }
    }
  }

  lemma UnsubscribeLockAccounted(s: State, id: SubId)
    requires Accounted(s) && Enabled(s, UnsubscribeLock(id))
    ensures Accounted(Apply(s, UnsubscribeLock(id)))
  {
    var s' := Apply(s, UnsubscribeLock(id));
    forall c: Channel
      ensures ChannelOk(s', c)
    {
      assert ChannelOk(s, c);
      PhaseCounts(s, s', id, Holding, c);
      assert Subscribed(s', c) == Subscribed(s, c) && Removers(s', c) == Removers(s, c);
    }
  }

  /** A served removal takes the remover and one case of its channel away together. */
  lemma RemovalAccounted(s: State, s': State, id: SubId)
    requires Accounted(s)
    requires InPhase(s, id, Waiting) || InPhase(s, id, Holding)
    requires s'.subs == SetPhase(s, id, Gone).subs && s'.inbox == s.inbox
    requires 1 <= Find(s.sendCases, s.subs[id].ch)
    requires s'.sendCases == Delete(s.sendCases, Find(s.sendCases, s.subs[id].ch))
    ensures Accounted(s')
  {
    DeleteCounts(s.sendCases, Find(s.sendCases, s.subs[id].ch));
    WellFormedCounts(s.sendCases);
    WellFormedCounts(s'.sendCases);
    forall c: Channel
      ensures ChannelOk(s', c)
    {
      assert ChannelOk(s, c);
      RemovalChannelOk(s, s', id, c);
    }
  }

  lemma RemovalChannelOk(s: State, s': State, id: SubId, c: Channel)
    requires ChannelOk(s, c)
    requires InPhase(s, id, Waiting) || InPhase(s, id, Holding)
    requires s'.subs == SetPhase(s, id, Gone).subs && s'.inbox == s.inbox
    requires multiset(s'.sendCases) == multiset(s.sendCases) - multiset{Subscriber(s.subs[id].ch)}
    requires Subscriber(s.subs[id].ch) in multiset(s.sendCases)
    ensures ChannelOk(s', c)
  {
    PhaseCounts(s, s', id, Gone, c);
    assert c == s.subs[id].ch ==> id in Subscribed(s, c) && id in Removers(s, c);
  }

  lemma SameSubsAccounted(s: State, s': State)
    requires Accounted(s)
    requires s'.subs == s.subs && |s'.sendCases| >= 1 && s'.sendCases[0] == RemoveSub
    requires multiset(s'.inbox) + multiset(s'.sendCases) == multiset(s.inbox) + multiset(s.sendCases)
    requires multiset(s.sendCases) <= multiset(s'.sendCases)
    ensures Accounted(s')
  {
    WellFormedCounts(s.sendCases);
    WellFormedCounts(s'.sendCases);
    forall c: Channel
      ensures ChannelOk(s', c)
    {
      assert ChannelOk(s, c);
      assert Subscribed(s', c) == Subscribed(s, c) && Removers(s', c) == Removers(s, c);
      assert (multiset(s'.inbox) + multiset(s'.sendCases))[Subscriber(c)] ==
             (multiset(s.inbox) + multiset(s.sendCases))[Subscriber(c)];
    }
    assert (multiset(s'.inbox) + multiset(s'.sendCases))[RemoveSub] == 1;
    assert multiset(s.sendCases)[RemoveSub] == 1;
    assert multiset(s'.inbox)[RemoveSub] == 0;
  }

  // ---------------------------------------------------------------------------------------------
  // The running send

  lemma BalancedDeliver(d: SendRecord, d': SendRecord, a: multiset<Case>, t: multiset<Case>, c: Case)
    requires Balanced(d, a, t) && a[c] >= 1
    requires d'.delivered == d.delivered + multiset{c} && d'.nsent == d.nsent + 1
    requires d'.merged == d.merged && d'.dropped == d.dropped && d'.late == d.late
    ensures Balanced(d', a - multiset{c}, multiset{c} + t)
  {
    assert a == (a - multiset{c}) + multiset{c};
  }

  lemma BalancedDrop(d: SendRecord, d': SendRecord, a: multiset<Case>, t: multiset<Case>, c: Case)
    requires Balanced(d, a, t) && a[c] >= 1
    requires d'.dropped == d.dropped + multiset{c} && d'.nsent == d.nsent
    requires d'.merged == d.merged && d'.delivered == d.delivered && d'.late == d.late
    ensures Balanced(d', a - multiset{c}, t)
  {
    assert a == (a - multiset{c}) + multiset{c};
  }

  lemma BalancedLate(d: SendRecord, d': SendRecord, a: multiset<Case>, t: multiset<Case>, c: Case)
    requires Balanced(d, a, t) && t[c] >= 1
    requires d'.late == d.late + multiset{c} && d'.nsent == d.nsent
    requires d'.merged == d.merged && d'.delivered == d.delivered && d'.dropped == d.dropped
    ensures Balanced(d', a, t - multiset{c})
  {
    assert t == (t - multiset{c}) + multiset{c};
  }

  lemma DeliverSendOk(d: SendRecord, cs: seq<Case>, j: nat, i: nat)
    requires d.phase != Locked && SendOk(d, cs)
    requires 1 <= j < d.active && 1 <= i
    ensures SendOk(Delivered(d, cs[j], i), Deactivate(cs, d.active, j))
  {
    DeactivateIsMove(cs, d.active, j);
    MovedSendOk(d, cs, Deactivate(cs, d.active, j), cs[j], i);
  }

  /** `r` is `cs` with one copy of `c` moved across the end of the active prefix. */
  ghost predicate Moved(cs: seq<Case>, r: seq<Case>, k: nat, c: Case) {
    && 1 < k <= |cs| == |r|
    && multiset(cs[1..k])[c] >= 1
    && multiset(r[1..k - 1]) == multiset(cs[1..k]) - multiset{c}
    && multiset(r[k - 1..]) == multiset{c} + multiset(cs[k..])
  }

  lemma DeactivateIsMove(cs: seq<Case>, k: nat, j: nat)
    requires 1 <= j < k <= |cs|
    ensures Moved(cs, Deactivate(cs, k, j), k, cs[j])
  {
    DeactivateMoves(cs, k, j);
    ActiveCase(cs, k, j);
  }

  lemma MovedSendOk(d: SendRecord, cs: seq<Case>, r: seq<Case>, c: Case, i: nat)
    requires d.phase != Locked && SendOk(d, cs) && 1 <= i && Moved(cs, r, d.active, c)
    ensures SendOk(Delivered(d, c, i), r)
  {
    BalancedDeliver(d, Delivered(d, c, i), multiset(cs[1..d.active]), multiset(cs[d.active..]), c);
  }

  lemma ActiveCase(cs: seq<Case>, k: nat, j: nat)
    requires 1 <= j < k <= |cs|
    ensures multiset(cs[1..k])[cs[j]] >= 1
  {
    assert cs[j] == cs[1..k][j - 1];
  }

  lemma RemoveSendOk(d: SendRecord, cs: seq<Case>, index: nat)
    requires d.phase != Locked && SendOk(d, cs) && 1 <= index < |cs|
    ensures SendOk(Removed(d, cs[index], index), Delete(cs, index))
  {
    if index < d.active {
      DropSendOk(d, Removed(d, cs[index], index), cs, index);
    } else {
      LateSendOk(d, Removed(d, cs[index], index), cs, index);
    }
  }

  lemma DropSendOk(d: SendRecord, d': SendRecord, cs: seq<Case>, index: nat)
    requires d.phase != Locked && SendOk(d, cs) && 1 <= index < d.active
    requires d' == d.(phase := Trying, i := 1, active := d.active - 1, dropped := d.dropped + multiset{cs[index]})
    ensures SendOk(d', Delete(cs, index))
  {
    DeleteActive(cs, d.active, index);
    ActiveCase(cs, d.active, index);
    BalancedDrop(d, d', multiset(cs[1..d.active]), multiset(cs[d.active..]), cs[index]);
  }

  lemma LateSendOk(d: SendRecord, d': SendRecord, cs: seq<Case>, index: nat)
    requires d.phase != Locked && SendOk(d, cs) && d.active <= index < |cs|
    requires d' == d.(phase := Trying, i := 1, late := d.late + multiset{cs[index]})
    ensures SendOk(d', Delete(cs, index))
  {
    DeleteDelivered(cs, d.active, index);
    assert Delete(cs, index)[1..d.active] == Delete(cs, index)[..d.active][1..] == cs[1..d.active];
    assert cs[index] == cs[d.active..][index - d.active];
    BalancedLate(d, d', multiset(cs[1..d.active]), multiset(cs[d.active..]), cs[index]);
  }

  lemma DeliverAccounted(s: State, j: nat, i: nat)
    requires Accounted(s) && s.send.Some? && 1 <= j < s.send.value.active <= |s.sendCases|
    ensures Accounted(Deliver(s, j, i))
  {
    DeactivateMoves(s.sendCases, s.send.value.active, j);
    DeactivateCounts(s.sendCases, s.send.value.active, j);
    SameSubsAccounted(s, Deliver(s, j, i));
  }

  lemma SelectRemoveKeepsInv(s: State, id: SubId)
    requires Inv(s) && Enabled(s, SelectRemove(id))
    ensures Inv(Apply(s, SelectRemove(id)))
  {
    var s' := Apply(s, SelectRemove(id));
    RemoverHasCase(s, id);
    RemovalAccounted(s, s', id);
    RemoveSendOk(s.send.value, s.sendCases, Find(s.sendCases, s.subs[id].ch));
    PhaseCounts(s, s', id, Gone, 0);
  }

  lemma MergeKeepsInv(s: State, typ: ElemType)
    requires Inv(s) && Enabled(s, SendMerge(typ))
    ensures Inv(Apply(s, SendMerge(typ)))
  {
    var s', cs := Apply(s, SendMerge(typ)), s.sendCases + s.inbox;
    assert multiset(cs) == multiset(s.sendCases) + multiset(s.inbox);
    SameSubsAccounted(s, s');
    assert cs[1..|cs|] == cs[1..] && cs[|cs|..] == [];
    assert Holders(s') == Holders(s);
  }

  /** The send starts from all subscriptions alive at that instant, and from nothing else. */
  lemma MergeTakesEverySubscription(s: State, typ: ElemType, ch: Channel)
    requires Inv(s) && Enabled(s, SendMerge(typ)) && Typechecks(s, typ)
    ensures Apply(s, SendMerge(typ)).send.value.merged[Subscriber(ch)] == |Subscribed(s, ch)|
  {
    assert ChannelOk(s, ch);
    var cs := s.sendCases + s.inbox;
    WellFormedCounts(cs);
    assert multiset(cs) == multiset(s.sendCases) + multiset(s.inbox);
    assert multiset(cs)[Subscriber(ch)] == multiset(cs[1..])[Subscriber(ch)];
  }

  // ---------------------------------------------------------------------------------------------
  // Every step keeps the invariant

  lemma SubscriptionStepKeepsInv(s: State, l: Step)
    requires Inv(s) && Enabled(s, l)
    requires l.Subscribe? || l.UnsubscribeInInbox? || l.UnsubscribeWait? || l.UnsubscribeLock? || l.UnsubscribeDelete?
    ensures Inv(Apply(s, l))
  {
    var s' := Apply(s, l);
    match l {
      case Subscribe(id, ch, typ) =>
        SubscribeAccounted(s, id, ch, typ);
        NewSubCounts(s, s', id, ch, ch);
      case UnsubscribeInInbox(id) =>
        UnsubscribeInInboxAccounted(s, id);
        PhaseCounts(s, s', id, Gone, 0);
      case UnsubscribeWait(id) =>
        UnsubscribeWaitAccounted(s, id);
        PhaseCounts(s, s', id, Waiting, 0);
      case UnsubscribeLock(id) =>
        UnsubscribeLockAccounted(s, id);
        PhaseCounts(s, s', id, Holding, 0);
      case UnsubscribeDelete(id) =>
        RemoverHasCase(s, id);
        RemovalAccounted(s, s', id);
        PhaseCounts(s, s', id, Gone, 0);
        assert id in Holders(s);
    }
  }

  lemma SendStepKeepsInv(s: State, l: Step)
    requires Inv(s) && Enabled(s, l)
    requires l.SendLock? || l.SendMerge? || l.TrySend? || l.TryDone? || l.SelectSend? || l.SelectRemove?
    ensures Inv(Apply(s, l))
  {
    var s' := Apply(s, l);
    if l.SelectRemove? {
      SelectRemoveKeepsInv(s, l.id);
    } else if l.SendMerge? {
      MergeKeepsInv(s, l.typ);
    } else {
      if l.SelectSend? || (l.TrySend? && l.ok) {
        var j := if l.SelectSend? then l.j else s.send.value.i;
        var i := if l.SelectSend? then 1 else j;
        DeliverAccounted(s, j, i);
        DeliverSendOk(s.send.value, s.sendCases, j, i);
      } else {
        SameSubsAccounted(s, s');
      }
      assert Holders(s') == Holders(s);
    }
  }

  lemma InitInv()
    ensures Inv(Init)
  {
    forall ch: Channel
      ensures ChannelOk(Init, ch)
    {
      assert Subscribed(Init, ch) == {} && Removers(Init, ch) == {};
    }
    assert Holders(Init) == {};
  }

  lemma {:induction false} RunKeepsInv(s: State, run: seq<Step>)
    requires Inv(s) && IsRun(s, run)
    ensures Inv(After(s, run))
    decreases |run|
  {
    if run == [] {
    } else {
      var l := run[0];
      if l.SendLock? || l.SendMerge? || l.TrySend? || l.TryDone? || l.SelectSend? || l.SelectRemove? {
        SendStepKeepsInv(s, l);
      } else {
        SubscriptionStepKeepsInv(s, l);
      }
      RunKeepsInv(Apply(s, l), run[1..]);
    }
  }

  // ---------------------------------------------------------------------------------------------
  // Main results

  /** In every reachable state of any schedule, a channel occurs in inbox and sendCases exactly as
      often as it has live subscriptions, no delete has sliced at -1, and there is one lock token. */
  lemma SubscriptionsAccountedFor(run: seq<Step>, ch: Channel)
    requires IsRun(Init, run)
    ensures var s := After(Init, run);
            && !s.panicked
            && |Subscribed(s, ch)| == multiset(s.inbox)[Subscriber(ch)] + multiset(s.sendCases)[Subscriber(ch)]
            && s.tokens + (if s.send.Some? then 1 else 0) + |Holders(s)| == 1
            && (forall id :: InPhase(s, id, Waiting) || InPhase(s, id, Holding) ==> Find(s.sendCases, s.subs[id].ch) != -1)
  {
    InitInv();
    RunKeepsInv(Init, run);
    var s := After(Init, run);
    assert ChannelOk(s, ch);
    forall id | InPhase(s, id, Waiting) || InPhase(s, id, Holding)
      ensures Find(s.sendCases, s.subs[id].ch) != -1
    {
      RemoverHasCase(s, id);
    }
  }

  /** Exactly-once delivery, for every schedule and every Send it finished: a case that was not
      unsubscribed meanwhile is served once per subscription; an unsubscribed one at most once and
      missed only if the removal came first; nothing outside the starting list is served. */
  lemma ExactlyOnceDelivery(run: seq<Step>, k: nat, c: Case)
    requires IsRun(Init, run) && k < |After(Init, run).finished|
    ensures var d := After(Init, run).finished[k];
            && (d.dropped[c] == 0 ==> d.delivered[c] == d.merged[c])
            && d.merged[c] == d.delivered[c] + d.dropped[c]
            && d.late[c] <= d.delivered[c]
            && d.nsent == |d.delivered|
  {
    InitInv();
    RunKeepsInv(Init, run);
    var d := After(Init, run).finished[k];
    assert d in After(Init, run).finished;
    assert (d.dropped + d.delivered)[c] == d.dropped[c] + d.delivered[c];
  }

  /** While a send runs, what it dropped or lost after delivery is exactly what has been unsubscribed:
      starting list plus newcomers in the inbox equals live subscriptions plus removed cases. */
  lemma RemovedMeansUnsubscribed(run: seq<Step>, ch: Channel)
    requires IsRun(Init, run) && After(Init, run).send.Some? && After(Init, run).send.value.phase != Locked
    ensures var s := After(Init, run);
            var d, c := s.send.value, Subscriber(ch);
            d.merged[c] + multiset(s.inbox)[c] == |Subscribed(s, ch)| + d.dropped[c] + d.late[c]
  {
    InitInv();
    RunKeepsInv(Init, run);
    var s := After(Init, run);
    var d, cs, c := s.send.value, s.sendCases, Subscriber(ch);
    assert ChannelOk(s, ch);
    WellFormedCounts(cs);
    SplitMultiset(cs, d.active);
    assert multiset(cs)[c] == multiset(cs[1..d.active])[c] + multiset(cs[d.active..])[c];
    assert d.merged[c] == multiset(cs[1..d.active])[c] + d.dropped[c] + d.delivered[c];
    assert d.delivered[c] == multiset(cs[d.active..])[c] + d.late[c];
  }

  /** So it is for every send at the step that finishes it: with the newcomers, the starting list is
      the live subscriptions plus the cases taken out, so nobody was dropped without unsubscribing. */
  lemma FinishedMeansUnsubscribed(run: seq<Step>, ch: Channel)
    requires IsRun(Init, run) && Enabled(After(Init, run), TryDone) && After(Init, run).send.value.active == 1
    ensures var s := Apply(After(Init, run), TryDone);
            && s.finished != []
            && var d, c := s.finished[|s.finished| - 1], Subscriber(ch);
               && d.merged[c] + multiset(s.inbox)[c] == |Subscribed(s, ch)| + d.dropped[c] + d.late[c]
               && d.delivered[c] + multiset(s.inbox)[c] == |Subscribed(s, ch)| + d.late[c]
  {
    RemovedMeansUnsubscribed(run, ch);
    InitInv();
    RunKeepsInv(Init, run);
    var s, s' := After(Init, run), Apply(After(Init, run), TryDone);
    var d := s.send.value;
    assert s.sendCases[1..1] == [];
    assert d.merged[Subscriber(ch)] == (d.dropped + d.delivered)[Subscriber(ch)];
    assert Subscribed(s', ch) == Subscribed(s, ch);
  }

  function Measure(s: State): int {
    if s.send.Some? then s.send.value.active + |s.sendCases| else 0
  }

  /** Every select round makes progress: the cases left to serve plus the list get shorter. */
  lemma SelectRoundProgress(s: State, l: Step)
    requires Inv(s) && Enabled(s, l) && (l.SelectSend? || l.SelectRemove?)
    ensures Measure(Apply(s, l)) < Measure(s)
  {
    if l.SelectRemove? {
      RemoverHasCase(s, l.id);
    }
  }

  // ---------------------------------------------------------------------------------------------
  // The element type of a feed

  /** Once a feed has a type it keeps it. */
  lemma {:induction false} TypeIsKept(s: State, run: seq<Step>)
    requires IsRun(s, run) && s.etype.Some?
    ensures After(s, run).etype == s.etype
    decreases |run|
  {
    if run != [] {
      TypeIsKept(Apply(s, run[0]), run[1..]);
    }
  }

  /** A subscription of a run has the type the feed ends with. */
  lemma {:induction false} SubscriptionFixesType(s: State, run: seq<Step>, i: nat)
    requires IsRun(s, run) && i < |run| && run[i].Subscribe?
    ensures After(s, run).etype == Some(run[i].typ)
    decreases |run|
  {
    if i == 0 {
      TypeIsKept(Apply(s, run[0]), run[1..]);
    } else {
      SubscriptionFixesType(Apply(s, run[0]), run[1..], i - 1);
    }
  }

  /** Without a subscription or a send of some type, a feed has none. */
  lemma {:induction false} UntypedWithoutUse(s: State, run: seq<Step>)
    requires IsRun(s, run) && s.etype.None? && forall i :: 0 <= i < |run| ==> !run[i].Subscribe? && !run[i].SendMerge?
    ensures After(s, run).etype.None?
    decreases |run|
  {
    if run != [] {
      UntypedWithoutUse(Apply(s, run[0]), run[1..]);
    }
  }

  /** A send that started has the type the feed ends with. */
  lemma {:induction false} StartedSendFixesType(s: State, before: seq<Step>, typ: ElemType, after: seq<Step>)
    requires IsRun(s, before + [SendMerge(typ)] + after)
    ensures IsRun(s, before) && Enabled(After(s, before), SendMerge(typ))
    ensures Apply(After(s, before), SendMerge(typ)).send.Some? ==>
              After(s, before + [SendMerge(typ)] + after).etype == Some(typ)
    decreases |before|
  {
    var run := before + [SendMerge(typ)] + after;
    if before == [] {
      assert run[0] == SendMerge(typ) && run[1..] == after;
      if Apply(s, SendMerge(typ)).send.Some? {
        TypeIsKept(Apply(s, SendMerge(typ)), after);
      }
    } else {
      assert run[0] == before[0] && run[1..] == before[1..] + [SendMerge(typ)] + after;
      StartedSendFixesType(Apply(s, before[0]), before[1..], typ, after);
    }
  }

  /** In every run all subscriptions have one type, and a later subscription is taken exactly with it. */
  lemma OneTypePerFeed(run: seq<Step>, i: nat, id: SubId, ch: Channel, typ: ElemType)
    requires IsRun(Init, run) && i < |run| && run[i].Subscribe?
    ensures forall j :: 0 <= j < |run| && run[j].Subscribe? ==> run[j].typ == run[i].typ
    ensures Enabled(After(Init, run), Subscribe(id, ch, typ)) <==> id !in After(Init, run).subs && typ == run[i].typ
  {
    SubscriptionFixesType(Init, run, i);
    forall j | 0 <= j < |run| && run[j].Subscribe?
      ensures run[j].typ == run[i].typ
    {
      SubscriptionFixesType(Init, run, j);
    }
  }

  /** In every run with a subscription, a value is sent if and only if it has the type subscribed to. */
  lemma SendStartsIffTypeMatches(run: seq<Step>, i: nat, typ: ElemType)
    requires IsRun(Init, run) && Enabled(After(Init, run), SendMerge(typ)) && i < |run| && run[i].Subscribe?
    ensures Apply(After(Init, run), SendMerge(typ)).send.Some? <==> typ == run[i].typ
  {
    SubscriptionFixesType(Init, run, i);
  }

  /** After a send that started, later values are sent if and only if they have its type. */
  lemma SendsShareOneType(before: seq<Step>, first: ElemType, after: seq<Step>, typ: ElemType)
    requires IsRun(Init, before + [SendMerge(first)] + after)
    requires IsRun(Init, before) && Enabled(After(Init, before), SendMerge(first))
    requires Apply(After(Init, before), SendMerge(first)).send.Some?
    requires Enabled(After(Init, before + [SendMerge(first)] + after), SendMerge(typ))
    ensures Apply(After(Init, before + [SendMerge(first)] + after), SendMerge(typ)).send.Some? <==> typ == first
  {
    StartedSendFixesType(Init, before, first, after);
  }

  /** The first value of a feed nobody has used yet is sent, whatever its type. */
  lemma FirstSendStarts(run: seq<Step>, typ: ElemType)
    requires IsRun(Init, run) && Enabled(After(Init, run), SendMerge(typ))
    requires forall i :: 0 <= i < |run| ==> !run[i].Subscribe? && !run[i].SendMerge?
    ensures Apply(After(Init, run), SendMerge(typ)).send.Some?
  {
    UntypedWithoutUse(Init, run);
  }

  // ---------------------------------------------------------------------------------------------
  // Nobody gets stuck

  /** In every reachable state a running Send can take its next step, whatever the channels do; while
      it selects, every active case and every waiting unsubscriber can be chosen. */
  lemma SendNeverStuck(run: seq<Step>, typ: ElemType, ok: bool, j: nat, id: SubId)
    requires IsRun(Init, run) && After(Init, run).send.Some?
    ensures var s := After(Init, run);
            match s.send.value.phase
            case Locked => Enabled(s, SendMerge(typ))
            case Trying =>
              if s.send.value.i < s.send.value.active then Enabled(s, TrySend(ok)) else Enabled(s, TryDone)
            case Selecting =>
              && s.send.value.active > 1
              && (1 <= j < s.send.value.active ==> Enabled(s, SelectSend(j)))
              && (InPhase(s, id, Waiting) ==> Enabled(s, SelectRemove(id)))
  {
    InitInv();
    RunKeepsInv(Init, run);
  }

  /** In every reachable state an unsubscriber can go on: at once from the inbox or to waiting, and from
      waiting as soon as the lock is free or the sender selects; the lock is free unless held. */
  lemma UnsubscribeNeverStuck(run: seq<Step>, id: SubId)
    requires IsRun(Init, run) && id in After(Init, run).subs
    ensures var s := After(Init, run);
            match s.subs[id].phase
            case Live => Enabled(s, UnsubscribeInInbox(id)) || Enabled(s, UnsubscribeWait(id))
            case Waiting =>
              || Enabled(s, UnsubscribeLock(id)) || Enabled(s, SelectRemove(id))
              || s.send.Some? || exists k :: InPhase(s, k, Holding)
            case Holding => Enabled(s, UnsubscribeDelete(id))
            case Gone => true
  {
    InitInv();
    RunKeepsInv(Init, run);
    var s := After(Init, run);
    if s.tokens == 0 && s.send.None? {
      assert Holders(s) != {};
      var k :| k in Holders(s);
      assert InPhase(s, k, Holding);
    }
  }

  /** A Send can start whenever the lock is free, and the lock is free unless someone holds it. */
  lemma SendCanStart(run: seq<Step>)
    requires IsRun(Init, run)
    ensures var s := After(Init, run);
            Enabled(s, SendLock) <==> s.send.None? && forall k :: !InPhase(s, k, Holding)
  {
    InitInv();
    RunKeepsInv(Init, run);
    var s := After(Init, run);
    if s.send.None? {
      if k :| InPhase(s, k, Holding) {
        assert k in Holders(s);
      } else {
        assert forall k :: k in Holders(s) ==> InPhase(s, k, Holding);
        assert Holders(s) == {};
      }
    }
  }

  // ---------------------------------------------------------------------------------------------
  // The fast path offers the value to every active case

  /** The active cases the fast path has yet to try in this round. */
  function ToTry(s: State): seq<Case> {
    if Sending(s, Trying) && s.send.value.i < s.send.value.active <= |s.sendCases|
    then s.sendCases[s.send.value.i..s.send.value.active] else []
  }

  /** A round of tries with these outcomes, and the cases it offers the value to. */
  function Tries(oks: seq<bool>): (run: seq<Step>)
    ensures |run| == |oks| && forall k :: 0 <= k < |oks| ==> run[k] == TrySend(oks[k])
  {
    seq(|oks|, k requires 0 <= k < |oks| => TrySend(oks[k]))
  }

  function Offered(s: State, oks: seq<bool>): (offers: seq<Case>)
    requires IsRun(s, Tries(oks))
    ensures |offers| == |oks|
    decreases |oks|
  {
    if oks == [] then []
    else
      assert Tries(oks)[1..] == Tries(oks[1..]);
      [s.sendCases[s.send.value.i]] + Offered(Apply(s, TrySend(oks[0])), oks[1..])
  }

  /** What a try leaves to try: without the case tried, the last active one in its place if it was served. */
  lemma LeftToTry(s: State, ok: bool)
    requires Enabled(s, TrySend(ok))
    ensures var cs, i, k := s.sendCases, s.send.value.i, s.send.value.active;
            && ToTry(s) == cs[i..k]
            && ToTry(Apply(s, TrySend(ok))) == if ok then Deactivate(cs, k, i)[i..k - 1] else cs[i + 1..k]
  {
  }

  lemma RangeWithoutFirst(cs: seq<Case>, i: nat, k: nat, ok: bool, rest: seq<Case>)
    requires i < k <= |cs| && rest == if ok then Deactivate(cs, k, i)[i..k - 1] else cs[i + 1..k]
    ensures multiset(cs[i..k]) == multiset{cs[i]} + multiset(rest)
  {
    if ok {
      DeactivatedRest(cs, k, i);
    } else {
      FirstOfRange(cs, i, k);
    }
  }

  /** One try takes its case, and no other, off what is left to try, whether the channel takes the
      value or not. */
  lemma TryTakesOne(s: State, ok: bool)
    requires Enabled(s, TrySend(ok))
    ensures multiset(ToTry(s)) == multiset{s.sendCases[s.send.value.i]} + multiset(ToTry(Apply(s, TrySend(ok))))
  {
    LeftToTry(s, ok);
    RangeWithoutFirst(s.sendCases, s.send.value.i, s.send.value.active, ok, ToTry(Apply(s, TrySend(ok))));
  }

  lemma TryGoesOn(s: State, ok: bool)
    requires Enabled(s, TrySend(ok))
    ensures Sending(Apply(s, TrySend(ok)), Trying)
    ensures Apply(s, TrySend(ok)).send.value.active <= |Apply(s, TrySend(ok)).sendCases|
  {
  }

  /** Whichever channels are ready: a round of the fast path can be as long as there are active cases,
      no longer, and then it has offered the value to each of them exactly once. */
  lemma {:induction false} RoundOffersEachOnce(s: State, oks: seq<bool>)
    requires Sending(s, Trying) && s.send.value.active <= |s.sendCases|
    ensures IsRun(s, Tries(oks)) <==> |oks| <= |ToTry(s)|
    ensures |oks| == |ToTry(s)| ==> multiset(Offered(s, oks)) == multiset(ToTry(s)) && Enabled(After(s, Tries(oks)), TryDone)
    decreases |oks|
  {
    if oks != [] && Enabled(s, TrySend(oks[0])) {
      assert Tries(oks)[1..] == Tries(oks[1..]);
      var s' := Apply(s, TrySend(oks[0]));
      TryTakesOne(s, oks[0]);
      TryGoesOn(s, oks[0]);
      assert |multiset(ToTry(s))| == 1 + |multiset(ToTry(s'))|;
      RoundOffersEachOnce(s', oks[1..]);
    }
  }
}
