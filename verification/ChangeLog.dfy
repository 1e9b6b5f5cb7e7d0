/** A log of state changes kept as a snapshot plus a bounded window of recent changes. */
module ChangeLog {

  datatype Change = Change(id: nat, state: nat)

  /** The tracked identifiers with their states. State 0 means not tracked. */
  type Tracked = map<nat, nat>

  function Put(m: Tracked, c: Change): Tracked {
    if c.state == 0 then m - {c.id} else m[c.id := c.state]
  }

  /** The meaning of a list of changes: apply them one after the other. */
  function Replay(m: Tracked, h: seq<Change>): Tracked {
    if h == [] then m else Put(Replay(m, h[..|h| - 1]), h[|h| - 1])
  }

  lemma {:induction false} ReplayConcat(m: Tracked, a: seq<Change>, b: seq<Change>)
    ensures Replay(m, a + b) == Replay(Replay(m, a), b)
    decreases |b|
  {
    if b == [] {
      assert a + b == a;
    } else {
      ReplayConcat(m, a, b[..|b| - 1]);
      assert (a + b)[..|a + b| - 1] == a + b[..|b| - 1];
    }
  }

  // ---------------------------------------------------------------------------------------------
  // Folding a window into a snapshot

  /** The last state written to each identifier. */
  function Latest(w: seq<Change>): map<nat, nat> {
    if w == [] then map[] else Latest(w[..|w| - 1])[w[|w| - 1].id := w[|w| - 1].state]
  }

  /** Reading a window backwards: an earlier change counts only for identifiers not seen yet. */
  lemma {:induction false} LatestBackwards(c: Change, w: seq<Change>)
    ensures Latest([c] + w) == if c.id in Latest(w) then Latest(w) else Latest(w)[c.id := c.state]
    decreases |w|
  {
    if w == [] {
      assert [c] + w == [c] && [c][..0] == [];
    } else {
      LatestBackwards(c, w[..|w| - 1]);
      assert ([c] + w)[..|w|] == [c] + w[..|w| - 1];
    }
  }

  /** Overlays last-written states on a snapshot; state 0 takes the identifier out. */
  ghost predicate Overlaid(m: Tracked, latest: map<nat, nat>, r: Tracked) {
    forall id: nat :: HasState(r, id, StateIn(latest, id, StateIn(m, id, 0)))
  }

  function StateIn(m: map<nat, nat>, id: nat, otherwise: nat): nat {
    if id in m then m[id] else otherwise
  }

  predicate HasState(m: Tracked, id: nat, state: nat) {
    if state == 0 then id !in m else id in m && m[id] == state
  }

  /** No identifier is tracked with state 0. */
  predicate Proper(m: Tracked) {
    forall id <- m :: m[id] != 0
  }

  lemma OverlaidUnique(m: Tracked, latest: map<nat, nat>, r: Tracked, s: Tracked)
    requires Overlaid(m, latest, r) && Overlaid(m, latest, s)
    ensures r == s
  {
    forall id: nat
      ensures id in r <==> id in s
      ensures id in r ==> r[id] == s[id]
    {
      assert HasState(r, id, StateIn(latest, id, StateIn(m, id, 0)));
      assert HasState(s, id, StateIn(latest, id, StateIn(m, id, 0)));
    }
  }

  /** Overlaying the last writes of a window is replaying the window. */
  lemma {:induction false} ReplayIsOverlay(m: Tracked, w: seq<Change>)
    requires Proper(m)
    ensures Overlaid(m, Latest(w), Replay(m, w))
  {
    if w != [] {
      var n := |w| - 1;
      ReplayIsOverlay(m, w[..n]);
      forall id: nat
        ensures HasState(Replay(m, w), id, StateIn(Latest(w), id, StateIn(m, id, 0)))
      {
        assert HasState(Replay(m, w[..n]), id, StateIn(Latest(w[..n]), id, StateIn(m, id, 0)));
      }
    }
  }

  lemma {:induction false} ReplayProper(m: Tracked, h: seq<Change>)
    requires Proper(m)
    ensures Proper(Replay(m, h))
  {
    if h != [] {
      ReplayProper(m, h[..|h| - 1]);
    }
  }

  // ---------------------------------------------------------------------------------------------
  // The report and its reader

  datatype Line = SnapshotAt(tick: int) | ChangesFrom(tick: int) | Item(change: Change)

  /** Reads a report on top of what is known: a snapshot starts afresh, every item is applied. */
  function Read(known: Tracked, lines: seq<Line>): Tracked {
    if lines == [] then known
    else
      var before := Read(known, lines[..|lines| - 1]);
      match lines[|lines| - 1]
      case SnapshotAt(_) => map[]
      case ChangesFrom(_) => before
      case Item(c) => Put(before, c)
  }

  function Items(h: seq<Change>): seq<Line> {
    seq(|h|, i requires 0 <= i < |h| => Item(h[i]))
  }

  lemma {:induction false} ReadItems(known: Tracked, lines: seq<Line>, h: seq<Change>)
    ensures Read(known, lines + Items(h)) == Replay(Read(known, lines), h)
    decreases |h|
  {
    if h == [] {
      assert lines + Items(h) == lines;
    } else {
      var n := |h| - 1;
      var all := lines + Items(h);
      ReadItems(known, lines, h[..n]);
      assert all[..|all| - 1] == lines + Items(h[..n]);
    }
  }

  lemma ReadHeader(known: Tracked, lines: seq<Line>, tick: int)
    ensures Read(known, lines + [ChangesFrom(tick)]) == Read(known, lines)
    ensures Read(known, [SnapshotAt(tick)]) == map[]
  {
    assert (lines + [ChangesFrom(tick)])[..|lines|] == lines;
  }

  /** The entries of a snapshot, each once, in ascending order of identifier. */
  ghost predicate Listing(m: Tracked, l: seq<Change>) {
    (forall i, j :: 0 <= i < j < |l| ==> l[i].id < l[j].id) && Latest(l) == m
  }

  lemma ReplayListing(m: Tracked, l: seq<Change>)
    requires Proper(m) && Listing(m, l)
    ensures Replay(map[], l) == m
  {
    ReplayIsOverlay(map[], l);
    var r := Replay(map[], l);
    forall id: nat
      ensures id in r <==> id in m
      ensures id in r ==> r[id] == m[id]
    {
      assert HasState(r, id, StateIn(m, id, StateIn(map[], id, 0)));
    }
  }

  lemma {:induction false} SmallestKey(s: set<nat>) returns (least: nat)
    requires s != {}
    ensures least in s && forall x <- s :: least <= x
  {
    least :| least in s;
    if s != {least} {
      var other := SmallestKey(s - {least});
      assert s == s - {least} + {least};
      if other < least {
        least := other;
      }
    }
  }

  /** All entries outside `todo` are listed, and come before those in `todo`. */
  ghost predicate Ascending(m: Tracked, todo: set<nat>, l: seq<Change>) {
    Listing(m - todo, l) && forall i, x :: 0 <= i < |l| && x in todo ==> l[i].id < x
  }

  lemma AscendingStep(m: Tracked, todo: set<nat>, l: seq<Change>, id: nat)
    requires todo <= m.Keys && Ascending(m, todo, l) && id in todo && forall x <- todo :: id <= x
    ensures Ascending(m, todo - {id}, l + [Change(id, m[id])])
  {
    var longer := l + [Change(id, m[id])];
    assert longer[..|longer| - 1] == l;
    assert m - (todo - {id}) == (m - todo)[id := m[id]];
  }

  /** A snapshot report, with the window's changes after it, reads as the whole history. */
  lemma SnapshotReportReads(known: Tracked, m: Tracked, l: seq<Change>, w: seq<Change>, t: int, u: int)
    requires Proper(m) && Listing(m, l)
    ensures Read(known, [SnapshotAt(t)] + Items(l) + [ChangesFrom(u)] + Items(w)) == Replay(m, w)
  {
    ReadHeader(known, [SnapshotAt(t)] + Items(l), t);
    ReadItems(known, [SnapshotAt(t)], l);
    ReplayListing(m, l);
    ReadHeader(known, [SnapshotAt(t)] + Items(l), u);
    ReadItems(known, [SnapshotAt(t)] + Items(l) + [ChangesFrom(u)], w);
  }

  lemma ReadChangesHeader(known: Tracked, t: int)
    ensures Read(known, [ChangesFrom(t)]) == known
  {
  }

  /** A reader who knows the earlier changes and reads the later ones knows them all. */
  lemma ChangesReportReads(earlier: seq<Change>, later: seq<Change>, t: int)
    ensures Read(Replay(map[], earlier), [ChangesFrom(t)] + Items(later)) == Replay(map[], earlier + later)
  {
    ReadChangesHeader(Replay(map[], earlier), t);
    ReadItems(Replay(map[], earlier), [ChangesFrom(t)], later);
    ReplayConcat(map[], earlier, later);
  }

  // ---------------------------------------------------------------------------------------------

  function Pair(ids: seq<nat>, states: seq<nat>): seq<Change>
    requires |ids| == |states|
  {
    seq(|ids|, i requires 0 <= i < |ids| => Change(ids[i], states[i]))
  }

  class States {
    const window: nat
    const ids: array<nat>
    const states: array<nat>
    var snapshot: Tracked
    var snapshotTick: int
    var idx: nat

    /** Every change ever added. */
    ghost var history: seq<Change>

    /** The changes not folded into the snapshot yet. */
    ghost function Pending(): seq<Change>
      requires idx <= ids.Length && idx <= states.Length
      reads this, ids, states
    {
      Pair(ids[..idx], states[..idx])
    }

    ghost predicate Valid()
      reads this, ids, states
    {
      && ids != states
      && ids.Length == states.Length == window && idx <= window
      && 0 <= snapshotTick && snapshotTick + idx == |history|
      && snapshot == Replay(map[], history[..snapshotTick])
      && Pending() == history[snapshotTick..]
    }

    constructor (window: nat)
      ensures Valid() && history == [] && this.window == window
      ensures fresh(ids) && fresh(states)
    {
      this.window := window;
      ids := new nat[window];
      states := new nat[window];
      snapshot, snapshotTick, idx, history := map[], 0, 0, [];
    }

    /** Appends one change to the history. A log without room for one change cannot take any. */
    method AddChange(id: nat, state: nat)
      requires Valid() && window > 0
      modifies this, ids, states
      ensures Valid() && history == old(history) + [Change(id, state)]
    {
      if idx >= window {
        MakeSnapshot();
      }
      var i := idx;
      ghost var pending := Pending();
      ids[i] := id;
      states[i] := state;
      idx := idx + 1;
      history := history + [Change(id, state)];
      assert Pending() == pending + [Change(id, state)];
      assert history[..snapshotTick] == old(history)[..snapshotTick];
    }

    /** Folds the window into the snapshot; the history stays what it was. */
    method MakeSnapshot()
      requires Valid()
      modifies `snapshot, `snapshotTick, `idx
      ensures Valid() && idx == 0
    {
      var newSnapshot := WindowLatest();
      ghost var w := Pending();
      ReplayProper(map[], history[..snapshotTick]);
      ReplayIsOverlay(snapshot, w);
      ReplayConcat(map[], history[..snapshotTick], w);
      assert history[..snapshotTick] + w == history;
      snapshotTick := snapshotTick + idx;
      FoldIn(newSnapshot);
      idx := 0;
      OverlaidUnique(old(snapshot), newSnapshot, snapshot, Replay(old(snapshot), w));
      assert history[..snapshotTick] == history;
    }

    /** Goes through the window backwards, keeping the first state met for each identifier. */
    method WindowLatest() returns (latest: map<nat, nat>)
      requires Valid()
      ensures latest == Latest(Pending())
    {
      latest := map[];
      var i := idx;
      ghost var w := Pending();
      while i > 0
        invariant 0 <= i <= idx && latest == Latest(w[i..])
      {
        i := i - 1;
        LatestBackwards(w[i], w[i + 1..]);
        assert w[i..] == [w[i]] + w[i + 1..];
        if ids[i] !in latest {
          latest := latest[ids[i] := states[i]];
        }
      }
      assert w[0..] == w;
    }

    /** Applies the collected states in whatever order the map yields them. */
    method FoldIn(latest: map<nat, nat>)
      requires Proper(snapshot)
      modifies `snapshot
      ensures Overlaid(old(snapshot), latest, snapshot)
    {
      var todo := latest.Keys;
      ghost var done: map<nat, nat> := map[];
      while todo != {}
        invariant todo <= latest.Keys
        invariant done == map id | id in latest && id !in todo :: latest[id]
        invariant Overlaid(old(snapshot), done, snapshot)
      {
        var id :| id in todo;
        todo := todo - {id};
        ghost var before, was := snapshot, done;
        if latest[id] == 0 {
          snapshot := snapshot - {id};
        } else {
          snapshot := snapshot[id := latest[id]];
        }
        done := done[id := latest[id]];
        forall x: nat
          ensures HasState(snapshot, x, StateIn(done, x, StateIn(old(snapshot), x, 0)))
        {
          assert HasState(before, x, StateIn(was, x, StateIn(old(snapshot), x, 0)));
        }
      }
      assert done == latest;
    }

    /** Lists the snapshot in ascending order. */
    method Ascend() returns (l: seq<Change>)
      ensures Listing(snapshot, l)
    {
      l := [];
      var todo := snapshot.Keys;
      while todo != {}
        invariant todo <= snapshot.Keys && Ascending(snapshot, todo, l)
      {
        ghost var least := SmallestKey(todo);
        var id :| id in todo && forall x <- todo :: id <= x;
        AscendingStep(snapshot, todo, l, id);
        l := l + [Change(id, snapshot[id])];
        todo := todo - {id};
      }
      assert snapshot - todo == snapshot;
    }

    /** The changes of the window from position `from` on, as lines. */
    method WindowLines(from: int) returns (lines: seq<Line>)
      requires Valid() && from >= 0
      ensures lines == if from <= idx then Items(Pending()[from..]) else []
    {
      lines := [];
      var i := from;
      while i < idx
        invariant from <= idx ==> i <= idx && lines == Items(Pending()[from..i])
        invariant from > idx ==> lines == []
      {
        assert Pending()[from..i + 1] == Pending()[from..i] + [Change(ids[i], states[i])];
        lines := lines + [Item(Change(ids[i], states[i]))];
        i := i + 1;
      }
      assert from <= idx ==> Pending()[from..idx] == Pending()[from..];
    }

    /** Reports what changed since a number of changes. A reader who asks for less than the snapshot
        holds learns the whole history whatever they knew; one who knows exactly the first `startTick`
        changes learns the others; one who asks for more than there are learns nothing. */
    method ChangesSince(startTick: int) returns (lines: seq<Line>)
      requires Valid()
      ensures startTick <= snapshotTick ==> forall known :: Read(known, lines) == Replay(map[], history)
      ensures 0 <= startTick <= |history| ==> Read(Replay(map[], history[..startTick]), lines) == Replay(map[], history)
      ensures snapshotTick < startTick <= |history| ==> lines == [ChangesFrom(startTick)] + Items(history[startTick..])
      ensures startTick > |history| ==> lines == [ChangesFrom(startTick)]
    {
      if startTick <= snapshotTick {
        var l := Ascend();
        var rest := WindowLines(0);
        lines := [SnapshotAt(snapshotTick)] + Items(l) + [ChangesFrom(snapshotTick + 1)] + rest;
        ghost var w := Pending();
        assert w[0..] == w && history[..snapshotTick] + w == history;
        ReplayProper(map[], history[..snapshotTick]);
        ReplayConcat(map[], history[..snapshotTick], w);
        forall known
          ensures Read(known, lines) == Replay(map[], history)
        {
          SnapshotReportReads(known, snapshot, l, w, snapshotTick, snapshotTick + 1);
        }
      } else {
        var rest := WindowLines(startTick - snapshotTick);
        lines := [ChangesFrom(startTick)] + rest;
        if startTick <= |history| {
          assert Pending()[startTick - snapshotTick..] == history[startTick..];
          assert history == history[..startTick] + history[startTick..];
          ChangesReportReads(history[..startTick], history[startTick..], startTick);
        }
      }
    }
  }
}
