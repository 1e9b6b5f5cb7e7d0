/** Range scans over a sorted key-value table: walk from a start key while the first bits agree. */
module RangeWalk {
  import opened KeyBits

  type Value = nat

  datatype Entry = Entry(key: Bytes, value: Value)

  // ---------------------------------------------------------------------------------------------
  // Tables

  /** A table in key order, without duplicate keys. */
  ghost predicate Sorted(rows: seq<Entry>) {
    forall i, j :: 0 <= i < j < |rows| ==> Before(rows, i, j)
  }

  ghost predicate Before(rows: seq<Entry>, i: nat, j: nat)
    requires i < |rows| && j < |rows|
  {
    LessEq(rows[i].key, rows[j].key) && rows[i].key != rows[j].key
  }

  /** What a caller of a range scan asks for. */
  ghost predicate Wanted(e: Entry, start: Bytes, fixedbits: nat) {
    LessEq(start, e.key) && AgreeOn(start, e.key, fixedbits)
  }

  /** Every wanted row, in table order. */
  ghost function Scan(rows: seq<Entry>, start: Bytes, fixedbits: nat): seq<Entry> {
    if rows == [] then []
    else (if Wanted(rows[0], start, fixedbits) then [rows[0]] else []) + Scan(rows[1..], start, fixedbits)
  }

  /** A scan holds exactly the wanted rows. */
  lemma {:induction false} ScanIsExact(rows: seq<Entry>, start: Bytes, fixedbits: nat, e: Entry)
    ensures e in Scan(rows, start, fixedbits) <==> e in rows && Wanted(e, start, fixedbits)
  {
    if rows != [] {
      ScanIsExact(rows[1..], start, fixedbits, e);
    }
  }

  /** `p` is where a seek to `start` lands: the first row not before it. */
  ghost predicate Lands(rows: seq<Entry>, start: Bytes, p: nat) {
    p <= |rows| && (forall i :: 0 <= i < p ==> !LessEq(start, rows[i].key)) && (p < |rows| ==> LessEq(start, rows[p].key))
  }

  /** All rows from `p` on are at or after the start key. */
  ghost predicate Past(rows: seq<Entry>, start: Bytes, p: nat) {
    p <= |rows| && forall i :: p <= i < |rows| ==> From(rows, start, i)
  }

  ghost predicate From(rows: seq<Entry>, start: Bytes, i: nat)
    requires i < |rows|
  {
    LessEq(start, rows[i].key)
  }

  lemma LandingIsPast(rows: seq<Entry>, start: Bytes, p: nat)
    requires Sorted(rows) && Lands(rows, start, p)
    ensures Past(rows, start, p)
  {
    forall i | p <= i < |rows|
      ensures From(rows, start, i)
    {
      if i > p {
        assert Before(rows, p, i);
        LessEqTransitive(start, rows[p].key, rows[i].key);
      }
    }
  }

  /** The rows a seek skips are not wanted. */
  lemma {:induction false} SeekSkipsNothing(rows: seq<Entry>, start: Bytes, fixedbits: nat, p: nat)
    requires p <= |rows| && forall i :: 0 <= i < p ==> !LessEq(start, rows[i].key)
    ensures Scan(rows, start, fixedbits) == Scan(rows[p..], start, fixedbits)
    decreases p
  {
    if p > 0 {
      SeekSkipsNothing(rows[1..], start, fixedbits, p - 1);
      assert rows[1..][p - 1..] == rows[p..];
    } else {
      assert rows[0..] == rows;
    }
  }

  /** Past the start key the key test picks the next wanted row, and the first failure ends the scan. */
  lemma ScanStep(rows: seq<Entry>, start: Bytes, fixedbits: nat, p: nat)
    requires Sorted(rows) && Past(rows, start, p) && p < |rows| && |start| >= FixedBytes(fixedbits)
    ensures Matches(start, rows[p].key, fixedbits)
        ==> Scan(rows[p..], start, fixedbits) == [rows[p]] + Scan(rows[p + 1..], start, fixedbits)
    ensures !Matches(start, rows[p].key, fixedbits)
        ==> Scan(rows[p..], start, fixedbits) == [] && Scan(rows[p + 1..], start, fixedbits) == []
  {
    MatchesComparesBits(start, rows[p].key, fixedbits);
    assert From(rows, start, p) && rows[p..][1..] == rows[p + 1..];
    if !Matches(start, rows[p].key, fixedbits) {
      forall i | p <= i < |rows|
        ensures !Wanted(rows[i], start, fixedbits)
      {
        NothingAfterMismatch(rows, start, fixedbits, p, i);
      }
      NoneWanted(rows[p..], start, fixedbits);
      NoneWanted(rows[p + 1..], start, fixedbits);
    }
  }

  lemma NothingAfterMismatch(rows: seq<Entry>, start: Bytes, fixedbits: nat, p: nat, i: nat)
    requires Sorted(rows) && Past(rows, start, p) && p <= i < |rows| && |start| >= FixedBytes(fixedbits)
    requires !Matches(start, rows[p].key, fixedbits)
    ensures !Wanted(rows[i], start, fixedbits)
  {
    MatchesComparesBits(start, rows[p].key, fixedbits);
    assert From(rows, start, p) && (p < i ==> Before(rows, p, i));
    if p < i && AgreeOn(start, rows[i].key, fixedbits) {
      SharePrefixIsAgreeOn(start, rows[i].key, fixedbits);
      MatchesBetween(start, rows[p].key, rows[i].key, fixedbits);
      SharePrefixIsAgreeOn(start, rows[p].key, fixedbits);
    }
  }

  lemma {:induction false} NoneWanted(rows: seq<Entry>, start: Bytes, fixedbits: nat)
    requires forall i :: 0 <= i < |rows| ==> !Wanted(rows[i], start, fixedbits)
    ensures Scan(rows, start, fixedbits) == []
  {
    if rows != [] {
      NoneWanted(rows[1..], start, fixedbits);
    }
  }

  // ---------------------------------------------------------------------------------------------
  // Cursors

  datatype Fetched = Row(entry: Entry) | End | Failed

  /** A read cursor over a table that does not change under it. `next` is the row Next moves to. Any
      operation may fail; `failures` counts those that did. */
  class Cursor {
    const rows: seq<Entry>
    var next: nat
    ghost var failures: nat

    constructor (rows: seq<Entry>)
      ensures this.rows == rows && failures == 0
    {
      this.rows := rows;
      next, failures := 0, 0;
    }

    /** The row at `p` was just fetched, or the end was. */
    ghost predicate At(p: nat, r: Fetched)
      reads this
    {
      if p < |rows| then r == Row(rows[p]) && next == p + 1 else r == End && next == p
    }

    method Seek(key: Bytes) returns (r: Fetched)
      requires Sorted(rows)
      modifies this
      ensures r.Failed? || exists p: nat :: Lands(rows, key, p) && At(p, r)
      ensures failures == old(failures) + if r.Failed? then 1 else 0
    {
      var p := 0;
      while p < |rows| && !LessEq(key, rows[p].key)
        invariant p <= |rows| && forall i :: 0 <= i < p ==> !LessEq(key, rows[i].key)
      {
        p := p + 1;
      }
      if * {
        failures := failures + 1;
        return Failed;
      }
      next := p;
      if p < |rows| {
        r := Row(rows[p]);
        next := p + 1;
      } else {
        r := End;
      }
      assert Lands(rows, key, p) && At(p, r);
    }

    method Next() returns (r: Fetched)
      modifies this
      ensures r.Failed? || At(old(next), r)
      ensures failures == old(failures) + if r.Failed? then 1 else 0
    {
      if * {
        failures := failures + 1;
        return Failed;
      }
      if next < |rows| {
        r := Row(rows[next]);
        next := next + 1;
      } else {
        r := End;
      }
    }
  }

  datatype Verdict = GoOn | Stop | Fail

  datatype Outcome = Nil | WalkerError | CursorError

  /** The walker went on after each of these rows. */
  ghost predicate WentOn(walker: seq<Entry> -> Verdict, visited: seq<Entry>) {
    visited == [] || (walker(visited) == GoOn && WentOn(walker, visited[..|visited| - 1]))
  }

  /** A scan that has visited these rows and stands before row `p`. */
  ghost predicate Progress(rows: seq<Entry>, start: Bytes, fixedbits: nat, p: nat, visited: seq<Entry>) {
    Past(rows, start, p) && visited + Scan(rows[p..], start, fixedbits) == Scan(rows, start, fixedbits)
  }

  lemma ProgressStep(rows: seq<Entry>, start: Bytes, fixedbits: nat, p: nat, visited: seq<Entry>)
    requires Sorted(rows) && |start| >= FixedBytes(fixedbits) && Progress(rows, start, fixedbits, p, visited)
    requires p < |rows| && Matches(start, rows[p].key, fixedbits)
    ensures Progress(rows, start, fixedbits, p + 1, visited + [rows[p]])
  {
    ScanStep(rows, start, fixedbits, p);
    assert visited + ([rows[p]] + Scan(rows[p + 1..], start, fixedbits))
        == (visited + [rows[p]]) + Scan(rows[p + 1..], start, fixedbits);
  }

  lemma ProgressEnds(rows: seq<Entry>, start: Bytes, fixedbits: nat, p: nat, visited: seq<Entry>)
    requires Sorted(rows) && |start| >= FixedBytes(fixedbits) && Progress(rows, start, fixedbits, p, visited)
    requires p == |rows| || !Matches(start, rows[p].key, fixedbits)
    ensures visited == Scan(rows, start, fixedbits)
  {
    if p < |rows| {
      ScanStep(rows, start, fixedbits, p);
    }
  }

  lemma ProgressStarts(rows: seq<Entry>, start: Bytes, fixedbits: nat, p: nat)
    requires Sorted(rows) && Lands(rows, start, p)
    ensures Progress(rows, start, fixedbits, p, [])
  {
    LandingIsPast(rows, start, p);
    SeekSkipsNothing(rows, start, fixedbits, p);
  }

  /** What a walk reports. The visited rows are the first of the wanted ones, and the walker went on
      after all but possibly the last. A walker error is reported exactly when its last verdict was to
      fail, a stop is no error, and a walk that ends well without a stop has visited every wanted row. */
  ghost predicate Reported(rows: seq<Entry>, start: Bytes, fixedbits: nat, walker: seq<Entry> -> Verdict,
                           visited: seq<Entry>, out: Outcome) {
    && visited <= Scan(rows, start, fixedbits)
    && (visited != [] ==> WentOn(walker, visited[..|visited| - 1]))
    && (out == WalkerError <==> visited != [] && walker(visited) == Fail)
    && (visited != [] && walker(visited) == Stop ==> out == Nil)
    && (out == Nil && WentOn(walker, visited) ==> visited == Scan(rows, start, fixedbits))
  }

  lemma ReportedByWalker(rows: seq<Entry>, start: Bytes, fixedbits: nat, walker: seq<Entry> -> Verdict,
                         p: nat, visited: seq<Entry>, e: Entry)
    requires Progress(rows, start, fixedbits, p, visited + [e]) && WentOn(walker, visited)
    ensures walker(visited + [e]) == Fail ==> Reported(rows, start, fixedbits, walker, visited + [e], WalkerError)
    ensures walker(visited + [e]) == Stop ==> Reported(rows, start, fixedbits, walker, visited + [e], Nil)
    ensures walker(visited + [e]) == GoOn
        ==> WentOn(walker, visited + [e]) && Reported(rows, start, fixedbits, walker, visited + [e], CursorError)
  {
    assert (visited + [e])[..|visited + [e]| - 1] == visited;
  }

  /** A walker that always goes on, over a cursor that does not fail, is shown every wanted row. */
  lemma GoingOnVisitsAll(rows: seq<Entry>, start: Bytes, fixedbits: nat, walker: seq<Entry> -> Verdict,
                         visited: seq<Entry>, out: Outcome)
    requires Reported(rows, start, fixedbits, walker, visited, out) && out != CursorError
    requires forall v :: walker(v) == GoOn
    ensures out == Nil && visited == Scan(rows, start, fixedbits)
  {
    assert WentOn(walker, visited);
  }

  /** Visits the wanted rows in order until the walker, which sees everything visited so far, stops or
      fails. Unless the walker stops or fails or a cursor operation fails, every wanted row is visited;
      a cursor error is reported exactly when an operation failed. */
  method Walk(c: Cursor, start: Bytes, fixedbits: nat, walker: seq<Entry> -> Verdict)
      returns (visited: seq<Entry>, out: Outcome)
    requires Sorted(c.rows) && |start| >= FixedBytes(fixedbits)
    modifies c
    ensures Reported(c.rows, start, fixedbits, walker, visited, out)
    ensures c.failures == old(c.failures) + if out == CursorError then 1 else 0
  {
    var r := c.Seek(start);
    if r.Failed? {
      return [], CursorError;
    }
    ghost var p: nat :| Lands(c.rows, start, p) && c.At(p, r);
    ProgressStarts(c.rows, start, fixedbits, p);
    visited, out := WalkRows(c, start, fixedbits, walker, p, r);
  }

  /** The loop, from the row the seek landed on. */
  method WalkRows(c: Cursor, start: Bytes, fixedbits: nat, walker: seq<Entry> -> Verdict, ghost p0: nat, row: Fetched)
      returns (visited: seq<Entry>, out: Outcome)
    requires Sorted(c.rows) && |start| >= FixedBytes(fixedbits) && Walking(c, start, fixedbits, walker, p0, [], row)
    modifies c
    ensures Reported(c.rows, start, fixedbits, walker, visited, out)
    ensures c.failures == old(c.failures) + if out == CursorError then 1 else 0
  {
    visited := [];
    var r := row;
    ghost var p := p0;
    while r.Row? && Matches(start, r.entry.key, fixedbits)
      invariant Walking(c, start, fixedbits, walker, p, visited, r) && c.failures == old(c.failures)
      decreases |c.rows| - p
    {
      var done;
      visited, done, out, r := Visit(c, start, fixedbits, walker, p, visited, r);
      if done {
        return;
      }
      p := p + 1;
    }
    ProgressEnds(c.rows, start, fixedbits, p, visited);
    out := Nil;
  }

  /** Row `p` was just fetched, and the walker went on after every row before it. */
  ghost predicate Walking(c: Cursor, start: Bytes, fixedbits: nat, walker: seq<Entry> -> Verdict,
                          p: nat, visited: seq<Entry>, r: Fetched)
    reads c
  {
    Progress(c.rows, start, fixedbits, p, visited) && c.At(p, r) && WentOn(walker, visited)
  }

  /** One turn of the loop: show the walker a row and fetch the next. */
  method Visit(c: Cursor, start: Bytes, fixedbits: nat, walker: seq<Entry> -> Verdict,
               ghost p: nat, before: seq<Entry>, row: Fetched)
      returns (visited: seq<Entry>, done: bool, out: Outcome, r: Fetched)
    requires Sorted(c.rows) && |start| >= FixedBytes(fixedbits)
    requires Walking(c, start, fixedbits, walker, p, before, row)
    requires row.Row? && Matches(start, row.entry.key, fixedbits)
    modifies c
    ensures done ==> Reported(c.rows, start, fixedbits, walker, visited, out)
    ensures !done ==> Walking(c, start, fixedbits, walker, p + 1, visited, r)
    ensures c.failures == old(c.failures) + if done && out == CursorError then 1 else 0
  {
    ProgressStep(c.rows, start, fixedbits, p, before);
    ReportedByWalker(c.rows, start, fixedbits, walker, p + 1, before, row.entry);
    visited, r := before + [row.entry], row;
    var verdict := walker(visited);
    if verdict == Fail {
      return visited, true, WalkerError, r;
    }
    if verdict == Stop {
      return visited, true, Nil, r;
    }
    r := c.Next();
    done, out := r.Failed?, CursorError;
  }

  datatype Piece = Piece(key1: Bytes, key2: Bytes, key3: Bytes, value: Value) | NoPiece | PieceError

  /** A cursor that hands out keys in parts, leaving out the bytes between the first two. */
  class SplitCursor {
    const c: Cursor
    const startkey: Bytes
    const matchBits: nat
    const part1end: nat
    const part2start: nat
    const part3start: nat

    constructor (c: Cursor, startkey: Bytes, matchBits: nat, part1end: nat, part2start: nat, part3start: nat)
      ensures this.c == c && this.startkey == startkey && this.matchBits == matchBits
      ensures this.part1end == part1end && this.part2start == part2start && this.part3start == part3start
    {
      this.c, this.startkey, this.matchBits := c, startkey, matchBits;
      this.part1end, this.part2start, this.part3start := part1end, part2start, part3start;
    }

    /** What slicing the start key and the keys that match needs. */
    ghost predicate Fits() {
      && Sorted(c.rows)
      && |startkey| >= FixedBytes(matchBits)
      && part2start <= part3start
      && forall i :: 0 <= i < |c.rows| && Wanted(c.rows[i], startkey, matchBits)
           ==> part1end <= |c.rows[i].key| && part3start <= |c.rows[i].key|
    }

    /** The rows still to come. */
    ghost function Rest(): seq<Entry>
      requires c.next <= |c.rows|
      reads c
    {
      Scan(c.rows[c.next..], startkey, matchBits)
    }

    /** The piece handed out for the first of the rows still to come. */
    ghost predicate Delivers(r: Piece, todo: seq<Entry>)
    {
      if todo == [] then r == NoPiece
      else
        var k := todo[0].key;
        && part1end <= |k| && part2start <= part3start <= |k|
        && r == Piece(k[..part1end], k[part2start..part3start], k[part3start..], todo[0].value)
    }

    method Split(f: Fetched) returns (r: Piece)
      requires Fits() && (f.Row? ==> f.entry in c.rows && LessEq(startkey, f.entry.key))
      ensures f.Failed? <==> r == PieceError
      ensures f.Row? && AgreeOn(startkey, f.entry.key, matchBits) ==> Delivers(r, [f.entry])
      ensures f == End || (f.Row? && !AgreeOn(startkey, f.entry.key, matchBits)) ==> r == NoPiece
    {
      match f
      case Failed => r := PieceError;
      case End => r := NoPiece;
      case Row(e) =>
        MatchesComparesBits(startkey, e.key, matchBits);
        if Matches(startkey, e.key, matchBits) {
          assert Wanted(e, startkey, matchBits);
          r := Piece(e.key[..part1end], e.key[part2start..part3start], e.key[part3start..], e.value);
        } else {
          r := NoPiece;
        }
    }

    /** Restarts the scan: the first wanted row, with the others still to come. */
    method Seek() returns (r: Piece)
      requires Fits()
      modifies c
      ensures r != PieceError ==> Past(c.rows, startkey, c.next)
      ensures r != PieceError ==> Delivers(r, Scan(c.rows, startkey, matchBits))
      ensures r != PieceError && r != NoPiece ==> Rest() == Scan(c.rows, startkey, matchBits)[1..]
      ensures r == NoPiece ==> Rest() == []
      ensures c.failures == old(c.failures) + if r == PieceError then 1 else 0
    {
      var f := c.Seek(startkey);
      if !f.Failed? {
        ghost var p: nat :| Lands(c.rows, startkey, p) && c.At(p, f);
        LandingIsPast(c.rows, startkey, p);
        SeekSkipsNothing(c.rows, startkey, matchBits, p);
        if p < |c.rows| {
          ScanStep(c.rows, startkey, matchBits, p);
          MatchesComparesBits(startkey, c.rows[p].key, matchBits);
        }
      }
      r := Split(f);
    }

    /** Delivers the next wanted row; once there is none it keeps saying so. */
    method Next() returns (r: Piece)
      requires Fits() && Past(c.rows, startkey, c.next)
      modifies c
      ensures r != PieceError ==> Past(c.rows, startkey, c.next)
      ensures r != PieceError ==> Delivers(r, old(Rest()))
      ensures r != PieceError && r != NoPiece ==> Rest() == old(Rest())[1..]
      ensures r == NoPiece ==> Rest() == []
      ensures c.failures == old(c.failures) + if r == PieceError then 1 else 0
    {
      ghost var p := c.next;
      var f := c.Next();
      if f.Row? {
        assert From(c.rows, startkey, p);
        ScanStep(c.rows, startkey, matchBits, p);
        MatchesComparesBits(startkey, c.rows[p].key, matchBits);
      }
      r := Split(f);
    }

    /** The loop of a caller: seek, then next until there is no more. It sees the wanted rows in order,
        and all of them unless the cursor fails. */
    method Collect() returns (pieces: seq<Piece>, failed: bool)
      requires Fits()
      modifies c
      ensures CutFrom(pieces, Scan(c.rows, startkey, matchBits))
      ensures !failed ==> |pieces| == |Scan(c.rows, startkey, matchBits)|
      ensures c.failures == old(c.failures) + if failed then 1 else 0
    {
      ghost var all := Scan(c.rows, startkey, matchBits);
      pieces := [];
      var r := Seek();
      assert all[0..] == all;
      while r.Piece?
        invariant CutFrom(pieces, all) && Pending(r, all[|pieces|..])
        invariant c.failures == old(c.failures) + if r == PieceError then 1 else 0
        decreases |all| - |pieces|
      {
        CutGrows(pieces, r, all);
        TailOf(all, |pieces|);
        pieces := pieces + [r];
        r := Next();
      }
      failed := r == PieceError;
    }

    /** `r` was just delivered as the first of the rows to do; the others are still to come. */
    ghost predicate Pending(r: Piece, todo: seq<Entry>)
      reads c
    {
      r != PieceError ==>
        && Past(c.rows, startkey, c.next) && Delivers(r, todo)
        && (r.Piece? ==> todo != [] && Rest() == todo[1..])
    }

    lemma TailOf(s: seq<Entry>, i: nat)
      requires i < |s|
      ensures s[i..][1..] == s[i + 1..]
    {
    }

    lemma CutGrows(pieces: seq<Piece>, r: Piece, todo: seq<Entry>)
      requires CutFrom(pieces, todo) && |pieces| < |todo| && Delivers(r, todo[|pieces|..])
      ensures CutFrom(pieces + [r], todo)
    {
    }

    /** The pieces are the first rows of `todo`, cut up. */
    ghost predicate CutFrom(pieces: seq<Piece>, todo: seq<Entry>) {
      |pieces| <= |todo| && forall i :: 0 <= i < |pieces| ==> Delivers(pieces[i], todo[i..])
    }
  }
}
