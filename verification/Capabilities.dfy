/** Capability negotiation: which subprotocols two peers share and which message codes each gets
    (section "Capability Messaging" of the devp2p RLPx Transport Protocol). */
module Capabilities {
  import opened Common

  datatype Cap = Cap(name: string, version: nat)
  datatype Protocol = Protocol(name: string, version: nat, length: U64)
  datatype ProtoRW = ProtoRW(proto: Protocol, offset: int)

  const BASE_PROTOCOL_LENGTH: nat := 16

  // ---------------------------------------------------------------------------------------------
  // Ordering

  /** Byte-wise string order. */
  predicate NameLess(a: string, b: string) {
    b != [] && (a == [] || a[0] < b[0] || (a[0] == b[0] && NameLess(a[1..], b[1..])))
  }

  lemma {:induction false} NameOrder(a: string, b: string, c: string)
    ensures !NameLess(a, a)
    ensures NameLess(a, b) && NameLess(b, c) ==> NameLess(a, c)
    ensures NameLess(a, b) || a == b || NameLess(b, a)
    ensures !(NameLess(a, b) && NameLess(b, a))
    decreases |a| + |b| + |c|
  {
    if a != [] && b != [] {
      assert a == [a[0]] + a[1..] && b == [b[0]] + b[1..];
      NameOrder(a[1..], b[1..], if c == [] then [] else c[1..]);
    } else if a != [] {
      NameOrder(a[1..], [], []);
    }
  }

  /** At the first place where they differ, `a` ends or has the smaller character. */
  ghost predicate Before(a: string, b: string) {
    exists i :: 0 <= i <= |a| && i <= |b| && a[..i] == b[..i] && SmallerAt(a, b, i)
  }

  predicate SmallerAt(a: string, b: string, i: nat)
    requires i <= |a| && i <= |b|
  {
    i < |b| && (i == |a| || a[i] < b[i])
  }

  /** The string order is the order at the first difference. */
  lemma {:induction false} NameLessIffBefore(a: string, b: string)
    ensures NameLess(a, b) <==> Before(a, b)
    decreases |a|
  {
    if a != [] && b != [] && a[0] == b[0] {
      NameLessIffBefore(a[1..], b[1..]);
      if NameLess(a, b) {
        var i :| 0 <= i <= |a[1..]| && i <= |b[1..]| && a[1..][..i] == b[1..][..i] && SmallerAt(a[1..], b[1..], i);
        assert a[..i + 1] == [a[0]] + a[1..][..i] && b[..i + 1] == [b[0]] + b[1..][..i];
        assert SmallerAt(a, b, i + 1);
      }
      if Before(a, b) {
        var i :| 0 <= i <= |a| && i <= |b| && a[..i] == b[..i] && SmallerAt(a, b, i);
        assert i > 0;
        assert a[1..][..i - 1] == a[..i][1..] && b[1..][..i - 1] == b[..i][1..];
        assert SmallerAt(a[1..], b[1..], i - 1);
      }
    } else {
      assert a[..0] == b[..0] && (NameLess(a, b) ==> SmallerAt(a, b, 0));
      if Before(a, b) {
        var i :| 0 <= i <= |a| && i <= |b| && a[..i] == b[..i] && SmallerAt(a, b, i);
        StartAlike(a, b, i);
      }
    }
  }

  lemma StartAlike(a: string, b: string, i: nat)
    requires i <= |a| && i <= |b| && a[..i] == b[..i]
    ensures i > 0 ==> a[0] == b[0]
  {
    assert i > 0 ==> a[..i][0] == b[..i][0];
  }

  /** `capsByNameAndVersion.Less`. */
  predicate CapLess(a: Cap, b: Cap) {
    NameLess(a.name, b.name) || (a.name == b.name && a.version < b.version)
  }

  predicate Sorted(cs: seq<Cap>) {
    forall i, j :: 0 <= i < j < |cs| ==> !CapLess(cs[j], cs[i])
  }

  function Insert(cs: seq<Cap>, c: Cap): (r: seq<Cap>)
    requires Sorted(cs)
    ensures Sorted(r) && multiset(r) == multiset(cs) + multiset{c}
    ensures forall x :: x in r <==> x in cs || x == c
  {
    if cs == [] || !CapLess(cs[0], c) then
      SortedPrepend(cs, c);
      [c] + cs
    else
      var r := Insert(cs[1..], c);
      assert cs == [cs[0]] + cs[1..];
      SortedHead(cs, r, c);
      [cs[0]] + r
  }

  lemma SortedPrepend(cs: seq<Cap>, c: Cap)
    requires Sorted(cs) && (cs == [] || !CapLess(cs[0], c))
    ensures Sorted([c] + cs)
  {
    forall j | 0 <= j < |cs|
      ensures !CapLess(cs[j], c)
    {
      CapOrder(cs[j], cs[0], c);
      assert j > 0 ==> !CapLess(cs[j], cs[0]);
    }
  }

  lemma SortedHead(cs: seq<Cap>, r: seq<Cap>, c: Cap)
    requires Sorted(cs) && cs != [] && CapLess(cs[0], c) && Sorted(r)
    requires forall x :: x in r <==> x in cs[1..] || x == c
    ensures Sorted([cs[0]] + r)
  {
    forall j | 0 <= j < |r|
      ensures !CapLess(r[j], cs[0])
    {
      CapOrder(c, cs[0], c);
      assert r[j] in r;
      if r[j] != c {
        var i :| 0 <= i < |cs[1..]| && cs[1..][i] == r[j];
        assert cs[i + 1] == r[j];
      }
    }
  }

  /** CapLess is a strict weak order. */
  lemma CapOrder(a: Cap, b: Cap, c: Cap)
    ensures !(CapLess(a, b) && CapLess(b, a))
    ensures !CapLess(a, b) && !CapLess(b, c) ==> !CapLess(a, c)
  {
    NameOrder(a.name, b.name, c.name);
    NameOrder(c.name, b.name, a.name);
    NameOrder(a.name, c.name, b.name);
  }

  function SortCaps(cs: seq<Cap>): (r: seq<Cap>)
    ensures Sorted(r) && multiset(r) == multiset(cs)
    ensures forall x :: x in r <==> x in cs
  {
    if cs == [] then []
    else
      assert cs == cs[..|cs| - 1] + [cs[|cs| - 1]];
      Insert(SortCaps(cs[..|cs| - 1]), cs[|cs| - 1])
  }

  // ---------------------------------------------------------------------------------------------
  // Matching

  /** The first local protocol with this name and version. */
  function FirstMatch(ps: seq<Protocol>, c: Cap): (p: Option<Protocol>)
    ensures p.Some? ==> p.value in ps && p.value.name == c.name && p.value.version == c.version
    ensures p.None? ==> forall q :: q in ps ==> q.name != c.name || q.version != c.version
  {
    if ps == [] then None
    else if ps[0].name == c.name && ps[0].version == c.version then Some(ps[0])
    else FirstMatch(ps[1..], c)
  }

  /** State of the matching loop; `names` lists the matched names in the order they were first met. */
  datatype Match = Match(offset: int, result: map<string, ProtoRW>, names: seq<string>)

  const NoMatch := Match(BASE_PROTOCOL_LENGTH, map[], [])

  /** One capability: a match takes the codes from `offset` on, after giving back those of an older
      version of the same name. */
  function MatchOne(ps: seq<Protocol>, m: Match, c: Cap): Match {
    var p := FirstMatch(ps, c);
    if p.None? then m
    else
      var again := c.name in m.result;
      var offset := if again then m.offset - m.result[c.name].proto.length else m.offset;
      Match(offset + p.value.length, m.result[c.name := ProtoRW(p.value, offset)],
            if again then m.names else m.names + [c.name])
  }

  predicate NamesSorted(names: seq<string>) {
    forall i, j :: 0 <= i < j < |names| ==> NameLess(names[i], names[j])
  }

  /** Ranges are packed from 16 on, in the order of the names, without gaps. */
  ghost predicate Packed(m: Match) {
    && NamesSorted(m.names)
    && (forall n :: n in m.result <==> n in m.names)
    && (forall n :: n in m.result ==> m.result[n].proto.name == n)
    && (m.names == [] ==> m.offset == BASE_PROTOCOL_LENGTH)
    && (m.names != [] ==>
          && m.result[m.names[0]].offset == BASE_PROTOCOL_LENGTH
          && m.offset == End(m.result[m.names[|m.names| - 1]]))
    && (forall j :: 0 < j < |m.names| ==> m.result[m.names[j]].offset == End(m.result[m.names[j - 1]]))
  }

  function End(rw: ProtoRW): int {
    rw.offset + rw.proto.length
  }

  /** What has been matched so far is, for each name, the last (highest) version both sides have. */
  ghost predicate Highest(ps: seq<Protocol>, caps: seq<Cap>, m: Match) {
    && (forall n :: n in m.result ==>
          && Cap(n, m.result[n].proto.version) in caps
          && FirstMatch(ps, Cap(n, m.result[n].proto.version)) == Some(m.result[n].proto))
    && (forall c :: c in caps && FirstMatch(ps, c).Some? ==>
          c.name in m.result && c.version <= m.result[c.name].proto.version)
  }

  ghost predicate MatchInv(ps: seq<Protocol>, caps: seq<Cap>, m: Match) {
    Packed(m) && Highest(ps, caps, m)
  }

  /** In sorted order, a name met again is the one matched last. */
  lemma SameNameIsLast(ps: seq<Protocol>, caps: seq<Cap>, m: Match, c: Cap)
    requires MatchInv(ps, caps, m) && Sorted(caps + [c]) && c.name in m.result
    ensures m.names != [] && c.name == m.names[|m.names| - 1]
    ensures m.result[c.name].proto.version <= c.version
  {
    var i :| 0 <= i < |m.names| && m.names[i] == c.name;
    var last := m.names[|m.names| - 1];
    assert last in m.result;
    LastMet(caps, Cap(last, m.result[last].proto.version), c);
    LastMet(caps, Cap(c.name, m.result[c.name].proto.version), c);
    NameOrder(c.name, last, c.name);
  }

  lemma LastMet(caps: seq<Cap>, x: Cap, c: Cap)
    requires Sorted(caps + [c]) && x in caps
    ensures !CapLess(c, x)
  {
    var i :| 0 <= i < |caps| && caps[i] == x;
    assert (caps + [c])[i] == x && (caps + [c])[|caps|] == c;
  }

  lemma MatchOneKeepsInv(ps: seq<Protocol>, caps: seq<Cap>, m: Match, c: Cap)
    requires MatchInv(ps, caps, m) && Sorted(caps + [c])
    ensures MatchInv(ps, caps + [c], MatchOne(ps, m, c))
  {
    if c.name in m.result {
      SameNameIsLast(ps, caps, m, c);
    }
    var m' := MatchOne(ps, m, c);
    if FirstMatch(ps, c).Some? {
      if c.name in m.result {
        ReplacedPacked(ps, m, c);
      } else {
        NewNameIsGreatest(ps, caps, m, c);
        AppendedPacked(ps, m, c);
      }
    }
    HighestKept(ps, caps, m, c);
  }

  lemma ReplacedPacked(ps: seq<Protocol>, m: Match, c: Cap)
    requires Packed(m) && c.name in m.result && m.names != [] && c.name == m.names[|m.names| - 1] && FirstMatch(ps, c).Some?
    ensures Packed(MatchOne(ps, m, c))
  {
    forall j | 0 <= j < |m.names| - 1
      ensures m.names[j] != c.name
    {
      NameOrder(m.names[j], m.names[j], m.names[j]);
    }
  }

  /** In sorted order, a new name comes after all matched ones. */
  lemma NewNameIsGreatest(ps: seq<Protocol>, caps: seq<Cap>, m: Match, c: Cap)
    requires MatchInv(ps, caps, m) && Sorted(caps + [c]) && c.name !in m.result
    ensures forall j :: 0 <= j < |m.names| ==> NameLess(m.names[j], c.name)
  {
    forall j | 0 <= j < |m.names|
      ensures NameLess(m.names[j], c.name)
    {
      var n := m.names[j];
      assert n in m.result;
      LastMet(caps, Cap(n, m.result[n].proto.version), c);
      NameOrder(n, c.name, n);
    }
  }

  lemma AppendedPacked(ps: seq<Protocol>, m: Match, c: Cap)
    requires Packed(m) && c.name !in m.result && FirstMatch(ps, c).Some?
    requires forall j :: 0 <= j < |m.names| ==> NameLess(m.names[j], c.name)
    ensures Packed(MatchOne(ps, m, c))
  {
    var m' := MatchOne(ps, m, c);
    assert forall n :: n in m'.names <==> n in m.names || n == c.name;
    assert NamesSorted(m'.names);
    forall j | 0 < j < |m'.names|
      ensures m'.result[m'.names[j]].offset == End(m'.result[m'.names[j - 1]])
    {
      assert m'.names[j - 1] == m.names[j - 1] && m.names[j - 1] in m.names;
    }
    assert m.names != [] ==> m.names[0] in m.result && m'.names[0] == m.names[0];
  }

  lemma HighestKept(ps: seq<Protocol>, caps: seq<Cap>, m: Match, c: Cap)
    requires Highest(ps, caps, m)
    requires c.name in m.result ==> m.result[c.name].proto.version <= c.version
    ensures Highest(ps, caps + [c], MatchOne(ps, m, c))
  {
    var m' := MatchOne(ps, m, c);
    assert forall x :: x in caps + [c] <==> x in caps || x == c;
    assert FirstMatch(ps, c).Some? ==> FirstMatch(ps, Cap(c.name, c.version)) == FirstMatch(ps, c);
  }

  /** The whole loop over capabilities. */
  function MatchAll(ps: seq<Protocol>, caps: seq<Cap>): Match {
    if caps == [] then NoMatch else MatchOne(ps, MatchAll(ps, caps[..|caps| - 1]), caps[|caps| - 1])
  }

  lemma {:induction false} MatchAllInv(ps: seq<Protocol>, caps: seq<Cap>)
    requires Sorted(caps)
    ensures MatchInv(ps, caps, MatchAll(ps, caps))
    decreases |caps|
  {
    if caps == [] {
    } else {
      var k := |caps| - 1;
      assert caps == caps[..k] + [caps[k]];
      MatchAllInv(ps, caps[..k]);
      MatchOneKeepsInv(ps, caps[..k], MatchAll(ps, caps[..k]), caps[k]);
    }
  }

  /** Negotiated layout of a node with protocols `ps` facing a peer that announced `caps`. */
  function Negotiate(ps: seq<Protocol>, caps: seq<Cap>): Match {
    MatchAll(ps, SortCaps(caps))
  }

  /** Whatever the peer announces: the code ranges are packed from 16 on in the order of names, one
      for each shared name, with the highest version both sides have. */
  lemma NegotiatedLayout(ps: seq<Protocol>, caps: seq<Cap>)
    ensures MatchInv(ps, caps, Negotiate(ps, caps))
  {
    MatchAllInv(ps, SortCaps(caps));
    SameCapsHighest(ps, SortCaps(caps), caps, Negotiate(ps, caps));
  }

  lemma NegotiatedPacked(ps: seq<Protocol>, caps: seq<Cap>)
    ensures Packed(Negotiate(ps, caps))
  {
    NegotiatedLayout(ps, caps);
  }

  lemma SameCapsHighest(ps: seq<Protocol>, a: seq<Cap>, b: seq<Cap>, m: Match)
    requires Highest(ps, a, m) && forall x :: x in a <==> x in b
    ensures Highest(ps, b, m)
  {
  }

  // ---------------------------------------------------------------------------------------------
  // Where each protocol starts

  /** All codes of the protocols with these names. */
  ghost function Codes(result: map<string, ProtoRW>, names: set<string>): nat
    requires names <= result.Keys
  {
    if names == {} then 0
    else
      var n :| n in names;
      result[n].proto.length + Codes(result, names - {n})
  }

  /** The sum does not depend on the order of summation. */
  lemma {:induction false} CodesWithout(result: map<string, ProtoRW>, names: set<string>, n: string)
    requires names <= result.Keys && n in names
    ensures Codes(result, names) == result[n].proto.length + Codes(result, names - {n})
    decreases names
  {
    var k :| k in names && Codes(result, names) == result[k].proto.length + Codes(result, names - {k});
    if k != n {
      CodesWithout(result, names - {k}, n);
      CodesWithout(result, names - {n}, k);
      assert names - {k} - {n} == names - {n} - {k};
    }
  }

  /** The matched names that come before `n` at their first difference. */
  ghost function NamesBefore(result: map<string, ProtoRW>, n: string): set<string> {
    set k | k in result && Before(k, n)
  }

  ghost function Firsts(names: seq<string>, j: nat): set<string>
    requires j <= |names|
  {
    set i | 0 <= i < j :: names[i]
  }

  lemma FirstsGrow(names: seq<string>, j: nat)
    requires NamesSorted(names) && j < |names|
    ensures names[j] in Firsts(names, j + 1) && Firsts(names, j + 1) - {names[j]} == Firsts(names, j)
  {
    forall i | 0 <= i < j
      ensures names[i] != names[j]
    {
      NameOrder(names[i], names[j], names[i]);
    }
  }

  /** The names before the `j`-th at the first difference are the first `j`. */
  lemma FirstsComeBefore(m: Match, j: nat)
    requires NamesSorted(m.names) && j < |m.names| && forall n :: n in m.result <==> n in m.names
    ensures Firsts(m.names, j) == NamesBefore(m.result, m.names[j])
  {
    forall i | 0 <= i < |m.names|
      ensures Before(m.names[i], m.names[j]) <==> i < j
    {
      NameLessIffBefore(m.names[i], m.names[j]);
      NameOrder(m.names[i], m.names[j], m.names[i]);
      assert j < i ==> NameLess(m.names[j], m.names[i]);
    }
    forall k | k in NamesBefore(m.result, m.names[j])
      ensures k in Firsts(m.names, j)
    {
      var i :| 0 <= i < |m.names| && m.names[i] == k;
    }
  }

  lemma FirstsKnown(m: Match, j: nat)
    requires j <= |m.names| && forall n :: n in m.result <==> n in m.names
    ensures Firsts(m.names, j) <= m.result.Keys
    ensures j == |m.names| ==> Firsts(m.names, j) == m.result.Keys
  {
    forall n | n in m.result && j == |m.names|
      ensures n in Firsts(m.names, j)
    {
      var i :| 0 <= i < |m.names| && m.names[i] == n;
    }
  }

  lemma CodesOfNext(m: Match, j: nat)
    requires NamesSorted(m.names) && j < |m.names| && forall n :: n in m.result <==> n in m.names
    ensures Firsts(m.names, j) <= m.result.Keys && Firsts(m.names, j + 1) <= m.result.Keys
    ensures Codes(m.result, Firsts(m.names, j + 1)) == Codes(m.result, Firsts(m.names, j)) + m.result[m.names[j]].proto.length
  {
    FirstsKnown(m, j);
    FirstsKnown(m, j + 1);
    FirstsGrow(m.names, j);
    CodesWithout(m.result, Firsts(m.names, j + 1), m.names[j]);
  }

  /** In a packed layout the `j`-th protocol starts after the codes of the `j` names before it. */
  lemma {:induction false} StartsAfter(m: Match, j: nat)
    requires Packed(m) && j < |m.names|
    ensures Firsts(m.names, j) <= m.result.Keys
    ensures m.result[m.names[j]].offset == BASE_PROTOCOL_LENGTH + Codes(m.result, Firsts(m.names, j))
  {
    if j > 0 {
      StartsAfter(m, j - 1);
      CodesOfNext(m, j - 1);
    } else {
      assert Firsts(m.names, 0) == {};
    }
  }

  lemma PackedOffset(m: Match, n: string)
    requires Packed(m) && n in m.result
    ensures m.result[n].offset == BASE_PROTOCOL_LENGTH + Codes(m.result, NamesBefore(m.result, n))
  {
    var j :| 0 <= j < |m.names| && m.names[j] == n;
    StartsAfter(m, j);
    FirstsComeBefore(m, j);
  }

  lemma PackedEnd(m: Match)
    requires Packed(m)
    ensures m.offset == BASE_PROTOCOL_LENGTH + Codes(m.result, m.result.Keys)
  {
    FirstsKnown(m, |m.names|);
    if m.names == [] {
      assert m.result.Keys == {};
    } else {
      StartsAfter(m, |m.names| - 1);
      CodesOfNext(m, |m.names| - 1);
    }
  }

  /** Whatever the peer announces: every matched protocol starts at 16 plus the codes of all matched
      protocols whose names come before its own at the first difference, and the layout ends after the
      codes of them all. */
  lemma NegotiatedOffsets(ps: seq<Protocol>, caps: seq<Cap>)
    ensures var m := Negotiate(ps, caps);
            && (forall n :: n in m.result ==> m.result[n].offset == 16 + Codes(m.result, NamesBefore(m.result, n)))
            && m.offset == 16 + Codes(m.result, m.result.Keys)
  {
    NegotiatedLayout(ps, caps);
    var m := Negotiate(ps, caps);
    forall n | n in m.result
      ensures m.result[n].offset == 16 + Codes(m.result, NamesBefore(m.result, n))
    {
      PackedOffset(m, n);
    }
    PackedEnd(m);
  }

  /** The layout as 64-bit offsets hold it. */
  function Truncated(result: map<string, ProtoRW>): map<string, ProtoRW> {
    map n | n in result :: result[n].(offset := result[n].offset % TWO_64)
  }

  lemma {:induction false} TruncatedCodes(result: map<string, ProtoRW>, names: set<string>)
    requires names <= result.Keys
    ensures names <= Truncated(result).Keys && Codes(Truncated(result), names) == Codes(result, names)
    decreases names
  {
    if names != {} {
      var n :| n in names;
      TruncatedCodes(result, names - {n});
      CodesWithout(result, names, n);
      CodesWithout(Truncated(result), names, n);
    }
  }

  /** A protocol starts after the codes of the names before its own, in 64 bits. */
  ghost predicate StartsInOrder(result: map<string, ProtoRW>, n: string)
    requires n in result
  {
    result[n].offset == (16 + Codes(result, NamesBefore(result, n))) % TWO_64
  }

  lemma TruncatedStart(result: map<string, ProtoRW>, n: string)
    requires n in result && result[n].offset == 16 + Codes(result, NamesBefore(result, n))
    ensures StartsInOrder(Truncated(result), n)
  {
    TruncatedCodes(result, NamesBefore(result, n));
    assert NamesBefore(Truncated(result), n) == NamesBefore(result, n);
  }

  lemma TruncatedStarts(ps: seq<Protocol>, caps: seq<Cap>)
    ensures var result := Truncated(Negotiate(ps, caps).result); forall n :: n in result ==> StartsInOrder(result, n)
  {
    NegotiatedOffsets(ps, caps);
    var result := Negotiate(ps, caps).result;
    forall n | n in result
      ensures StartsInOrder(Truncated(result), n)
    {
      TruncatedStart(result, n);
    }
  }

  lemma WrapsLikeSum(x: int, d: int)
    ensures (x % TWO_64 + d) % TWO_64 == (x + d) % TWO_64
  {
  }

  /** One turn of the outer loop of `matchProtocols`, in 64-bit arithmetic: it computes the matching
      step modulo 2^64. */
  method MatchCap(ps: seq<Protocol>, offset: U64, result: map<string, ProtoRW>, cap: Cap, ghost m: Match)
      returns (offset': U64, result': map<string, ProtoRW>)
    requires offset == m.offset % TWO_64 && result == Truncated(m.result)
    ensures offset' == MatchOne(ps, m, cap).offset % TWO_64
    ensures result' == Truncated(MatchOne(ps, m, cap).result)
  {
    offset', result' := offset, result;
    var j := FindProtocol(ps, cap);
    if j < |ps| {
      ghost var start := m.offset;
      if cap.name in result' {
        WrapsLikeSum(m.offset, 0 - m.result[cap.name].proto.length);
        start := m.offset - m.result[cap.name].proto.length;
        offset' := (offset' - result'[cap.name].proto.length) % TWO_64;
      }
      WrapsLikeSum(start, ps[j].length);
      result' := result'[cap.name := ProtoRW(ps[j], offset')];
      offset' := (offset' + ps[j].length) % TWO_64;
    }
  }

  lemma MatchAllStep(ps: seq<Protocol>, caps: seq<Cap>, i: nat)
    requires i < |caps|
    ensures MatchAll(ps, caps[..i + 1]) == MatchOne(ps, MatchAll(ps, caps[..i]), caps[i])
  {
    assert caps[..i + 1][..i] == caps[..i];
  }

  /** `matchProtocols`: sort, then go through the capabilities in order. */
  method MatchProtocols(ps: seq<Protocol>, caps: seq<Cap>) returns (result: map<string, ProtoRW>)
    ensures result == Truncated(Negotiate(ps, caps).result)
    ensures forall n :: n in result ==> StartsInOrder(result, n)
  {
    var sorted := SortCaps(caps);
    var offset: U64 := BASE_PROTOCOL_LENGTH;
    result := map[];
    ghost var m := NoMatch;
    for i := 0 to |sorted|
      invariant m == MatchAll(ps, sorted[..i])
      invariant offset == m.offset % TWO_64 && result == Truncated(m.result)
    {
      MatchAllStep(ps, sorted, i);
      offset, result := MatchCap(ps, offset, result, sorted[i], m);
      m := MatchOne(ps, m, sorted[i]);
    }
    assert sorted[..|sorted|] == sorted;
    TruncatedStarts(ps, caps);
  }

  /** 64-bit offsets hold a layout exactly if and only if its last offset fits, so in particular if
      its codes end below 2^64. */
  lemma TruncatedIffLastFits(m: Match)
    requires Packed(m)
    ensures Truncated(m.result) == m.result <==> m.names == [] || m.result[m.names[|m.names| - 1]].offset < TWO_64
    ensures m.offset < TWO_64 ==> Truncated(m.result) == m.result
  {
    if m.names != [] {
      var last := m.names[|m.names| - 1];
      assert last in m.names;
      if m.result[last].offset < TWO_64 {
        LowOffsetsKept(m);
      } else {
        assert Truncated(m.result)[last].offset != m.result[last].offset;
      }
    }
  }

  lemma LowOffsetsKept(m: Match)
    requires Packed(m) && m.names != [] && m.result[m.names[|m.names| - 1]].offset < TWO_64
    ensures Truncated(m.result) == m.result
  {
    forall n | n in m.result
      ensures 0 <= m.result[n].offset < TWO_64
    {
      var j :| 0 <= j < |m.names| && m.names[j] == n;
      OffsetsInOrder(m, j);
    }
  }

  lemma OffsetsInOrder(m: Match, j: nat)
    requires Packed(m) && j < |m.names|
    ensures BASE_PROTOCOL_LENGTH <= m.result[m.names[j]].offset <= m.result[m.names[|m.names| - 1]].offset
  {
    if j > 0 {
      OffsetsAscend(m, 0, j);
    }
    if j < |m.names| - 1 {
      OffsetsAscend(m, j, |m.names| - 1);
    }
    assert m.names[j] in m.result && m.names[0] in m.result;
  }

  /** The inner loop. */
  method FindProtocol(ps: seq<Protocol>, c: Cap) returns (j: nat)
    ensures j <= |ps|
    ensures j < |ps| ==> ps[j].name == c.name && ps[j].version == c.version
    ensures forall i :: 0 <= i < j ==> ps[i].name != c.name || ps[i].version != c.version
    ensures FirstMatch(ps, c) == if j < |ps| then Some(ps[j]) else None
  {
    j := 0;
    while j < |ps| && !(ps[j].name == c.name && ps[j].version == c.version)
      invariant j <= |ps|
      invariant forall i :: 0 <= i < j ==> ps[i].name != c.name || ps[i].version != c.version
      invariant FirstMatch(ps, c) == FirstMatch(ps[j..], c)
    {
      assert ps[j..][1..] == ps[j + 1..];
      j := j + 1;
    }
  }

  // ---------------------------------------------------------------------------------------------
  // Both peers compute the same layout

  /** The capabilities a node announces. */
  function Announced(ps: seq<Protocol>): (caps: seq<Cap>)
    ensures |caps| == |ps|
    ensures forall i :: 0 <= i < |ps| ==> caps[i] == Cap(ps[i].name, ps[i].version)
  {
    seq(|ps|, i requires 0 <= i < |ps| => Cap(ps[i].name, ps[i].version))
  }

  lemma AnnouncedMatches(ps: seq<Protocol>, c: Cap)
    ensures c in Announced(ps) <==> FirstMatch(ps, c).Some?
  {
    if c in Announced(ps) {
      var i :| 0 <= i < |ps| && Announced(ps)[i] == c;
      assert ps[i] in ps;
    }
    if FirstMatch(ps, c).Some? {
      var i :| 0 <= i < |ps| && ps[i] == FirstMatch(ps, c).value;
      assert Announced(ps)[i] == c;
    }
  }

  /** Shared capabilities have the same number of codes on both sides. */
  ghost predicate SameLengths(ps: seq<Protocol>, qs: seq<Protocol>) {
    forall c :: FirstMatch(ps, c).Some? && FirstMatch(qs, c).Some? ==>
      FirstMatch(ps, c).value.length == FirstMatch(qs, c).value.length
  }

  /** A name matched on one side is matched on the other, with no lower version. */
  lemma OtherSideMatches(ps: seq<Protocol>, qs: seq<Protocol>, n: string)
    requires n in Negotiate(ps, Announced(qs)).result
    ensures n in Negotiate(qs, Announced(ps)).result
    ensures Negotiate(qs, Announced(ps)).result[n].proto.version >= Negotiate(ps, Announced(qs)).result[n].proto.version
  {
    NegotiatedLayout(ps, Announced(qs));
    NegotiatedLayout(qs, Announced(ps));
    var c := Cap(n, Negotiate(ps, Announced(qs)).result[n].proto.version);
    AnnouncedMatches(qs, c);
    AnnouncedMatches(ps, c);
  }

  lemma SameEntry(ps: seq<Protocol>, qs: seq<Protocol>, n: string)
    requires SameLengths(ps, qs) && n in Negotiate(ps, Announced(qs)).result
    ensures n in Negotiate(qs, Announced(ps)).result
    ensures var x, y := Negotiate(ps, Announced(qs)).result[n].proto, Negotiate(qs, Announced(ps)).result[n].proto;
            x.version == y.version && x.length == y.length
  {
    OtherSideMatches(ps, qs, n);
    OtherSideMatches(qs, ps, n);
    NegotiatedLayout(ps, Announced(qs));
    NegotiatedLayout(qs, Announced(ps));
    var x, y := Negotiate(ps, Announced(qs)).result[n].proto, Negotiate(qs, Announced(ps)).result[n].proto;
    assert FirstMatch(ps, Cap(n, x.version)) == Some(x) && FirstMatch(qs, Cap(n, x.version)) == Some(y);
  }

  /** A strictly sorted list of names is determined by its elements. */
  lemma {:induction false} SortedNamesUnique(a: seq<string>, b: seq<string>)
    requires NamesSorted(a) && NamesSorted(b) && forall n :: n in a <==> n in b
    ensures a == b
    decreases |a| + |b|
  {
    assert a != [] ==> a[0] in a;
    assert b != [] ==> b[0] in b;
    if a != [] {
      FirstIsLeast(a, b);
      FirstIsLeast(b, a);
      NameOrder(a[0], b[0], a[0]);
      RestWithoutFirst(a);
      RestWithoutFirst(b);
      SortedNamesUnique(a[1..], b[1..]);
    }
  }

  lemma FirstIsLeast(a: seq<string>, b: seq<string>)
    requires NamesSorted(a) && a != [] && b != [] && b[0] in a
    ensures !NameLess(b[0], a[0])
  {
    var i :| 0 <= i < |a| && a[i] == b[0];
    NameOrder(a[0], b[0], a[0]);
  }

  lemma RestWithoutFirst(a: seq<string>)
    requires NamesSorted(a) && a != []
    ensures a[0] !in a[1..] && NamesSorted(a[1..])
    ensures forall n :: n in a[1..] <==> n in a && n != a[0]
  {
    NameOrder(a[0], a[0], a[0]);
    assert a == [a[0]] + a[1..];
  }

  /** Packed layouts with the same names and lengths have the same offsets. */
  lemma {:induction false} SameOffsets(m: Match, k: Match, j: nat)
    requires Packed(m) && Packed(k) && m.names == k.names && j < |m.names|
    requires forall n :: n in m.result ==> m.result[n].proto.length == k.result[n].proto.length
    ensures m.result[m.names[j]].offset == k.result[m.names[j]].offset
  {
    if j > 0 {
      SameOffsets(m, k, j - 1);
      assert m.names[j - 1] in m.result;
    }
  }

  /** Both sides run protocol `n` in the same version with the same number of codes. */
  predicate Agree(m: Match, k: Match, n: string) {
    && n in m.result && n in k.result
    && m.result[n].proto.version == k.result[n].proto.version
    && m.result[n].proto.length == k.result[n].proto.length
  }

  /** Two peers with equal lengths on what they share independently compute the same layout. */
  lemma PeersAgree(ps: seq<Protocol>, qs: seq<Protocol>)
    requires SameLengths(ps, qs)
    ensures var m, k := Negotiate(ps, Announced(qs)), Negotiate(qs, Announced(ps));
            && m.names == k.names && m.result.Keys == k.result.Keys
            && forall n :: n in m.result ==> Agree(m, k, n) && m.result[n].offset == k.result[n].offset
  {
    var m, k := Negotiate(ps, Announced(qs)), Negotiate(qs, Announced(ps));
    forall n | n in m.result
      ensures Agree(m, k, n)
    {
      SameEntry(ps, qs, n);
    }
    forall n | n in k.result
      ensures n in m.result
    {
      OtherSideMatches(qs, ps, n);
    }
    NegotiatedPacked(ps, Announced(qs));
    NegotiatedPacked(qs, Announced(ps));
    SortedNamesUnique(m.names, k.names);
    AllSameOffsets(m, k);
  }

  lemma AllSameOffsets(m: Match, k: Match)
    requires Packed(m) && Packed(k) && m.names == k.names
    requires forall n :: n in m.result ==> Agree(m, k, n)
    ensures forall n :: n in m.result ==> Agree(m, k, n) && m.result[n].offset == k.result[n].offset
  {
    forall n | n in m.result
      ensures m.result[n].offset == k.result[n].offset
    {
      var j :| 0 <= j < |m.names| && m.names[j] == n;
      SameOffsets(m, k, j);
    }
  }

  // ---------------------------------------------------------------------------------------------
  // Code ranges

  predicate InRange(rw: ProtoRW, code: int) {
    rw.offset <= code < End(rw)
  }

  lemma {:induction false} OffsetsAscend(m: Match, i: nat, j: nat)
    requires Packed(m) && i < j < |m.names|
    ensures End(m.result[m.names[i]]) <= m.result[m.names[j]].offset
    decreases j
  {
    if i < j - 1 {
      OffsetsAscend(m, i, j - 1);
      assert m.names[j - 1] in m.result;
    }
  }

  /** Ranges of different names do not overlap. */
  lemma RangesDisjoint(m: Match, a: string, b: string, code: int)
    requires Packed(m) && a in m.result && b in m.result && InRange(m.result[a], code) && InRange(m.result[b], code)
    ensures a == b
  {
    var i :| 0 <= i < |m.names| && m.names[i] == a;
    var j :| 0 <= j < |m.names| && m.names[j] == b;
    if i < j {
      OffsetsAscend(m, i, j);
    } else if j < i {
      OffsetsAscend(m, j, i);
    }
  }

  /** Together the ranges are exactly the codes from 16 to the final offset. */
  lemma RangesTile(m: Match, code: int)
    requires Packed(m)
    ensures BASE_PROTOCOL_LENGTH <= code < m.offset <==> exists n :: n in m.result && InRange(m.result[n], code)
  {
    if BASE_PROTOCOL_LENGTH <= code < m.offset {
      var n := CodeOwner(m, code, |m.names|);
      assert n in m.result;
    }
    forall n | n in m.result && InRange(m.result[n], code)
      ensures BASE_PROTOCOL_LENGTH <= code < m.offset
    {
      var j :| 0 <= j < |m.names| && m.names[j] == n;
      if j > 0 { OffsetsAscend(m, 0, j); }
      if j < |m.names| - 1 { OffsetsAscend(m, j, |m.names| - 1); }
    }
  }

  /** The name whose range contains `code`, looked up among the first `k` names. */
  lemma {:induction false} CodeOwner(m: Match, code: int, k: nat) returns (n: string)
    requires Packed(m) && 0 < k <= |m.names| && BASE_PROTOCOL_LENGTH <= code < End(m.result[m.names[k - 1]])
    ensures n in m.names && InRange(m.result[n], code)
    decreases k
  {
    if code >= m.result[m.names[k - 1]].offset {
      n := m.names[k - 1];
    } else {
      n := CodeOwner(m, code, k - 1);
    }
  }

  /** The test of `getProto`, in 64-bit arithmetic. */
  predicate Handles(rw: ProtoRW, code: U64) {
    rw.offset <= code < (rw.offset + rw.proto.length) % TWO_64
  }

  /** `getProto`: go through the running protocols in any order and take the first that handles the
      code. `m` is the layout they come from; while its codes end below 2^64, the result is the one
      owner of the code. */
  method GetProto(running: map<string, ProtoRW>, code: U64, ghost m: Match) returns (rw: Option<ProtoRW>)
    requires Packed(m) && running == Truncated(m.result)
    ensures rw.Some? ==> exists n :: n in running && rw.value == running[n] && Handles(running[n], code)
    ensures rw.None? ==> forall n :: n in running ==> !Handles(running[n], code)
    ensures m.offset < TWO_64 ==>
              && (rw.Some? <==> BASE_PROTOCOL_LENGTH <= code < m.offset)
              && (rw.Some? ==> rw.value.proto.name in m.result && rw.value == m.result[rw.value.proto.name])
              && (forall n :: n in m.result && InRange(m.result[n], code) ==> rw == Some(m.result[n]))
    ensures code == TWO_64 - 1 ==> rw == None
  {
    rw := None;
    var todo := running.Keys;
    while todo != {} && rw.None?
      invariant todo <= running.Keys
      invariant rw.None? ==> forall n :: n in running && n !in todo ==> !Handles(running[n], code)
      invariant rw.Some? ==> exists n :: n in running && rw.value == running[n] && Handles(running[n], code)
      decreases |todo|
    {
      var n :| n in todo;
      if Handles(running[n], code) {
        rw := Some(running[n]);
      }
      todo := todo - {n};
    }
    if m.offset < TWO_64 {
      OwnerIsUnique(m, code, rw);
    }
  }

  lemma OwnerIsUnique(m: Match, code: U64, rw: Option<ProtoRW>)
    requires Packed(m) && m.offset < TWO_64
    requires rw.Some? ==> exists n :: n in Truncated(m.result) && rw.value == Truncated(m.result)[n] && Handles(rw.value, code)
    requires rw.None? ==> forall n :: n in Truncated(m.result) ==> !Handles(Truncated(m.result)[n], code)
    ensures rw.Some? <==> BASE_PROTOCOL_LENGTH <= code < m.offset
    ensures rw.Some? ==> rw.value.proto.name in m.result && rw.value == m.result[rw.value.proto.name]
    ensures forall n :: n in m.result && InRange(m.result[n], code) ==> rw == Some(m.result[n])
  {
    HandlesIsInRange(m, code);
    RangesTile(m, code);
    forall n, k | n in m.result && k in m.result && InRange(m.result[n], code) && InRange(m.result[k], code)
      ensures n == k
    {
      RangesDisjoint(m, n, k, code);
    }
  }

  /** While the codes end below 2^64, neither offsets nor range ends wrap. */
  lemma HandlesIsInRange(m: Match, code: U64)
    requires Packed(m) && m.offset < TWO_64
    ensures Truncated(m.result) == m.result
    ensures forall n :: n in m.result ==> (Handles(m.result[n], code) <==> InRange(m.result[n], code))
  {
    TruncatedIffLastFits(m);
    forall n | n in m.result
      ensures 0 <= m.result[n].offset && End(m.result[n]) <= m.offset
    {
      var j :| 0 <= j < |m.names| && m.names[j] == n;
      OffsetsInOrder(m, j);
      if j < |m.names| - 1 {
        OffsetsAscend(m, j, |m.names| - 1);
      }
    }
  }

  /** Every code that fits in 64 bits is handled by its owner. */
  ghost predicate OwnersHandle(m: Match) {
    forall n, code: U64 :: n in m.result && InRange(m.result[n], code) ==> Handles(Truncated(m.result)[n], code)
  }

  /** No wrapped range end exceeds the last code, so nobody handles it. */
  lemma LastCodeUnhandled(rw: ProtoRW)
    ensures !Handles(rw, TWO_64 - 1)
  {
  }

  /** When the codes of the layout reach 2^64, the last 64-bit code has an owner. */
  lemma LastCodeOwned(m: Match) returns (n: string)
    requires Packed(m) && m.offset >= TWO_64
    ensures n in m.result && 0 <= m.result[n].offset && InRange(m.result[n], TWO_64 - 1)
    ensures Truncated(m.result)[n] == m.result[n]
  {
    RangesTile(m, TWO_64 - 1);
    n :| n in m.result && InRange(m.result[n], TWO_64 - 1);
    var j :| 0 <= j < |m.names| && m.names[j] == n;
    OffsetsInOrder(m, j);
  }

  /** Codes are handled by their owners if and only if those of the layout end below 2^64. */
  lemma OwnersHandleIffFits(m: Match)
    requires Packed(m)
    ensures OwnersHandle(m) <==> m.offset < TWO_64
  {
    if m.offset < TWO_64 {
      forall n, code: U64 | n in m.result && InRange(m.result[n], code)
        ensures Handles(Truncated(m.result)[n], code)
      {
        HandlesIsInRange(m, code);
      }
    } else {
      var n := LastCodeOwned(m);
      LastCodeUnhandled(Truncated(m.result)[n]);
    }
  }

  /** The protocols a peer runs, and the one an incoming code goes to. While the codes of the layout end
      below 2^64 it is the owner; otherwise the last 64-bit code has an owner and is refused. */
  method Route(ps: seq<Protocol>, caps: seq<Cap>, code: U64) returns (rw: Option<ProtoRW>)
    ensures var m := Negotiate(ps, caps);
            m.offset < TWO_64 ==>
              && (rw.Some? <==> BASE_PROTOCOL_LENGTH <= code < m.offset)
              && (forall n :: n in m.result && InRange(m.result[n], code) ==> rw == Some(m.result[n]))
    ensures var m := Negotiate(ps, caps);
            m.offset >= TWO_64 && code == TWO_64 - 1 ==>
              rw == None && exists n :: n in m.result && InRange(m.result[n], code)
  {
    NegotiatedLayout(ps, caps);
    RangesTile(Negotiate(ps, caps), code);
    var running := MatchProtocols(ps, caps);
    rw := GetProto(running, code, Negotiate(ps, caps));
  }

  // ---------------------------------------------------------------------------------------------
  // Messages across the two peers

  /** `protoRW.WriteMsg`: codes outside the protocol are refused, others move into its range. */
  function WriteCode(rw: ProtoRW, code: U64): Option<U64> {
    if code >= rw.proto.length then None else Some((code + rw.offset) % TWO_64)
  }

  /** `protoRW.ReadMsg`. */
  function ReadCode(rw: ProtoRW, wire: U64): U64 {
    (wire - rw.offset) % TWO_64
  }

  /** What one side runs of the layout negotiated with the other. */
  function Running(ps: seq<Protocol>, qs: seq<Protocol>): map<string, ProtoRW> {
    Truncated(Negotiate(ps, Announced(qs)).result)
  }

  /** A code written on protocol `n` by one side stays clear of the base protocol, is handled by the other
      side's `n` and by nobody else there, and is read as the code that was written. */
  ghost predicate Arrives(mine: map<string, ProtoRW>, other: map<string, ProtoRW>, n: string, code: U64)
    requires n in mine && WriteCode(mine[n], code).Some?
  {
    var wire := WriteCode(mine[n], code).value;
    && BASE_PROTOCOL_LENGTH <= wire
    && n in other && Handles(other[n], wire) && ReadCode(other[n], wire) == code
    && forall k :: k in other && Handles(other[k], wire) ==> k == n
  }

  ghost predicate AllArrive(mine: map<string, ProtoRW>, other: map<string, ProtoRW>) {
    forall n, code: U64 :: n in mine && WriteCode(mine[n], code).Some? ==> Arrives(mine, other, n, code)
  }

  /** Adding and taking off the same offset wraps back. */
  lemma ReadUndoesWrite(rw: ProtoRW, other: ProtoRW, code: U64)
    requires WriteCode(rw, code).Some? && rw.offset == other.offset
    ensures ReadCode(other, WriteCode(rw, code).value) == code
  {
    WrapsLikeSum(code + rw.offset, -rw.offset);
  }

  /** Two layouts that give the same names the same codes. */
  ghost predicate SameLayout(m: Match, k: Match) {
    && m.result.Keys == k.result.Keys && m.offset == k.offset
    && forall n :: n in m.result ==> SameCodes(m, k, n)
  }

  predicate SameCodes(m: Match, k: Match, n: string) {
    && n in m.result && n in k.result
    && m.result[n].offset == k.result[n].offset && m.result[n].proto.length == k.result[n].proto.length
  }

  lemma SameEnd(m: Match, k: Match)
    requires Packed(m) && Packed(k) && m.names == k.names
    requires forall n :: n in m.result ==> SameCodes(m, k, n)
    ensures m.offset == k.offset
  {
    if m.names != [] {
      var last := m.names[|m.names| - 1];
      assert last in m.names;
      assert last in m.result && SameCodes(m, k, last);
    }
  }

  lemma PeersSameLayout(ps: seq<Protocol>, qs: seq<Protocol>)
    requires SameLengths(ps, qs)
    ensures SameLayout(Negotiate(ps, Announced(qs)), Negotiate(qs, Announced(ps)))
  {
    var m, k := Negotiate(ps, Announced(qs)), Negotiate(qs, Announced(ps));
    PeersAgree(ps, qs);
    forall n | n in m.result
      ensures SameCodes(m, k, n)
    {
      assert Agree(m, k, n);
    }
    NegotiatedLayout(ps, Announced(qs));
    NegotiatedLayout(qs, Announced(ps));
    SameEnd(m, k);
  }

  /** A code written within a layout that fits stays in its protocol's range, and only there. */
  lemma WireIsOwned(m: Match, n: string, code: U64)
    requires Packed(m) && m.offset < TWO_64 && n in m.result && code < m.result[n].proto.length
    ensures WriteCode(m.result[n], code) == Some(code + m.result[n].offset)
    ensures BASE_PROTOCOL_LENGTH <= code + m.result[n].offset && Handles(m.result[n], code + m.result[n].offset)
    ensures forall k :: k in m.result && Handles(m.result[k], code + m.result[n].offset) ==> k == n
  {
    var wire := code + m.result[n].offset;
    RangesTile(m, wire);
    HandlesIsInRange(m, wire);
    forall k | k in m.result && InRange(m.result[k], wire)
      ensures k == n
    {
      RangesDisjoint(m, k, n, wire);
    }
  }

  lemma CodeArrives(m: Match, k: Match, n: string, code: U64)
    requires Packed(m) && Packed(k) && SameLayout(m, k) && m.offset < TWO_64
    requires n in m.result && WriteCode(m.result[n], code).Some?
    ensures Arrives(m.result, k.result, n, code)
  {
    assert SameCodes(m, k, n);
    WireIsOwned(k, n, code);
    ReadUndoesWrite(m.result[n], k.result[n], code);
  }

  lemma AllArriveIfFits(m: Match, k: Match)
    requires Packed(m) && Packed(k) && SameLayout(m, k) && m.offset < TWO_64
    ensures AllArrive(Truncated(m.result), Truncated(k.result))
  {
    TruncatedIffLastFits(m);
    TruncatedIffLastFits(k);
    forall n, code: U64 | n in m.result && WriteCode(m.result[n], code).Some?
      ensures Arrives(m.result, k.result, n, code)
    {
      CodeArrives(m, k, n, code);
    }
  }

  /** Otherwise the code that goes out as the last 64-bit code is written and reaches nobody. */
  lemma LastCodeLost(m: Match, k: Match) returns (n: string, code: U64)
    requires Packed(m) && m.offset >= TWO_64
    ensures n in m.result && WriteCode(Truncated(m.result)[n], code) == Some(TWO_64 - 1)
    ensures !Arrives(Truncated(m.result), Truncated(k.result), n, code)
  {
    n := LastCodeOwned(m);
    code := TWO_64 - 1 - m.result[n].offset;
    if n in k.result {
      LastCodeUnhandled(Truncated(k.result)[n]);
    }
  }

  /** End to end, for any two peers that agree on lengths: every code written on a shared protocol reaches
      that protocol on the other side, and no other, and is read unchanged, if and only if the codes of
      the layout end below 2^64. */
  lemma EndToEnd(ps: seq<Protocol>, qs: seq<Protocol>)
    requires SameLengths(ps, qs)
    ensures AllArrive(Running(ps, qs), Running(qs, ps)) <==> Negotiate(ps, Announced(qs)).offset < TWO_64
  {
    var m, k := Negotiate(ps, Announced(qs)), Negotiate(qs, Announced(ps));
    NegotiatedLayout(ps, Announced(qs));
    if m.offset < TWO_64 {
      NegotiatedLayout(qs, Announced(ps));
      PeersSameLayout(ps, qs);
      AllArriveIfFits(m, k);
    } else {
      var n, code := LastCodeLost(m, k);
    }
  }

  // ---------------------------------------------------------------------------------------------
  // Counting matches

  function CountIn(ps: seq<Protocol>, c: Cap): nat {
    if ps == [] then 0
    else CountIn(ps[..|ps| - 1], c) + if ps[|ps| - 1].name == c.name && ps[|ps| - 1].version == c.version then 1 else 0
  }

  function CountMatching(ps: seq<Protocol>, caps: seq<Cap>): nat {
    if caps == [] then 0 else CountMatching(ps, caps[..|caps| - 1]) + CountIn(ps, caps[|caps| - 1])
  }

  /** `countMatchingProtocols`. */
  method CountMatchingProtocols(ps: seq<Protocol>, caps: seq<Cap>) returns (n: nat)
    ensures n == CountMatching(ps, caps)
  {
    n := 0;
    for i := 0 to |caps|
      invariant n == CountMatching(ps, caps[..i])
    {
      ghost var before := n;
      for j := 0 to |ps|
        invariant n == before + CountIn(ps[..j], caps[i])
      {
        assert ps[..j + 1][..j] == ps[..j];
        if ps[j].name == caps[i].name && ps[j].version == caps[i].version {
          n := n + 1;
        }
      }
      assert ps[..|ps|] == ps && caps[..i + 1][..i] == caps[..i];
    }
    assert caps[..|caps|] == caps;
  }

  lemma {:induction false} CountInPositive(ps: seq<Protocol>, c: Cap)
    ensures CountIn(ps, c) > 0 <==> FirstMatch(ps, c).Some?
  {
    if ps == [] {
    } else {
      var k := |ps| - 1;
      CountInPositive(ps[..k], c);
      assert ps == ps[..k] + [ps[k]];
      assert forall q :: q in ps <==> q in ps[..k] || q == ps[k];
    }
  }

  lemma {:induction false} CountPositive(ps: seq<Protocol>, caps: seq<Cap>)
    ensures CountMatching(ps, caps) > 0 <==> exists c :: c in caps && FirstMatch(ps, c).Some?
    decreases |caps|
  {
    if caps == [] {
    } else {
      var k := |caps| - 1;
      CountPositive(ps, caps[..k]);
      CountInPositive(ps, caps[k]);
      assert caps == caps[..k] + [caps[k]];
      assert forall x :: x in caps <==> x in caps[..k] || x == caps[k];
    }
  }

  /** A peer counts as useful exactly when negotiation starts at least one protocol. */
  lemma UsefulPeer(ps: seq<Protocol>, caps: seq<Cap>)
    ensures CountMatching(ps, caps) > 0 <==> Negotiate(ps, caps).result != map[]
  {
    CountPositive(ps, caps);
    NegotiatedLayout(ps, caps);
    var m := Negotiate(ps, caps);
    if m.result != map[] {
      var n :| n in m.result;
      assert Cap(n, m.result[n].proto.version) in caps;
    }
  }
}
