/** Peer admission: the server's run loop and the dialer's loop, composed. The server tells the
    dialer about peers over unbuffered channels, so a notification is first pending in the server,
    then taken by the dialer, then applied there. */
module Admission {
  import opened Common

  type ID = nat
  type ConnId = nat

  datatype Config = Config(self: ID, maxPeers: nat, dialRatio: int, noDial: bool, hasProtocols: bool)

  /** Integer division of Go: rounds toward zero. */
  function Quo(a: int, b: int): int
    requires b != 0
  {
    if (a >= 0) == (b > 0) then Abs(a) / Abs(b) else -(Abs(a) / Abs(b))
  }

  function Abs(x: int): nat {
    if x < 0 then -x else x
  }

  const DEFAULT_DIAL_RATIO := 3

  function MaxDialedConns(cfg: Config): int {
    if cfg.noDial || cfg.maxPeers == 0 then 0
    else
      var limit := Quo(cfg.maxPeers, if cfg.dialRatio == 0 then DEFAULT_DIAL_RATIO else cfg.dialRatio);
      if limit == 0 then 1 else limit
  }

  function MaxInboundConns(cfg: Config): int {
    cfg.maxPeers - MaxDialedConns(cfg)
  }

  /** Dialed and inbound limits never add up to more than MaxPeers and neither is negative,
      for every non-negative ratio. */
  lemma DialLimits(cfg: Config)
    ensures MaxInboundConns(cfg) >= 0
    ensures cfg.dialRatio >= 0 ==> 0 <= MaxDialedConns(cfg) <= cfg.maxPeers
    ensures cfg.dialRatio >= 0 && !cfg.noDial && cfg.maxPeers > 0 ==> MaxDialedConns(cfg) >= 1
  {
    var r := if cfg.dialRatio == 0 then DEFAULT_DIAL_RATIO else cfg.dialRatio;
    QuoBounds(cfg.maxPeers, r);
  }

  /** The dialed share exactly: none when dialing is off; else a whole number of ratios, by default 3,
      that exhausts MaxPeers, and one when not even one ratio fits. */
  lemma DialedShare(cfg: Config)
    ensures MaxInboundConns(cfg) + MaxDialedConns(cfg) == cfg.maxPeers
    ensures cfg.noDial || cfg.maxPeers == 0 ==> MaxDialedConns(cfg) == 0
    ensures !cfg.noDial && cfg.maxPeers > 0 ==>
              var r, d := if cfg.dialRatio == 0 then 3 else cfg.dialRatio, MaxDialedConns(cfg);
              if cfg.maxPeers < Abs(r) then d == 1 else d * r <= cfg.maxPeers < d * r + Abs(r)
  {
    var r := if cfg.dialRatio == 0 then DEFAULT_DIAL_RATIO else cfg.dialRatio;
    QuoExact(cfg.maxPeers, r);
  }

  lemma QuoExact(a: nat, b: int)
    requires b != 0
    ensures a < Abs(b) ==> Quo(a, b) == 0
    ensures Quo(a, b) * b <= a < Quo(a, b) * b + Abs(b)
    ensures a >= Abs(b) ==> Quo(a, b) != 0
  {
    DivExact(a, Abs(b));
    if b < 0 {
      NegNeg(a / Abs(b), Abs(b));
    }
  }

  lemma DivExact(a: nat, n: nat)
    requires n > 0
    ensures a / n * n <= a < a / n * n + n
    ensures a / n == 0 <==> a < n
  {
  }

  lemma NegNeg(q: int, n: int)
    ensures -q * -n == q * n
  {
  }

  lemma QuoBounds(a: nat, b: int)
    requires b != 0
    ensures b > 0 ==> 0 <= Quo(a, b) <= a
    ensures b < 0 ==> Quo(a, b) <= 0
  {
    DivAtMost(a, Abs(b));
  }

  datatype Phase = Setup | Checked | Running | Exited | Closed

  /** A connection. `admittedTrusted` records the trusted flag at the moment of admission. */
  datatype Conn = Conn(id: ID, dialed: bool, inbound: bool, useful: bool, phase: Phase,
                       trusted: bool, admittedTrusted: bool)

  datatype Note = Added(id: ID, dialed: bool) | Removed(id: ID, dialed: bool)

  /** `note` is what the server is about to tell the dialer, `inboundDelta` what it will then add to
      inboundCount. `dpeers` maps the dialer's peers to whether they were dialed. */
  datatype State = State(peers: map<ID, ConnId>, inboundCount: int, trusted: set<ID>,
                         note: Option<Note>, inboundDelta: int,
                         dpeers: map<ID, bool>, dialPeers: int, handling: Option<Note>,
                         conns: map<ConnId, Conn>)

  datatype Step =
    | Connect(c: ConnId, id: ID, dialed: bool, inbound: bool, useful: bool)
    | PostHandshake(c: ConnId)
    | AddPeer(c: ConnId)
    | PeerExit(c: ConnId)
    | DelPeer(c: ConnId)
    | Tell
    | DialerApply
    | AddTrusted(id: ID)
    | RemoveTrusted(id: ID)

  datatype DiscReason = TooManyPeers | AlreadyConnected | Self | UselessPeer

  function PostHandshakeChecks(cfg: Config, s: State, c: Conn): Option<DiscReason> {
    if !c.trusted && |s.peers| >= cfg.maxPeers then Some(TooManyPeers)
    else if !c.trusted && c.inbound && s.inboundCount >= MaxInboundConns(cfg) then Some(TooManyPeers)
    else if c.id in s.peers then Some(AlreadyConnected)
    else if c.id == cfg.self then Some(Self)
    else if cfg.hasProtocols && !c.useful then Some(UselessPeer)
    else None
  }

  predicate InPhase(s: State, c: ConnId, p: Phase) {
    c in s.conns && s.conns[c].phase == p
  }

  /** The server takes a new event only when it has nothing left to tell the dialer. */
  predicate Enabled(s: State, l: Step) {
    match l
    case Connect(c, _, _, _, _) => c !in s.conns
    case PostHandshake(c) => s.note.None? && InPhase(s, c, Setup)
    case AddPeer(c) => s.note.None? && InPhase(s, c, Checked)
    case PeerExit(c) => InPhase(s, c, Running)
    case DelPeer(c) => s.note.None? && InPhase(s, c, Exited)
    case Tell => s.note.Some? && s.handling.None?
    case DialerApply => s.handling.Some?
    case AddTrusted(_) => s.note.None?
    case RemoveTrusted(_) => s.note.None?
  }

  function SetConn(s: State, c: ConnId, conn: Conn): State {
    s.(conns := s.conns[c := conn])
  }

  function SetTrusted(s: State, id: ID, b: bool): State {
    if id in s.peers && s.peers[id] in s.conns then SetConn(s, s.peers[id], s.conns[s.peers[id]].(trusted := b)) else s
  }

  function ApplyNote(m: map<ID, bool>, n: Note): map<ID, bool> {
    match n
    case Added(id, dialed) => m[id := dialed]
    case Removed(id, _) => m - {id}
  }

  function DialDelta(n: Note): int {
    match n
    case Added(_, dialed) => if dialed then 1 else 0
    case Removed(_, dialed) => if dialed then -1 else 0
  }

  function Apply(cfg: Config, s: State, l: Step): State
    requires Enabled(s, l)
  {
    match l
    case Connect(c, id, dialed, inbound, useful) =>
      SetConn(s, c, Conn(id, dialed, inbound, useful, Setup, false, false))
    case PostHandshake(c) =>
      var conn := s.conns[c];
      SetConn(s, c, conn.(phase := Checked, trusted := conn.trusted || conn.id in s.trusted))
    case AddPeer(c) =>
      var conn := s.conns[c];
      if PostHandshakeChecks(cfg, s, conn) != None then SetConn(s, c, conn.(phase := Closed))
      else SetConn(s, c, conn.(phase := Running, admittedTrusted := conn.trusted)).(
           peers := s.peers[conn.id := c], note := Some(Added(conn.id, conn.dialed)),
           inboundDelta := if conn.inbound then 1 else 0)
    case PeerExit(c) => SetConn(s, c, s.conns[c].(phase := Exited))
    case DelPeer(c) =>
      var conn := s.conns[c];
      SetConn(s, c, conn.(phase := Closed)).(
      peers := s.peers - {conn.id}, note := Some(Removed(conn.id, conn.dialed)),
      inboundDelta := if conn.inbound then -1 else 0)
    case Tell =>
      s.(handling := s.note, note := None, inboundCount := s.inboundCount + s.inboundDelta, inboundDelta := 0)
    case DialerApply =>
      s.(dpeers := ApplyNote(s.dpeers, s.handling.value), dialPeers := s.dialPeers + DialDelta(s.handling.value),
         handling := None)
    case AddTrusted(id) => SetTrusted(s, id, true).(trusted := s.trusted + {id})
    case RemoveTrusted(id) => SetTrusted(s, id, false).(trusted := s.trusted - {id})
  }

  function Init(trusted: set<ID>): State {
    State(map[], 0, trusted, None, 0, map[], 0, None, map[])
  }

  predicate IsRun(cfg: Config, s: State, run: seq<Step>)
    decreases |run|
  {
    run == [] || (Enabled(s, run[0]) && IsRun(cfg, Apply(cfg, s, run[0]), run[1..]))
  }

  function After(cfg: Config, s: State, run: seq<Step>): State
    requires IsRun(cfg, s, run)
    decreases |run|
  {
    if run == [] then s else After(cfg, Apply(cfg, s, run[0]), run[1..])
  }

  // ---------------------------------------------------------------------------------------------
  // Invariant

  /** Server peers and connections with a running peer goroutine are the same thing. */
  predicate Linked(s: State) {
    && (forall id :: id in s.peers ==>
          && s.peers[id] in s.conns && s.conns[s.peers[id]].id == id
          && (s.conns[s.peers[id]].phase == Running || s.conns[s.peers[id]].phase == Exited))
    && (forall c :: c in s.conns && (s.conns[c].phase == Running || s.conns[c].phase == Exited) ==>
          s.conns[c].id in s.peers && s.peers[s.conns[c].id] == c)
  }

  function Inbound(s: State): set<ID> {
    set id | id in s.peers && s.peers[id] in s.conns && s.conns[s.peers[id]].inbound
  }

  function Untrusted(s: State): set<ID> {
    set id | id in s.peers && s.peers[id] in s.conns && !s.conns[s.peers[id]].admittedTrusted
  }

  /** What the dialer should know: the server's peers, with whether they were dialed. */
  function Dialed(s: State): map<ID, bool> {
    map id | id in s.peers && s.peers[id] in s.conns :: s.conns[s.peers[id]].dialed
  }

  function DialedKeys(m: map<ID, bool>): set<ID> {
    set id | id in m && m[id]
  }

  /** A note announces a change relative to `m`, and with the right dialed flag. */
  predicate Timely(m: map<ID, bool>, n: Note) {
    match n
    case Added(id, _) => id !in m
    case Removed(id, dialed) => id in m && m[id] == dialed
  }

  function Play(m: map<ID, bool>, n: Option<Note>): map<ID, bool> {
    if n.None? then m else ApplyNote(m, n.value)
  }

  /** Taken and pending notes bring the dialer's view to the server's. */
  predicate Synced(s: State) {
    && (s.handling.Some? ==> Timely(s.dpeers, s.handling.value))
    && (s.note.Some? ==> Timely(Play(s.dpeers, s.handling), s.note.value))
    && Play(Play(s.dpeers, s.handling), s.note) == Dialed(s)
    && s.dialPeers == |DialedKeys(s.dpeers)|
  }

  predicate Bounded(cfg: Config, s: State) {
    && s.inboundCount + s.inboundDelta == |Inbound(s)|
    && (s.note.None? ==> s.inboundDelta == 0)
    && |Untrusted(s)| <= cfg.maxPeers
    && |Untrusted(s) * Inbound(s)| <= MaxInboundConns(cfg)
    && cfg.self !in s.peers
  }

  predicate Inv(cfg: Config, s: State) {
    Linked(s) && Synced(s) && Bounded(cfg, s)
  }

  // ---------------------------------------------------------------------------------------------
  // Every step keeps the invariant

  /** Steps that change one connection but no peer entry leave the peer sets alone. */
  predicate Quiet(s: State, s': State, c: ConnId) {
    && s' == s.(conns := s'.conns, trusted := s'.trusted)
    && s'.conns.Keys == s.conns.Keys + {c}
    && (forall x :: x in s.conns && x != c ==> s'.conns[x] == s.conns[x])
    && (c in s.conns ==>
          && s'.conns[c].id == s.conns[c].id && s'.conns[c].inbound == s.conns[c].inbound
          && s'.conns[c].dialed == s.conns[c].dialed && s'.conns[c].admittedTrusted == s.conns[c].admittedTrusted)
  }

  lemma QuietSets(s: State, s': State, c: ConnId)
    requires Linked(s) && Quiet(s, s', c)
    ensures Inbound(s') == Inbound(s) && Untrusted(s') == Untrusted(s) && Dialed(s') == Dialed(s)
  {
    assert forall id :: id in s.peers ==> s.peers[id] in s.conns;
  }

  lemma QuietStep(cfg: Config, s: State, s': State, c: ConnId)
    requires Inv(cfg, s) && Linked(s') && Quiet(s, s', c)
    ensures Inv(cfg, s')
  {
    QuietSets(s, s', c);
  }

  function Grow(ids: set<ID>, id: ID, yes: bool): set<ID> {
    if yes then ids + {id} else ids
  }

  /** Connection `c` has become the peer entry of its node. */
  predicate Admitted(s: State, s': State, c: ConnId) {
    && c in s.conns && s.conns[c].id !in s.peers
    && s'.peers == s.peers[s.conns[c].id := c]
    && s'.conns == s.conns[c := s.conns[c].(phase := Running, admittedTrusted := s.conns[c].trusted)]
  }

  lemma AdmitSets(s: State, s': State, c: ConnId)
    requires Linked(s) && Admitted(s, s', c)
    ensures var conn := s.conns[c];
            && Inbound(s') == Grow(Inbound(s), conn.id, conn.inbound)
            && Untrusted(s') == Grow(Untrusted(s), conn.id, !conn.trusted)
            && Dialed(s') == Dialed(s)[conn.id := conn.dialed]
  {
    AdmitEachPeer(s, s', c);
    var conn := s.conns[c];
    assert Inbound(s') == Grow(Inbound(s), conn.id, conn.inbound);
    assert Untrusted(s') == Grow(Untrusted(s), conn.id, !conn.trusted);
    assert Dialed(s') == Dialed(s)[conn.id := conn.dialed];
  }

  /** Everyone else's entry stays what it was. */
  lemma AdmitEachPeer(s: State, s': State, c: ConnId)
    requires Linked(s) && Admitted(s, s', c)
    ensures forall id :: id in s'.peers ==>
              if id == s.conns[c].id then s'.peers[id] == c
              else id in s.peers && s.peers[id] in s.conns && s'.peers[id] == s.peers[id]
                   && s'.conns[s'.peers[id]] == s.conns[s.peers[id]]
  {
    forall id | id in s.peers
      ensures s.peers[id] != c
    {
      assert s.conns[s.peers[id]].id == id;
    }
  }

  /** One more peer, within the limits that were checked. */
  lemma GrownLimits(u: set<ID>, i: set<ID>, peers: set<ID>, id: ID, trusted: bool, inbound: bool, max: int, maxIn: int)
    requires u <= peers && i <= peers && id !in peers
    requires |u| <= max && |u * i| <= maxIn
    requires trusted || (|peers| < max && (inbound ==> |i| < maxIn))
    ensures |Grow(u, id, !trusted)| <= max
    ensures |Grow(u, id, !trusted) * Grow(i, id, inbound)| <= maxIn
  {
    SubsetCard(u, peers);
    SubsetCard(u * i, i);
    if trusted {
      assert u * Grow(i, id, inbound) == u * i;
    } else if inbound {
      assert (u + {id}) * (i + {id}) == u * i + {id};
    } else {
      assert (u + {id}) * i == u * i;
    }
  }

  /** Telling the dialer about the change the server just made keeps the views in step. */
  lemma NotedSynced(s: State, s': State, n: Note)
    requires Synced(s) && s.note.None?
    requires s'.handling == s.handling && s'.dpeers == s.dpeers && s'.dialPeers == s.dialPeers && s'.note == Some(n)
    requires Timely(Dialed(s), n) && Dialed(s') == ApplyNote(Dialed(s), n)
    ensures Synced(s')
  {
  }

  predicate Admits(cfg: Config, s: State, c: ConnId) {
    Enabled(s, AddPeer(c)) && PostHandshakeChecks(cfg, s, s.conns[c]) == None
  }

  lemma AdmitSynced(cfg: Config, s: State, c: ConnId)
    requires Linked(s) && Synced(s) && Admits(cfg, s, c)
    ensures Synced(Apply(cfg, s, AddPeer(c)))
  {
    var s' := Apply(cfg, s, AddPeer(c));
    AdmitSets(s, s', c);
    NotedSynced(s, s', Added(s.conns[c].id, s.conns[c].dialed));
  }

  lemma AdmitWithinLimits(cfg: Config, s: State, c: ConnId)
    requires Linked(s) && Bounded(cfg, s) && Admits(cfg, s, c)
    ensures Bounded(cfg, Apply(cfg, s, AddPeer(c)))
  {
    var s', conn := Apply(cfg, s, AddPeer(c)), s.conns[c];
    AdmitSets(s, s', c);
    GrownLimits(Untrusted(s), Inbound(s), s.peers.Keys, conn.id, conn.trusted, conn.inbound, cfg.maxPeers, MaxInboundConns(cfg));
    assert conn.id !in Inbound(s);
  }

  lemma AdmitKeepsInv(cfg: Config, s: State, c: ConnId)
    requires Inv(cfg, s) && Admits(cfg, s, c)
    ensures Inv(cfg, Apply(cfg, s, AddPeer(c)))
  {
    AdmitSynced(cfg, s, c);
    AdmitWithinLimits(cfg, s, c);
    AdmitLinked(s, Apply(cfg, s, AddPeer(c)), c);
  }

  lemma AdmitLinked(s: State, s': State, c: ConnId)
    requires Linked(s) && c in s.conns && s.conns[c].phase == Checked && s.conns[c].id !in s.peers
    requires s'.peers == s.peers[s.conns[c].id := c]
    requires s'.conns == s.conns[c := s.conns[c].(phase := Running, admittedTrusted := s.conns[c].trusted)]
    ensures Linked(s')
  {
    assert forall id :: id in s.peers ==> s.peers[id] != c;
  }

  lemma RemoveSets(s: State, s': State, c: ConnId)
    requires Linked(s) && InPhase(s, c, Exited)
    requires s'.peers == s.peers - {s.conns[c].id} && s'.conns == s.conns[c := s.conns[c].(phase := Closed)]
    ensures var conn := s.conns[c];
            && Inbound(s') == Inbound(s) - {conn.id} && (conn.inbound <==> conn.id in Inbound(s))
            && Untrusted(s') == Untrusted(s) - {conn.id}
            && Dialed(s') == Dialed(s) - {conn.id}
            && conn.id in Dialed(s) && Dialed(s)[conn.id] == conn.dialed
  {
    var conn := s.conns[c];
    assert s.peers[conn.id] == c;
    assert forall id :: id in s'.peers ==> id in s.peers && s.peers[id] != c && s'.peers[id] == s.peers[id];
    assert Inbound(s') == Inbound(s) - {conn.id};
    assert Untrusted(s') == Untrusted(s) - {conn.id};
    assert Dialed(s') == Dialed(s) - {conn.id};
  }

  lemma DelPeerKeepsInv(cfg: Config, s: State, c: ConnId)
    requires Inv(cfg, s) && Enabled(s, DelPeer(c))
    ensures Inv(cfg, Apply(cfg, s, DelPeer(c)))
  {
    var s' := Apply(cfg, s, DelPeer(c));
    RemoveSets(s, s', c);
    SubsetCard(Untrusted(s'), Untrusted(s));
    SubsetCard(Untrusted(s') * Inbound(s'), Untrusted(s) * Inbound(s));
    NotedSynced(s, s', Removed(s.conns[c].id, s.conns[c].dialed));
    RemoveLinked(s, s', c);
  }

  lemma RemoveLinked(s: State, s': State, c: ConnId)
    requires Linked(s) && InPhase(s, c, Exited)
    requires s'.peers == s.peers - {s.conns[c].id} && s'.conns == s.conns[c := s.conns[c].(phase := Closed)]
    ensures Linked(s')
  {
    assert s.peers[s.conns[c].id] == c;
    assert forall id :: id in s'.peers ==> s'.peers[id] != c;
  }

  lemma AddedCounts(m: map<ID, bool>, id: ID, dialed: bool)
    requires id !in m
    ensures |DialedKeys(m[id := dialed])| == |DialedKeys(m)| + if dialed then 1 else 0
  {
    var m' := m[id := dialed];
    if dialed {
      assert DialedKeys(m') == DialedKeys(m) + {id};
    } else {
      assert DialedKeys(m') == DialedKeys(m);
    }
  }

  lemma RemovedCounts(m: map<ID, bool>, id: ID)
    requires id in m
    ensures |DialedKeys(m - {id})| == |DialedKeys(m)| - if m[id] then 1 else 0
  {
    var m' := m - {id};
    assert DialedKeys(m') == DialedKeys(m) - {id};
    assert m[id] <==> id in DialedKeys(m);
  }

  lemma NoteCounts(m: map<ID, bool>, n: Note)
    requires Timely(m, n)
    ensures |DialedKeys(ApplyNote(m, n))| == |DialedKeys(m)| + DialDelta(n)
  {
    if n.Added? {
      AddedCounts(m, n.id, n.dialed);
    } else {
      RemovedCounts(m, n.id);
    }
  }

  lemma SameSets(s: State, s': State)
    requires s'.peers == s.peers && s'.conns == s.conns
    ensures Inbound(s') == Inbound(s) && Untrusted(s') == Untrusted(s) && Dialed(s') == Dialed(s)
  {
  }

  lemma DialerStepKeepsInv(cfg: Config, s: State, l: Step)
    requires Inv(cfg, s) && Enabled(s, l) && (l.Tell? || l.DialerApply?)
    ensures Inv(cfg, Apply(cfg, s, l))
  {
    SameSets(s, Apply(cfg, s, l));
    if l.DialerApply? {
      NoteCounts(s.dpeers, s.handling.value);
    }
  }

  lemma StepKeepsInv(cfg: Config, s: State, l: Step)
    requires Inv(cfg, s) && Enabled(s, l)
    ensures Inv(cfg, Apply(cfg, s, l))
  {
    var s' := Apply(cfg, s, l);
    if l.AddPeer? && PostHandshakeChecks(cfg, s, s.conns[l.c]) == None {
      AdmitKeepsInv(cfg, s, l.c);
    } else if l.DelPeer? {
      DelPeerKeepsInv(cfg, s, l.c);
    } else if l.Tell? || l.DialerApply? {
      DialerStepKeepsInv(cfg, s, l);
    } else if l.AddTrusted? || l.RemoveTrusted? {
      TrustKeepsInv(cfg, s, l.id, l.AddTrusted?, s'.trusted);
    } else {
      ConnStepKeepsInv(cfg, s, l);
    }
  }

  /** A step of one connection that lets nobody in. */
  predicate ConnStep(cfg: Config, s: State, l: Step) {
    && Enabled(s, l)
    && (l.Connect? || l.PostHandshake? || l.PeerExit?
        || (l.AddPeer? && PostHandshakeChecks(cfg, s, s.conns[l.c]) != None))
  }

  lemma ConnStepLinked(cfg: Config, s: State, l: Step)
    requires Linked(s) && ConnStep(cfg, s, l)
    ensures Linked(Apply(cfg, s, l))
  {
  }

  lemma ConnStepQuiet(cfg: Config, s: State, l: Step)
    requires ConnStep(cfg, s, l)
    ensures Quiet(s, Apply(cfg, s, l), l.c)
  {
  }

  lemma ConnStepKeepsInv(cfg: Config, s: State, l: Step)
    requires Inv(cfg, s) && ConnStep(cfg, s, l)
    ensures Inv(cfg, Apply(cfg, s, l))
  {
    ConnStepLinked(cfg, s, l);
    ConnStepQuiet(cfg, s, l);
    QuietStep(cfg, s, Apply(cfg, s, l), l.c);
  }

  lemma TrustKeepsInv(cfg: Config, s: State, id: ID, b: bool, trusted: set<ID>)
    requires Inv(cfg, s)
    ensures Inv(cfg, SetTrusted(s, id, b).(trusted := trusted))
  {
    var s' := SetTrusted(s, id, b).(trusted := trusted);
    if id in s.peers {
      QuietStep(cfg, s, s', s.peers[id]);
    } else {
      SameSets(s, s');
    }
  }

  lemma {:induction false} RunKeepsInv(cfg: Config, s: State, run: seq<Step>)
    requires Inv(cfg, s) && IsRun(cfg, s, run)
    ensures Inv(cfg, After(cfg, s, run))
    decreases |run|
  {
    if run == [] {
    } else {
      StepKeepsInv(cfg, s, run[0]);
      RunKeepsInv(cfg, Apply(cfg, s, run[0]), run[1..]);
    }
  }

  lemma InitInv(cfg: Config, trusted: set<ID>)
    ensures Inv(cfg, Init(trusted))
  {
    DialLimits(cfg);
    var s := Init(trusted);
    assert Inbound(s) == {} && Untrusted(s) == {} && Dialed(s) == map[] && DialedKeys(s.dpeers) == {};
  }

  // ---------------------------------------------------------------------------------------------
  // Main results

  /** In every reachable state, when nothing is in flight: inboundCount is the number of inbound
      peers, the dialer knows exactly the server's peers, and dialPeers counts the dialed ones. */
  lemma LoopsAgree(cfg: Config, trusted: set<ID>, run: seq<Step>)
    requires IsRun(cfg, Init(trusted), run)
    ensures var s := After(cfg, Init(trusted), run);
            && (s.note.None? ==> s.inboundCount == |Inbound(s)|)
            && (s.note.None? && s.handling.None? ==>
                  && s.dpeers.Keys == s.peers.Keys
                  && s.dialPeers == |DialedKeys(Dialed(s))| && Dialed(s).Keys == s.peers.Keys)
  {
    InitInv(cfg, trusted);
    RunKeepsInv(cfg, Init(trusted), run);
    var s := After(cfg, Init(trusted), run);
    if s.note.None? && s.handling.None? {
      assert s.dpeers == Dialed(s);
      assert Dialed(s).Keys == s.peers.Keys;
    }
  }

  /** In every reachable state the peers admitted without the trusted flag respect both limits. */
  lemma LimitsHold(cfg: Config, trusted: set<ID>, run: seq<Step>)
    requires IsRun(cfg, Init(trusted), run)
    ensures var s := After(cfg, Init(trusted), run);
            && |Untrusted(s)| <= cfg.maxPeers
            && |Untrusted(s) * Inbound(s)| <= MaxInboundConns(cfg)
            && cfg.self !in s.peers
  {
    InitInv(cfg, trusted);
    RunKeepsInv(cfg, Init(trusted), run);
  }

  predicate NobodyTrusted(s: State) {
    s.trusted == {} && forall c :: c in s.conns ==> !s.conns[c].trusted && !s.conns[c].admittedTrusted
  }

  lemma {:induction false} RunWithoutTrust(cfg: Config, s: State, run: seq<Step>)
    requires NobodyTrusted(s) && IsRun(cfg, s, run)
    requires forall i :: 0 <= i < |run| ==> !run[i].AddTrusted?
    ensures NobodyTrusted(After(cfg, s, run))
    decreases |run|
  {
    if run == [] {
    } else {
      assert !run[0].AddTrusted?;
      RunWithoutTrust(cfg, Apply(cfg, s, run[0]), run[1..]);
    }
  }

  /** If no node is ever trusted, the peer set and inboundCount stay within their limits. */
  lemma LimitsWithoutTrust(cfg: Config, run: seq<Step>)
    requires IsRun(cfg, Init({}), run)
    requires forall i :: 0 <= i < |run| ==> !run[i].AddTrusted?
    ensures var s := After(cfg, Init({}), run);
            |s.peers| <= cfg.maxPeers && (s.note.None? ==> s.inboundCount <= MaxInboundConns(cfg))
  {
    InitInv(cfg, {});
    RunKeepsInv(cfg, Init({}), run);
    RunWithoutTrust(cfg, Init({}), run);
    var s := After(cfg, Init({}), run);
    assert Untrusted(s) == s.peers.Keys;
    assert Untrusted(s) * Inbound(s) == Inbound(s);
  }

  // ---------------------------------------------------------------------------------------------
  // Who is admitted

  /** The conditions on a node that asks to be a peer over an inbound or outbound connection. */
  predicate Welcome(cfg: Config, s: State, id: ID, inbound: bool, useful: bool, trusted: bool) {
    && (trusted || |s.peers| < cfg.maxPeers)
    && (trusted || !inbound || |Inbound(s)| < MaxInboundConns(cfg))
    && id !in s.peers && id != cfg.self && (useful || !cfg.hasProtocols)
  }

  lemma ChecksIffWelcome(cfg: Config, s: State, conn: Conn)
    requires s.inboundCount == |Inbound(s)|
    ensures PostHandshakeChecks(cfg, s, conn) == None <==> Welcome(cfg, s, conn.id, conn.inbound, conn.useful, conn.trusted)
  {
  }

  /** A connection becomes the peer of its node if and only if it is welcome, by the number of inbound
      peers there really are; else it is closed and the peers stay. */
  lemma AddsIffWelcome(cfg: Config, s: State, c: ConnId)
    requires Bounded(cfg, s) && Enabled(s, AddPeer(c))
    ensures var s', conn := Apply(cfg, s, AddPeer(c)), s.conns[c];
            if Welcome(cfg, s, conn.id, conn.inbound, conn.useful, conn.trusted)
            then s'.peers == s.peers[conn.id := c] && InPhase(s', c, Running) && s'.note == Some(Added(conn.id, conn.dialed))
            else s'.peers == s.peers && InPhase(s', c, Closed) && s'.note == None
  {
    ChecksIffWelcome(cfg, s, s.conns[c]);
  }

  /** Only peers change their trusted flag after the handshake. */
  predicate Unflagged(s: State) {
    forall c :: c in s.conns && s.conns[c].phase == Setup ==> !s.conns[c].trusted
  }

  lemma {:induction false} RunKeepsUnflagged(cfg: Config, s: State, run: seq<Step>)
    requires Inv(cfg, s) && Unflagged(s) && IsRun(cfg, s, run)
    ensures Unflagged(After(cfg, s, run))
    decreases |run|
  {
    if run != [] {
      StepKeepsInv(cfg, s, run[0]);
      StepKeepsUnflagged(cfg, s, run[0]);
      RunKeepsUnflagged(cfg, Apply(cfg, s, run[0]), run[1..]);
    }
  }

  lemma StepKeepsUnflagged(cfg: Config, s: State, l: Step)
    requires Linked(s) && Unflagged(s) && Enabled(s, l)
    ensures Unflagged(Apply(cfg, s, l))
  {
  }

  /** In every reachable state, a connection that is checked and then added becomes a peer if and only if
      it is welcome, and it counts as trusted exactly when its node is. */
  lemma JoinsIffWelcome(cfg: Config, trusted: set<ID>, run: seq<Step>, c: ConnId)
    requires IsRun(cfg, Init(trusted), run) && Enabled(After(cfg, Init(trusted), run), PostHandshake(c))
    ensures var s := After(cfg, Init(trusted), run);
            var s1 := Apply(cfg, s, PostHandshake(c));
            && Enabled(s1, AddPeer(c))
            && var s2, conn := Apply(cfg, s1, AddPeer(c)), s.conns[c];
               if Welcome(cfg, s, conn.id, conn.inbound, conn.useful, conn.id in s.trusted)
               then s2.peers == s.peers[conn.id := c] && InPhase(s2, c, Running)
               else s2.peers == s.peers && InPhase(s2, c, Closed)
  {
    InitInv(cfg, trusted);
    RunKeepsInv(cfg, Init(trusted), run);
    RunKeepsUnflagged(cfg, Init(trusted), run);
    CheckedIsAdded(cfg, After(cfg, Init(trusted), run), c);
  }

  lemma CheckedIsAdded(cfg: Config, s: State, c: ConnId)
    requires Inv(cfg, s) && Enabled(s, PostHandshake(c)) && !s.conns[c].trusted
    ensures var s1 := Apply(cfg, s, PostHandshake(c));
            && Enabled(s1, AddPeer(c))
            && var s2, conn := Apply(cfg, s1, AddPeer(c)), s.conns[c];
               if Welcome(cfg, s, conn.id, conn.inbound, conn.useful, conn.id in s.trusted)
               then s2.peers == s.peers[conn.id := c] && InPhase(s2, c, Running) && s2.note == Some(Added(conn.id, conn.dialed))
               else s2.peers == s.peers && InPhase(s2, c, Closed) && s2.note == None
  {
    var s1 := Apply(cfg, s, PostHandshake(c));
    HandshakeIsQuiet(cfg, s, c);
    AddsIffWelcome(cfg, s1, c);
  }

  lemma HandshakeIsQuiet(cfg: Config, s: State, c: ConnId)
    requires Inv(cfg, s) && Enabled(s, PostHandshake(c))
    ensures Bounded(cfg, Apply(cfg, s, PostHandshake(c))) && Inbound(Apply(cfg, s, PostHandshake(c))) == Inbound(s)
  {
    StepKeepsInv(cfg, s, PostHandshake(c));
    ConnStepQuiet(cfg, s, PostHandshake(c));
    QuietSets(s, Apply(cfg, s, PostHandshake(c)), c);
  }

  /** The state after a new connection to node `id` was made, checked and added with nothing in between. */
  function Newcomer(cfg: Config, s: State, c: ConnId, id: ID, dialed: bool, inbound: bool, useful: bool): State
    requires s.note.None? && c !in s.conns
  {
    Apply(cfg, Apply(cfg, Apply(cfg, s, Connect(c, id, dialed, inbound, useful)), PostHandshake(c)), AddPeer(c))
  }

  /** In every reachable state a new connection to node `id` that is checked and added at once becomes its
      peer if and only if it is welcome, and only then is the dialer told, with whether it was dialed. */
  lemma NewcomerJoinsIffWelcome(cfg: Config, trusted: set<ID>, run: seq<Step>, c: ConnId, id: ID, dialed: bool,
                                inbound: bool, useful: bool)
    requires IsRun(cfg, Init(trusted), run)
    requires var s := After(cfg, Init(trusted), run); s.note.None? && c !in s.conns
    ensures var s := After(cfg, Init(trusted), run);
            var s' := Newcomer(cfg, s, c, id, dialed, inbound, useful);
            if Welcome(cfg, s, id, inbound, useful, id in s.trusted)
            then s'.peers == s.peers[id := c] && s'.note == Some(Added(id, dialed))
            else s'.peers == s.peers && s'.note == None
  {
    InitInv(cfg, trusted);
    RunKeepsInv(cfg, Init(trusted), run);
    NewcomerAdded(cfg, After(cfg, Init(trusted), run), c, id, dialed, inbound, useful);
  }

  lemma NewcomerAdded(cfg: Config, s: State, c: ConnId, id: ID, dialed: bool, inbound: bool, useful: bool)
    requires Inv(cfg, s) && s.note.None? && c !in s.conns
    ensures var s' := Newcomer(cfg, s, c, id, dialed, inbound, useful);
            if Welcome(cfg, s, id, inbound, useful, id in s.trusted)
            then s'.peers == s.peers[id := c] && s'.note == Some(Added(id, dialed))
            else s'.peers == s.peers && s'.note == None
  {
    var l := Connect(c, id, dialed, inbound, useful);
    ConnectIsQuiet(cfg, s, l);
    CheckedIsAdded(cfg, Apply(cfg, s, l), c);
  }

  lemma ConnectIsQuiet(cfg: Config, s: State, l: Step)
    requires Inv(cfg, s) && l.Connect? && Enabled(s, l)
    ensures Inv(cfg, Apply(cfg, s, l)) && Inbound(Apply(cfg, s, l)) == Inbound(s)
  {
    StepKeepsInv(cfg, s, l);
    ConnStepQuiet(cfg, s, l);
    QuietSets(s, Apply(cfg, s, l), l.c);
  }

  // ---------------------------------------------------------------------------------------------
  // Nobody gets stuck, and trust reaches the peer

  /** Every peer can leave: it may exit at any time, and once it has, the idle server drops it and tells
      the dialer. */
  predicate CanLeave(cfg: Config, s: State, id: ID)
    requires id in s.peers
  {
    var c := s.peers[id];
    && (Enabled(s, PeerExit(c)) || InPhase(s, c, Exited))
    && (s.note.None? && InPhase(s, c, Exited) ==>
          && Enabled(s, DelPeer(c))
          && var s' := Apply(cfg, s, DelPeer(c));
             s'.peers == s.peers - {id} && s'.note == Some(Removed(id, s.conns[c].dialed)))
  }

  lemma LinkedCanLeave(cfg: Config, s: State, id: ID)
    requires Linked(s) && id in s.peers
    ensures CanLeave(cfg, s, id)
  {
  }

  /** In every reachable state notices are on their way and every peer can leave. */
  lemma PeersCanLeave(cfg: Config, trusted: set<ID>, run: seq<Step>)
    requires IsRun(cfg, Init(trusted), run)
    ensures var s := After(cfg, Init(trusted), run);
            && (s.note.Some? ==> Enabled(s, Tell) || Enabled(s, DialerApply))
            && forall id :: id in s.peers ==> CanLeave(cfg, s, id)
  {
    InitInv(cfg, trusted);
    RunKeepsInv(cfg, Init(trusted), run);
    var s := After(cfg, Init(trusted), run);
    forall id | id in s.peers
      ensures CanLeave(cfg, s, id)
    {
      LinkedCanLeave(cfg, s, id);
    }
  }

  /** Only the trusted set and the flag of the node's peer, if it has one, change. */
  predicate OnlyTrust(s: State, s': State, id: ID, add: bool) {
    && s' == s.(trusted := s'.trusted, conns := s'.conns)
    && s'.trusted == (if add then s.trusted + {id} else s.trusted - {id})
    && s'.conns.Keys == s.conns.Keys
    && forall c :: c in s.conns ==>
         s'.conns[c] == if id in s.peers && c == s.peers[id] then s.conns[c].(trusted := add) else s.conns[c]
  }

  lemma LinkedTrust(cfg: Config, s: State, id: ID, add: bool)
    requires Linked(s) && s.note.None?
    ensures OnlyTrust(s, Apply(cfg, s, if add then AddTrusted(id) else RemoveTrusted(id)), id, add)
  {
  }

  /** In every reachable state, trusting or distrusting a node sets the flag of its peer and nothing else. */
  lemma TrustReachesPeer(cfg: Config, trusted: set<ID>, run: seq<Step>, id: ID, add: bool)
    requires IsRun(cfg, Init(trusted), run) && After(cfg, Init(trusted), run).note.None?
    ensures var s := After(cfg, Init(trusted), run);
            OnlyTrust(s, Apply(cfg, s, if add then AddTrusted(id) else RemoveTrusted(id)), id, add)
  {
    InitInv(cfg, trusted);
    RunKeepsInv(cfg, Init(trusted), run);
    LinkedTrust(cfg, After(cfg, Init(trusted), run), id, add);
  }
}
