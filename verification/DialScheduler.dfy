/** The dial scheduler: an event loop over active tasks, connected peers, static tasks with their
    pool of usable ones (back-indexed), and the dial history. */
module DialScheduler {
  import opened Common
  import opened ExpHeap

  type ID = Key
  type IP = nat

  datatype Node = Node(id: ID, ip: Option<IP>, tcp: nat)

  datatype ConnFlag = ConnFlag(dynDialed: bool, staticDialed: bool, inbound: bool, trusted: bool)

  datatype DialError = IsSelf | NoPort | AlreadyDialing | AlreadyConnected | NotWhitelisted | RecentlyDialed

  const SECOND: Time := 1_000_000_000
  const INBOUND_THROTTLE_TIME: Time := 30 * SECOND
  const DIAL_HISTORY_EXPIRATION: Time := INBOUND_THROTTLE_TIME + 5 * SECOND

  /** Why a dial started: from the static pool, or for a node from discovery, in a turn of the loop at
      whose head so many dials were active and so many dialed peers connected. */
  datatype Origin = Pooled | Discovered(active: nat, dialPeers: int)

  /** One dial start, with what the scheduler's maps said about the target at that moment. */
  datatype DialStart = DialStart(id: ID, at: Time, connected: bool, dialing: bool, node: Node, origin: Origin)

  datatype DialConfig = DialConfig(self: ID, netRestrict: Option<set<IP>>, maxDialPeers: int, maxActiveDials: int)

  class DialTask {
    const id: ID
    var dest: Node
    var staticPoolIndex: int

    constructor (dest: Node)
      ensures this.id == dest.id && this.dest == dest && staticPoolIndex == -1
    {
      this.id, this.dest, this.staticPoolIndex := dest.id, dest, -1;
    }
  }

  ghost predicate UniqueKeys(h: multiset<ExpItem>) {
    && (forall x :: x in h ==> h[x] == 1)
    && (forall x, y :: x in h && y in h && x.item == y.item ==> x == y)
  }

  /** The nodes with an entry in the dial history. */
  function Recent(h: seq<ExpItem>): set<ID> {
    set x | x in h :: x.item
  }

  /** What checkDial looks at. */
  datatype DialView = DialView(self: ID, netRestrict: Option<set<IP>>, dialing: set<ID>, peers: set<ID>, recent: set<ID>)

  function Dialed(v: DialView, id: ID): DialView {
    v.(dialing := v.dialing + {id}, recent := v.recent + {id})
  }

  /** `checkDial`: why node `n` should not be dialed, if so. */
  function CheckDial(v: DialView, n: Node): Option<DialError> {
    if n.id == v.self then Some(IsSelf)
    else if n.ip.Some? && n.tcp == 0 then Some(NoPort)
    else if n.id in v.dialing then Some(AlreadyDialing)
    else if n.id in v.peers then Some(AlreadyConnected)
    else if v.netRestrict.Some? && !(n.ip.Some? && n.ip.value in v.netRestrict.value) then Some(NotWhitelisted)
    else if n.id in v.recent then Some(RecentlyDialed)
    else None
  }

  /** Any two starts to one node are more than the expiration apart. */
  ghost predicate Spaced(log: seq<DialStart>) {
    forall i, j :: 0 <= i < j < |log| && log[i].id == log[j].id ==> log[i].at + DIAL_HISTORY_EXPIRATION < log[j].at
  }

  /** A start goes to an address on the whitelist and to a port, not to self, to a connected node or to
      a node already being dialed; for a discovered node there was a free slot. */
  predicate CleanStart(e: DialStart, cfg: DialConfig) {
    && e.node.id == e.id != cfg.self
    && !e.connected && !e.dialing
    && (cfg.netRestrict.Some? ==> e.node.ip.Some? && e.node.ip.value in cfg.netRestrict.value)
    && (e.node.ip.Some? ==> e.node.tcp != 0)
    && (e.origin.Discovered? ==>
          e.origin.active < cfg.maxActiveDials && e.origin.active < 2 * (cfg.maxDialPeers - e.origin.dialPeers))
  }

  ghost predicate CleanStarts(log: seq<DialStart>, cfg: DialConfig) {
    forall e :: e in log ==> CleanStart(e, cfg)
  }

  /** A start is remembered in the history until its expiry has passed. */
  ghost predicate Remembered(log: seq<DialStart>, h: seq<ExpItem>, now: Time) {
    forall e :: e in log ==>
      e.at <= now && (ExpItem(e.id, e.at + DIAL_HISTORY_EXPIRATION) in h || e.at + DIAL_HISTORY_EXPIRATION < now)
  }

  ghost predicate LogOk(log: seq<DialStart>, h: seq<ExpItem>, now: Time, cfg: DialConfig) {
    UniqueKeys(multiset(h)) && Spaced(log) && CleanStarts(log, cfg) && Remembered(log, h, now)
  }

  /** What the loop may receive in a turn. */
  datatype Event =
    | NodeFound(node: Node)
    | TaskDone(resolved: Node)
    | PeerAdded(id: ID, flags: ConnFlag)
    | PeerRemoved(id: ID, flags: ConnFlag)
    | StaticAdded(node: Node)
    | StaticRemoved(id: ID)
    | HistoryTimer

  /** Peers, the count of dialed ones and the static nodes change with their own events only. */
  predicate Recorded(e: Event, peers: map<ID, ConnFlag>, dialPeers: int, ids: set<ID>,
                     peers': map<ID, ConnFlag>, dialPeers': int, ids': set<ID>) {
    && (e.PeerAdded? ==> peers' == peers[e.id := e.flags])
    && (e.PeerRemoved? ==> peers' == peers - {e.id})
    && (!e.PeerAdded? && !e.PeerRemoved? ==> peers' == peers)
    && dialPeers' == dialPeers + (if e.PeerAdded? && WasDialed(e.flags) then 1
                                  else if e.PeerRemoved? && WasDialed(e.flags) then -1 else 0)
    && (e.StaticAdded? ==> ids' == ids + {e.node.id})
    && (e.StaticRemoved? ==> ids' == ids - {e.id})
    && (!e.StaticAdded? && !e.StaticRemoved? ==> ids' == ids)
  }

  predicate WasDialed(f: ConnFlag) {
    f.dynDialed || f.staticDialed
  }

  class Scheduler {
    const self: ID
    const maxDialPeers: int
    const maxActiveDials: int
    const netRestrict: Option<set<IP>>
    const history: ExpHeap

    var dialing: map<ID, DialTask>
    var peers: map<ID, ConnFlag>
    var dialPeers: int
    var statics: map<ID, DialTask>
    var staticPool: seq<DialTask>
    var now: Time

    /** Goroutines that run a task and have not delivered it on doneCh yet. */
    var running: set<DialTask>

    ghost var tasks: set<DialTask>
    ghost var log: seq<DialStart>

    function Config(): DialConfig {
      DialConfig(self, netRestrict, maxDialPeers, maxActiveDials)
    }

    /** What the scheduler asks of a node before it dials it. */
    ghost predicate MayDial(n: Node)
      reads `dialing, `peers, history
    {
      && n.id != self && n.id !in dialing && n.id !in peers
      && (n.ip.Some? ==> n.tcp != 0)
      && (netRestrict.Some? ==> n.ip.Some? && n.ip.value in netRestrict.value)
      && forall x :: x in history.items ==> x.item != n.id
    }

    lemma MayDialIsCheckDial(n: Node)
      ensures MayDial(n) <==> CheckDial(View(), n) == None
    {
      if n.id in Recent(history.items) {
        var x :| x in history.items && x.item == n.id;
      }
    }

    /** Running tasks are exactly the entries of `dialing`. */
    ghost predicate Tracked()
      reads `dialing, `running, `tasks
    {
      && (forall id :: id in dialing ==> dialing[id].id == id && dialing[id] in running)
      && (forall t :: t in running ==> t in tasks && t.id in dialing && dialing[t.id] == t)
    }

    /** Back-indices: pool entries know their position and every other task has -1. */
    ghost predicate Indexed()
      reads `statics, `staticPool, `tasks, tasks
    {
      && (forall id :: id in statics ==> statics[id] in tasks && statics[id].id == id)
      && (forall t :: t in tasks ==> t.dest.id == t.id)
      && (forall i :: 0 <= i < |staticPool| ==>
            staticPool[i] in tasks && staticPool[i].staticPoolIndex == i
            && staticPool[i].id in statics && statics[staticPool[i].id] == staticPool[i])
      && (forall t :: t in tasks ==> t.staticPoolIndex == -1
                                     || (0 <= t.staticPoolIndex < |staticPool| && staticPool[t.staticPoolIndex] == t))
    }

    ghost predicate Logged()
      reads `log, `now, history
    {
      history.Valid() && LogOk(log, history.items, now, Config())
    }

    ghost predicate Valid()
      reads this, history, tasks
    {
      Tracked() && Indexed() && Logged()
    }

    function View(): DialView
      reads `dialing, `peers, history
    {
      DialView(self, netRestrict, dialing.Keys, peers.Keys, Recent(history.items))
    }

    /** The loop-head invariant: a static task is pooled if and only if it may be dialed now. */
    ghost predicate PoolExact()
      reads `statics, `staticPool, `tasks, tasks, `dialing, `peers, history
      requires Indexed()
    {
      forall id :: id in statics ==> ExactAt(View(), id)
    }

    /** As far as view `v` knows, static node `id` is pooled exactly when it may be dialed. */
    ghost predicate ExactAt(v: DialView, id: ID)
      reads `statics, `staticPool, `tasks, tasks
      requires Indexed() && id in statics
    {
      statics[id].staticPoolIndex >= 0 <==> CheckDial(v, statics[id].dest) == None
    }

    constructor (self: ID, maxDialPeers: int, maxActiveDials: int, netRestrict: Option<set<IP>>, now: Time)
      ensures Valid() && PoolExact() && fresh(history) && fresh(tasks)
      ensures staticPool == [] && log == [] && dialing == map[] && peers == map[] && statics == map[] && dialPeers == 0
      ensures Config() == DialConfig(self, netRestrict, maxDialPeers, maxActiveDials) && this.now == now
    {
      this.self, this.maxDialPeers, this.maxActiveDials, this.netRestrict := self, maxDialPeers, maxActiveDials, netRestrict;
      history := new ExpHeap();
      dialing, peers, dialPeers, statics, staticPool, this.now := map[], map[], 0, map[], [], now;
      running, tasks, log := {}, {}, [];
      new;
    }

    /** Read the clock; it never goes back. */
    method Tick()
      requires Logged()
      modifies this`now
      ensures Logged() && now >= old(now)
    {
      var t: Time := *;
      if t > now { now := t; }
    }

    method AddToStaticPool(task: DialTask)
      requires Indexed()
      requires task in tasks && task.id in statics && statics[task.id] == task && task.staticPoolIndex < 0
      modifies this`staticPool, tasks`staticPoolIndex
      ensures Indexed()
      ensures task.staticPoolIndex >= 0
      ensures forall t :: t in tasks && t != task ==> t.staticPoolIndex == old(t.staticPoolIndex)
    {
      staticPool := staticPool + [task];
      task.staticPoolIndex := |staticPool| - 1;
    }

    /** Move the last element into the hole and shorten the pool by one. */
    method RemoveFromStaticPool(idx: nat)
      requires Indexed() && idx < |staticPool|
      modifies this`staticPool, tasks`staticPoolIndex
      ensures Indexed()
      ensures old(staticPool)[idx].staticPoolIndex == -1
      ensures |staticPool| == |old(staticPool)| - 1
      ensures forall t :: t in tasks && t != old(staticPool)[idx] ==> (t.staticPoolIndex >= 0 <==> old(t.staticPoolIndex) >= 0)
    {
      var task, end := staticPool[idx], |staticPool| - 1;
      staticPool := staticPool[idx := staticPool[end]];
      staticPool[idx].staticPoolIndex := idx;
      staticPool := staticPool[..end];
      task.staticPoolIndex := -1;
    }

    /** Put a dial start into the history. */
    method Remember(node: Node, ghost origin: Origin)
      requires Logged() && CheckDial(View(), node) == None && HadRoom(origin)
      modifies this`now, this`log, history
      ensures Logged()
      ensures log == old(log) + [DialStart(node.id, now, node.id in peers, node.id in dialing, node, origin)]
      ensures now >= old(now)
      ensures Recent(history.items) == old(Recent(history.items)) + {node.id}
    {
      Tick();
      ghost var before := history.items;
      history.Add(node.id, now + DIAL_HISTORY_EXPIRATION);
      ghost var e := DialStart(node.id, now, node.id in peers, node.id in dialing, node, origin);
      StartKeepsLogOk(log, before, history.items, now, e, Config());
      log := log + [e];
    }

    /** A discovered node is dialed only with a free slot. */
    predicate HadRoom(origin: Origin) {
      origin.Discovered? ==>
        origin.active < maxActiveDials && origin.active < 2 * (maxDialPeers - origin.dialPeers)
    }

    /** Run a dial in its own goroutine, recording it in the history and in `dialing`. */
    method StartDial(task: DialTask, ghost origin: Origin)
      requires Tracked() && Logged() && task in tasks && task.dest.id == task.id && CheckDial(View(), task.dest) == None
      requires HadRoom(origin)
      modifies this`now, this`dialing, this`running, this`log, history
      ensures Tracked() && Logged()
      ensures dialing == old(dialing)[task.id := task] && task.id !in old(dialing)
      ensures running == old(running) + {task} && task !in old(running)
      ensures log == old(log) + [DialStart(task.id, now, task.id in old(peers), task.id in old(dialing), task.dest, origin)]
      ensures now >= old(now)
      ensures View() == Dialed(old(View()), task.id)
    {
      Remember(task.dest, origin);
      Track(task);
    }

    method Track(task: DialTask)
      requires Tracked() && task in tasks && task.id !in dialing
      modifies this`dialing, this`running
      ensures Tracked()
      ensures dialing == old(dialing)[task.id := task]
      ensures running == old(running) + {task} && task !in old(running)
    {
      dialing := dialing[task.id := task];
      running := running + {task};
    }

    /** Progress of starting a whole pool: the entries of `before` are still there, everything else in
        `dialing` comes from `pool`, and what is not dialed yet is still pooled. */
    ghost predicate Started(before: map<ID, DialTask>, pool: seq<DialTask>)
      reads `dialing, `tasks, tasks
    {
      && (forall id :: id in before ==> id in dialing && dialing[id] == before[id])
      && (forall id :: id in dialing && id !in before ==> dialing[id] in pool)
      && (forall t :: t in tasks && t.staticPoolIndex >= 0 ==> t in pool)
      && (forall t :: t in pool ==> t in tasks && (t.staticPoolIndex >= 0 || IsDialing(t)))
    }

    ghost predicate IsDialing(t: DialTask)
      reads `dialing
    {
      t.id in dialing && dialing[t.id] == t
    }

    /** Start one pooled task and take it out of the pool. */
    method StartPooled(idx: nat, ghost before: map<ID, DialTask>, ghost pool: seq<DialTask>)
      requires Valid() && PoolExact() && idx < |staticPool| && Started(before, pool)
      modifies this`now, this`dialing, this`running, this`log, this`staticPool, history, tasks`staticPoolIndex
      ensures Valid() && PoolExact() && Started(before, pool)
      ensures |staticPool| < |old(staticPool)|
      ensures old(log) <= log && now >= old(now)
      ensures forall i :: |old(log)| <= i < |log| ==> log[i].origin == Pooled
    {
      ghost var v := View();
      ghost var task := staticPool[idx];
      Launch(idx);
      forall id | id in statics
        ensures ExactAt(View(), id)
      {
        assert old(ExactAt(v, id));
        DialedFrame(v, task.id, statics[id].dest);
      }
    }

    /** Dial position `idx` of the pool and fill the hole it leaves. */
    method Launch(idx: nat)
      requires Valid() && idx < |staticPool| && CheckDial(View(), staticPool[idx].dest) == None
      modifies this`now, this`dialing, this`running, this`log, this`staticPool, history, tasks`staticPoolIndex
      ensures Valid()
      ensures |staticPool| < |old(staticPool)|
      ensures old(log) <= log && now >= old(now)
      ensures forall i :: |old(log)| <= i < |log| ==> log[i].origin == Pooled
      ensures var task := old(staticPool)[idx];
              && task.id !in old(dialing) && dialing == old(dialing)[task.id := task]
              && View() == Dialed(old(View()), task.id)
              && task.staticPoolIndex == -1
              && forall t :: t in tasks && t != task ==> (t.staticPoolIndex >= 0 <==> old(t.staticPoolIndex) >= 0)
    {
      StartDial(staticPool[idx], Pooled);
      RemoveFromStaticPool(idx);
    }

    /** Start every pooled task, in random order, and nothing else. */
    method StartStaticDials()
      requires Valid() && PoolExact()
      modifies this`now, this`dialing, this`running, this`log, this`staticPool, history, tasks`staticPoolIndex
      ensures Valid() && PoolExact()
      ensures staticPool == []
      ensures old(log) <= log && now >= old(now)
      ensures forall i :: |old(log)| <= i < |log| ==> log[i].origin == Pooled
      ensures forall id :: id in old(dialing) ==> id in dialing && dialing[id] == old(dialing)[id]
      ensures forall id :: id in dialing && id !in old(dialing) ==> dialing[id] in old(staticPool)
      ensures forall t :: t in old(staticPool) ==> IsDialing(t)
    {
      while |staticPool| > 0
        invariant Valid() && PoolExact() && Started(old(dialing), old(staticPool))
        invariant old(log) <= log && now >= old(now)
        invariant forall i :: |old(log)| <= i < |log| ==> log[i].origin == Pooled
        decreases |staticPool|
      {
        var idx: nat :| idx < |staticPool|;
        StartPooled(idx, old(dialing), old(staticPool));
      }
    }

    /** Move the static task of `id` back into the pool if it became usable. `v` is the view the
        pool was exact for before `id` left one of the maps. */
    method UpdateStaticPool(id: ID, ghost v: DialView)
      requires Indexed() && SameExcept(v, View(), id)
      requires forall i :: i in statics && i != id ==> ExactAt(v, i)
      requires id in statics && statics[id].staticPoolIndex >= 0 ==> CheckDial(View(), statics[id].dest) == None
      modifies this`staticPool, tasks`staticPoolIndex
      ensures Indexed() && PoolExact()
    {
      forall i | i in statics && i != id
        ensures ExactAt(View(), i)
      {
        CheckFrame(v, View(), id, statics[i].dest);
      }
      if id in statics && statics[id].staticPoolIndex < 0 && CheckDial(View(), statics[id].dest) == None {
        AddToStaticPool(statics[id]);
      }
    }

    /** A node from discovery: dial it unless checkDial objects. */
    method OnNode(node: Node, ghost origin: Origin)
      requires Valid() && PoolExact() && staticPool == [] && HadRoom(origin)
      modifies this`now, this`dialing, this`running, this`log, this`tasks, history
      ensures Valid() && PoolExact()
      ensures fresh(tasks - old(tasks)) && old(tasks) <= tasks
      ensures old(log) <= log && now >= old(now)
      ensures var dialed := && node.id != self && node.id !in old(dialing) && node.id !in old(peers)
                            && !(node.ip.Some? && node.tcp == 0)
                            && (netRestrict == None || (node.ip.Some? && node.ip.value in netRestrict.value))
                            && (forall x :: x in old(history.items) ==> x.item != node.id);
              && dialing.Keys == old(dialing.Keys) + (if dialed then {node.id} else {})
              && |log| == |old(log)| + (if dialed then 1 else 0)
              && (dialed ==> log[|old(log)|].node == node && log[|old(log)|].origin == origin)
    {
      ghost var v := View();
      MayDialIsCheckDial(node);
      if CheckDial(View(), node) == None {
        StartNew(node, origin);
        forall id | id in statics
          ensures ExactAt(View(), id)
        {
          assert old(ExactAt(v, id));
          DialedFrame(v, node.id, statics[id].dest);
        }
      }
    }

    method StartNew(node: Node, ghost origin: Origin)
      requires Valid() && CheckDial(View(), node) == None && HadRoom(origin)
      modifies this`now, this`dialing, this`running, this`log, this`tasks, history
      ensures Valid()
      ensures fresh(tasks - old(tasks)) && old(tasks) <= tasks
      ensures now >= old(now)
      ensures |log| == |old(log)| + 1 && old(log) <= log
      ensures log[|old(log)|].node == node && log[|old(log)|].origin == origin
      ensures dialing.Keys == old(dialing.Keys) + {node.id}
      ensures View() == Dialed(old(View()), node.id)
    {
      var task := new DialTask(node);
      tasks := tasks + {task};
      StartDial(task, origin);
    }

    /** Take a finished task out of the active ones; it may carry a newly resolved endpoint. */
    method Finish(task: DialTask, resolved: Node)
      requires Tracked() && Indexed() && task in running && resolved.id == task.id
      modifies this`dialing, this`running, task`dest
      ensures Tracked() && Indexed()
      ensures dialing == old(dialing) - {task.id} && running == old(running) - {task} && task.dest == resolved
    {
      task.dest := resolved;
      running := running - {task};
      dialing := dialing - {task.id};
    }

    /** A dial goroutine delivered its task, possibly with a newly resolved endpoint. */
    method OnDone(task: DialTask, resolved: Node)
      requires Tracked() && Indexed() && PoolExact() && task in running && resolved.id == task.id
      modifies this`dialing, this`running, this`staticPool, task`dest, tasks`staticPoolIndex
      ensures Tracked() && Indexed() && PoolExact()
      ensures dialing == old(dialing) - {task.id} && running == old(running) - {task} && task.dest == resolved
    {
      ghost var v := View();
      assert task.id in statics ==> ExactAt(v, task.id);
      Finish(task, resolved);
      assert SameExcept(v, View(), task.id);
      UpdateStaticPool(task.id, v);
    }

    /** Take static node `id` out of the pool if it is there. */
    method Unpool(id: ID)
      requires Indexed()
      modifies this`staticPool, tasks`staticPoolIndex
      ensures Indexed()
      ensures id in statics ==> statics[id].staticPoolIndex == -1
      ensures forall i :: i in statics && i != id ==>
                (statics[i].staticPoolIndex >= 0 <==> old(statics[i].staticPoolIndex) >= 0)
    {
      if id in statics && statics[id].staticPoolIndex >= 0 {
        RemoveFromStaticPool(statics[id].staticPoolIndex);
      }
    }

    /** Keep the pool exact when `id` becomes a peer, which takes the view from `v` to `w`. */
    method Block(id: ID, ghost v: DialView, ghost w: DialView)
      requires Indexed() && (forall i :: i in statics ==> ExactAt(v, i))
      requires SameExcept(v, w, id) && id in w.peers
      modifies this`staticPool, tasks`staticPoolIndex
      ensures Indexed() && forall i :: i in statics ==> ExactAt(w, i)
    {
      Unpool(id);
      forall i | i in statics
        ensures ExactAt(w, i)
      {
        assert old(ExactAt(v, i));
        CheckFrame(v, w, id, statics[i].dest);
      }
    }

    method Connect(id: ID, flags: ConnFlag)
      modifies this`dialPeers, this`peers
      ensures peers == old(peers)[id := flags]
      ensures dialPeers == old(dialPeers) + if flags.dynDialed || flags.staticDialed then 1 else 0
      ensures View() == old(View()).(peers := old(View()).peers + {id})
    {
      if flags.dynDialed || flags.staticDialed {
        dialPeers := dialPeers + 1;
      }
      peers := peers[id := flags];
    }

    method OnPeerAdded(id: ID, flags: ConnFlag)
      requires Indexed() && PoolExact()
      modifies this`dialPeers, this`peers, this`staticPool, tasks`staticPoolIndex
      ensures Indexed() && PoolExact()
      ensures peers == old(peers)[id := flags]
      ensures dialPeers == old(dialPeers) + if flags.dynDialed || flags.staticDialed then 1 else 0
    {
      ghost var v := View();
      Connect(id, flags);
      Block(id, v, View());
    }

    method OnPeerRemoved(id: ID, flags: ConnFlag)
      requires Indexed() && PoolExact()
      modifies this`dialPeers, this`peers, this`staticPool, tasks`staticPoolIndex
      ensures Indexed() && PoolExact()
      ensures peers == old(peers) - {id}
      ensures dialPeers == old(dialPeers) - if flags.dynDialed || flags.staticDialed then 1 else 0
    {
      ghost var v := View();
      assert id in statics ==> ExactAt(v, id);
      Disconnect(id, flags);
      UpdateStaticPool(id, v);
    }

    method Disconnect(id: ID, flags: ConnFlag)
      modifies this`dialPeers, this`peers
      ensures peers == old(peers) - {id}
      ensures dialPeers == old(dialPeers) - if flags.dynDialed || flags.staticDialed then 1 else 0
      ensures SameExcept(old(View()), View(), id)
    {
      if flags.dynDialed || flags.staticDialed {
        dialPeers := dialPeers - 1;
      }
      peers := peers - {id};
    }

    method NewStatic(node: Node) returns (task: DialTask)
      requires Valid() && node.id !in statics
      modifies this`statics, this`tasks
      ensures Valid() && fresh(task)
      ensures task.dest == node && task.id == node.id && task.staticPoolIndex == -1
      ensures statics == old(statics)[node.id := task] && tasks == old(tasks) + {task}
    {
      task := new DialTask(node);
      tasks := tasks + {task};
      statics := statics[node.id := task];
    }

    method OnAddStatic(node: Node)
      requires Valid() && PoolExact()
      modifies this`statics, this`staticPool, this`tasks, tasks`staticPoolIndex
      ensures Valid() && PoolExact()
      ensures fresh(tasks - old(tasks)) && old(tasks) <= tasks
      ensures statics.Keys == old(statics.Keys) + {node.id}
    {
      if node.id in statics {
        return;
      }
      ghost var v := View();
      var task := NewStatic(node);
      forall i | i in statics && i != node.id
        ensures ExactAt(v, i)
      {
        assert old(ExactAt(v, i));
      }
      UpdateStaticPool(node.id, v);
    }

    method OnRemoveStatic(id: ID)
      requires Indexed() && PoolExact()
      modifies this`statics, this`staticPool, tasks`staticPoolIndex
      ensures Indexed() && PoolExact()
      ensures statics.Keys == old(statics.Keys) - {id}
    {
      if id in statics {
        Unpool(id);
        statics := statics - {id};
      }
    }

    /** Drop expired history entries; each expiry may make a static task usable again. */
    method ExpireHistory()
      requires Valid() && PoolExact()
      modifies this`now, this`staticPool, history, tasks`staticPoolIndex
      ensures Valid() && PoolExact()
      ensures now >= old(now)
      ensures forall x :: x in history.items ==> x.exp >= now
      ensures old(View()).recent >= View().recent
    {
      Tick();
      while |history.items| > 0 && history.NextExpiry() < now
        invariant Valid() && PoolExact()
        invariant now >= old(now)
        invariant old(View()).recent >= View().recent
        decreases |history.items|
      {
        ExpireOne();
      }
    }

    method ExpireOne()
      requires Indexed() && Logged() && PoolExact() && history.items != [] && history.items[0].exp < now
      modifies this`staticPool, history, tasks`staticPoolIndex
      ensures Indexed() && Logged() && PoolExact()
      ensures |history.items| < |old(history.items)|
      ensures old(View()).recent >= View().recent
    {
      ghost var before := history.items;
      ghost var v := View();
      assert before[0].item in statics ==> ExactAt(v, before[0].item);
      var x := history.Pop();
      SameMembers(before, history.items + [x]);
      SameLength(before, history.items + [x]);
      HistoryAfterPop(log, before, history.items, now, x);
      UpdateStaticPool(x.item, v);
    }

    /** `freeDialSlots`; may be negative. */
    function FreeDialSlots(): (free: int)
      reads this
      ensures free > 0 <==> |dialing| < maxActiveDials && |dialing| < 2 * (maxDialPeers - dialPeers)
    {
      var slots := (maxDialPeers - dialPeers) * 2;
      (if slots > maxActiveDials then maxActiveDials else slots) - |dialing|
    }

    /** One turn of the loop: start pooled dials, then handle one event. */
    method Turn(e: Event)
      requires Valid() && PoolExact()
      modifies this, history, tasks
      ensures Valid() && PoolExact()
      ensures fresh(tasks - old(tasks)) && old(tasks) <= tasks
      ensures old(log) <= log && now >= old(now)
      ensures forall i :: |old(log)| <= i < |log| && log[i].origin != Pooled ==>
                log[i].origin == Discovered(|old(dialing)|, old(dialPeers))
    {
      var slots := FreeDialSlots();
      ghost var origin := Discovered(|dialing|, dialPeers);
      StartStaticDials();
      OnEvent(e, slots, origin);
    }

    /** A discovered node is read with free slots only. */
    method OnDiscovery(node: Node, slots: int, ghost origin: Origin)
      requires Valid() && PoolExact() && staticPool == [] && (slots > 0 ==> HadRoom(origin))
      modifies this`now, this`dialing, this`running, this`log, this`tasks, history
      ensures Valid() && PoolExact()
      ensures fresh(tasks - old(tasks)) && old(tasks) <= tasks
      ensures old(log) <= log && now >= old(now)
      ensures forall i :: |old(log)| <= i < |log| ==> log[i].origin == origin
      ensures slots > 0 && old(MayDial(node)) ==>
                |log| == |old(log)| + 1 && log[|old(log)|].node == node && dialing.Keys == old(dialing.Keys) + {node.id}
      ensures !(slots > 0 && old(MayDial(node))) ==> log == old(log) && dialing.Keys == old(dialing.Keys)
    {
      if slots > 0 {
        OnNode(node, origin);
      }
    }

    /** One event; discovery is listened to exactly with free slots. */
    method OnEvent(e: Event, slots: int, ghost origin: Origin)
      requires Valid() && PoolExact() && staticPool == [] && (slots > 0 ==> HadRoom(origin))
      modifies this, history, tasks
      ensures Valid() && PoolExact()
      ensures fresh(tasks - old(tasks)) && old(tasks) <= tasks
      ensures old(log) <= log && now >= old(now)
      ensures forall i :: |old(log)| <= i < |log| ==> log[i].origin == origin
      ensures |log| == |old(log)| + if e.NodeFound? && slots > 0 && old(MayDial(e.node)) then 1 else 0
      ensures |log| > |old(log)| ==> log[|old(log)|].node == e.node && e.node.id in dialing
      ensures Recorded(e, old(peers), old(dialPeers), old(statics.Keys), peers, dialPeers, statics.Keys)
    {
      if e.NodeFound? {
        OnDiscovery(e.node, slots, origin);
      } else if e.StaticAdded? {
        OnAddStatic(e.node);
      } else if e.PeerAdded? || e.PeerRemoved? {
        OnPeerEvent(e);
      } else if e.TaskDone? {
        OnTaskDone(e.resolved);
      } else {
        OnOther(e);
      }
    }

    method OnPeerEvent(e: Event)
      requires Valid() && PoolExact() && (e.PeerAdded? || e.PeerRemoved?)
      modifies this`dialPeers, this`peers, this`staticPool, tasks`staticPoolIndex
      ensures Valid() && PoolExact()
      ensures Recorded(e, old(peers), old(dialPeers), old(statics.Keys), peers, dialPeers, statics.Keys)
    {
      if e.PeerAdded? {
        OnPeerAdded(e.id, e.flags);
      } else {
        OnPeerRemoved(e.id, e.flags);
      }
    }

    /** A finished dial, which may be any running one. */
    method OnTaskDone(resolved: Node)
      requires Valid() && PoolExact()
      modifies this`dialing, this`running, this`staticPool, tasks
      ensures Valid() && PoolExact()
      ensures running < old(running) || running == old(running) == {}
    {
      if running != {} {
        var task :| task in running;
        OnDone(task, resolved.(id := task.id));
      }
    }

    /** The end of a static node, or the history timer. */
    method OnOther(e: Event)
      requires Valid() && PoolExact() && (e.StaticRemoved? || e.HistoryTimer?)
      modifies this`now, this`statics, this`staticPool, history, tasks`staticPoolIndex
      ensures Valid() && PoolExact()
      ensures now >= old(now)
      ensures Recorded(e, old(peers), old(dialPeers), old(statics.Keys), peers, dialPeers, statics.Keys)
      ensures e.HistoryTimer? ==> forall x :: x in history.items ==> x.exp >= now
    {
      if e.StaticRemoved? {
        OnRemoveStatic(e.id);
      } else {
        ExpireHistory();
      }
    }

    /** Any run of the loop, then shutdown. At every turn the pool is exact; over the whole run every dial
        goes to a whitelisted address and a port, none to self, a connected or an already dialed node,
        discovered nodes only with a free slot, and dials to one node are spaced;
        at shutdown one done message is received for each entry of `dialing` and none is left over. */
    method Loop(events: seq<Event>) returns (received: nat)
      requires Valid() && PoolExact()
      modifies this, history, tasks
      ensures Indexed() && PoolExact()
      ensures forall id :: id in statics ==> (statics[id].staticPoolIndex >= 0 <==> MayDial(statics[id].dest))
      ensures Spaced(log) && CleanStarts(log, Config()) && old(log) <= log
      ensures received == |dialing| && running == {}
    {
      for k := 0 to |events|
        invariant Valid() && PoolExact()
        invariant fresh(tasks - old(tasks)) && old(tasks) <= tasks
        invariant old(log) <= log && now >= old(now)
      {
        Turn(events[k]);
      }
      received := Shutdown();
      PooledIffMayDial();
    }

    lemma PooledIffMayDial()
      requires Indexed() && PoolExact()
      ensures forall id :: id in statics ==> (statics[id].staticPoolIndex >= 0 <==> MayDial(statics[id].dest))
    {
      forall id | id in statics
        ensures statics[id].staticPoolIndex >= 0 <==> MayDial(statics[id].dest)
      {
        assert ExactAt(View(), id);
        MayDialIsCheckDial(statics[id].dest);
      }
    }

    /** `for range d.dialing { <-d.doneCh }`. */
    method Shutdown() returns (received: nat)
      requires Tracked()
      modifies this`running
      ensures received == |dialing| && running == {}
    {
      received := 0;
      TasksPerEntry(dialing, running);
      while received < |dialing|
        invariant received <= |dialing|
        invariant |running| == |dialing| - received
      {
        var task :| task in running;
        running := running - {task};
        received := received + 1;
      }
    }
  }

  /** Tasks with distinct ids are as many as the entries that hold them. */
  lemma {:induction false} TasksPerEntry(m: map<ID, DialTask>, ts: set<DialTask>)
    requires forall id :: id in m ==> m[id].id == id && m[id] in ts
    requires forall t :: t in ts ==> t.id in m && m[t.id] == t
    ensures |ts| == |m|
    decreases |ts|
  {
    if t :| t in ts {
      var m' := m - {t.id};
      TasksPerEntry(m', ts - {t});
      assert m'.Keys == m.Keys - {t.id};
      assert |m.Keys| == |m'.Keys| + 1;
    } else {
      assert m.Keys == {};
    }
  }

  lemma HistoryAfterPop(log: seq<DialStart>, h: seq<ExpItem>, h': seq<ExpItem>, now: Time, x: ExpItem)
    requires multiset(h) == multiset(h') + multiset{x} && UniqueKeys(multiset(h)) && x.exp < now
    requires Remembered(log, h, now)
    ensures UniqueKeys(multiset(h')) && Remembered(log, h', now)
    ensures Recent(h') == Recent(h) - {x.item}
  {
    SameMembers(h, h' + [x]);
    assert x in multiset(h);
    assert multiset(h)[x] == 1;
    forall y | y in h'
      ensures y.item != x.item
    {
      assert y in multiset(h') && y in multiset(h);
      assert y.item == x.item ==> y == x;
    }
    forall y | y in multiset(h')
      ensures multiset(h')[y] == 1
    {
      assert y in multiset(h);
    }
  }

  /** Two views that differ at most about `id`. */
  predicate SameExcept(v: DialView, w: DialView, id: ID) {
    && v.self == w.self && v.netRestrict == w.netRestrict
    && v.dialing - {id} == w.dialing - {id}
    && v.peers - {id} == w.peers - {id}
    && v.recent - {id} == w.recent - {id}
  }

  lemma CheckFrame(v: DialView, w: DialView, id: ID, n: Node)
    requires SameExcept(v, w, id)
    ensures n.id != id ==> CheckDial(v, n) == CheckDial(w, n)
  {
    if n.id != id {
      assert n.id in v.dialing <==> n.id in v.dialing - {id};
      assert n.id in w.dialing <==> n.id in w.dialing - {id};
      assert n.id in v.peers <==> n.id in v.peers - {id};
      assert n.id in w.peers <==> n.id in w.peers - {id};
      assert n.id in v.recent <==> n.id in v.recent - {id};
      assert n.id in w.recent <==> n.id in w.recent - {id};
    }
  }

  /** Starting a dial to `id` makes `id` undialable and changes nothing for other nodes. */
  lemma DialedFrame(v: DialView, id: ID, n: Node)
    ensures n.id == id ==> CheckDial(Dialed(v, id), n) != None
    ensures n.id != id ==> CheckDial(Dialed(v, id), n) == CheckDial(v, n)
  {
  }

  lemma StartKeepsLogOk(log: seq<DialStart>, h: seq<ExpItem>, h': seq<ExpItem>, now: Time, e: DialStart, cfg: DialConfig)
    requires LogOk(log, h, now, cfg)
    requires e.id !in Recent(h) && e.at == now && CleanStart(e, cfg)
    requires multiset(h') == multiset(h) + multiset{ExpItem(e.id, now + DIAL_HISTORY_EXPIRATION)}
    ensures LogOk(log + [e], h', now, cfg) && Recent(h') == Recent(h) + {e.id}
  {
    HistoryAfterAdd(h, h', ExpItem(e.id, now + DIAL_HISTORY_EXPIRATION));
    LogAfterStart(log, h, h', now, e, cfg);
  }

  lemma HistoryAfterAdd(h: seq<ExpItem>, h': seq<ExpItem>, x: ExpItem)
    requires multiset(h') == multiset(h) + multiset{x}
    requires UniqueKeys(multiset(h)) && x.item !in Recent(h)
    ensures UniqueKeys(multiset(h'))
    ensures Recent(h') == Recent(h) + {x.item}
  {
    SameMembers(h', h + [x]);
    forall y | y in multiset(h)
      ensures y.item != x.item
    {
      assert y in h;
    }
  }

  /** A start to a node that is not in the history comes late enough after all earlier ones. */
  lemma LogAfterStart(log: seq<DialStart>, h: seq<ExpItem>, h': seq<ExpItem>, now: Time, e: DialStart, cfg: DialConfig)
    requires Spaced(log) && CleanStarts(log, cfg) && Remembered(log, h, now)
    requires e.id !in Recent(h) && e.at == now && CleanStart(e, cfg)
    requires multiset(h') == multiset(h) + multiset{ExpItem(e.id, now + DIAL_HISTORY_EXPIRATION)}
    ensures Spaced(log + [e]) && CleanStarts(log + [e], cfg) && Remembered(log + [e], h', now)
  {
    SameMembers(h', h + [ExpItem(e.id, now + DIAL_HISTORY_EXPIRATION)]);
    forall i | 0 <= i < |log| && log[i].id == e.id
      ensures log[i].at + DIAL_HISTORY_EXPIRATION < now
    {
      assert log[i] in log;
    }
  }
}
