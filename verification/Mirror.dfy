/** HandleMessage's tables mirror PeerManager's registry through the queue between them. */
module Mirror {
  import opened Bytes
  import opened Wire
  import opened Wrappers
  import opened Events
  import R = Registry
  import H = Handshake

  /** What one event does to the set of ids that HandleMessage knows. */
  function KeyStep(keys: set<PeerId>, e: EventsPeerManager): set<PeerId> {
    match e
    case IncidentNewConnection(id, _) => keys + {id}
    case IncidentCompletedPeer(id) => keys - {id}
    case IncidentCompletedAllPeer => {}
    case _ => keys
  }

  function KeysAfter(keys: set<PeerId>, log: seq<EventsPeerManager>): set<PeerId> {
    if log == [] then keys else KeyStep(KeysAfter(keys, log[..|log| - 1]), log[|log| - 1])
  }

  lemma {:induction false} KeysAfterAppend(keys: set<PeerId>, a: seq<EventsPeerManager>, b: seq<EventsPeerManager>)
    ensures KeysAfter(keys, a + b) == KeysAfter(KeysAfter(keys, a), b)
    decreases |b|
  {
    if b == [] {
      assert a + b == a;
    } else {
      assert (a + b)[..|a + b| - 1] == a + b[..|b| - 1];
      KeysAfterAppend(keys, a, b[..|b| - 1]);
    }
  }

  // ---- HandleMessage's side ----

  /** HandleMessage has taken exactly these events from the queue, each in some surroundings. */
  predicate Processed(hs: seq<H.LoopEvent>, log: seq<EventsPeerManager>) {
    |hs| == |log| && forall k :: 0 <= k < |hs| ==> hs[k].FromPeerManager? && hs[k].input.event == log[k]
  }

  lemma TablesKeys(t: H.Tables, i: H.Input)
    requires H.SameKeys(t)
    ensures var r := H.TablesStep(t, i).tables;
            H.SameKeys(r) && r.states.Keys == KeyStep(t.states.Keys, i.event)
  {
    hide H.Handle;
  }

  /** The tables' keys follow the events, whatever the surroundings, and both tables have the same. */
  lemma {:induction false} HandleMessageKeys(hs: seq<H.LoopEvent>, log: seq<EventsPeerManager>)
    requires Processed(hs, log) && H.LoopRun(hs).end.Running?
    ensures var t := H.LoopRun(hs).tables;
            t.contexts.Keys == KeysAfter({}, log) && t.states.Keys == KeysAfter({}, log)
    decreases |hs|
  {
    if hs == [] {
    } else {
      hide H.TablesStep;
      var n := |hs| - 1;
      HandleMessageKeys(hs[..n], log[..n]);
      TablesKeys(H.LoopRun(hs[..n]).tables, hs[n].input);
    }
  }

  // ---- PeerManager's side ----

  /**
   * The ids whose entry was removed after a failed send, until the id is given out again or a task with it is
   * joined.
   */
  function LostStep(m: R.Manager, lost: set<PeerId>, e: R.Event): set<PeerId>
    requires R.Enabled(m, e)
  {
    if R.Creation(e).Some? then lost - {m.peerid}
    else match e
      case ProtocolMessage(id, _) =>
        if id in m.allPeers && !R.CanSend(m.channels, m.allPeers[id].channel) then lost + {id} else lost
      case Joined(t, outcome, _) =>
        if R.JoinedId(m, t, outcome).Some? then lost - {R.JoinedId(m, t, outcome).value} else lost
      case _ => lost
  }

  function Lost(es: seq<R.Event>): set<PeerId>
    requires R.Run(es).Some?
  {
    if es == [] then {} else LostStep(R.Run(es[..|es| - 1]).value.manager, Lost(es[..|es| - 1]), es[|es| - 1])
  }

  predicate Mirrored(known: set<PeerId>, registered: set<PeerId>, lost: set<PeerId>, live: set<PeerId>) {
    known == registered + lost && lost !! registered && lost <= live
  }

  predicate Mirrors(m: R.Manager, lost: set<PeerId>) {
    Mirrored(KeysAfter({}, m.toProtocol), m.allPeers.Keys, lost, R.Ids(m.tasks))
  }

  lemma MirroredSpawn(known: set<PeerId>, registered: set<PeerId>, lost: set<PeerId>, live: set<PeerId>, id: PeerId)
    requires Mirrored(known, registered, lost, live)
    ensures Mirrored(known + {id}, registered + {id}, lost - {id}, live + {id})
  {
  }

  lemma MirroredJoin(known: set<PeerId>, registered: set<PeerId>, lost: set<PeerId>, live: set<PeerId>, id: PeerId,
                     rest: set<PeerId>)
    requires Mirrored(known, registered, lost, live) && live == rest + {id}
    ensures Mirrored(known - {id}, registered - {id}, lost - {id}, rest)
  {
  }

  lemma MirroredFailedSend(known: set<PeerId>, registered: set<PeerId>, lost: set<PeerId>, live: set<PeerId>,
                           id: PeerId)
    requires Mirrored(known, registered, lost, live) && id in registered && registered <= live
    ensures Mirrored(known, registered - {id}, lost + {id}, live)
  {
  }

  lemma ToldKeys(log: seq<EventsPeerManager>, e: EventsPeerManager)
    ensures KeysAfter({}, log + [e]) == KeyStep(KeysAfter({}, log), e)
  {
    assert (log + [e])[..|log|] == log;
  }

  lemma SpawnIds(m: R.Manager, c: R.Created, kind: TypeConnection)
    requires R.Fresh(m, Some(c))
    ensures R.Ids(R.Connected(m, c, kind).tasks) == R.Ids(m.tasks) + {m.peerid}
  {
    var n := R.Connected(m, c, kind);
    assert n.tasks - {c.task} == m.tasks;
    R.IdsWithout(n.tasks, c.task);
  }

  lemma SpawnEffect(m: R.Manager, c: R.Created, kind: TypeConnection)
    requires R.Fresh(m, Some(c)) && c.told
    ensures var n := R.Connected(m, c, kind);
            && n.allPeers.Keys == m.allPeers.Keys + {m.peerid}
            && R.Ids(n.tasks) == R.Ids(m.tasks) + {m.peerid}
            && KeysAfter({}, n.toProtocol) == KeysAfter({}, m.toProtocol) + {m.peerid}
  {
    SpawnIds(m, c, kind);
    ToldKeys(m.toProtocol, IncidentNewConnection(m.peerid, c.context.(typeConnect := kind)));
    hide R.Ids, KeysAfter;
  }

  lemma SpawnMirrors(m: R.Manager, lost: set<PeerId>, c: R.Created, kind: TypeConnection)
    requires Mirrors(m, lost) && R.Fresh(m, Some(c)) && c.told
    ensures Mirrors(R.Connected(m, c, kind), lost - {m.peerid})
  {
    SpawnEffect(m, c, kind);
    MirroredSpawn(KeysAfter({}, m.toProtocol), m.allPeers.Keys, lost, R.Ids(m.tasks), m.peerid);
  }

  lemma JoinEffect(m: R.Manager, t: R.TaskId, outcome: R.JoinOutcome)
    requires R.Inv(m) && t in m.tasks
    ensures R.JoinedId(m, t, outcome) == Some(m.tasks[t].peerid)
    ensures var id := m.tasks[t].peerid;
            var n := R.Tell(R.AfterJoin(m, t, outcome), IncidentCompletedPeer(id), true);
            && n.allPeers.Keys == m.allPeers.Keys - {id}
            && R.Ids(m.tasks) == R.Ids(n.tasks) + {id}
            && KeysAfter({}, n.toProtocol) == KeysAfter({}, m.toProtocol) - {id}
  {
    R.JoinKeeps(m, t, outcome);
    R.AfterJoinIsTaken(m, t, outcome);
    R.IdsWithout(m.tasks, t);
    ToldKeys(m.toProtocol, IncidentCompletedPeer(m.tasks[t].peerid));
    hide R.Inv;
  }

  lemma JoinMirrors(m: R.Manager, lost: set<PeerId>, t: R.TaskId, outcome: R.JoinOutcome)
    requires R.Inv(m) && Mirrors(m, lost) && t in m.tasks
    ensures R.JoinedId(m, t, outcome) == Some(m.tasks[t].peerid)
    ensures var id := m.tasks[t].peerid;
            Mirrors(R.Tell(R.AfterJoin(m, t, outcome), IncidentCompletedPeer(id), true), lost - {id})
  {
    JoinEffect(m, t, outcome);
    hide R.Inv, R.AfterJoin, R.Tell, KeysAfter;
    var id := m.tasks[t].peerid;
    var n := R.Tell(R.AfterJoin(m, t, outcome), IncidentCompletedPeer(id), true);
    MirroredJoin(KeysAfter({}, m.toProtocol), m.allPeers.Keys, lost, R.Ids(m.tasks), id, R.Ids(n.tasks));
  }

  lemma FailedSendMirrors(m: R.Manager, lost: set<PeerId>, id: PeerId)
    requires Mirrors(m, lost) && id in m.allPeers && m.allPeers.Keys <= R.Ids(m.tasks)
    ensures Mirrors(R.Remove(m, id), lost + {id})
  {
    assert R.Remove(m, id).allPeers.Keys == m.allPeers.Keys - {id};
    MirroredFailedSend(KeysAfter({}, m.toProtocol), m.allPeers.Keys, lost, R.Ids(m.tasks), id);
  }

  /** The event neither creates a peer, nor joins one, nor finds one gone when sending to it. */
  predicate Quiet(m: R.Manager, e: R.Event) {
    && R.Creation(e).None? && !e.Joined?
    && (e.ProtocolMessage? && e.peerid in m.allPeers ==> R.CanSend(m.channels, m.allPeers[e.peerid].channel))
  }

  lemma QuietEffect(m: R.Manager, e: R.Event)
    requires R.Enabled(m, e) && Quiet(m, e)
    ensures var n := R.Step(m, e).manager;
            n.allPeers == m.allPeers && n.tasks == m.tasks && KeysAfter({}, n.toProtocol) == KeysAfter({}, m.toProtocol)
  {
    if e.PeerMessage? { ToldKeys(m.toProtocol, ReadyMessage(e.fromPeerid, e.lowMessage)); }
  }

  lemma JoinedStepMirrors(m: R.Manager, lost: set<PeerId>, e: R.Event)
    requires R.Inv(m) && Mirrors(m, lost) && R.Enabled(m, e) && R.Step(m, e).left.None? && e.Joined?
    ensures Mirrors(R.Step(m, e).manager, LostStep(m, lost, e))
  {
    JoinMirrors(m, lost, e.task, e.outcome);
    hide R.Inv, R.AfterJoin, R.JoinedId, R.Tell, Mirrors;
  }

  lemma FailedStepMirrors(m: R.Manager, lost: set<PeerId>, e: R.Event)
    requires R.Inv(m) && Mirrors(m, lost) && R.Enabled(m, e) && e.ProtocolMessage? && !Quiet(m, e)
    ensures Mirrors(R.Step(m, e).manager, LostStep(m, lost, e))
  {
    R.RegistryContained(m);
    FailedSendMirrors(m, lost, e.peerid);
    hide R.Inv, R.Remove, R.CanSend, Mirrors;
  }

  lemma CreationStepMirrors(m: R.Manager, lost: set<PeerId>, e: R.Event)
    requires Mirrors(m, lost) && R.Enabled(m, e) && R.Creation(e).Some? && R.Step(m, e).left.None?
    ensures Mirrors(R.Step(m, e).manager, LostStep(m, lost, e))
  {
    R.CreationStep(m, e);
    hide R.Step, R.Connected, R.Creation;
    SpawnMirrors(m, lost, R.Creation(e).value, R.KindOf(e));
    hide Mirrors;
  }

  lemma QuietStepMirrors(m: R.Manager, lost: set<PeerId>, e: R.Event)
    requires Mirrors(m, lost) && R.Enabled(m, e) && Quiet(m, e)
    ensures Mirrors(R.Step(m, e).manager, LostStep(m, lost, e))
  {
    QuietEffect(m, e);
    hide R.Step, KeysAfter;
  }

  lemma StepMirrors(m: R.Manager, lost: set<PeerId>, e: R.Event)
    requires R.Inv(m) && Mirrors(m, lost) && R.Enabled(m, e) && R.Step(m, e).left.None?
    ensures Mirrors(R.Step(m, e).manager, LostStep(m, lost, e))
  {
    hide R.Inv, R.Step, Mirrors, LostStep, R.CanSend;
    if Quiet(m, e) {
      QuietStepMirrors(m, lost, e);
    } else if e.Joined? {
      JoinedStepMirrors(m, lost, e);
    } else if e.ProtocolMessage? {
      FailedStepMirrors(m, lost, e);
    } else {
      CreationStepMirrors(m, lost, e);
    }
  }

  lemma {:induction false} RunMirrors(es: seq<R.Event>)
    requires R.Run(es).Some? && R.Run(es).value.left.None?
    ensures Mirrors(R.Run(es).value.manager, Lost(es))
    decreases |es|
  {
    if es == [] {
    } else {
      hide R.Inv, R.Step, Mirrors, LostStep;
      var n := |es| - 1;
      RunMirrors(es[..n]);
      R.RunKeeps(es[..n]);
      StepMirrors(R.Run(es[..n]).value.manager, Lost(es[..n]), es[n]);
    }
  }

  lemma RunSummary(es: seq<R.Event>)
    requires R.Run(es).Some? && R.Run(es).value.left.None?
    ensures var m := R.Run(es).value.manager;
            Mirrors(m, Lost(es)) && m.allPeers.Keys <= R.Ids(m.tasks)
  {
    RunMirrors(es);
    R.RunKeeps(es);
    R.RegistryContained(R.Run(es).value.manager);
  }

  lemma CatchUp(log: seq<EventsPeerManager>, n: nat)
    requires n <= |log|
    ensures KeysAfter(KeysAfter({}, log[..n]), log[n..]) == KeysAfter({}, log)
  {
    KeysAfterAppend({}, log[..n], log[n..]);
    hide KeysAfter;
    assert log == log[..n] + log[n..];
  }

  /**
   * However far HandleMessage is behind, and whatever happened to its sends: once it has taken the events that are
   * still queued, it knows exactly the registered ids and those removed after a failed send. All of these are ids
   * of tasks not joined yet, and its two tables never differ in their ids.
   */
  lemma RegistryMirror(es: seq<R.Event>, n: nat, hs: seq<H.LoopEvent>)
    requires R.Run(es).Some? && R.Run(es).value.left.None?
    requires n <= |R.Run(es).value.manager.toProtocol|
    requires Processed(hs, R.Run(es).value.manager.toProtocol[..n]) && H.LoopRun(hs).end.Running?
    ensures var m, t := R.Run(es).value.manager, H.LoopRun(hs).tables;
            && t.contexts.Keys == t.states.Keys
            && KeysAfter(t.states.Keys, m.toProtocol[n..]) == m.allPeers.Keys + Lost(es)
            && Lost(es) !! m.allPeers.Keys
            && m.allPeers.Keys + Lost(es) <= R.Ids(m.tasks)
  {
    hide R.Inv, R.Run, R.Ids, H.LoopRun, Lost, KeysAfter, Processed;
    var log := R.Run(es).value.manager.toProtocol;
    HandleMessageKeys(hs, log[..n]);
    RunSummary(es);
    CatchUp(log, n);
  }

  /** HandleMessage, having caught up, knows the id of the next connection exactly when it is registered or lost. */
  lemma NextIdIsKnownExactly(es: seq<R.Event>, hs: seq<H.LoopEvent>)
    requires R.Run(es).Some? && R.Run(es).value.left.None?
    requires Processed(hs, R.Run(es).value.manager.toProtocol) && H.LoopRun(hs).end.Running?
    ensures var m, t := R.Run(es).value.manager, H.LoopRun(hs).tables;
            H.SameKeys(t) && (H.ViewOf(t, m.peerid).Absent? <==> m.peerid !in m.allPeers.Keys + Lost(es))
  {
    var log := R.Run(es).value.manager.toProtocol;
    assert log[..|log|] == log && log[|log|..] == [];
    RegistryMirror(es, |log|, hs);
    hide R.Run, H.LoopRun, Lost;
  }

  /** The state of a peer that is new to HandleMessage, after its connection was announced. */
  function FreshView(p: PeerId, i: H.Input): H.PeerView {
    H.PeerStep(p, H.Absent, i).view
  }

  /** What an announcement makes of what was known of the id. */
  lemma AnnouncedToView(p: PeerId, v: H.PeerView, c: ConnectionContext, env: H.Env)
    ensures var i := H.Input(IncidentNewConnection(p, c), env);
            var w := H.PeerStep(p, v, i).view;
            && w.Resident?
            && (w.flags.completedHandshake <==> v.Resident? && v.flags.completedHandshake)
            && (w == FreshView(p, i) <==> v in {H.Absent, H.Resident(c, H.FRESH), FreshView(p, i)})
  {
  }

  /** The announcement of the peer that e creates. */
  function Announcement(m: R.Manager, e: R.Event): EventsPeerManager
    requires R.Creation(e).Some?
  {
    IncidentNewConnection(m.peerid, R.Creation(e).value.context.(typeConnect := R.KindOf(e)))
  }

  lemma AnnouncementIsTold(m: R.Manager, e: R.Event)
    requires R.Enabled(m, e) && R.Creation(e).Some? && R.Creation(e).value.told
    ensures R.Step(m, e).left.None? && R.Step(m, e).manager.toProtocol == m.toProtocol + [Announcement(m, e)]
  {
    R.CreationStep(m, e);
  }

  /**
   * When a new peer is announced, its handshake is completed at once exactly when its id is still registered or lost
   * and the predecessor's handshake was completed; and it starts afresh exactly when its id is neither, or what is
   * known of the predecessor happens to be a fresh start with the same context.
   */
  lemma NewcomerStartsExactly(es: seq<R.Event>, e: R.Event, hs: seq<H.LoopEvent>, env: H.Env)
    requires R.Run(es).Some? && R.Run(es).value.left.None? && R.Enabled(R.Run(es).value.manager, e)
    requires R.Creation(e).Some? && R.Creation(e).value.told
    requires Processed(hs, R.Run(es).value.manager.toProtocol) && H.LoopRun(hs).end.Running?
    ensures NewcomerStarts(es, e, hs, env)
  {
    var m := R.Run(es).value.manager;
    var i := H.Input(Announcement(m, e), env);
    var more := hs + [H.FromPeerManager(i)];
    NextIdIsKnownExactly(es, hs);
    AnnouncementIsTold(m, e);
    assert more[..|hs|] == hs;
    assert H.LoopRun(more) == H.LoopStep(H.LoopRun(hs), more[|hs|]);
    H.StepProjection(m.peerid, H.LoopRun(hs).tables, i);
    AnnouncedToView(m.peerid, H.ViewOf(H.LoopRun(hs).tables, m.peerid), i.event.context, env);
    hide R.Run, R.Step, H.LoopRun, H.PeerStep, Lost, FreshView, R.Creation, H.TablesStep;
  }

  /** HandleMessage handles the announcement next; if it stays in its loop, this is what it then holds. */
  ghost predicate NewcomerStarts(es: seq<R.Event>, e: R.Event, hs: seq<H.LoopEvent>, env: H.Env)
    requires R.Run(es).Some? && R.Creation(e).Some? && R.Enabled(R.Run(es).value.manager, e)
  {
    var m, t := R.Run(es).value.manager, H.LoopRun(hs).tables;
    var i := H.Input(Announcement(m, e), env);
    var more := hs + [H.FromPeerManager(i)];
    var v, w := H.ViewOf(t, m.peerid), H.ViewOf(H.LoopRun(more).tables, m.peerid);
    && Processed(more, R.Step(m, e).manager.toProtocol)
    && (H.LoopRun(more).end.Running? ==>
          && w.Resident?
          && (w.flags.completedHandshake
              <==> m.peerid in m.allPeers.Keys + Lost(es) && v.Resident? && v.flags.completedHandshake)
          && (w == FreshView(m.peerid, i)
              <==> m.peerid !in m.allPeers.Keys + Lost(es)
                   || v in {H.Resident(i.event.context, H.FRESH), FreshView(m.peerid, i)}))
  }

  /** In stack order a new connection never gets an id that HandleMessage still knows. */
  lemma StackIdsAreUnknown(es: seq<R.Event>)
    requires R.Run(es).Some? && R.Run(es).value.left.None? && R.StackRun(es)
    ensures R.Run(es).value.manager.peerid !in KeysAfter({}, R.Run(es).value.manager.toProtocol)
  {
    R.DenseIffStack(es);
    R.AlwaysDenseNow(es);
    hide R.Inv, R.Run, R.Ids, Lost, KeysAfter;
    RunSummary(es);
  }

  /** Peer p's view after an event, when clock and sends succeed. */
  function ViewAfter(p: PeerId, v: H.PeerView, e: EventsPeerManager, time: U64): H.PeerView {
    if H.Concerns(p, e) then H.PeerStep(p, v, H.Input(e, H.Env(Some(time), true, true))).view else v
  }

  /** One more event for HandleMessage, when clock and sends succeed, as peer p sees it. */
  lemma Feed(p: PeerId, hs: seq<H.LoopEvent>, log: seq<EventsPeerManager>, e: EventsPeerManager, time: U64)
    returns (more: seq<H.LoopEvent>)
    requires Processed(hs, log) && H.LoopRun(hs).end.Running? && H.SameKeys(H.LoopRun(hs).tables)
    ensures Processed(more, log + [e]) && H.LoopRun(more).end.Running? && H.SameKeys(H.LoopRun(more).tables)
    ensures H.ViewOf(H.LoopRun(more).tables, p) == ViewAfter(p, H.ViewOf(H.LoopRun(hs).tables, p), e, time)
  {
    var i := H.Input(e, H.Env(Some(time), true, true));
    more := hs + [H.FromPeerManager(i)];
    assert more[..|hs|] == hs;
    assert H.LoopRun(more) == H.LoopStep(H.LoopRun(hs), more[|hs|]);
    H.StepProjection(p, H.LoopRun(hs).tables, i);
    SentSoStays(H.LoopRun(hs).tables, i);
    hide H.PeerStep, H.TablesStep, H.LoopRun, H.ViewOf, H.Concerns, H.SameKeys;
  }

  lemma SentSoStays(t: H.Tables, i: H.Input)
    requires i.env.firstSend
    ensures !H.TablesStep(t, i).left
  {
    hide H.Handle, H.Opened;
  }

  /** PeerManager's side of the run below: two connections and the second peer's handshake. */
  lemma SecondPeerTalks(c: ConnectionContext, v: VersionMessage) returns (es: seq<R.Event>)
    ensures R.Run(es).Some? && R.Run(es).value.left.None? && |es| == 4
    ensures var m, d := R.Run(es).value.manager, c.(typeConnect := IncomingConnection);
            && m.peerid == 3 && m.tasks == map[0 := R.PeerTask(1, 0), 1 := R.PeerTask(2, 1)]
            && m.channels.Keys == {0, 1}
            && m.toProtocol == [IncidentNewConnection(1, d), IncidentNewConnection(2, d), ReadyMessage(2, Version(v)),
                                ReadyMessage(2, Verack)]
  {
    var c0, c1 := R.Created(0, 0, c, true), R.Created(1, 1, c, true);
    es := [];
    assert R.Run(es) == Some(R.Stepped(R.START, None));
    hide R.Step, R.Run;
    R.IncomingEffect(R.START, c0);
    R.RunMore(es, R.Event.IncomingConnection(Some(c0)));
    es := es + [R.Event.IncomingConnection(Some(c0))];
    R.IncomingEffect(R.Run(es).value.manager, c1);
    R.RunMore(es, R.Event.IncomingConnection(Some(c1)));
    es := es + [R.Event.IncomingConnection(Some(c1))];
    MessageEffect(R.Run(es).value.manager, 2, Version(v));
    R.RunMore(es, R.PeerMessage(2, Version(v), true));
    es := es + [R.PeerMessage(2, Version(v), true)];
    MessageEffect(R.Run(es).value.manager, 2, Verack);
    R.RunMore(es, R.PeerMessage(2, Verack, true));
    es := es + [R.PeerMessage(2, Verack, true)];
  }

  /** Then the first peer's end, and a third connection. */
  lemma ReuseAfterHandshake(c: ConnectionContext, v: VersionMessage) returns (es: seq<R.Event>)
    ensures R.Run(es).Some? && R.Run(es).value.left.None?
    ensures var m, d := R.Run(es).value.manager, c.(typeConnect := IncomingConnection);
            && m.tasks == map[1 := R.PeerTask(2, 1), 2 := R.PeerTask(2, 2)]
            && m.toProtocol == [IncidentNewConnection(1, d), IncidentNewConnection(2, d), ReadyMessage(2, Version(v)),
                                ReadyMessage(2, Verack), IncidentCompletedPeer(1), IncidentNewConnection(2, d)]
    ensures |es| == 6 && R.Creation(es[5]) == Some(R.Created(2, 2, c, true))
  {
    hide R.Step, R.Run;
    var c2 := R.Created(2, 2, c, true);
    es := SecondPeerTalks(c, v);
    R.JoinedEffect(R.Run(es).value.manager, 0);
    R.RunMore(es, R.Joined(0, R.PeerError, true));
    es := es + [R.Joined(0, R.PeerError, true)];
    R.IncomingEffect(R.Run(es).value.manager, c2);
    R.RunMore(es, R.Event.IncomingConnection(Some(c2)));
    es := es + [R.Event.IncomingConnection(Some(c2))];
  }

  lemma MessageEffect(m: R.Manager, id: PeerId, message: MessagePayload)
    ensures R.Step(m, R.PeerMessage(id, message, true))
            == R.Stepped(m.(toProtocol := m.toProtocol + [ReadyMessage(id, message)]), None)
  {
  }

  /** The steps of an incoming peer through its handshake, and when another peer ends or its id is announced again. */
  lemma IncomingHandshake(p: PeerId, other: PeerId, d: ConnectionContext, v: VersionMessage, time: U64)
    requires d.typeConnect.IncomingConnection? && ValidVersion(v) && other != p
    ensures var agreed := H.Resident(d, H.Flags(true, false, true, true, false));
            var done := H.Resident(d, H.Flags(true, true, true, true, true));
            && ViewAfter(p, H.Absent, IncidentNewConnection(other, d), time) == H.Absent
            && ViewAfter(p, H.Absent, IncidentNewConnection(p, d), time) == H.Resident(d, H.FRESH)
            && ViewAfter(p, H.Resident(d, H.FRESH), ReadyMessage(p, Version(v)), time) == agreed
            && ViewAfter(p, agreed, ReadyMessage(p, Verack), time) == done
            && ViewAfter(p, done, IncidentCompletedPeer(other), time) == done
            && ViewAfter(p, done, IncidentNewConnection(p, d), time) == done
  {
  }

  lemma NothingFed(p: PeerId)
    ensures Processed([], []) && H.LoopRun([]).end.Running? && H.SameKeys(H.LoopRun([]).tables)
    ensures H.ViewOf(H.LoopRun([]).tables, p) == H.Absent
  {
  }

  /** HandleMessage's side of it: the second peer's handshake. */
  lemma CompletedHandshake(d: ConnectionContext, v: VersionMessage, time: U64)
    returns (hs: seq<H.LoopEvent>, log: seq<EventsPeerManager>)
    requires d.typeConnect.IncomingConnection? && ValidVersion(v)
    ensures log == [IncidentNewConnection(1, d), IncidentNewConnection(2, d), ReadyMessage(2, Version(v)),
                    ReadyMessage(2, Verack)]
    ensures Processed(hs, log) && H.LoopRun(hs).end.Running? && H.SameKeys(H.LoopRun(hs).tables)
    ensures H.ViewOf(H.LoopRun(hs).tables, 2) == H.Resident(d, H.Flags(true, true, true, true, true))
  {
    hide H.LoopRun, Processed, ViewAfter, H.ViewOf, H.SameKeys, ValidVersion;
    NothingFed(2);
    IncomingHandshake(2, 1, d, v, time);
    hs := Feed(2, [], [], IncidentNewConnection(1, d), time);
    log := [] + [IncidentNewConnection(1, d)];
    hs := Feed(2, hs, log, IncidentNewConnection(2, d), time);
    log := log + [IncidentNewConnection(2, d)];
    hs := Feed(2, hs, log, ReadyMessage(2, Version(v)), time);
    log := log + [ReadyMessage(2, Version(v))];
    hs := Feed(2, hs, log, ReadyMessage(2, Verack), time);
    log := log + [ReadyMessage(2, Verack)];
  }

  /** The first peer's end and the third connection. */
  lemma InheritedHandshake(d: ConnectionContext, v: VersionMessage, time: U64)
    returns (hs: seq<H.LoopEvent>, log: seq<EventsPeerManager>)
    requires d.typeConnect.IncomingConnection? && ValidVersion(v)
    ensures log == [IncidentNewConnection(1, d), IncidentNewConnection(2, d), ReadyMessage(2, Version(v)),
                    ReadyMessage(2, Verack), IncidentCompletedPeer(1), IncidentNewConnection(2, d)]
    ensures Processed(hs, log) && H.LoopRun(hs).end.Running?
    ensures H.ViewOf(H.LoopRun(hs).tables, 2) == H.Resident(d, H.Flags(true, true, true, true, true))
  {
    hide H.LoopRun, Processed, ViewAfter, H.ViewOf, H.SameKeys, ValidVersion;
    hs, log := CompletedHandshake(d, v, time);
    IncomingHandshake(2, 1, d, v, time);
    hs := Feed(2, hs, log, IncidentCompletedPeer(1), time);
    log := log + [IncidentCompletedPeer(1)];
    hs := Feed(2, hs, log, IncidentNewConnection(2, d), time);
    log := log + [IncidentNewConnection(2, d)];
  }

  /**
   * The last of the six events creates a peer that has sent nothing; HandleMessage has taken all that was sent to it,
   * and holds the handshake of that peer completed.
   */
  predicate Inherits(es: seq<R.Event>, hs: seq<H.LoopEvent>, c: ConnectionContext) {
    && |es| == 6 && R.Run(es).Some? && R.Run(es).value.left.None?
    && R.Creation(es[5]) == Some(R.Created(2, 2, c, true))
    && var m, t := R.Run(es).value.manager, H.LoopRun(hs).tables;
       && 2 in m.tasks && m.tasks[2] == R.PeerTask(2, 2)
       && Processed(hs, m.toProtocol) && H.LoopRun(hs).end.Running?
       && 2 in t.states && t.states[2].completedHandshake
  }

  /** Out of stack order it does, and a handshake is then inherited from the predecessor under the same id. */
  lemma ReusedIdInheritsHandshake(c: ConnectionContext, v: VersionMessage, time: U64)
    returns (es: seq<R.Event>, hs: seq<H.LoopEvent>)
    requires ValidVersion(v)
    ensures Inherits(es, hs, c)
  {
    hide R.Run, H.LoopRun, Processed, R.Creation;
    es := ReuseAfterHandshake(c, v);
    var log;
    hs, log := InheritedHandshake(c.(typeConnect := IncomingConnection), v, time);
  }
}
