/**
 * The way of a message from a peer's read task to HandleMessage: the read task's channel, the peer's relay loop, the
 * channel that all peers share, PeerManager's loop, and the channel to HandleMessage. The loops are those of Peer and
 * of Registry. The code tells peers apart by their ids; here each message also carries its session as a history tag.
 */
module Relay {
  import opened Wrappers
  import opened Wire
  import opened Slices
  import opened Events
  import P = Peer
  import R = Registry
  import Routing

  /** A session is known by the channel that PeerManager makes for the peer: no two ever have the same. */
  type Session = R.ChannelId

  datatype Tagged = Tagged(session: Session, peerid: PeerId, message: MessagePayload)

  datatype Told = Told(session: Session, event: EventsPeerManager)

  /** What the session's read task emitted, what is queued for its loop, what the loop has in hand, and the loop. */
  datatype Stretch = Stretch(
    peerid: PeerId,
    emitted: seq<MessagePayload>,
    queue: seq<MessagePayload>,
    hand: seq<MessagePayload>,
    loop: P.PeerLoop
  )

  /**
   * PeerManager, all sessions, the shared channel and what PeerManager has in hand from it, all that HandleMessage was
   * told, and how much of that it has received.
   */
  datatype Node = Node(
    manager: R.Manager,
    sessions: map<Session, Stretch>,
    shared: seq<Tagged>,
    hand: seq<Tagged>,
    log: seq<Told>,
    received: nat
  )

  const START := Node(R.START, map[], [], [], [], 0)

  datatype Action =
    | Manages(event: R.Event)
    | ManagerTakes
    | ManagerSends
    | Emit(emitter: Session, message: MessagePayload)
    | PeerTakes(taker: Session)
    | PeerSends(sender: Session)
    | PeerReceives(receiver: Session, sent: bool)
    | PeerSees(observer: Session, seen: P.PeerEvent)
    | PeerDrops(dropper: Session)
    | ProtocolReceives

  predicate Runs(s: Node, c: Session) {
    c in s.sessions && s.sessions[c].loop.end.Running?
  }

  /** What PeerManager's loop does by itself; its dealings with the peers' messages and channels are other actions. */
  predicate Manageable(s: Node, e: R.Event) {
    && R.Enabled(s.manager, e) && R.Step(s.manager, e).left.None?
    && !e.PeerMessage? && !e.PeerReceives? && !e.PeerDropsReceiver?
    && (e.Joined? ==> !Runs(s, s.manager.tasks[e.task].channel))
  }

  /** What a loop sees besides: a failing hand-over of what it has in hand, or, with nothing in hand, an end. */
  predicate Otherwise(hand: seq<MessagePayload>, e: P.PeerEvent) {
    if e.FromTaskRead? then hand == [e.message] && !e.sent else hand == [] && !e.FromManager?
  }

  predicate Enabled(s: Node, a: Action) {
    match a
    case Manages(e) => s.hand == [] && Manageable(s, e)
    case ManagerTakes => s.hand == [] && s.shared != []
    case ManagerSends => s.hand != []
    case Emit(c, _) => c in s.sessions
    case PeerTakes(c) => Runs(s, c) && s.sessions[c].hand == [] && s.sessions[c].queue != []
    case PeerSends(c) => Runs(s, c) && s.sessions[c].hand != []
    case PeerReceives(c, _) => Runs(s, c) && s.sessions[c].hand == [] && R.Enabled(s.manager, R.PeerReceives(c))
    case PeerSees(c, e) => Runs(s, c) && Otherwise(s.sessions[c].hand, e)
    case PeerDrops(c) => c in s.sessions && !Runs(s, c) && R.Enabled(s.manager, R.PeerDropsReceiver(c))
    case ProtocolReceives => s.received < |s.log|
  }

  /** The session that an event of PeerManager is about. */
  function SessionOf(m: R.Manager, e: R.Event): Session
    requires R.Enabled(m, e)
  {
    if R.Creation(e).Some? then R.Creation(e).value.channel
    else if e.Joined? then m.tasks[e.task].channel
    else 0
  }

  function Tag(c: Session, events: seq<EventsPeerManager>): seq<Told> {
    seq(|events|, k requires 0 <= k < |events| => Told(c, events[k]))
  }

  /** PeerManager takes a step; whatever it tells HandleMessage by it is about session c. */
  function ManagerStep(s: Node, e: R.Event, c: Session): Node
    requires R.Enabled(s.manager, e)
  {
    var m := R.Step(s.manager, e).manager;
    var more := if |s.manager.toProtocol| <= |m.toProtocol| then m.toProtocol[|s.manager.toProtocol|..] else [];
    s.(manager := m, log := s.log + Tag(c, more))
  }

  function Opened(s: Node, e: R.Event): Node {
    if R.Creation(e).None? then s
    else s.(sessions := s.sessions[R.Creation(e).value.channel := Stretch(s.manager.peerid, [], [], [], P.START)])
  }

  function LoopStep(s: Node, c: Session, e: P.PeerEvent): Node
    requires c in s.sessions
  {
    s.(sessions := s.sessions[c := s.sessions[c].(loop := P.PeerLoopStep(s.sessions[c].loop, e))])
  }

  function Step(s: Node, a: Action): Node
    requires Enabled(s, a)
  {
    match a
    case Manages(e) => ManagerStep(Opened(s, e), e, SessionOf(s.manager, e))
    case ManagerTakes => s.(shared := s.shared[1..], hand := [s.shared[0]])
    case ManagerSends =>
      ManagerStep(s, R.PeerMessage(s.hand[0].peerid, s.hand[0].message, true), s.hand[0].session).(hand := s.hand[1..])
    case Emit(c, m) =>
      var p := s.sessions[c];
      s.(sessions := s.sessions[c := p.(emitted := p.emitted + [m], queue := p.queue + [m])])
    case PeerTakes(c) =>
      var p := s.sessions[c];
      s.(sessions := s.sessions[c := p.(queue := p.queue[1..], hand := [p.queue[0]])])
    case PeerSends(c) =>
      var p := s.sessions[c];
      var loop := P.PeerLoopStep(p.loop, P.FromTaskRead(p.hand[0], true));
      s.(sessions := s.sessions[c := p.(hand := p.hand[1..], loop := loop)],
         shared := s.shared + [Tagged(c, p.peerid, p.hand[0])])
    case PeerReceives(c, sent) =>
      var e := P.FromManager(s.manager.channels[c].queue[0], sent);
      LoopStep(ManagerStep(s, R.PeerReceives(c), c), c, e)
    case PeerSees(c, e) => LoopStep(s, c, e)
    case PeerDrops(c) => ManagerStep(s, R.PeerDropsReceiver(c), c)
    case ProtocolReceives => s.(received := s.received + 1)
  }

  function Run(actions: seq<Action>): Option<Node> {
    if actions == [] then Some(START)
    else
      var n := |actions| - 1;
      match Run(actions[..n])
      case None => None
      case Some(s) => if Enabled(s, actions[n]) then Some(Step(s, actions[n])) else None
  }

  // ---- The parts are those of the other modules ----

  /** What an action is for PeerManager. */
  function ManagerEvent(s: Node, a: Action): seq<R.Event>
    requires Enabled(s, a)
  {
    match a
    case Manages(e) => [e]
    case ManagerSends => [R.PeerMessage(s.hand[0].peerid, s.hand[0].message, true)]
    case PeerReceives(c, _) => [R.PeerReceives(c)]
    case PeerDrops(c) => [R.PeerDropsReceiver(c)]
    case _ => []
  }

  function ManagerEvents(actions: seq<Action>): seq<R.Event>
    requires Run(actions).Some?
  {
    if actions == [] then []
    else
      var n := |actions| - 1;
      ManagerEvents(actions[..n]) + ManagerEvent(Run(actions[..n]).value, actions[n])
  }

  /** What an action is for the loop of session c. */
  function LoopEvent(s: Node, a: Action, c: Session): seq<P.PeerEvent>
    requires Enabled(s, a)
  {
    match a
    case PeerSends(k) => if k == c then [P.FromTaskRead(s.sessions[c].hand[0], true)] else []
    case PeerReceives(k, sent) => if k == c then [P.FromManager(s.manager.channels[c].queue[0], sent)] else []
    case PeerSees(k, e) => if k == c then [e] else []
    case _ => []
  }

  function LoopEvents(actions: seq<Action>, c: Session): seq<P.PeerEvent>
    requires Run(actions).Some?
  {
    if actions == [] then []
    else
      var n := |actions| - 1;
      LoopEvents(actions[..n], c) + LoopEvent(Run(actions[..n]).value, actions[n], c)
  }

  lemma ManagerMoves(s: Node, a: Action)
    requires Enabled(s, a)
    ensures var es := ManagerEvent(s, a);
            if es == [] then Step(s, a).manager == s.manager
            else |es| == 1 && R.Enabled(s.manager, es[0])
                 && R.Step(s.manager, es[0]) == R.Stepped(Step(s, a).manager, None)
  {
  }

  /** PeerManager's part of a run is a run of the registry. */
  lemma {:induction false} RunsRegistry(actions: seq<Action>)
    requires Run(actions).Some?
    ensures R.Run(ManagerEvents(actions)) == Some(R.Stepped(Run(actions).value.manager, None))
    decreases |actions|
  {
    if actions == [] {
    } else {
      hide Step, Enabled, ManagerEvent, R.Step, R.Enabled;
      var n := |actions| - 1;
      var s, es := Run(actions[..n]).value, ManagerEvents(actions[..n]);
      RunsRegistry(actions[..n]);
      ManagerMoves(s, actions[n]);
      var more := ManagerEvent(s, actions[n]);
      if more == [] {
        assert es + more == es;
      } else {
        assert more == [more[0]];
        R.RunMore(es, more[0]);
      }
    }
  }

  /** A session is there exactly when its channel is. */
  predicate SameSessions(s: Node) {
    s.sessions.Keys == s.manager.channels.Keys
  }

  lemma ChannelsOf(m: R.Manager, e: R.Event)
    requires R.Enabled(m, e)
    ensures R.Step(m, e).manager.channels.Keys
            == m.channels.Keys + if R.Creation(e).Some? then {R.Creation(e).value.channel} else {}
  {
  }

  lemma SessionsStep(s: Node, a: Action)
    requires SameSessions(s) && Enabled(s, a)
    ensures SameSessions(Step(s, a))
  {
    ManagerMoves(s, a);
    if ManagerEvent(s, a) != [] { ChannelsOf(s.manager, ManagerEvent(s, a)[0]); }
    hide R.Step;
  }

  lemma LoopMoves(s: Node, a: Action, c: Session)
    requires SameSessions(s) && Enabled(s, a)
    ensures c !in Step(s, a).sessions ==> LoopEvent(s, a, c) == []
    ensures c in Step(s, a).sessions ==>
              var es, after := LoopEvent(s, a, c), Step(s, a).sessions[c].loop;
              if c !in s.sessions then es == [] && after == P.START
              else if es == [] then after == s.sessions[c].loop
              else |es| == 1 && after == P.PeerLoopStep(s.sessions[c].loop, es[0])
  {
    hide P.PeerLoopStep, R.Step;
  }

  /** A session's part of a run is a run of the peer's relay loop. */
  lemma {:induction false} RunsLoop(actions: seq<Action>, c: Session)
    requires Run(actions).Some?
    ensures SameSessions(Run(actions).value)
    ensures var s, es := Run(actions).value, LoopEvents(actions, c);
            if c in s.sessions then P.PeerLoopRun(es) == s.sessions[c].loop else es == []
    decreases |actions|
  {
    if actions == [] {
    } else {
      hide Step, Enabled, LoopEvent, P.PeerLoopStep;
      var n := |actions| - 1;
      var s, es := Run(actions[..n]).value, LoopEvents(actions[..n], c);
      RunsLoop(actions[..n], c);
      SessionsStep(s, actions[n]);
      LoopMoves(s, actions[n], c);
      var more := LoopEvent(s, actions[n], c);
      if more == [] {
        assert es + more == es;
      } else {
        assert (es + more)[..|es|] == es;
      }
      SessionsStay(s, actions[n]);
    }
  }

  lemma SessionsStay(s: Node, a: Action)
    requires Enabled(s, a)
    ensures s.sessions.Keys <= Step(s, a).sessions.Keys
  {
  }

  // ---- One session's part of a queue ----

  function MessagesOf(c: Session, log: seq<Told>): seq<MessagePayload> {
    if log == [] then []
    else
      var e, rest := log[0], MessagesOf(c, log[1..]);
      if e.event.ReadyMessage? && e.session == c then [e.event.message] + rest else rest
  }

  function TaggedOf(c: Session, q: seq<Tagged>): seq<MessagePayload> {
    if q == [] then []
    else
      var e, rest := q[0], TaggedOf(c, q[1..]);
      if e.session == c then [e.message] + rest else rest
  }

  lemma {:induction false} MessagesOfAppend(c: Session, a: seq<Told>, b: seq<Told>)
    ensures MessagesOf(c, a + b) == MessagesOf(c, a) + MessagesOf(c, b)
    decreases |a|
  {
    if a == [] {
      assert a + b == b;
    } else {
      assert (a + b)[1..] == a[1..] + b;
      MessagesOfAppend(c, a[1..], b);
    }
  }

  lemma {:induction false} TaggedOfAppend(c: Session, a: seq<Tagged>, b: seq<Tagged>)
    ensures TaggedOf(c, a + b) == TaggedOf(c, a) + TaggedOf(c, b)
    decreases |a|
  {
    if a == [] {
      assert a + b == b;
    } else {
      assert (a + b)[1..] == a[1..] + b;
      TaggedOfAppend(c, a[1..], b);
    }
  }

  /** What is on its way between the loops and HandleMessage's queue, in order. */
  function Underway(s: Node): seq<Tagged> {
    s.hand + s.shared
  }

  /** What has left the session's loop, in order. */
  function Left(s: Node, c: Session): seq<MessagePayload> {
    Part(c, s.log, Underway(s))
  }

  function Part(c: Session, log: seq<Told>, underway: seq<Tagged>): seq<MessagePayload> {
    MessagesOf(c, log) + TaggedOf(c, underway)
  }

  /** One step's effect on what HandleMessage was told: nothing, or one event; a message only when PeerManager sends. */
  lemma LogMoves(s: Node, a: Action)
    requires Enabled(s, a)
    ensures var t := Step(s, a);
            || (t.log == s.log && !a.ManagerSends?)
            || (|t.log| == |s.log| + 1 && t.log == s.log + [t.log[|s.log|]]
                && var e := t.log[|s.log|];
                   if a.ManagerSends? then
                     e == Told(s.hand[0].session, ReadyMessage(s.hand[0].peerid, s.hand[0].message))
                   else a.Manages? && !e.event.ReadyMessage? && e.session == SessionOf(s.manager, a.event))
    ensures a.Manages? && R.Creation(a.event).Some? ==>
              |Step(s, a).log| == |s.log| + 1 && Step(s, a).log[|s.log|].event.IncidentNewConnection?
  {
    ManagerMoves(s, a);
    if ManagerEvent(s, a) != [] {
      Routing.TellsOne(s.manager, ManagerEvent(s, a)[0]);
      if a.Manages? && R.Creation(a.event).Some? { R.CreationStep(s.manager, a.event); }
    }
    hide R.Step;
  }

  /** The log is what PeerManager has told HandleMessage, with sessions. */
  predicate LogIsQueue(s: Node) {
    |s.log| == |s.manager.toProtocol| && s.received <= |s.log|
    && forall k :: 0 <= k < |s.log| ==> s.log[k].event == s.manager.toProtocol[k]
  }

  lemma LogStep(s: Node, a: Action)
    requires LogIsQueue(s) && Enabled(s, a)
    ensures LogIsQueue(Step(s, a))
  {
    LogMoves(s, a);
    ManagerMoves(s, a);
    if ManagerEvent(s, a) != [] { Routing.TellsOne(s.manager, ManagerEvent(s, a)[0]); }
    hide R.Step, R.Enabled, P.PeerLoopStep, Runs;
  }

  // ---- What is kept of every session ----

  predicate HandsSmall(s: Node) {
    |s.hand| <= 1 && forall c :: c in s.sessions ==> |s.sessions[c].hand| <= 1
  }

  /** What the loop has passed on has left it; while it runs nothing is lost, doubled or reordered in front of it. */
  predicate Conserved(s: Node, c: Session)
    requires c in s.sessions
  {
    var p := s.sessions[c];
    && p.loop.toManager == Left(s, c)
    && (if p.loop.end.Running? then p.emitted == p.loop.toManager + p.hand + p.queue
        else p.loop.toManager <= p.emitted)
  }

  ghost predicate AllConserved(s: Node) {
    && (forall c :: c in s.sessions ==> Conserved(s, c))
    && (forall c :: c !in s.sessions ==> Left(s, c) == [])
  }

  predicate Announced(log: seq<Told>, c: Session) {
    exists j :: 0 <= j < |log| && log[j].session == c && log[j].event.IncidentNewConnection?
  }

  /** Every message in the log stands behind the announcement of its session. */
  predicate NewFirst(log: seq<Told>) {
    forall k :: 0 <= k < |log| && log[k].event.ReadyMessage? ==> Announced(log[..k], log[k].session)
  }

  /** Every session has been announced, and what is underway comes from sessions, under their ids. */
  predicate AllAnnounced(s: Node) {
    && (forall c :: c in s.sessions ==> Announced(s.log, c))
    && (forall k :: 0 <= k < |Underway(s)| ==>
          Underway(s)[k].session in s.sessions && Underway(s)[k].peerid == s.sessions[Underway(s)[k].session].peerid)
  }

  ghost predicate Inv(s: Node) {
    R.Inv(s.manager) && SameSessions(s) && LogIsQueue(s) && HandsSmall(s)
    && AllConserved(s) && AllAnnounced(s) && NewFirst(s.log)
  }

  /** What is underway changes by the peers' sends at its end and PeerManager's at its front. */
  lemma UnderwayMoves(s: Node, a: Action)
    requires Enabled(s, a) && |s.hand| <= 1
    ensures Underway(Step(s, a)) == match a {
              case PeerSends(c) => Underway(s) + [Tagged(c, s.sessions[c].peerid, s.sessions[c].hand[0])]
              case ManagerSends => Underway(s)[1..]
              case _ => Underway(s)
            }
  {
    hide R.Step;
    match a {
      case PeerSends(c) =>
        Associate(s.hand, s.shared, [Tagged(c, s.sessions[c].peerid, s.sessions[c].hand[0])]);
      case ManagerTakes => assert s.shared == [s.shared[0]] + s.shared[1..];
      case ManagerSends => assert s.hand == [s.hand[0]];
      case _ =>
    }
  }

  lemma PartSent(c: Session, log: seq<Told>, q: seq<Tagged>, e: Tagged)
    ensures Part(c, log, q + [e]) == Part(c, log, q) + if e.session == c then [e.message] else []
  {
    TaggedOfAppend(c, q, [e]);
    assert TaggedOf(c, [e]) == if e.session == c then [e.message] else [];
    Associate(MessagesOf(c, log), TaggedOf(c, q), TaggedOf(c, [e]));
  }

  lemma PartTold(c: Session, log: seq<Told>, q: seq<Tagged>, e: Told)
    requires !e.event.ReadyMessage?
    ensures Part(c, log + [e], q) == Part(c, log, q)
  {
    MessagesOfAppend(c, log, [e]);
    assert MessagesOf(c, [e]) == [];
  }

  lemma PartPassed(c: Session, log: seq<Told>, q: seq<Tagged>)
    requires q != []
    ensures Part(c, log + [Told(q[0].session, ReadyMessage(q[0].peerid, q[0].message))], q[1..]) == Part(c, log, q)
  {
    var e := Told(q[0].session, ReadyMessage(q[0].peerid, q[0].message));
    MessagesOfAppend(c, log, [e]);
    assert MessagesOf(c, [e]) == if e.session == c then [e.event.message] else [];
    Associate(MessagesOf(c, log), MessagesOf(c, [e]), TaggedOf(c, q[1..]));
  }

  /** What has left a session's loop grows by its own sends and by nothing else. */
  lemma LeftMoves(s: Node, a: Action, c: Session)
    requires Enabled(s, a) && |s.hand| <= 1
    ensures Left(Step(s, a), c)
            == Left(s, c) + if a.PeerSends? && a.sender == c then [s.sessions[c].hand[0]] else []
  {
    var t := Step(s, a);
    UnderwayMoves(s, a);
    LogMoves(s, a);
    if s.hand != [] { assert Underway(s)[0] == s.hand[0]; }
    hide Step, Underway, Part;
    assert Left(s, c) + [] == Left(s, c);
    if a.PeerSends? {
      PartSent(c, s.log, Underway(s), Tagged(a.sender, s.sessions[a.sender].peerid, s.sessions[a.sender].hand[0]));
    } else if a.ManagerSends? {
      PartPassed(c, s.log, Underway(s));
    } else if |t.log| > |s.log| {
      PartTold(c, s.log, Underway(s), t.log[|s.log|]);
    }
  }

  // ---- The invariant ----

  lemma HandsStep(s: Node, a: Action)
    requires HandsSmall(s) && Enabled(s, a)
    ensures HandsSmall(Step(s, a))
  {
    hide R.Step, P.PeerLoopStep;
  }

  /** A relay loop passes on to PeerManager what it hands over successfully, and nothing else. */
  lemma LoopPasses(l: P.PeerLoop, e: P.PeerEvent)
    requires l.end.Running?
    ensures var n := P.PeerLoopStep(l, e);
            if e.FromTaskRead? && e.sent then n == l.(toManager := l.toManager + [e.message])
            else n.toManager == l.toManager
  {
  }

  /** The session's own moves; c's stretch is untouched by all others. */
  lemma StretchMoves(s: Node, a: Action, c: Session)
    requires Enabled(s, a) && SameSessions(s) && c in s.sessions
    requires |s.sessions[c].hand| <= 1 && StretchKept(s.sessions[c])
    ensures var p, q := s.sessions[c], Step(s, a).sessions[c];
            StretchKept(q)
            && q.loop.toManager == p.loop.toManager + if a.PeerSends? && a.sender == c then [p.hand[0]] else []
  {
    hide R.Step;
    var p := s.sessions[c];
    LoopMoves(s, a, c);
    if LoopEvent(s, a, c) != [] { LoopPasses(p.loop, LoopEvent(s, a, c)[0]); }
    hide P.PeerLoopStep;
    match a {
      case Emit(k, m) => if k == c { Associate(p.loop.toManager + p.hand, p.queue, [m]); }
      case PeerTakes(k) => if k == c { TakeKeeps(p.loop.toManager, p.queue); }
      case PeerSends(k) => if k == c { SendKeeps(p.loop.toManager, p.hand, p.queue); }
      case _ => Associate(p.loop.toManager, p.hand, p.queue);
    }
  }

  /** A stretch in front of the shared channel. */
  predicate StretchKept(p: Stretch) {
    if p.loop.end.Running? then p.emitted == p.loop.toManager + p.hand + p.queue else p.loop.toManager <= p.emitted
  }

  lemma TakeKeeps(left: seq<MessagePayload>, queue: seq<MessagePayload>)
    requires queue != []
    ensures left + [] + queue == left + [queue[0]] + queue[1..]
  {
    assert queue == [queue[0]] + queue[1..];
    Associate(left, [queue[0]], queue[1..]);
  }

  lemma SendKeeps(left: seq<MessagePayload>, hand: seq<MessagePayload>, queue: seq<MessagePayload>)
    requires |hand| == 1
    ensures left + hand + queue == (left + [hand[0]]) + hand[1..] + queue
  {
    assert hand == [hand[0]];
    assert (left + [hand[0]]) + [] == left + [hand[0]];
  }

  lemma ConservedStep(s: Node, a: Action, c: Session)
    requires Inv(s) && Enabled(s, a) && c in Step(s, a).sessions
    ensures Conserved(Step(s, a), c)
  {
    LeftMoves(s, a, c);
    if c in s.sessions {
      assert Conserved(s, c);
      StretchMoves(s, a, c);
    } else {
      NewStretch(s, a, c);
    }
    hide Left, Step, R.Inv, AllAnnounced, NewFirst, LogIsQueue, Enabled, SameSessions;
  }

  lemma NewStretch(s: Node, a: Action, c: Session)
    requires Enabled(s, a) && c !in s.sessions && c in Step(s, a).sessions
    ensures a.Manages? && Step(s, a).sessions[c] == Stretch(s.manager.peerid, [], [], [], P.START)
    ensures R.Creation(a.event).Some? && R.Creation(a.event).value.channel == c
  {
    hide R.Step;
  }

  lemma AllConservedStep(s: Node, a: Action)
    requires Inv(s) && Enabled(s, a)
    ensures AllConserved(Step(s, a))
  {
    var t := Step(s, a);
    SessionsStay(s, a);
    forall c | c in t.sessions ensures Conserved(t, c) { ConservedStep(s, a, c); }
    forall c | c !in t.sessions ensures Left(t, c) == [] { NothingLeft(s, a, c); }
    hide Step, Conserved, Left, Inv;
  }

  lemma NothingLeft(s: Node, a: Action, c: Session)
    requires AllConserved(s) && |s.hand| <= 1 && Enabled(s, a) && c !in Step(s, a).sessions
    ensures Left(Step(s, a), c) == []
  {
    SessionsStay(s, a);
    LeftMoves(s, a, c);
    if a.PeerSends? { assert a.sender in s.sessions; }
    hide Left, Conserved, Step;
  }

  lemma AnnouncedMore(log: seq<Told>, more: seq<Told>, c: Session)
    requires Announced(log, c) && log <= more
    ensures Announced(more, c)
  {
    var j :| 0 <= j < |log| && log[j].session == c && log[j].event.IncidentNewConnection?;
    assert more[j] == log[j];
  }

  lemma LogGrows(s: Node, a: Action)
    requires Enabled(s, a)
    ensures s.log <= Step(s, a).log
  {
    LogMoves(s, a);
    hide Step;
  }

  lemma SessionsAnnounced(s: Node, a: Action, c: Session)
    requires AllAnnounced(s) && Enabled(s, a) && c in Step(s, a).sessions
    ensures Announced(Step(s, a).log, c)
  {
    var t := Step(s, a);
    LogGrows(s, a);
    if c in s.sessions {
      AnnouncedMore(s.log, t.log, c);
    } else {
      NewStretch(s, a, c);
      LogMoves(s, a);
      assert t.log[|s.log|].session == c;
    }
  }

  lemma UnderwayStep(s: Node, a: Action)
    requires AllAnnounced(s) && SameSessions(s) && |s.hand| <= 1 && Enabled(s, a)
    ensures var t := Step(s, a);
            forall k :: 0 <= k < |Underway(t)| ==>
              Underway(t)[k].session in t.sessions
              && Underway(t)[k].peerid == t.sessions[Underway(t)[k].session].peerid
  {
    UnderwayMoves(s, a);
    hide Underway;
    var t := Step(s, a);
    forall c | c in s.sessions ensures c in t.sessions && t.sessions[c].peerid == s.sessions[c].peerid {
      SameId(s, a, c);
    }
    if a.PeerSends? { assert a.sender in s.sessions; }
    hide Step, Announced, Enabled, SameSessions;
  }

  lemma SameId(s: Node, a: Action, c: Session)
    requires SameSessions(s) && Enabled(s, a) && c in s.sessions
    ensures c in Step(s, a).sessions && Step(s, a).sessions[c].peerid == s.sessions[c].peerid
  {
    hide R.Step, P.PeerLoopStep;
  }

  lemma AnnouncedStep(s: Node, a: Action)
    requires AllAnnounced(s) && SameSessions(s) && |s.hand| <= 1 && Enabled(s, a)
    ensures AllAnnounced(Step(s, a))
  {
    UnderwayStep(s, a);
    forall c | c in Step(s, a).sessions ensures Announced(Step(s, a).log, c) { SessionsAnnounced(s, a, c); }
    hide Step, Underway, Announced;
  }

  lemma NewFirstStep(s: Node, a: Action)
    requires AllAnnounced(s) && NewFirst(s.log) && Enabled(s, a)
    ensures NewFirst(Step(s, a).log)
  {
    var t := Step(s, a);
    LogMoves(s, a);
    if a.ManagerSends? { assert Underway(s)[0] == s.hand[0]; }
    hide Step, Announced;
    forall k | 0 <= k < |t.log| && t.log[k].event.ReadyMessage?
      ensures Announced(t.log[..k], t.log[k].session)
    {
      if k < |s.log| { assert t.log[..k] == s.log[..k]; } else { assert t.log[..k] == s.log; }
    }
  }

  lemma ManagerKeeps(s: Node, a: Action)
    requires R.Inv(s.manager) && Enabled(s, a)
    ensures R.Inv(Step(s, a).manager)
  {
    ManagerMoves(s, a);
    if ManagerEvent(s, a) != [] { R.StepKeeps(s.manager, ManagerEvent(s, a)[0]); }
    hide Step, R.Inv, ManagerEvent;
  }

  lemma StepKeeps(s: Node, a: Action)
    requires Inv(s) && Enabled(s, a)
    ensures Inv(Step(s, a))
  {
    ManagerKeeps(s, a);
    SessionsStep(s, a);
    LogStep(s, a);
    HandsStep(s, a);
    AllConservedStep(s, a);
    AnnouncedStep(s, a);
    NewFirstStep(s, a);
    hide Step, R.Inv, SameSessions, LogIsQueue, HandsSmall, AllConserved, AllAnnounced, NewFirst;
  }

  lemma {:induction false} RunKeeps(actions: seq<Action>)
    requires Run(actions).Some?
    ensures Inv(Run(actions).value)
    decreases |actions|
  {
    if actions == [] {
    } else {
      hide Inv, Step, Enabled;
      var n := |actions| - 1;
      RunKeeps(actions[..n]);
      StepKeeps(Run(actions[..n]).value, actions[n]);
    }
  }

  // ---- What HandleMessage receives of a session ----

  /** What HandleMessage has received so far, and what is queued for it. */
  function Received(s: Node): seq<Told> {
    if s.received <= |s.log| then s.log[..s.received] else s.log
  }

  function Queued(s: Node): seq<Told> {
    if s.received <= |s.log| then s.log[s.received..] else []
  }

  lemma SessionFacts(s: Node, c: Session)
    requires Inv(s) && c in s.sessions
    ensures Conserved(s, c) && s.log == Received(s) + Queued(s)
  {
    hide Conserved, R.Inv, AllAnnounced, NewFirst, HandsSmall;
  }

  lemma LeftInParts(s: Node, c: Session)
    requires s.log == Received(s) + Queued(s)
    ensures Left(s, c)
            == MessagesOf(c, Received(s)) + MessagesOf(c, Queued(s)) + TaggedOf(c, s.hand) + TaggedOf(c, s.shared)
  {
    MessagesOfAppend(c, Received(s), Queued(s));
    TaggedOfAppend(c, s.hand, s.shared);
    hide MessagesOf, TaggedOf, Received, Queued;
    Associate(MessagesOf(c, Received(s)) + MessagesOf(c, Queued(s)), TaggedOf(c, s.hand), TaggedOf(c, s.shared));
  }

  /**
   * In every reachable state, while a session's loop runs, what its read task emitted is, in order, what HandleMessage
   * received of the session, what is queued for it, what PeerManager has in hand, the session's part of the shared
   * channel, what its loop has in hand, and what is queued for the loop.
   */
  lemma FifoRelay(actions: seq<Action>, c: Session)
    requires Run(actions).Some? && Runs(Run(actions).value, c)
    ensures var s := Run(actions).value;
            && s.log == Received(s) + Queued(s)
            && s.sessions[c].emitted
               == MessagesOf(c, Received(s)) + MessagesOf(c, Queued(s)) + TaggedOf(c, s.hand) + TaggedOf(c, s.shared)
                  + s.sessions[c].hand + s.sessions[c].queue
  {
    var s := Run(actions).value;
    RunKeeps(actions);
    SessionFacts(s, c);
    LeftInParts(s, c);
    hide Run, Inv, Left, MessagesOf, TaggedOf, Received, Queued;
  }

  /** Even after its loop has ended, HandleMessage has received of a session a beginning of what was emitted. */
  lemma ReceivedIsPrefix(actions: seq<Action>, c: Session)
    requires Run(actions).Some? && c in Run(actions).value.sessions
    ensures var s := Run(actions).value; MessagesOf(c, Received(s)) <= s.sessions[c].emitted
  {
    var s := Run(actions).value;
    RunKeeps(actions);
    SessionFacts(s, c);
    LeftInParts(s, c);
    hide Run, Inv, Left, MessagesOf, TaggedOf, Received, Queued;
    var p := s.sessions[c];
    Beginning(MessagesOf(c, Received(s)), MessagesOf(c, Queued(s)), TaggedOf(c, s.hand), TaggedOf(c, s.shared));
    assert MessagesOf(c, Received(s)) <= p.loop.toManager;
  }

  lemma Beginning<T>(a: seq<T>, b: seq<T>, c: seq<T>, d: seq<T>)
    ensures a <= a + b + c + d
  {
  }

  /** HandleMessage learns of a session before it gets any of the session's messages. */
  lemma NewConnectionFirst(actions: seq<Action>, k: nat)
    requires Run(actions).Some? && k < |Received(Run(actions).value)|
    requires Received(Run(actions).value)[k].event.ReadyMessage?
    ensures var log := Received(Run(actions).value); Announced(log[..k], log[k].session)
  {
    var s := Run(actions).value;
    RunKeeps(actions);
    hide Run, R.Inv, Announced, AllConserved, AllAnnounced;
    assert s.log[..k] == Received(s)[..k];
  }

  // ---- Each way is one queue ----

  /** What HandleMessage has received of the session. */
  function Delivered(s: Node, c: Session): seq<MessagePayload> {
    MessagesOf(c, Received(s))
  }

  lemma ReceivedMoves(s: Node, a: Action)
    requires LogIsQueue(s) && Enabled(s, a)
    ensures Received(Step(s, a)) == Received(s) + if a.ProtocolReceives? then [s.log[s.received]] else []
  {
    LogGrows(s, a);
    LogStep(s, a);
    assert Step(s, a).received == s.received + if a.ProtocolReceives? then 1 else 0 by { hide R.Step; }
    hide Step;
  }

  lemma EmittedMoves(s: Node, a: Action, c: Session)
    requires SameSessions(s) && Enabled(s, a) && c in s.sessions
    ensures c in Step(s, a).sessions
    ensures Step(s, a).sessions[c].emitted
            == s.sessions[c].emitted + if a.Emit? && a.emitter == c then [a.message] else []
  {
    hide R.Step, P.PeerLoopStep;
  }

  lemma DeliveredIsPrefix(s: Node, c: Session)
    requires Inv(s) && c in s.sessions
    ensures Delivered(s, c) <= s.sessions[c].emitted
  {
    SessionFacts(s, c);
    LeftInParts(s, c);
    hide Inv, Left, MessagesOf, TaggedOf, Received, Queued;
    Beginning(MessagesOf(c, Received(s)), MessagesOf(c, Queued(s)), TaggedOf(c, s.hand), TaggedOf(c, s.shared));
  }

  /**
   * For a session, the whole way inwards is one queue: what its read task emits is put in at the end, what
   * HandleMessage receives of it is taken out at the front, and no other action changes anything.
   */
  lemma InwardsOneQueue(s: Node, a: Action, c: Session)
    requires Inv(s) && Enabled(s, a) && c in s.sessions
    ensures Inv(Step(s, a)) && c in Step(s, a).sessions
    ensures var t, k := Step(s, a), |Delivered(s, c)|;
            && t.sessions[c].emitted == s.sessions[c].emitted + (if a.Emit? && a.emitter == c then [a.message] else [])
            && (Delivered(t, c) == Delivered(s, c)
                || (a.ProtocolReceives? && k < |s.sessions[c].emitted|
                    && Delivered(t, c) == Delivered(s, c) + [s.sessions[c].emitted[k]]))
  {
    hide Inv, Step, Received, MessagesOf, SameSessions, LogIsQueue;
    StepKeeps(s, a);
    InwardsFacts(s);
    ReceivedMoves(s, a);
    EmittedMoves(s, a, c);
    DeliveredIsPrefix(Step(s, a), c);
    if a.ProtocolReceives? {
      MessagesOfAppend(c, Received(s), [s.log[s.received]]);
      OneMessageOf(c, s.log[s.received]);
    } else {
      assert Received(s) + [] == Received(s);
    }
  }

  lemma InwardsFacts(s: Node)
    requires Inv(s)
    ensures LogIsQueue(s) && SameSessions(s)
  {
  }

  lemma OneMessageOf(c: Session, e: Told)
    ensures MessagesOf(c, [e]) == if e.event.ReadyMessage? && e.session == c then [e.event.message] else []
  {
  }

  /** The messages among what a peer gets. */
  function LowMessages(es: seq<EventsPeerManager>): seq<MessagePayload> {
    if es == [] then []
    else
      var init, e := LowMessages(es[..|es| - 1]), es[|es| - 1];
      if e.ReadyLowMessage? then init + [e.lowMessage] else init
  }

  lemma {:induction false} LowMessagesAppend(a: seq<EventsPeerManager>, b: seq<EventsPeerManager>)
    ensures LowMessages(a + b) == LowMessages(a) + LowMessages(b)
    decreases |b|
  {
    if b == [] {
      assert a + b == a;
    } else {
      assert (a + b)[..|a + b| - 1] == a + b[..|b| - 1];
      LowMessagesAppend(a, b[..|b| - 1]);
    }
  }

  lemma LowMessagesOne(a: seq<EventsPeerManager>, e: EventsPeerManager)
    ensures LowMessages(a + [e]) == LowMessages(a) + if e.ReadyLowMessage? then [e.lowMessage] else []
  {
    assert (a + [e])[..|a|] == a;
  }

  /** What the action has the loop of session c take from PeerManager. */
  function TakenBy(s: Node, a: Action, c: Session): seq<EventsPeerManager>
    requires Enabled(s, a)
  {
    if a.PeerReceives? && a.receiver == c then [s.manager.channels[c].queue[0]] else []
  }

  lemma ReceivedMore(es: seq<R.Event>, e: R.Event, c: Session)
    requires R.Run(es).Some? && R.Run(es + [e]).Some?
    ensures e == R.PeerReceives(c) ==> R.Enabled(R.Run(es).value.manager, e)
    ensures Routing.Received(es + [e], c)
            == Routing.Received(es, c)
               + if e == R.PeerReceives(c) then [R.Run(es).value.manager.channels[c].queue[0]] else []
  {
    hide R.Step;
    assert (es + [e])[..|es|] == es;
  }

  /** An action has the loop take something exactly when it is this event for PeerManager. */
  lemma TakenIsReceived(s: Node, a: Action, c: Session)
    requires Enabled(s, a)
    ensures var es := ManagerEvent(s, a);
            || (es == [] && TakenBy(s, a, c) == [])
            || (|es| == 1 && es[0] != R.PeerReceives(c) && TakenBy(s, a, c) == [])
            || (es == [R.PeerReceives(c)] && R.Enabled(s.manager, es[0])
                && TakenBy(s, a, c) == [s.manager.channels[c].queue[0]])
  {
    hide R.Step;
  }

  lemma ReceivedStep(actions: seq<Action>, c: Session)
    requires actions != [] && Run(actions).Some?
    requires R.Run(ManagerEvents(actions)).Some? && R.Run(ManagerEvents(actions[..|actions| - 1])).Some?
    ensures var n := |actions| - 1;
            Routing.Received(ManagerEvents(actions), c)
            == Routing.Received(ManagerEvents(actions[..n]), c) + TakenBy(Run(actions[..n]).value, actions[n], c)
  {
    var n := |actions| - 1;
    var s, a, es := Run(actions[..n]).value, actions[n], ManagerEvents(actions[..n]);
    RunsRegistry(actions[..n]);
    TakenIsReceived(s, a, c);
    assert ManagerEvents(actions) == es + ManagerEvent(s, a);
    hide Run, ManagerEvents, R.Run, R.Step, TakenBy, Routing.Received, ManagerEvent;
    var more := ManagerEvent(s, a);
    if more == [] {
      assert es + more == es;
    } else {
      assert more == [more[0]];
      ReceivedMore(es, more[0], c);
    }
  }

  lemma WriteMoves(s: Node, a: Action, c: Session)
    requires SameSessions(s) && Enabled(s, a) && c in Step(s, a).sessions && Runs(Step(s, a), c)
    ensures c in s.sessions ==> Runs(s, c)
    ensures var before := if c in s.sessions then s.sessions[c].loop.toWrite else [];
            Step(s, a).sessions[c].loop.toWrite == before + LowMessages(TakenBy(s, a, c))
  {
    LoopMoves(s, a, c);
    TakenIsSeen(s, a, c);
    hide R.Step, Step, Enabled, TakenBy, LoopEvent, P.PeerLoopStep;
    assert LowMessages([]) == [];
    if TakenBy(s, a, c) != [] { LowMessagesOne([], TakenBy(s, a, c)[0]); }
    if LoopEvent(s, a, c) != [] { LoopWrites(s.sessions[c].loop, LoopEvent(s, a, c)[0]); }
  }

  /** A relay loop hands to the write task the messages that it sees from PeerManager, and ends when it cannot. */
  lemma LoopWrites(l: P.PeerLoop, e: P.PeerEvent)
    requires P.PeerLoopStep(l, e).end.Running?
    ensures l.end.Running?
    ensures P.PeerLoopStep(l, e).toWrite
            == l.toWrite + if e.FromManager? && e.event.ReadyLowMessage? then [e.event.lowMessage] else []
  {
  }

  lemma TakenIsSeen(s: Node, a: Action, c: Session)
    requires Enabled(s, a)
    ensures var es, taken := LoopEvent(s, a, c), TakenBy(s, a, c);
            || (taken == [] && (es == [] || (|es| == 1 && !es[0].FromManager?)))
            || (|taken| == 1 && |es| == 1 && es[0].FromManager? && es[0].event == taken[0] && c in s.sessions)
    ensures LoopEvent(s, a, c) != [] ==> c in s.sessions
  {
    hide R.Step, P.PeerLoopStep;
  }

  /** While a session's loop runs it has handed to the write task exactly the messages it took, in order. */
  lemma {:induction false} HandsOnWhatItTakes(actions: seq<Action>, c: Session)
    requires Run(actions).Some? && R.Run(ManagerEvents(actions)).Some?
    ensures var s, taken := Run(actions).value, Routing.Received(ManagerEvents(actions), c);
            && (Runs(s, c) ==> s.sessions[c].loop.toWrite == LowMessages(taken))
            && (c !in s.sessions ==> taken == [])
    decreases |actions|
  {
    if actions == [] {
    } else {
      var n := |actions| - 1;
      var s, a := Run(actions[..n]).value, actions[n];
      assert Run(actions).value == Step(s, a) && Enabled(s, a);
      hide Step, Enabled, Run, R.Run, TakenBy, ManagerEvents, Routing.Received, LowMessages, Runs;
      RunsRegistry(actions[..n]);
      RunsLoop(actions[..n], c);
      HandsOnWhatItTakes(actions[..n], c);
      ReceivedStep(actions, c);
      HandsOnStep(s, a, c, Routing.Received(ManagerEvents(actions[..n]), c));
    }
  }

  lemma HandsOnStep(s: Node, a: Action, c: Session, taken: seq<EventsPeerManager>)
    requires SameSessions(s) && Enabled(s, a)
    requires Runs(s, c) ==> s.sessions[c].loop.toWrite == LowMessages(taken)
    requires c !in s.sessions ==> taken == []
    ensures var t, now := Step(s, a), taken + TakenBy(s, a, c);
            && (Runs(t, c) ==> t.sessions[c].loop.toWrite == LowMessages(now))
            && (c !in t.sessions ==> now == [])
  {
    SessionsStay(s, a);
    if c !in s.sessions { NothingTaken(s, a, c); }
    if Runs(Step(s, a), c) {
      WriteMoves(s, a, c);
      LowMessagesAppend(taken, TakenBy(s, a, c));
    }
    hide Step, TakenBy;
  }

  lemma NothingTaken(s: Node, a: Action, c: Session)
    requires Enabled(s, a) && c !in s.sessions
    ensures TakenBy(s, a, c) == []
  {
  }

  /**
   * For a session, the whole way outwards is one queue while its id is not disturbed and its loop runs: what was handed
   * to the write task and what still waits in the channel are together the messages that HandleMessage had for its id.
   */
  lemma OutwardsOneQueue(actions: seq<Action>, k: nat, es: seq<R.Event>)
    requires Run(actions).Some? && es == ManagerEvents(actions) && R.Run(es).Some?
    requires k < |es| && R.Run(es[..k]).Some? && R.Creation(es[k]).Some?
    requires Routing.Undisturbed(es, k, Routing.IdAt(es, k), Routing.EntryAt(es, k).channel)
    requires Runs(Run(actions).value, Routing.EntryAt(es, k).channel)
    ensures var s, c := Run(actions).value, Routing.EntryAt(es, k).channel;
            && c in s.manager.channels
            && LowMessages(Routing.Addressed(es[k + 1..], Routing.IdAt(es, k)))
               == s.sessions[c].loop.toWrite + LowMessages(s.manager.channels[c].queue)
  {
    var s, c := Run(actions).value, Routing.EntryAt(es, k).channel;
    RunsRegistry(actions);
    Routing.OutboundInOrder(es, k);
    HandsOnWhatItTakes(actions, c);
    hide R.Run, Run, ManagerEvents, Routing.Received, Routing.Addressed, Routing.Undisturbed;
    LowMessagesAppend(Routing.Received(es, c), s.manager.channels[c].queue);
  }
}
