/** PeerManager's registry as a state machine over values: ids, tasks, senders and the channels to the peers. */
module Registry {
  import opened Wire
  import opened Wrappers
  import opened Events
  import Peer

  type TaskId = nat
  type ChannelId = nat

  /** The channel from PeerManager to one peer. It has a single sender and a single receiver. */
  datatype Channel = Channel(queue: seq<EventsPeerManager>, senderAlive: bool, receiverAlive: bool)

  /** A peer's task in the join set: the id it was given, and the channel whose receiver it owns. */
  datatype PeerTask = PeerTask(peerid: PeerId, channel: ChannelId)

  /** What is registered for a peer; it owns the channel's sender. */
  datatype PeerSystemMetadata = PeerSystemMetadata(
    socketAddress: SocketAddr,
    typeConnect: TypeConnection,
    channel: ChannelId
  )

  datatype Manager = Manager(
    peerid: nat,
    allPeers: map<PeerId, PeerSystemMetadata>,
    tasks: map<TaskId, PeerTask>,
    idPeers: map<TaskId, PeerId>,
    channels: map<ChannelId, Channel>,
    toProtocol: seq<EventsPeerManager>
  )

  const START := Manager(1, map[], map[], map[], map[], [])

  /**
   * The tokio side of a created peer: its task's id, its channel, its address, and whether HandleMessage can be
   * told.
   */
  datatype Created = Created(task: TaskId, channel: ChannelId, context: ConnectionContext, told: bool)

  datatype JoinOutcome = SuccessfulTaskReadTaskWrite | SuccessfulBrokenPipe | PeerError | JoinError

  /**
   * What PeerManager's loop sees, and, in the last two cases, what a peer does with its channel meanwhile.
   * A connection that fails, or whose peer cannot be created, is None.
   */
  datatype Event =
    | OutgoingConnection(connected: bool, created: Option<Created>)
    | IncomingConnection(incoming: Option<Created>)
    | ProtocolMessage(peerid: PeerId, message: MessagePayload)
    | PeerMessage(fromPeerid: PeerId, lowMessage: MessagePayload, passed: bool)
    | PeerOther
    | Joined(task: TaskId, outcome: JoinOutcome, told: bool)
    | ViolentPeer(violentPeerid: PeerId)
    | Critical(reason: CriticalReason)
    | PeerReceives(channel: ChannelId)
    | PeerDropsReceiver(droppedChannel: ChannelId)

  datatype CriticalReason = ConfirmationShutdown | ThreadNetworkClosed | LoopListenClosed | ProtocolClosed

  /** Tokio's guarantees: task ids are unique among the tasks not joined yet, and a new channel is new. */
  predicate Fresh(m: Manager, c: Option<Created>) {
    c.Some? ==> c.value.task !in m.tasks && c.value.channel !in m.channels
  }

  predicate Enabled(m: Manager, e: Event) {
    match e
    case OutgoingConnection(_, c) => Fresh(m, c)
    case IncomingConnection(c) => Fresh(m, c)
    case Joined(t, _, _) => t in m.tasks
    case PeerReceives(c) => c in m.channels && m.channels[c].receiverAlive && m.channels[c].queue != []
    case PeerDropsReceiver(c) => c in m.channels
    case _ => true
  }

  // ---- Operations ----

  function DropSender(channels: map<ChannelId, Channel>, c: ChannelId): map<ChannelId, Channel> {
    if c in channels then channels[c := channels[c].(senderAlive := false)] else channels
  }

  function DropReceiver(channels: map<ChannelId, Channel>, c: ChannelId): map<ChannelId, Channel> {
    if c in channels then channels[c := channels[c].(receiverAlive := false)] else channels
  }

  /** A send fails when the receiver is gone; otherwise it queues. */
  predicate CanSend(channels: map<ChannelId, Channel>, c: ChannelId) {
    c in channels && channels[c].receiverAlive
  }

  function Send(channels: map<ChannelId, Channel>, c: ChannelId, e: EventsPeerManager): map<ChannelId, Channel> {
    if CanSend(channels, c) then channels[c := channels[c].(queue := channels[c].queue + [e])] else channels
  }

  /** Inserting under an id drops the sender that was registered there. */
  function Insert(m: Manager, id: PeerId, meta: PeerSystemMetadata): Manager {
    m.(allPeers := m.allPeers[id := meta],
       channels := if id in m.allPeers then DropSender(m.channels, m.allPeers[id].channel) else m.channels)
  }

  function Remove(m: Manager, id: PeerId): Manager {
    m.(allPeers := m.allPeers - {id},
       channels := if id in m.allPeers then DropSender(m.channels, m.allPeers[id].channel) else m.channels)
  }

  function Tell(m: Manager, e: EventsPeerManager, told: bool): Manager {
    if told then m.(toProtocol := m.toProtocol + [e]) else m
  }

  /** A new peer's task: the id in the counter, a fresh channel, an entry in each table. */
  function Spawned(m: Manager, c: Created, meta: PeerSystemMetadata): Manager {
    var id := m.peerid;
    var m1 := m.(peerid := id + 1,
                 tasks := m.tasks[c.task := PeerTask(id, c.channel)],
                 channels := m.channels[c.channel := Channel([], true, true)]);
    Insert(m1, id, meta).(idPeers := m.idPeers[c.task := id])
  }

  function Connected(m: Manager, c: Created, kind: TypeConnection): Manager {
    Tell(Spawned(m, c, PeerSystemMetadata(c.context.removeAddress, kind, c.channel)),
         IncidentNewConnection(m.peerid, c.context.(typeConnect := kind)), c.told)
  }

  /** The id a finished task is booked under: its own result names it, a join error only the task table. */
  function JoinedId(m: Manager, t: TaskId, outcome: JoinOutcome): Option<PeerId>
    requires t in m.tasks
  {
    if !outcome.JoinError? then Some(m.tasks[t].peerid)
    else if t in m.idPeers then Some(m.idPeers[t])
    else None
  }

  function Unjoined(m: Manager, t: TaskId): Manager
    requires t in m.tasks
  {
    m.(tasks := m.tasks - {t}, channels := DropReceiver(m.channels, m.tasks[t].channel))
  }

  /** The counter is a u64: it would wrap below 0, which CounterConservation excludes. */
  function Decremented(n: nat): nat {
    if n == 0 then 0xffff_ffff_ffff_ffff else n - 1
  }

  function Booked(m: Manager, id: PeerId): Manager {
    var m1 := Remove(m, id);
    m1.(peerid := Decremented(m.peerid))
  }

  /** A joined task leaves the join set, its id leaves the registry, and the counter goes down. */
  function AfterJoin(m: Manager, t: TaskId, outcome: JoinOutcome): Manager
    requires t in m.tasks
  {
    match JoinedId(m, t, outcome)
    case None => Unjoined(m, t)
    case Some(id) => Booked(Unjoined(m, t), id)
  }

  datatype Stepped = Stepped(manager: Manager, left: Option<CriticalReason>)

  function LeftUnless(told: bool): Option<CriticalReason> {
    if told then None else Some(ProtocolClosed)
  }

  function Step(m: Manager, e: Event): Stepped
    requires Enabled(m, e)
  {
    match e
    case OutgoingConnection(connected, c) =>
      if connected && c.Some? then
        Stepped(Connected(m, c.value, TypeConnection.OutgoingConnection), LeftUnless(c.value.told))
      else Stepped(m, None)
    case IncomingConnection(c) =>
      if c.Some? then Stepped(Connected(m, c.value, TypeConnection.IncomingConnection), LeftUnless(c.value.told))
      else Stepped(m, None)
    case ProtocolMessage(id, msg) =>
      if id !in m.allPeers then Stepped(m, None)
      else if CanSend(m.channels, m.allPeers[id].channel) then
        Stepped(m.(channels := Send(m.channels, m.allPeers[id].channel, ReadyLowMessage(msg))), None)
      else Stepped(Remove(m, id), None)
    case PeerMessage(id, msg, passed) => Stepped(Tell(m, ReadyMessage(id, msg), passed), LeftUnless(passed))
    case PeerOther => Stepped(m, None)
    case Joined(t, outcome, told) =>
      (match JoinedId(m, t, outcome)
       case None => Stepped(AfterJoin(m, t, outcome), None)
       case Some(id) => Stepped(Tell(AfterJoin(m, t, outcome), IncidentCompletedPeer(id), told), LeftUnless(told)))
    case ViolentPeer(id) =>
      if id in m.allPeers then Stepped(m.(channels := Send(m.channels, m.allPeers[id].channel, Shutdown)), None)
      else Stepped(m, None)
    case Critical(reason) => Stepped(m, Some(reason))
    case PeerReceives(c) =>
      Stepped(m.(channels := m.channels[c := m.channels[c].(queue := m.channels[c].queue[1..])]), None)
    case PeerDropsReceiver(c) => Stepped(m.(channels := DropReceiver(m.channels, c)), None)
  }

  /** The state after a sequence of events, if each was possible and the loop was left by the last one at most. */
  function Run(es: seq<Event>): Option<Stepped> {
    if es == [] then Some(Stepped(START, None))
    else
      var n := |es| - 1;
      match Run(es[..n])
      case None => None
      case Some(s) => if s.left.None? && Enabled(s.manager, es[n]) then Some(Step(s.manager, es[n])) else None
  }

  /** The peer that the event creates, and the kind of its connection. */
  function Creation(e: Event): Option<Created> {
    match e
    case OutgoingConnection(connected, c) => if connected then c else None
    case IncomingConnection(c) => c
    case _ => None
  }

  function KindOf(e: Event): TypeConnection {
    if e.OutgoingConnection? then TypeConnection.OutgoingConnection else TypeConnection.IncomingConnection
  }

  lemma CreationStep(m: Manager, e: Event)
    requires Enabled(m, e) && Creation(e).Some?
    ensures Fresh(m, Creation(e))
    ensures Step(m, e) == Stepped(Connected(m, Creation(e).value, KindOf(e)), LeftUnless(Creation(e).value.told))
  {
  }

  // ---- What holds in every reachable state ----

  /** An entry of the registry is owned by a task not joined yet that has this id and this channel. */
  ghost predicate Owned(m: Manager, id: PeerId)
    requires id in m.allPeers
  {
    exists t :: t in m.tasks && m.tasks[t] == PeerTask(id, m.allPeers[id].channel)
  }

  /** A task not joined yet has its sender registered under its id, or its only sender has been dropped. */
  predicate Covered(m: Manager, t: TaskId)
    requires t in m.tasks
  {
    var k := m.tasks[t];
    k.channel in m.channels
    && (m.channels[k.channel].senderAlive ==> k.peerid in m.allPeers && m.allPeers[k.peerid].channel == k.channel)
  }

  /** The counter counts, and a join error finds the task's id. */
  predicate Counted(m: Manager) {
    && m.peerid == 1 + |m.tasks|
    && (forall t :: t in m.tasks ==> m.tasks[t].peerid >= 1)
    && (forall t :: t in m.tasks ==> t in m.idPeers && m.idPeers[t] == m.tasks[t].peerid)
  }

  predicate OwnChannels(m: Manager) {
    forall t, u :: t in m.tasks && u in m.tasks && t != u ==> m.tasks[t].channel != m.tasks[u].channel
  }

  predicate AllCovered(m: Manager) {
    forall t :: t in m.tasks ==> Covered(m, t)
  }

  ghost predicate AllOwned(m: Manager) {
    && (forall id :: id in m.allPeers ==> Owned(m, id))
    && (forall id :: id in m.allPeers ==>
          m.allPeers[id].channel in m.channels && m.channels[m.allPeers[id].channel].senderAlive)
  }

  ghost predicate Inv(m: Manager) {
    Counted(m) && OwnChannels(m) && AllCovered(m) && AllOwned(m)
  }

  /** Changes to queues and receivers only. */
  ghost predicate SameSenders(a: map<ChannelId, Channel>, b: map<ChannelId, Channel>) {
    a.Keys == b.Keys && forall c :: c in a ==> a[c].senderAlive == b[c].senderAlive
  }

  lemma TrafficKeeps(m: Manager, channels: map<ChannelId, Channel>)
    requires Inv(m) && SameSenders(m.channels, channels)
    ensures Inv(m.(channels := channels))
  {
    var n := m.(channels := channels);
    forall t | t in n.tasks ensures Covered(n, t) { assert Covered(m, t); }
    forall id | id in n.allPeers ensures Owned(n, id) { assert Owned(m, id); }
  }

  /** No two entries hold the same channel. */
  lemma OneEntry(m: Manager, id: PeerId)
    requires Inv(m) && id in m.allPeers
    ensures m.allPeers[id].channel in m.channels
    ensures forall k :: k in m.allPeers && k != id ==> m.allPeers[k].channel != m.allPeers[id].channel
  {
    assert Owned(m, id);
    forall k | k in m.allPeers && k != id
      ensures m.allPeers[k].channel != m.allPeers[id].channel
    {
      assert Owned(m, k);
    }
  }

  lemma RemovedCovered(m: Manager, id: PeerId, t: TaskId)
    requires t in m.tasks && Covered(m, t)
    ensures Covered(Remove(m, id), t)
  {
  }

  lemma RemovedOwned(m: Manager, id: PeerId, k: PeerId)
    requires k in m.allPeers && k != id && Owned(m, k)
    ensures Owned(Remove(m, id), k)
  {
    var t :| t in m.tasks && m.tasks[t] == PeerTask(k, m.allPeers[k].channel);
    assert Remove(m, id).tasks[t] == PeerTask(k, m.allPeers[k].channel);
  }

  lemma RemoveKeeps(m: Manager, id: PeerId)
    requires Inv(m)
    ensures Inv(Remove(m, id))
  {
    hide Covered, Owned;
    var n := Remove(m, id);
    forall t | t in n.tasks ensures Covered(n, t) { RemovedCovered(m, id, t); }
    forall k | k in n.allPeers
      ensures Owned(n, k) && n.allPeers[k].channel in n.channels && n.channels[n.allPeers[k].channel].senderAlive
    {
      RemovedOwned(m, id, k);
      OneEntry(m, k);
    }
  }

  /** A spawned peer where its id is not registered. */
  function Added(m: Manager, c: Created, meta: PeerSystemMetadata): Manager {
    m.(peerid := m.peerid + 1,
       allPeers := m.allPeers[m.peerid := meta],
       tasks := m.tasks[c.task := PeerTask(m.peerid, c.channel)],
       idPeers := m.idPeers[c.task := m.peerid],
       channels := m.channels[c.channel := Channel([], true, true)])
  }

  lemma AddedCovered(m: Manager, c: Created, meta: PeerSystemMetadata, t: TaskId)
    requires Fresh(m, Some(c)) && meta.channel == c.channel && m.peerid !in m.allPeers
    requires t == c.task || (t in m.tasks && Covered(m, t))
    ensures Covered(Added(m, c, meta), t)
  {
  }

  lemma AddedOwned(m: Manager, c: Created, meta: PeerSystemMetadata, k: PeerId)
    requires Fresh(m, Some(c)) && meta.channel == c.channel
    requires k == m.peerid || (k in m.allPeers && Owned(m, k))
    ensures Owned(Added(m, c, meta), k)
  {
    var n := Added(m, c, meta);
    if k == m.peerid {
      assert n.tasks[c.task] == PeerTask(k, n.allPeers[k].channel);
    } else {
      var t :| t in m.tasks && m.tasks[t] == PeerTask(k, m.allPeers[k].channel);
      assert n.tasks[t] == PeerTask(k, n.allPeers[k].channel);
    }
  }

  lemma AddedCounted(m: Manager, c: Created, meta: PeerSystemMetadata)
    requires Counted(m) && Fresh(m, Some(c))
    ensures Counted(Added(m, c, meta))
  {
    assert Added(m, c, meta).tasks.Keys == m.tasks.Keys + {c.task};
  }

  lemma AddedOwnChannels(m: Manager, c: Created, meta: PeerSystemMetadata)
    requires OwnChannels(m) && AllCovered(m) && Fresh(m, Some(c))
    ensures OwnChannels(Added(m, c, meta))
  {
    forall t | t in m.tasks ensures m.tasks[t].channel in m.channels { assert Covered(m, t); }
  }

  lemma AddedKeeps(m: Manager, c: Created, meta: PeerSystemMetadata)
    requires Inv(m) && Fresh(m, Some(c)) && meta.channel == c.channel && m.peerid !in m.allPeers
    ensures Inv(Added(m, c, meta))
  {
    hide Covered, Owned, Counted, OwnChannels;
    var n := Added(m, c, meta);
    AddedCounted(m, c, meta);
    AddedOwnChannels(m, c, meta);
    forall t | t in n.tasks ensures Covered(n, t) { AddedCovered(m, c, meta, t); }
    forall k | k in n.allPeers ensures Owned(n, k) { AddedOwned(m, c, meta, k); }
  }

  /** Dropping an old sender and adding a new channel commute. */
  lemma DropThenAdd(channels: map<ChannelId, Channel>, previous: ChannelId, c: ChannelId)
    requires previous in channels && c !in channels
    ensures DropSender(channels[c := Channel([], true, true)], previous)
            == DropSender(channels, previous)[c := Channel([], true, true)]
    ensures DropSender(channels, previous).Keys == channels.Keys
  {
  }

  /** Spawning under an id that is registered drops the entry there first. */
  lemma SpawnedIsAdded(m: Manager, c: Created, meta: PeerSystemMetadata)
    requires Fresh(m, Some(c)) && (m.peerid in m.allPeers ==> m.allPeers[m.peerid].channel in m.channels)
    ensures Spawned(m, c, meta) == Added(Remove(m, m.peerid), c, meta)
    ensures Fresh(Remove(m, m.peerid), Some(c))
  {
    if m.peerid in m.allPeers { DropThenAdd(m.channels, m.allPeers[m.peerid].channel, c.channel); }
    hide DropSender;
    assert Spawned(m, c, meta).allPeers == Added(Remove(m, m.peerid), c, meta).allPeers;
  }

  /** An entry's channel belongs to no task with another id. */
  lemma EntryOfTask(m: Manager, id: PeerId, t: TaskId)
    requires Inv(m) && id in m.allPeers && t in m.tasks && m.tasks[t].peerid != id
    ensures m.tasks[t].channel != m.allPeers[id].channel
  {
    assert Owned(m, id);
    var u :| u in m.tasks && m.tasks[u] == PeerTask(id, m.allPeers[id].channel);
    assert u != t;
  }

  lemma EntryHasChannel(m: Manager, id: PeerId)
    requires Inv(m) && id in m.allPeers
    ensures m.allPeers[id].channel in m.channels
  {
  }

  lemma SpawnKeeps(m: Manager, c: Created, meta: PeerSystemMetadata)
    requires Inv(m) && Fresh(m, Some(c)) && meta.channel == c.channel
    ensures Inv(Spawned(m, c, meta))
  {
    hide Inv, Spawned, Added;
    RemoveKeeps(m, m.peerid);
    if m.peerid in m.allPeers { EntryHasChannel(m, m.peerid); }
    SpawnedIsAdded(m, c, meta);
    AddedKeeps(Remove(m, m.peerid), c, meta);
  }

  /** A task taken out of the join set when its id is not registered. */
  function Taken(m: Manager, t: TaskId): Manager
    requires t in m.tasks
  {
    Unjoined(m, t).(peerid := Decremented(m.peerid))
  }

  lemma TakenCounted(m: Manager, t: TaskId)
    requires Counted(m) && t in m.tasks
    ensures Counted(Taken(m, t)) && m.peerid >= 2
  {
    assert Taken(m, t).tasks.Keys == m.tasks.Keys - {t};
  }

  lemma TakenOwned(m: Manager, t: TaskId, k: PeerId)
    requires t in m.tasks && k in m.allPeers && k != m.tasks[t].peerid && Owned(m, k)
    ensures Owned(Taken(m, t), k)
  {
    var u :| u in m.tasks && m.tasks[u] == PeerTask(k, m.allPeers[k].channel);
    assert Taken(m, t).tasks[u] == PeerTask(k, m.allPeers[k].channel);
  }

  lemma TakenKeeps(m: Manager, t: TaskId)
    requires Inv(m) && t in m.tasks && m.tasks[t].peerid !in m.allPeers
    ensures Inv(Taken(m, t))
  {
    hide Owned, Counted;
    var n := Taken(m, t);
    TakenCounted(m, t);
    forall u | u in n.tasks ensures Covered(n, u) { assert Covered(m, u); }
    forall k | k in n.allPeers ensures Owned(n, k) { TakenOwned(m, t, k); }
  }

  lemma AfterJoinIsTaken(m: Manager, t: TaskId, outcome: JoinOutcome)
    requires t in m.tasks && JoinedId(m, t, outcome) == Some(m.tasks[t].peerid)
    ensures AfterJoin(m, t, outcome) == Taken(Remove(m, m.tasks[t].peerid), t)
  {
    var id := m.tasks[t].peerid;
    if id in m.allPeers {
      var c, d := m.tasks[t].channel, m.allPeers[id].channel;
      assert DropSender(DropReceiver(m.channels, c), d) == DropReceiver(DropSender(m.channels, d), c);
    }
  }

  /** Every join finds the task's own id, through the task table too, and keeps the registry in order. */
  lemma JoinKeeps(m: Manager, t: TaskId, outcome: JoinOutcome)
    requires Inv(m) && t in m.tasks
    ensures JoinedId(m, t, outcome) == Some(m.tasks[t].peerid)
    ensures Inv(AfterJoin(m, t, outcome))
    ensures m.peerid >= 2
  {
    assert JoinedId(m, t, outcome) == Some(m.tasks[t].peerid);
    TakenCounted(m, t);
    hide Inv, Taken, AfterJoin;
    RemoveKeeps(m, m.tasks[t].peerid);
    AfterJoinIsTaken(m, t, outcome);
    TakenKeeps(Remove(m, m.tasks[t].peerid), t);
  }

  lemma ConnectedKeeps(m: Manager, c: Created, kind: TypeConnection)
    requires Inv(m) && Fresh(m, Some(c))
    ensures Inv(Connected(m, c, kind))
  {
    hide Inv, Spawned;
    var meta := PeerSystemMetadata(c.context.removeAddress, kind, c.channel);
    SpawnKeeps(m, c, meta);
    TellKeeps(Spawned(m, c, meta), IncidentNewConnection(m.peerid, c.context.(typeConnect := kind)), c.told);
  }

  lemma StepKeeps(m: Manager, e: Event)
    requires Inv(m) && Enabled(m, e)
    ensures Inv(Step(m, e).manager)
  {
    hide Inv, Connected, Remove, AfterJoin, JoinedId, Tell;
    match e {
      case OutgoingConnection(_, c) => if c.Some? { ConnectedKeeps(m, c.value, KindOf(e)); }
      case IncomingConnection(c) => if c.Some? { ConnectedKeeps(m, c.value, KindOf(e)); }
      case ProtocolMessage(id, msg) =>
        if id in m.allPeers {
          RemoveKeeps(m, id);
          TrafficKeeps(m, Send(m.channels, m.allPeers[id].channel, ReadyLowMessage(msg)));
        }
      case PeerMessage(id, msg, passed) => TellKeeps(m, ReadyMessage(id, msg), passed);
      case PeerOther =>
      case Joined(t, outcome, told) =>
        JoinKeeps(m, t, outcome);
        TellKeeps(AfterJoin(m, t, outcome), IncidentCompletedPeer(JoinedId(m, t, outcome).value), told);
      case ViolentPeer(id) =>
        if id in m.allPeers { TrafficKeeps(m, Send(m.channels, m.allPeers[id].channel, Shutdown)); }
      case Critical(_) =>
      case PeerReceives(c) => TrafficKeeps(m, Step(m, e).manager.channels);
      case PeerDropsReceiver(c) => TrafficKeeps(m, DropReceiver(m.channels, c));
    }
  }

  lemma TellKeeps(m: Manager, e: EventsPeerManager, told: bool)
    requires Inv(m)
    ensures Inv(Tell(m, e, told))
  {
    var n := Tell(m, e, told);
    forall t | t in n.tasks ensures Covered(n, t) { assert Covered(m, t); }
    forall id | id in n.allPeers ensures Owned(n, id) { assert Owned(m, id); }
  }

  lemma {:induction false} RunKeeps(es: seq<Event>)
    requires Run(es).Some?
    ensures Inv(Run(es).value.manager)
    decreases |es|
  {
    if es == [] {
    } else {
      hide Inv, Step;
      var n := |es| - 1;
      RunKeeps(es[..n]);
      StepKeeps(Run(es[..n]).value.manager, es[n]);
    }
  }

  // ---- Counting ----

  /** The ids of the tasks not joined yet. */
  function Ids(tasks: map<TaskId, PeerTask>): set<PeerId> {
    set t | t in tasks :: tasks[t].peerid
  }

  lemma IdsWithout(tasks: map<TaskId, PeerTask>, t: TaskId)
    requires t in tasks
    ensures Ids(tasks) == Ids(tasks - {t}) + {tasks[t].peerid}
    ensures |tasks - {t}| == |tasks| - 1
  {
    assert (tasks - {t}).Keys == tasks.Keys - {t};
    forall id | id in Ids(tasks)
      ensures id in Ids(tasks - {t}) + {tasks[t].peerid}
    {
      var u :| u in tasks && tasks[u].peerid == id;
      if u != t { assert u in tasks - {t} && (tasks - {t})[u].peerid == id; }
    }
  }

  lemma {:induction false} IdsCount(tasks: map<TaskId, PeerTask>)
    ensures |Ids(tasks)| <= |tasks|
    decreases |tasks|
  {
    if tasks == map[] {
      assert Ids(tasks) == {};
    } else {
      var t :| t in tasks;
      IdsWithout(tasks, t);
      IdsCount(tasks - {t});
    }
  }

  lemma SubsetCount(a: set<PeerId>, b: set<PeerId>)
    requires a <= b
    ensures |a| <= |b|
    ensures |a| == |b| ==> a == b
  {
    assert b == a + (b - a);
    assert |b| == |a| + |b - a|;
  }

  /** Registered ids are ids of tasks not joined yet, so there are at most peerid - 1 of them. */
  lemma RegistryContained(m: Manager)
    requires Inv(m)
    ensures m.allPeers.Keys <= Ids(m.tasks)
    ensures |m.allPeers| <= m.peerid - 1
    ensures m.tasks == map[] ==> m.allPeers == map[] && m.peerid == 1
  {
    forall id | id in m.allPeers
      ensures id in Ids(m.tasks)
    {
      assert Owned(m, id);
      var t :| t in m.tasks && m.tasks[t] == PeerTask(id, m.allPeers[id].channel);
      assert m.tasks[t].peerid == id;
    }
    IdsCount(m.tasks);
    SubsetCount(m.allPeers.Keys, Ids(m.tasks));
    if m.tasks == map[] {
      assert Ids(m.tasks) == {};
      assert m.allPeers.Keys == {};
    }
  }

  /**
   * In every reachable state the counter is one more than the number of tasks not joined yet, the registry holds
   * only ids of such tasks and at most that many, and it is empty when there are none.
   */
  lemma CounterConservation(es: seq<Event>)
    requires Run(es).Some?
    ensures var m := Run(es).value.manager;
            && m.peerid == 1 + |m.tasks|
            && m.allPeers.Keys <= Ids(m.tasks) && |m.allPeers| <= m.peerid - 1
            && (m.tasks == map[] ==> m.allPeers == map[] && m.peerid == 1)
  {
    RunKeeps(es);
    RegistryContained(Run(es).value.manager);
  }

  // ---- What a run does, told by its events alone ----

  /** Why the event makes PeerManager leave its loop, if it does. */
  function ReasonOf(e: Event): Option<CriticalReason> {
    match e
    case Critical(reason) => Some(reason)
    case PeerMessage(_, _, passed) => if passed then None else Some(ProtocolClosed)
    case Joined(_, _, told) => if told then None else Some(ProtocolClosed)
    case _ => if Creation(e).Some? && !Creation(e).value.told then Some(ProtocolClosed) else None
  }

  lemma StepLeavesExactly(m: Manager, e: Event)
    requires Inv(m) && Enabled(m, e)
    ensures Step(m, e).left == ReasonOf(e)
  {
    if e.Joined? { JoinKeeps(m, e.task, e.outcome); }
    hide Inv;
  }

  /** The loop is left by the first event that makes it leave, for the reason that this event has. */
  lemma {:induction false} LeftExactly(es: seq<Event>)
    requires Run(es).Some?
    ensures Run(es).value.left == if es == [] then None else ReasonOf(es[|es| - 1])
    ensures forall j :: 0 <= j < |es| - 1 ==> ReasonOf(es[j]).None?
    decreases |es|
  {
    if es != [] {
      hide Step, Inv, ReasonOf;
      var n := |es| - 1;
      LeftExactly(es[..n]);
      RunKeeps(es[..n]);
      StepLeavesExactly(Run(es[..n]).value.manager, es[n]);
      forall j | 0 <= j < n ensures ReasonOf(es[j]).None? { assert es[..n][j] == es[j]; }
    }
  }

  /** The tasks not joined yet: each created one, with one more than their number for an id, until it is joined. */
  function Live(es: seq<Event>): map<TaskId, PeerTask> {
    if es == [] then map[]
    else
      var init, e := Live(es[..|es| - 1]), es[|es| - 1];
      if Creation(e).Some? then init[Creation(e).value.task := PeerTask(1 + |init|, Creation(e).value.channel)]
      else if e.Joined? then init - {e.task}
      else init
  }

  lemma TasksAfterJoin(m: Manager, e: Event)
    requires Inv(m) && Enabled(m, e) && e.Joined?
    ensures Step(m, e).manager.tasks == m.tasks - {e.task}
  {
    JoinKeeps(m, e.task, e.outcome);
    AfterJoinIsTaken(m, e.task, e.outcome);
    hide Inv, JoinedId;
  }

  lemma TasksAfterCreation(m: Manager, e: Event)
    requires Enabled(m, e) && Creation(e).Some?
    ensures Step(m, e).manager.tasks == m.tasks[Creation(e).value.task := PeerTask(m.peerid, Creation(e).value.channel)]
  {
    CreationStep(m, e);
    hide Step;
  }

  lemma TasksOtherwise(m: Manager, e: Event)
    requires Enabled(m, e) && Creation(e).None? && !e.Joined?
    ensures Step(m, e).manager.tasks == m.tasks
  {
  }

  lemma TasksStep(m: Manager, e: Event)
    requires Inv(m) && Enabled(m, e)
    ensures Step(m, e).manager.tasks
            == if Creation(e).Some? then
                 m.tasks[Creation(e).value.task := PeerTask(m.peerid, Creation(e).value.channel)]
               else if e.Joined? then m.tasks - {e.task}
               else m.tasks
  {
    hide Inv, Step, Creation;
    if Creation(e).Some? {
      TasksAfterCreation(m, e);
    } else if e.Joined? {
      TasksAfterJoin(m, e);
    } else {
      TasksOtherwise(m, e);
    }
  }

  /** Over every run the tasks, their ids and the counter are what the creations and joins alone say. */
  lemma {:induction false} TasksExactly(es: seq<Event>)
    requires Run(es).Some?
    ensures Run(es).value.manager.tasks == Live(es)
    ensures Run(es).value.manager.peerid == 1 + |Live(es)|
    decreases |es|
  {
    CounterConservation(es);
    if es != [] {
      hide Step, Inv, Creation;
      var n := |es| - 1;
      TasksExactly(es[..n]);
      RunKeeps(es[..n]);
      TasksStep(Run(es[..n]).value.manager, es[n]);
    }
  }

  // ---- Mass disconnection ----

  predicate Registered(m: Manager, c: ChannelId) {
    exists id :: id in m.allPeers && m.allPeers[id].channel == c
  }

  /** A Shutdown is sent to every registered peer; a send to a dropped receiver is lost. */
  function BulkDisconnected(m: Manager): Manager {
    m.(channels := map c | c in m.channels ::
         if Registered(m, c) && m.channels[c].receiverAlive
         then m.channels[c].(queue := m.channels[c].queue + [Shutdown]) else m.channels[c])
  }

  /** Shutdown will reach the task, or its channel has lost its sender, or the task no longer receives. */
  predicate ToldToStop(m: Manager, t: TaskId)
    requires t in m.tasks && m.tasks[t].channel in m.channels
  {
    var c := m.channels[m.tasks[t].channel];
    Shutdown in c.queue || !c.senderAlive || !c.receiverAlive
  }

  /** Every task not joined yet has been told to stop. */
  predicate AllTold(m: Manager) {
    forall t :: t in m.tasks ==> m.tasks[t].channel in m.channels && ToldToStop(m, t)
  }

  predicate SameQueues(a: map<ChannelId, Channel>, b: map<ChannelId, Channel>) {
    a.Keys == b.Keys && forall c :: c in a ==> a[c].queue == b[c].queue
  }

  /** Joining takes nothing out of the channels. */
  lemma JoinKeepsQueues(m: Manager, t: TaskId, outcome: JoinOutcome)
    requires t in m.tasks
    ensures SameQueues(m.channels, AfterJoin(m, t, outcome).channels)
  {
  }

  /** A task that could be reached has a Shutdown queued once the mass disconnection is done. */
  predicate ShutdownQueued(before: Manager, after: map<ChannelId, Channel>) {
    forall t :: t in before.tasks ==>
      var c := before.tasks[t].channel;
      c in before.channels
      && (before.channels[c].senderAlive && before.channels[c].receiverAlive ==>
            c in after && Shutdown in after[c].queue)
  }

  lemma BulkQueues(m: Manager, after: map<ChannelId, Channel>)
    requires Inv(m) && SameQueues(BulkDisconnected(m).channels, after)
    ensures ShutdownQueued(m, after)
  {
    hide Inv;
    forall t | t in m.tasks
      ensures var c := m.tasks[t].channel;
              c in m.channels
              && (m.channels[c].senderAlive && m.channels[c].receiverAlive ==> c in after && Shutdown in after[c].queue)
    {
      TaskIsCovered(m, t);
      var c := m.tasks[t].channel;
      if m.channels[c].senderAlive && m.channels[c].receiverAlive {
        assert Registered(m, c);
        assert BulkDisconnected(m).channels[c].queue[|m.channels[c].queue|] == Shutdown;
      }
    }
  }

  /**
   * If the task still receives, then, whatever its relay loop has been through, in whatever order it takes what is
   * there for it, its loop has ended then.
   */
  ghost predicate WillEnd(m: Manager, t: TaskId)
    requires t in m.tasks && m.tasks[t].channel in m.channels
  {
    var c := m.channels[m.tasks[t].channel];
    c.receiverAlive ==>
      forall before, es :: Peer.TakesAll(es, c.queue, c.senderAlive) ==> !Peer.PeerLoopRun(before + es).end.Running?
  }

  lemma ToldWillEnd(m: Manager, t: TaskId)
    requires t in m.tasks && m.tasks[t].channel in m.channels && ToldToStop(m, t)
    ensures WillEnd(m, t)
  {
    var c := m.channels[m.tasks[t].channel];
    if c.receiverAlive {
      forall before, es | Peer.TakesAll(es, c.queue, c.senderAlive)
        ensures !Peer.PeerLoopRun(before + es).end.Running?
      {
        Peer.TakingAllEnds(before, es, c.queue, c.senderAlive);
      }
    }
  }

  lemma BulkTells(m: Manager, t: TaskId)
    requires t in m.tasks && Covered(m, t)
    ensures var n := BulkDisconnected(m);
            n.tasks[t].channel in n.channels && ToldToStop(n, t) && WillEnd(n, t)
  {
    var n := BulkDisconnected(m);
    var before, c := m.channels[m.tasks[t].channel], n.channels[n.tasks[t].channel];
    if c.senderAlive && c.receiverAlive {
      assert Registered(m, m.tasks[t].channel);
      assert c.queue == before.queue + [Shutdown];
      assert c.queue[|before.queue|] == Shutdown;
    }
    ToldWillEnd(n, t);
  }

  lemma TaskIsCovered(m: Manager, t: TaskId)
    requires Inv(m) && t in m.tasks
    ensures Covered(m, t)
  {
  }

  /**
   * After the mass disconnection every task not joined yet, evicted or not, has been told to stop: what is there for it
   * to receive ends its relay loop. Nothing is sent to a peer that is not registered.
   */
  lemma EveryPeerIsToldToStop(m: Manager)
    requires Inv(m)
    ensures var n := BulkDisconnected(m);
            && Inv(n)
            && (forall t :: t in n.tasks ==> n.tasks[t].channel in n.channels && ToldToStop(n, t) && WillEnd(n, t))
    ensures forall c :: c in m.channels && (forall id :: id in m.allPeers ==> m.allPeers[id].channel != c) ==>
              c in BulkDisconnected(m).channels && BulkDisconnected(m).channels[c] == m.channels[c]
  {
    var n := BulkDisconnected(m);
    TrafficKeeps(m, n.channels);
    hide Inv;
    forall t | t in n.tasks
      ensures n.tasks[t].channel in n.channels && ToldToStop(n, t) && WillEnd(n, t)
    {
      TaskIsCovered(m, t);
      BulkTells(m, t);
    }
  }

  /**
   * A report of misbehaviour stops every task not joined yet that has the reported id: the registered one is sent
   * a Shutdown, and one that was evicted, or whose entry was removed, has lost its sender.
   */
  lemma ReportedPeerIsToldToStop(m: Manager, id: PeerId, t: TaskId)
    requires Inv(m) && t in m.tasks && m.tasks[t].peerid == id
    ensures var n := Step(m, ViolentPeer(id)).manager;
            n.tasks[t].channel in n.channels && ToldToStop(n, t) && WillEnd(n, t)
  {
    TaskIsCovered(m, t);
    hide Inv;
    var n := Step(m, ViolentPeer(id)).manager;
    var before, c := m.channels[m.tasks[t].channel], n.channels[n.tasks[t].channel];
    if c.senderAlive && c.receiverAlive {
      assert c.queue == before.queue + [Shutdown];
      assert c.queue[|before.queue|] == Shutdown;
    }
    ToldWillEnd(n, t);
  }

  // ---- Which ids are given out ----

  function Range(n: nat): (r: set<nat>)
    ensures forall i :: i in r <==> 1 <= i < n
    decreases n
  {
    if n <= 1 then {} else Range(n - 1) + {n - 1}
  }

  /** The ids in use are exactly those below the counter. */
  predicate Dense(m: Manager) {
    Ids(m.tasks) == Range(m.peerid)
  }

  lemma {:induction false} RangeCount(n: nat)
    requires n >= 1
    ensures |Range(n)| == n - 1
    decreases n
  {
    if n == 1 {
      assert Range(1) == {};
    } else {
      RangeCount(n - 1);
      assert Range(n) == Range(n - 1) + {n - 1};
    }
  }

  lemma {:induction false} DistinctIds(tasks: map<TaskId, PeerTask>, t: TaskId, u: TaskId)
    requires |Ids(tasks)| == |tasks| && t in tasks && u in tasks && t != u
    ensures tasks[t].peerid != tasks[u].peerid
  {
    IdsWithout(tasks, t);
    IdsCount(tasks - {t});
    var rest := Ids(tasks - {t});
    assert (tasks - {t})[u] == tasks[u];
    assert tasks[u].peerid in rest;
    assert rest + {tasks[u].peerid} == rest;
  }

  lemma DenseDistinct(m: Manager)
    requires Inv(m) && Dense(m)
    ensures |Ids(m.tasks)| == |m.tasks|
    ensures forall t, u :: t in m.tasks && u in m.tasks && t != u ==> m.tasks[t].peerid != m.tasks[u].peerid
  {
    RangeCount(m.peerid);
    forall t, u | t in m.tasks && u in m.tasks && t != u
      ensures m.tasks[t].peerid != m.tasks[u].peerid
    {
      DistinctIds(m.tasks, t, u);
    }
  }

  lemma RangeWithout(n: nat, id: nat)
    requires id in Range(n)
    ensures n > 0 && (Range(n) - {id} == Range(n - 1) <==> id == n - 1)
  {
    assert n - 1 in Range(n) && n - 1 !in Range(n - 1);
  }

  lemma DistinctWithout(tasks: map<TaskId, PeerTask>, t: TaskId)
    requires t in tasks && |Ids(tasks)| == |tasks|
    ensures Ids(tasks - {t}) == Ids(tasks) - {tasks[t].peerid}
  {
    IdsWithout(tasks, t);
    forall u | u in tasks - {t} ensures (tasks - {t})[u].peerid != tasks[t].peerid {
      DistinctIds(tasks, t, u);
    }
  }

  /** Joining keeps the ids dense exactly when the joined peer is the one created last. */
  lemma DenseJoin(m: Manager, t: TaskId, outcome: JoinOutcome)
    requires Inv(m) && Dense(m) && t in m.tasks
    ensures Dense(AfterJoin(m, t, outcome)) <==> m.tasks[t].peerid == m.peerid - 1
  {
    JoinKeeps(m, t, outcome);
    DenseDistinct(m);
    AfterJoinIsTaken(m, t, outcome);
    hide Inv, AfterJoin, Range;
    DistinctWithout(m.tasks, t);
    assert m.tasks[t].peerid in Ids(m.tasks);
    RangeWithout(m.peerid, m.tasks[t].peerid);
  }

  lemma DenseSpawn(m: Manager, c: Created, meta: PeerSystemMetadata)
    requires Inv(m) && Dense(m) && Fresh(m, Some(c))
    ensures Dense(Spawned(m, c, meta))
  {
    var n := Spawned(m, c, meta);
    assert n.tasks - {c.task} == m.tasks;
    IdsWithout(n.tasks, c.task);
    assert Range(n.peerid) == Range(m.peerid) + {m.peerid};
  }

  /** The event joins, if any, the peer created last. */
  predicate InStackOrder(m: Manager, e: Event)
    requires Enabled(m, e)
  {
    e.Joined? ==> m.tasks[e.task].peerid == m.peerid - 1
  }

  lemma DenseStep(m: Manager, e: Event)
    requires Inv(m) && Dense(m) && Enabled(m, e)
    ensures Dense(Step(m, e).manager) <==> InStackOrder(m, e)
  {
    hide Inv;
    match e {
      case OutgoingConnection(_, c) =>
        if c.Some? {
          DenseSpawn(m, c.value, PeerSystemMetadata(c.value.context.removeAddress, KindOf(e), c.value.channel));
        }
      case IncomingConnection(c) =>
        if c.Some? {
          DenseSpawn(m, c.value, PeerSystemMetadata(c.value.context.removeAddress, KindOf(e), c.value.channel));
        }
      case Joined(t, outcome, _) =>
        JoinKeeps(m, t, outcome);
        DenseJoin(m, t, outcome);
      case _ =>
    }
  }

  /** Every state of the run, up to its end, has dense ids. */
  predicate AlwaysDense(es: seq<Event>)
    requires Run(es).Some?
  {
    Dense(Run(es).value.manager) && (es != [] ==> AlwaysDense(es[..|es| - 1]))
  }

  predicate StackRun(es: seq<Event>)
    requires Run(es).Some?
  {
    es != [] ==> var n := |es| - 1; StackRun(es[..n]) && InStackOrder(Run(es[..n]).value.manager, es[n])
  }

  /**
   * The ids in use are distinct and exactly those below the counter, all through a run, if and only if every peer
   * that is joined is the one created last among those not joined yet.
   */
  lemma {:induction false} DenseIffStack(es: seq<Event>)
    requires Run(es).Some?
    ensures AlwaysDense(es) <==> StackRun(es)
    decreases |es|
  {
    if es == [] {
      assert Ids(START.tasks) == {} == Range(1);
    } else {
      hide Inv, Step, Dense;
      var n := |es| - 1;
      DenseIffStack(es[..n]);
      RunKeeps(es[..n]);
      if AlwaysDense(es[..n]) {
        AlwaysDenseNow(es[..n]);
        DenseStep(Run(es[..n]).value.manager, es[n]);
      }
    }
  }

  lemma AlwaysDenseNow(es: seq<Event>)
    requires Run(es).Some? && AlwaysDense(es)
    ensures Dense(Run(es).value.manager)
  {
  }

  /** No two tasks not joined yet have the same id. */
  predicate Distinct(m: Manager) {
    forall t, u :: t in m.tasks && u in m.tasks && t != u ==> m.tasks[t].peerid != m.tasks[u].peerid
  }

  /** The event creates, if any, a peer whose id no task has. */
  predicate UnusedId(m: Manager, e: Event) {
    Creation(e).Some? ==> m.peerid !in Ids(m.tasks)
  }

  lemma DistinctCreation(m: Manager, e: Event)
    requires Distinct(m) && Enabled(m, e) && Creation(e).Some?
    ensures Distinct(Step(m, e).manager) <==> m.peerid !in Ids(m.tasks)
  {
    CreationStep(m, e);
    var n, c := Step(m, e).manager, Creation(e).value;
    assert n.tasks == m.tasks[c.task := PeerTask(m.peerid, c.channel)];
    hide Step;
    if m.peerid in Ids(m.tasks) {
      var u :| u in m.tasks && m.tasks[u].peerid == m.peerid;
      assert u != c.task && n.tasks[u].peerid == n.tasks[c.task].peerid;
    }
  }

  /** An event that creates no peer adds no task. */
  lemma OthersAddNoTask(m: Manager, e: Event)
    requires Enabled(m, e) && Creation(e).None?
    ensures forall t :: t in Step(m, e).manager.tasks ==> t in m.tasks && Step(m, e).manager.tasks[t] == m.tasks[t]
  {
  }

  /** Every state of the run has distinct ids. */
  predicate AlwaysDistinct(es: seq<Event>)
    requires Run(es).Some?
  {
    Distinct(Run(es).value.manager) && (es != [] ==> AlwaysDistinct(es[..|es| - 1]))
  }

  /** No connection of the run is given an id that a task not joined yet has. */
  predicate UnusedIds(es: seq<Event>)
    requires Run(es).Some?
  {
    es != [] ==> var n := |es| - 1; UnusedIds(es[..n]) && UnusedId(Run(es[..n]).value.manager, es[n])
  }

  /**
   * Ids are distinct all through a run if and only if the counter never stands at an id in use when a peer is
   * created.
   */
  lemma {:induction false} DistinctIffUnused(es: seq<Event>)
    requires Run(es).Some?
    ensures AlwaysDistinct(es) <==> UnusedIds(es)
    decreases |es|
  {
    if es == [] {
    } else {
      hide Step, Distinct, Ids, Creation;
      var n := |es| - 1;
      DistinctIffUnused(es[..n]);
      if AlwaysDistinct(es[..n]) {
        DistinctStep(es[..n], es[n]);
      }
    }
  }

  lemma DistinctStep(es: seq<Event>, e: Event)
    requires Run(es).Some? && AlwaysDistinct(es) && Enabled(Run(es).value.manager, e)
    ensures var m := Run(es).value.manager; Distinct(Step(m, e).manager) <==> UnusedId(m, e)
  {
    var m := Run(es).value.manager;
    if Creation(e).Some? { DistinctCreation(m, e); } else { OthersAddNoTask(m, e); }
    hide Step, Run, Ids;
  }

  /** Stack order is enough for that. */
  lemma {:induction false} StackRunIsDistinct(es: seq<Event>)
    requires Run(es).Some? && StackRun(es)
    ensures AlwaysDistinct(es)
    decreases |es|
  {
    DenseIffStack(es);
    RunKeeps(es);
    AlwaysDenseNow(es);
    DenseDistinct(Run(es).value.manager);
    if es != [] {
      hide Inv, Step, Dense;
      StackRunIsDistinct(es[..|es| - 1]);
    }
  }

  /**
   * Out of that order an id is given out twice: after joining a peer that is not the last one, the next connection
   * gets the id of the last one, which is still there, and replaces its entry; its sender is gone.
   */
  lemma ReusedIdEvicts(m: Manager, t: TaskId, outcome: JoinOutcome, u: TaskId, c: Created, meta: PeerSystemMetadata)
    requires Inv(m) && Dense(m) && t in m.tasks && u in m.tasks
    requires m.tasks[u].peerid == m.peerid - 1 && t != u
    requires Fresh(AfterJoin(m, t, outcome), Some(c)) && meta.channel == c.channel
    ensures var n := Spawned(AfterJoin(m, t, outcome), c, meta);
            && u in n.tasks && n.tasks[u].peerid == n.tasks[c.task].peerid
            && n.tasks[u].channel in n.channels && !n.channels[n.tasks[u].channel].senderAlive
  {
    JoinKeeps(m, t, outcome);
    var j := AfterJoin(m, t, outcome);
    var n := Spawned(j, c, meta);
    assert u in j.tasks && j.tasks[u] == m.tasks[u];
    assert Covered(j, u);
    SpawnKeeps(j, c, meta);
    assert Covered(n, u);
  }

  /** A new peer takes the sender from exactly those tasks that have the id it is given. */
  lemma CreationEvictsExactly(m: Manager, e: Event, u: TaskId)
    requires Inv(m) && Enabled(m, e) && Creation(e).Some?
    requires u in m.tasks && m.tasks[u].channel in m.channels && m.channels[m.tasks[u].channel].senderAlive
    ensures var n, c := Step(m, e).manager, m.tasks[u].channel;
            u in n.tasks && n.tasks[u] == m.tasks[u] && c in n.channels
            && (n.channels[c].senderAlive <==> m.tasks[u].peerid != m.peerid)
  {
    CreationStep(m, e);
    TaskIsCovered(m, u);
    if m.peerid in m.allPeers && m.tasks[u].peerid != m.peerid { EntryOfTask(m, m.peerid, u); }
    hide Inv, Step;
  }

  lemma IncomingEffect(m: Manager, c: Created)
    requires Fresh(m, Some(c)) && c.told
    ensures var s := Step(m, Event.IncomingConnection(Some(c)));
            && s.left.None? && s.manager.peerid == m.peerid + 1
            && s.manager.tasks == m.tasks[c.task := PeerTask(m.peerid, c.channel)]
            && s.manager.channels.Keys == m.channels.Keys + {c.channel}
            && var context := c.context.(typeConnect := TypeConnection.IncomingConnection);
               s.manager.toProtocol == m.toProtocol + [IncidentNewConnection(m.peerid, context)]
  {
  }

  lemma JoinedEffect(m: Manager, t: TaskId)
    requires t in m.tasks
    ensures var s := Step(m, Joined(t, PeerError, true));
            && s.left.None? && s.manager.peerid == Decremented(m.peerid)
            && s.manager.tasks == m.tasks - {t} && s.manager.channels.Keys == m.channels.Keys
            && s.manager.toProtocol == m.toProtocol + [IncidentCompletedPeer(m.tasks[t].peerid)]
  {
  }

  lemma RunMore(es: seq<Event>, e: Event)
    requires Run(es).Some? && Run(es).value.left.None? && Enabled(Run(es).value.manager, e)
    ensures Run(es + [e]) == Some(Step(Run(es).value.manager, e))
  {
    assert (es + [e])[..|es|] == es;
  }

  /** But it is not needed: two connections, then the first peer is joined, then the second one. */
  lemma DistinctOffStack(c: ConnectionContext) returns (es: seq<Event>)
    ensures Run(es).Some? && AlwaysDistinct(es) && !StackRun(es)
  {
    hide Step;
    var c0, c1 := Created(0, 0, c, true), Created(1, 1, c, true);
    var first, second := Event.IncomingConnection(Some(c0)), Event.IncomingConnection(Some(c1));
    var zero: seq<Event> := [];
    assert Run(zero) == Some(Stepped(START, None)) && UnusedIds(zero);
    IncomingEffect(START, c0);
    RunMore(zero, first);
    var one := zero + [first];
    assert one[..0] == zero && UnusedIds(one);
    IncomingEffect(Run(one).value.manager, c1);
    RunMore(one, second);
    var two := one + [second];
    var m := Run(two).value.manager;
    assert m.tasks == map[0 := PeerTask(1, 0), 1 := PeerTask(2, 1)];
    assert two[..1] == one && UnusedIds(two);
    JoinedEffect(m, 0);
    RunMore(two, Joined(0, PeerError, true));
    var three := two + [Joined(0, PeerError, true)];
    assert three[..2] == two && UnusedIds(three) && !InStackOrder(m, three[2]);
    JoinedEffect(Run(three).value.manager, 1);
    RunMore(three, Joined(1, PeerError, true));
    es := three + [Joined(1, PeerError, true)];
    assert es[..3] == three && UnusedIds(es);
    DistinctIffUnused(es);
  }

  /** Such a run: two connections, the first peer is joined, and a third connection shares the second one's id. */
  lemma ReuseWitness(c: ConnectionContext) returns (es: seq<Event>)
    ensures Run(es).Some? && Run(es).value.manager.tasks == map[1 := PeerTask(2, 1), 2 := PeerTask(2, 2)]
    ensures !StackRun(es)
  {
    hide Step;
    var c0, c1, c2 := Created(0, 0, c, true), Created(1, 1, c, true), Created(2, 2, c, true);
    es := [];
    assert Run(es) == Some(Stepped(START, None));
    IncomingEffect(START, c0);
    RunMore(es, Event.IncomingConnection(Some(c0)));
    es := es + [Event.IncomingConnection(Some(c0))];
    IncomingEffect(Run(es).value.manager, c1);
    RunMore(es, Event.IncomingConnection(Some(c1)));
    es := es + [Event.IncomingConnection(Some(c1))];
    var two, m := es, Run(es).value.manager;
    JoinedEffect(m, 0);
    RunMore(es, Joined(0, PeerError, true));
    es := es + [Joined(0, PeerError, true)];
    var three := es;
    assert three[..2] == two && !InStackOrder(m, three[2]);
    assert !StackRun(three);
    IncomingEffect(Run(es).value.manager, c2);
    RunMore(es, Event.IncomingConnection(Some(c2)));
    es := es + [Event.IncomingConnection(Some(c2))];
    assert es[..3] == three;
  }
}
