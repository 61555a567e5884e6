/** PeerManager as the source has it: a counter, tables and a join set, changed step by step, and drained at the end. */
module PeerManager {
  import opened Wire
  import opened Wrappers
  import opened Events
  import opened Registry

  class PeerManager {
    var peerid: nat
    var setAllPeers: map<PeerId, PeerSystemMetadata>
    var setTaskPeers: map<TaskId, PeerTask>
    var setIdPeers: map<TaskId, PeerId>

    // The channels to the peers and to HandleMessage, as tokio keeps them.
    var channels: map<ChannelId, Channel>
    var toProtocol: seq<EventsPeerManager>

    function View(): Manager
      reads this
    {
      Manager(peerid, setAllPeers, setTaskPeers, setIdPeers, channels, toProtocol)
    }

    constructor Create()
      ensures View() == START
    {
      peerid := 1;
      setAllPeers, setTaskPeers, setIdPeers, channels, toProtocol := map[], map[], map[], map[], [];
    }

    /** Removing or replacing an entry drops the sender in it. */
    method DropEntry(id: PeerId)
      modifies this`channels
      ensures channels == if id in setAllPeers then DropSender(old(channels), setAllPeers[id].channel)
                          else old(channels)
    {
      if id in setAllPeers {
        channels := DropSender(channels, setAllPeers[id].channel);
      }
    }

    method SendToProtocol(event: EventsPeerManager, told: bool) returns (left: Option<CriticalReason>)
      modifies this`toProtocol
      ensures View() == Tell(old(View()), event, told) && left == LeftUnless(told)
    {
      if !told { return Some(ProtocolClosed); }
      toProtocol := toProtocol + [event];
      left := None;
    }

    /** A connection of either kind; a peer that cannot be created gives its id back. */
    method OnConnection(kind: TypeConnection, created: Option<Created>) returns (left: Option<CriticalReason>)
      requires Fresh(View(), created)
      modifies this
      ensures View() == if created.None? then old(View()) else Connected(old(View()), created.value, kind)
      ensures left == if created.None? then None else LeftUnless(created.value.told)
    {
      var newPeerid := peerid;
      peerid := peerid + 1;
      match created {
        case None =>
          peerid := Decremented(peerid);
          left := None;
        case Some(c) =>
          channels := channels[c.channel := Channel([], true, true)];
          setTaskPeers := setTaskPeers[c.task := PeerTask(newPeerid, c.channel)];
          DropEntry(newPeerid);
          setAllPeers := setAllPeers[newPeerid := PeerSystemMetadata(c.context.removeAddress, kind, c.channel)];
          setIdPeers := setIdPeers[c.task := newPeerid];
          left := SendToProtocol(IncidentNewConnection(newPeerid, c.context.(typeConnect := kind)), c.told);
      }
    }

    /** A message for a peer; when the peer no longer receives, its entry is removed. */
    method OnProtocolMessage(id: PeerId, message: MessagePayload)
      modifies this
      ensures View() == Step(old(View()), ProtocolMessage(id, message)).manager
    {
      if id in setAllPeers {
        var channel := setAllPeers[id].channel;
        if CanSend(channels, channel) {
          channels := Send(channels, channel, ReadyLowMessage(message));
        } else {
          DropEntry(id);
          setAllPeers := setAllPeers - {id};
        }
      }
    }

    /** What every arm does for a finished task: its entry goes, and the counter goes down. */
    method Book(id: PeerId)
      modifies this
      ensures View() == Booked(old(View()), id)
    {
      DropEntry(id);
      setAllPeers := setAllPeers - {id};
      peerid := Decremented(peerid);
    }

    /** The join set hands over a finished task: its own result names the id, a join error only the task. */
    method TakeResult(task: TaskId, outcome: JoinOutcome) returns (booked: Option<PeerId>)
      requires task in setTaskPeers
      modifies this
      ensures View() == AfterJoin(old(View()), task, outcome)
      ensures booked == JoinedId(old(View()), task, outcome)
    {
      var finished := setTaskPeers[task];
      setTaskPeers := setTaskPeers - {task};
      channels := DropReceiver(channels, finished.channel);
      match outcome {
        case SuccessfulTaskReadTaskWrite => Book(finished.peerid); booked := Some(finished.peerid);
        case SuccessfulBrokenPipe => Book(finished.peerid); booked := Some(finished.peerid);
        case PeerError => Book(finished.peerid); booked := Some(finished.peerid);
        case JoinError =>
          if task in setIdPeers {
            booked := Some(setIdPeers[task]);
            Book(setIdPeers[task]);
          } else {
            booked := None;
          }
      }
    }

    method OnEvent(event: Event) returns (left: Option<CriticalReason>)
      requires Enabled(View(), event)
      modifies this
      ensures Stepped(View(), left) == Step(old(View()), event)
    {
      left := None;
      match event {
        case OutgoingConnection(connected, created) =>
          if connected { left := OnConnection(TypeConnection.OutgoingConnection, created); }
        case IncomingConnection(created) =>
          left := OnConnection(TypeConnection.IncomingConnection, created);
        case ProtocolMessage(id, message) =>
          OnProtocolMessage(id, message);
        case PeerMessage(id, message, passed) =>
          left := SendToProtocol(ReadyMessage(id, message), passed);
        case PeerOther =>
        case Joined(task, outcome, told) =>
          var booked := TakeResult(task, outcome);
          if booked.Some? { left := SendToProtocol(IncidentCompletedPeer(booked.value), told); }
        case ViolentPeer(id) =>
          if id in setAllPeers { channels := Send(channels, setAllPeers[id].channel, Shutdown); }
        case Critical(reason) =>
          left := Some(reason);
        case PeerReceives(c) =>
          channels := channels[c := channels[c].(queue := channels[c].queue[1..])];
        case PeerDropsReceiver(c) =>
          channels := DropReceiver(channels, c);
      }
    }

    /** A Shutdown to every registered peer, in any order. */
    method BulkPeerDisconnection()
      requires Inv(View())
      modifies this`channels
      ensures View() == BulkDisconnected(old(View()))
    {
      hide Inv, BulkDisconnected, Told;
      ghost var before := View();
      var remaining := setAllPeers.Keys;
      ToldNone(before);
      assert setAllPeers.Keys - remaining == {};
      while remaining != {}
        invariant remaining <= setAllPeers.Keys
        invariant channels == Told(before, setAllPeers.Keys - remaining)
        decreases remaining
      {
        var id :| id in remaining;
        TellOne(before, setAllPeers.Keys - remaining, id);
        channels := Send(channels, setAllPeers[id].channel, Shutdown);
        assert setAllPeers.Keys - (remaining - {id}) == setAllPeers.Keys - remaining + {id};
        remaining := remaining - {id};
      }
      assert setAllPeers.Keys - {} == setAllPeers.Keys;
      ToldAll(before);
    }

    /** The drain: finished tasks are joined in whatever order they come, with whatever results. */
    method Drain()
      requires Inv(View()) && AllTold(View())
      modifies this
      ensures Inv(View()) && SameQueues(old(channels), channels)
      ensures peerid == 1 && setAllPeers == map[] && setTaskPeers == map[]
    {
      while setTaskPeers != map[]
        invariant Inv(View())
        invariant peerid == 1 + |setTaskPeers|
        invariant SameQueues(old(channels), channels)
        decreases |setTaskPeers|
      {
        var task :| task in setTaskPeers;
        var outcome: JoinOutcome := *;
        JoinKeeps(View(), task, outcome);
        JoinKeepsQueues(View(), task, outcome);
        ghost var before := View();
        var booked := TakeResult(task, outcome);
        assert setTaskPeers.Keys == before.tasks.Keys - {task};
      }
      RegistryContained(View());
    }

    /**
     * The source's loop on events in the order in which they happen, then the mass disconnection and the drain.
     * Whatever ends the loop, every peer that could be reached has been sent a Shutdown, the counter is back at 1 and
     * nothing is registered any more.
     */
    method Run(events: seq<Event>) returns (left: Option<CriticalReason>)
      requires View() == START && Registry.Run(events).Some?
      modifies this
      ensures left == Registry.Run(events).value.left
      ensures left.None? ==> View() == Registry.Run(events).value.manager
      ensures left.Some? ==> peerid == 1 && setAllPeers == map[] && setTaskPeers == map[]
      ensures left.Some? ==> SameQueues(BulkDisconnected(Registry.Run(events).value.manager).channels, channels)
      ensures left.Some? ==> ShutdownQueued(Registry.Run(events).value.manager, channels)
    {
      hide Step, Inv, BulkDisconnected, ShutdownQueued, WillEnd;
      left := None;
      var i := 0;
      while i < |events|
        invariant i <= |events|
        invariant Registry.Run(events[..i]) == Some(Stepped(View(), left))
        invariant left.Some? ==> i == |events|
      {
        RunBefore(events, i + 1);
        assert events[..i + 1][..i] == events[..i];
        left := OnEvent(events[i]);
        i := i + 1;
        if left.Some? {
          LeftIsLast(events, i);
        }
      }
      assert events[..i] == events;
      if left.Some? {
        RunKeeps(events);
        EveryPeerIsToldToStop(View());
        BulkPeerDisconnection();
        Drain();
        BulkQueues(Registry.Run(events).value.manager, channels);
      }
    }
  }

  /** The channels once the entries in done have been sent their Shutdown. */
  ghost function Told(m: Manager, done: set<PeerId>): map<ChannelId, Channel> {
    map c | c in m.channels ::
      if m.channels[c].receiverAlive && HoldsOneOf(m, done, c)
      then m.channels[c].(queue := m.channels[c].queue + [Shutdown]) else m.channels[c]
  }

  ghost predicate HoldsOneOf(m: Manager, done: set<PeerId>, c: ChannelId) {
    exists id :: id in done && id in m.allPeers && m.allPeers[id].channel == c
  }

  lemma HoldsOneMore(m: Manager, done: set<PeerId>, id: PeerId)
    requires Inv(m) && id in m.allPeers && id !in done
    ensures m.allPeers[id].channel in m.channels && !HoldsOneOf(m, done, m.allPeers[id].channel)
    ensures forall c :: HoldsOneOf(m, done + {id}, c) <==> HoldsOneOf(m, done, c) || c == m.allPeers[id].channel
  {
    OneEntry(m, id);
    forall c
      ensures HoldsOneOf(m, done + {id}, c) <==> HoldsOneOf(m, done, c) || c == m.allPeers[id].channel
    {
      assert id in done + {id};
      if HoldsOneOf(m, done, c) {
        var k :| k in done && k in m.allPeers && m.allPeers[k].channel == c;
        assert k in done + {id};
      }
    }
  }

  lemma TellOne(m: Manager, done: set<PeerId>, id: PeerId)
    requires Inv(m) && id in m.allPeers && id !in done
    ensures Send(Told(m, done), m.allPeers[id].channel, Shutdown) == Told(m, done + {id})
  {
    hide Inv, HoldsOneOf;
    HoldsOneMore(m, done, id);
    var c := m.allPeers[id].channel;
    assert Told(m, done)[c] == m.channels[c];
    assert Send(Told(m, done), c, Shutdown).Keys == Told(m, done + {id}).Keys;
  }

  lemma ToldAll(m: Manager)
    ensures BulkDisconnected(m) == m.(channels := Told(m, m.allPeers.Keys))
  {
    forall c | c in m.channels
      ensures HoldsOneOf(m, m.allPeers.Keys, c) == Registered(m, c)
    {
    }
  }

  lemma ToldNone(m: Manager)
    ensures Told(m, {}) == m.channels
  {
  }

  lemma {:induction false} RunBefore(es: seq<Event>, n: nat)
    requires Registry.Run(es).Some? && n <= |es|
    ensures Registry.Run(es[..n]).Some?
    ensures n > 0 ==> Registry.Run(es[..n - 1]).Some? && Registry.Run(es[..n - 1]).value.left.None?
                      && Enabled(Registry.Run(es[..n - 1]).value.manager, es[n - 1])
    decreases |es|
  {
    if n == |es| {
      assert es[..n] == es;
    } else {
      var init := es[..|es| - 1];
      assert init[..n] == es[..n];
      if n > 0 { assert init[..n - 1] == es[..n - 1]; }
      RunBefore(init, n);
    }
  }

  lemma LeftIsLast(es: seq<Event>, n: nat)
    requires Registry.Run(es).Some? && n <= |es|
    requires Registry.Run(es[..n]).Some? && Registry.Run(es[..n]).value.left.Some?
    ensures n == |es|
  {
    if n < |es| {
      RunBefore(es, n + 1);
    }
  }
}
