/** A peer's relay loop between its read task, PeerManager and its write task. */
module Peer {
  import opened Wire
  import opened Events

  /** What one turn of the select loop sees; sent says whether the message can be passed on. */
  datatype PeerEvent =
    | FromManager(event: EventsPeerManager, sent: bool)
    | ManagerDropped
    | FromTaskRead(message: MessagePayload, sent: bool)
    | TaskReadDropped
    | TaskReadCompleted
    | TaskWriteCompleted

  datatype PeerEnd =
    | Running
    | ConfirmationShutdown
    | ChannelPeerManagerClosed
    | ChannelTaskReadClosed
    | ChannelTaskWriteClosed
    | CompletedTaskRead
    | CompletedTaskWrite

  /** What has been passed on in the two directions, and whether the loop has been left. */
  datatype PeerLoop = PeerLoop(toWrite: seq<MessagePayload>, toManager: seq<MessagePayload>, end: PeerEnd)

  const START := PeerLoop([], [], Running)

  function PeerLoopStep(l: PeerLoop, e: PeerEvent): PeerLoop {
    if !l.end.Running? then l
    else match e
      case FromManager(ReadyLowMessage(m), sent) =>
        if sent then l.(toWrite := l.toWrite + [m]) else l.(end := ChannelTaskWriteClosed)
      case FromManager(Shutdown, _) => l.(end := ConfirmationShutdown)
      case FromManager(_, _) => l
      case ManagerDropped => l.(end := ConfirmationShutdown)
      case FromTaskRead(m, sent) =>
        if sent then l.(toManager := l.toManager + [m]) else l.(end := ChannelPeerManagerClosed)
      case TaskReadDropped => l.(end := ChannelTaskReadClosed)
      case TaskReadCompleted => l.(end := CompletedTaskRead)
      case TaskWriteCompleted => l.(end := CompletedTaskWrite)
  }

  function PeerLoopRun(es: seq<PeerEvent>): PeerLoop {
    if es == [] then START else PeerLoopStep(PeerLoopRun(es[..|es| - 1]), es[|es| - 1])
  }

  lemma {:induction false} PeerLoopStays(es: seq<PeerEvent>, n: nat)
    requires n <= |es| && !PeerLoopRun(es[..n]).end.Running?
    ensures PeerLoopRun(es) == PeerLoopRun(es[..n])
    decreases |es|
  {
    if n == |es| {
      assert es[..n] == es;
    } else {
      var init := es[..|es| - 1];
      assert init[..n] == es[..n];
      PeerLoopStays(init, n);
    }
  }

  /** The source's loop; the outcomes of its select are given in the order in which they happen. */
  method SpawnLoop(events: seq<PeerEvent>)
    returns (toWrite: seq<MessagePayload>, toManager: seq<MessagePayload>, end: PeerEnd)
    ensures PeerLoop(toWrite, toManager, end) == PeerLoopRun(events)
  {
    toWrite, toManager, end := [], [], Running;
    var i := 0;
    while i < |events|
      invariant i <= |events|
      invariant end == Running
      invariant PeerLoopRun(events[..i]) == PeerLoop(toWrite, toManager, Running)
    {
      assert events[..i + 1][..i] == events[..i];
      match events[i] {
        case FromManager(event, sent) =>
          if event.ReadyLowMessage? {
            if !sent { end := ChannelTaskWriteClosed; } else { toWrite := toWrite + [event.lowMessage]; }
          } else if event.Shutdown? {
            end := ConfirmationShutdown;
          }
        case ManagerDropped => end := ConfirmationShutdown;
        case FromTaskRead(message, sent) =>
          if !sent { end := ChannelPeerManagerClosed; } else { toManager := toManager + [message]; }
        case TaskReadDropped => end := ChannelTaskReadClosed;
        case TaskReadCompleted => end := CompletedTaskRead;
        case TaskWriteCompleted => end := CompletedTaskWrite;
      }
      if end != Running {
        PeerLoopStays(events, i + 1);
        return;
      }
      i := i + 1;
    }
    assert events[..i] == events;
  }

  /** PeerManager tells the peer to stop, or its sender is gone. */
  predicate IsStop(e: PeerEvent) {
    (e.FromManager? && e.event.Shutdown?) || e.ManagerDropped?
  }

  /** In any interleaving, and whether or not messages can be passed on, the loop does not outlast its stop. */
  lemma StopEnds(es: seq<PeerEvent>, k: nat)
    requires k < |es| && IsStop(es[k])
    ensures !PeerLoopRun(es).end.Running?
  {
    assert es[..k + 1][..k] == es[..k];
    PeerLoopStays(es, k + 1);
  }

  /** What the peer takes from PeerManager's channel, in order. */
  function Taken(es: seq<PeerEvent>): seq<EventsPeerManager> {
    if es == [] then []
    else
      var init, e := Taken(es[..|es| - 1]), es[|es| - 1];
      if e.FromManager? then init + [e.event] else init
  }

  lemma {:induction false} TakenFrom(es: seq<PeerEvent>, event: EventsPeerManager) returns (k: nat)
    requires event in Taken(es)
    ensures k < |es| && es[k].FromManager? && es[k].event == event
    decreases |es|
  {
    var n := |es| - 1;
    if es[n].FromManager? && es[n].event == event {
      k := n;
    } else {
      k := TakenFrom(es[..n], event);
    }
  }

  /**
   * The peer takes everything that is queued for it, and sees that the sender is gone if it is, among any other
   * events.
   */
  predicate TakesAll(es: seq<PeerEvent>, queue: seq<EventsPeerManager>, senderAlive: bool) {
    queue <= Taken(es) && (!senderAlive ==> ManagerDropped in es)
  }

  /**
   * A queued Shutdown or a dropped sender ends the loop, at the latest when all is taken, whatever it has been through
   * before and whatever else happens meanwhile.
   */
  lemma TakingAllEnds(before: seq<PeerEvent>, es: seq<PeerEvent>, queue: seq<EventsPeerManager>, senderAlive: bool)
    requires TakesAll(es, queue, senderAlive) && (Shutdown in queue || !senderAlive)
    ensures !PeerLoopRun(before + es).end.Running?
  {
    if Shutdown in queue {
      var k := TakenFrom(es, Shutdown);
      StopEnds(before + es, |before| + k);
    } else {
      var k :| 0 <= k < |es| && es[k] == ManagerDropped;
      StopEnds(before + es, |before| + k);
    }
  }

  /** What a peer that only receives from PeerManager sees: the queued events, then the drop if the sender is gone. */
  function Receptions(queue: seq<EventsPeerManager>, senderAlive: bool): seq<PeerEvent> {
    seq(|queue|, i requires 0 <= i < |queue| => FromManager(queue[i], true))
    + (if senderAlive then [] else [ManagerDropped])
  }

  /** A queued Shutdown or a dropped sender ends the loop once the peer has received what is there for it. */
  lemma ReceptionsEnd(queue: seq<EventsPeerManager>, senderAlive: bool)
    requires Shutdown in queue || !senderAlive
    ensures PeerLoopRun(Receptions(queue, senderAlive)).end == ConfirmationShutdown
  {
    var es := Receptions(queue, senderAlive);
    if Shutdown in queue {
      var k :| 0 <= k < |queue| && queue[k] == Shutdown;
      OnlyConfirmation(es, k);
      assert es[..k + 1][..k] == es[..k];
      if PeerLoopRun(es[..k]).end.Running? {
        PeerLoopStays(es, k + 1);
      } else {
        PeerLoopStays(es, k);
      }
    } else {
      OnlyConfirmation(es, |queue|);
      if !PeerLoopRun(es[..|queue|]).end.Running? {
        PeerLoopStays(es, |queue|);
      }
    }
  }

  lemma {:induction false} OnlyConfirmation(es: seq<PeerEvent>, n: nat)
    requires n <= |es|
    requires forall i :: 0 <= i < n ==> es[i].FromManager? && es[i].sent
    ensures PeerLoopRun(es[..n]).end in {Running, ConfirmationShutdown}
  {
    if n == 0 {
    } else {
      OnlyConfirmation(es, n - 1);
      assert es[..n][..n - 1] == es[..n - 1];
    }
  }

  /** The messages for the peer among the events, in order. */
  function ForPeer(es: seq<PeerEvent>): seq<MessagePayload> {
    if es == [] then []
    else
      var init, e := ForPeer(es[..|es| - 1]), es[|es| - 1];
      if e.FromManager? && e.event.ReadyLowMessage? then init + [e.event.lowMessage] else init
  }

  /** The messages from the peer among the events, in order. */
  function OfPeer(es: seq<PeerEvent>): seq<MessagePayload> {
    if es == [] then []
    else
      var init, e := OfPeer(es[..|es| - 1]), es[|es| - 1];
      if e.FromTaskRead? then init + [e.message] else init
  }

  /** What the loop has passed on, compared with what came for it and from it. */
  predicate Relays(l: PeerLoop, forPeer: seq<MessagePayload>, ofPeer: seq<MessagePayload>) {
    && l.toWrite <= forPeer && l.toManager <= ofPeer
    && (l.end.Running? ==> l.toWrite == forPeer && l.toManager == ofPeer)
  }

  lemma RelaysStep(l: PeerLoop, e: PeerEvent, forPeer: seq<MessagePayload>, ofPeer: seq<MessagePayload>)
    requires Relays(l, forPeer, ofPeer)
    ensures Relays(PeerLoopStep(l, e),
                   if e.FromManager? && e.event.ReadyLowMessage? then forPeer + [e.event.lowMessage] else forPeer,
                   if e.FromTaskRead? then ofPeer + [e.message] else ofPeer)
  {
  }

  /** While the loop runs it has passed on everything, in order, in both directions; afterwards a beginning of it. */
  lemma {:induction false} RelayedInOrder(es: seq<PeerEvent>)
    ensures Relays(PeerLoopRun(es), ForPeer(es), OfPeer(es))
    decreases |es|
  {
    if es == [] {
    } else {
      hide PeerLoopStep, Relays;
      RelayedInOrder(es[..|es| - 1]);
      RelaysStep(PeerLoopRun(es[..|es| - 1]), es[|es| - 1], ForPeer(es[..|es| - 1]), OfPeer(es[..|es| - 1]));
    }
  }

  // ---- Which event ends the loop ----

  /** How the event ends the loop, if it does. */
  function EndOf(e: PeerEvent): PeerEnd {
    match e
    case FromManager(event, sent) =>
      if event.Shutdown? then ConfirmationShutdown
      else if event.ReadyLowMessage? && !sent then ChannelTaskWriteClosed
      else Running
    case ManagerDropped => ConfirmationShutdown
    case FromTaskRead(_, sent) => if sent then Running else ChannelPeerManagerClosed
    case TaskReadDropped => ChannelTaskReadClosed
    case TaskReadCompleted => CompletedTaskRead
    case TaskWriteCompleted => CompletedTaskWrite
  }

  predicate NoEnd(es: seq<PeerEvent>) {
    forall j :: 0 <= j < |es| ==> EndOf(es[j]).Running?
  }

  /** The loop runs exactly while no event ends it, and has then passed on everything. */
  lemma {:induction false} LoopRunsExactly(es: seq<PeerEvent>)
    ensures PeerLoopRun(es).end.Running? <==> NoEnd(es)
    ensures NoEnd(es) ==> PeerLoopRun(es) == PeerLoop(ForPeer(es), OfPeer(es), Running)
    decreases |es|
  {
    if es == [] {
    } else {
      var n := |es| - 1;
      LoopRunsExactly(es[..n]);
      RelayedInOrder(es);
      if NoEnd(es) { assert EndOf(es[n]).Running?; }
      if NoEnd(es[..n]) && EndOf(es[n]).Running? {
        forall j | 0 <= j < |es| ensures EndOf(es[j]).Running? { assert j < n ==> EndOf(es[..n][j]).Running?; }
      }
    }
  }

  /** The first event that ends the loop ends it as stated, with all before it passed on and nothing more. */
  lemma LoopEndsExactly(es: seq<PeerEvent>, k: nat)
    requires k < |es| && NoEnd(es[..k]) && !EndOf(es[k]).Running?
    ensures PeerLoopRun(es) == PeerLoop(ForPeer(es[..k]), OfPeer(es[..k]), EndOf(es[k]))
  {
    hide PeerLoopRun, PeerLoopStep, EndOf, NoEnd;
    LoopRunsExactly(es[..k]);
    assert es[..k + 1][..k] == es[..k];
    OneStep(es[..k + 1]);
    LastStep(PeerLoopRun(es[..k]), es[k]);
    PeerLoopStays(es, k + 1);
  }

  lemma OneStep(es: seq<PeerEvent>)
    requires es != []
    ensures PeerLoopRun(es) == PeerLoopStep(PeerLoopRun(es[..|es| - 1]), es[|es| - 1])
  {
  }

  lemma LastStep(l: PeerLoop, e: PeerEvent)
    requires l.end.Running? && !EndOf(e).Running?
    ensures PeerLoopStep(l, e) == l.(end := EndOf(e))
  {
  }
}
