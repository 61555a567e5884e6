/**
 * Whose replies a peer gets. HandleMessage addresses them by id, and PeerManager sends them to whoever holds the id
 * when it takes them; when is all that a peer gets meant for it?
 */
module Outbound {
  import opened Bytes
  import opened Wrappers
  import opened Wire
  import opened Slices
  import opened Events
  import opened Mirror
  import opened Routing
  import R = Registry
  import H = Handshake

  /** What PeerManager has taken from HandleMessage, in order. */
  function FromProtocol(es: seq<R.Event>): seq<EventsHandleMessage> {
    if es == [] then []
    else
      var init := FromProtocol(es[..|es| - 1]);
      match es[|es| - 1]
      case ProtocolMessage(id, m) => init + [ReadyReply(id, m)]
      case ViolentPeer(id) => init + [IncidentViolentCompletedPeer(id)]
      case _ => init
  }

  /** What of HandleMessage's events a peer with the id gets, and as what. */
  function ForId(sent: seq<EventsHandleMessage>, id: PeerId): seq<EventsPeerManager> {
    if sent == [] then []
    else
      var init, e := ForId(sent[..|sent| - 1], id), sent[|sent| - 1];
      if H.Addressee(e) != id then init
      else if e.ReadyReply? then init + [ReadyLowMessage(e.reply)]
      else init + [Shutdown]
  }

  lemma {:induction false} ForIdAppend(a: seq<EventsHandleMessage>, b: seq<EventsHandleMessage>, id: PeerId)
    ensures ForId(a + b, id) == ForId(a, id) + ForId(b, id)
    decreases |b|
  {
    if b == [] {
      assert a + b == a;
    } else {
      assert (a + b)[..|a + b| - 1] == a + b[..|b| - 1];
      ForIdAppend(a, b[..|b| - 1], id);
    }
  }

  lemma {:induction false} FromProtocolAppend(a: seq<R.Event>, b: seq<R.Event>)
    ensures FromProtocol(a + b) == FromProtocol(a) + FromProtocol(b)
    decreases |b|
  {
    if b == [] {
      assert a + b == a;
    } else {
      assert (a + b)[..|a + b| - 1] == a + b[..|b| - 1];
      FromProtocolAppend(a, b[..|b| - 1]);
    }
  }

  lemma ForIdOne(sent: seq<EventsHandleMessage>, e: EventsHandleMessage, id: PeerId)
    ensures ForId(sent + [e], id)
            == ForId(sent, id) + if H.Addressee(e) != id then []
                                 else if e.ReadyReply? then [ReadyLowMessage(e.reply)]
                                 else [Shutdown]
  {
    assert (sent + [e])[..|sent|] == sent;
  }

  lemma {:induction false} AddressedIsForId(es: seq<R.Event>, id: PeerId)
    ensures Addressed(es, id) == ForId(FromProtocol(es), id)
    decreases |es|
  {
    if es == [] {
    } else {
      var init, e := es[..|es| - 1], es[|es| - 1];
      AddressedIsForId(init, id);
      match e {
        case ProtocolMessage(to, m) => ForIdOne(FromProtocol(init), ReadyReply(to, m), id);
        case ViolentPeer(to) => ForIdOne(FromProtocol(init), IncidentViolentCompletedPeer(to), id);
        case _ =>
      }
    }
  }

  lemma {:induction false} SentGrows(hs: seq<H.LoopEvent>, n: nat)
    requires n <= |hs|
    ensures H.LoopRun(hs[..n]).sent <= H.LoopRun(hs).sent
    decreases |hs|
  {
    if n == |hs| {
      assert hs[..n] == hs;
    } else {
      hide H.TablesStep;
      var init := hs[..|hs| - 1];
      assert init[..n] == hs[..n];
      SentGrows(init, n);
    }
  }

  /** What HandleMessage sent before it handled the announcement of the peer that event k creates. */
  function Early(es: seq<R.Event>, k: nat, hs: seq<H.LoopEvent>): seq<EventsHandleMessage>
    requires k < |es| && R.Run(es[..k]).Some?
  {
    var a := |R.Run(es[..k]).value.manager.toProtocol|;
    H.LoopRun(if a <= |hs| then hs[..a] else hs).sent
  }

  /** What of these PeerManager had not taken when it created the peer. */
  function Pending(es: seq<R.Event>, k: nat, hs: seq<H.LoopEvent>): seq<EventsHandleMessage>
    requires k < |es| && R.Run(es[..k]).Some?
  {
    var early, taken := Early(es, k, hs), FromProtocol(es[..k]);
    if |taken| <= |early| then early[|taken|..] else []
  }

  /**
   * PeerManager and HandleMessage on one run: HandleMessage has handled a beginning of what it was told, PeerManager
   * has taken a beginning of what HandleMessage sent, at the creation only what was sent before the announcement was
   * handled.
   */
  predicate Together(es: seq<R.Event>, k: nat, hs: seq<H.LoopEvent>)
    requires k < |es| && R.Run(es).Some? && R.Run(es[..k]).Some?
  {
    var log := R.Run(es).value.manager.toProtocol;
    && |hs| <= |log| && Processed(hs, log[..|hs|])
    && FromProtocol(es) <= H.LoopRun(hs).sent
    && FromProtocol(es[..k]) <= Early(es, k, hs)
  }

  /** The events since the creation: first what was pending, then what was sent with the announcement handled. */
  lemma TakenSince(es: seq<R.Event>, k: nat, hs: seq<H.LoopEvent>)
    requires k < |es| && R.Run(es).Some? && R.Run(es[..k]).Some? && R.Creation(es[k]).Some?
    requires Together(es, k, hs)
    ensures var early, all := Early(es, k, hs), FromProtocol(es);
            && (|early| <= |all| ==> FromProtocol(es[k + 1..]) == Pending(es, k, hs) + all[|early|..])
            && (|all| <= |early| ==> FromProtocol(es[k + 1..]) <= Pending(es, k, hs))
  {
    var early, before, since := Early(es, k, hs), FromProtocol(es[..k]), FromProtocol(es[k + 1..]);
    EarlyIsBeginning(es, k, hs);
    TakenParts(es, k);
    hide FromProtocol, Early, H.LoopRun, R.Run, Processed, R.Creation;
    SplitBehind(before, since, early, H.LoopRun(hs).sent);
  }

  lemma EarlyIsBeginning(es: seq<R.Event>, k: nat, hs: seq<H.LoopEvent>)
    requires k < |es| && R.Run(es[..k]).Some?
    ensures Early(es, k, hs) <= H.LoopRun(hs).sent
  {
    var a := |R.Run(es[..k]).value.manager.toProtocol|;
    if a <= |hs| { SentGrows(hs, a); }
    hide H.LoopRun;
  }

  lemma TakenParts(es: seq<R.Event>, k: nat)
    requires k < |es| && R.Creation(es[k]).Some?
    ensures FromProtocol(es) == FromProtocol(es[..k]) + FromProtocol(es[k + 1..])
  {
    assert es == es[..k] + [es[k]] + es[k + 1..];
    FromProtocolAppend(es[..k] + [es[k]], es[k + 1..]);
    FromProtocolAppend(es[..k], [es[k]]);
    assert FromProtocol([es[k]]) == [] by { assert [es[k]][..0] == []; }
  }

  /** What the peer has got so far: taken from its channel, or still queued there. */
  function Got(es: seq<R.Event>, k: nat): seq<EventsPeerManager>
    requires k < |es| && R.Run(es).Some? && R.Creation(es[k]).Some?
    requires EntryAt(es, k).channel in R.Run(es).value.manager.channels
  {
    var c := EntryAt(es, k).channel;
    Received(es, c) + R.Run(es).value.manager.channels[c].queue
  }

  /**
   * While an undisturbed peer runs and PeerManager has taken what was pending at its creation: it has got what was
   * pending for its id, and then what HandleMessage sent for its id since it knew of the peer. So all that it has got
   * is meant for it if and only if nothing pending was addressed to its id.
   */
  lemma MeantExactly(es: seq<R.Event>, k: nat, hs: seq<H.LoopEvent>)
    requires k < |es| && R.Run(es).Some? && R.Run(es[..k]).Some? && R.Creation(es[k]).Some?
    requires Undisturbed(es, k, IdAt(es, k), EntryAt(es, k).channel)
    requires Together(es, k, hs) && |Early(es, k, hs)| <= |FromProtocol(es)|
    ensures EntryAt(es, k).channel in R.Run(es).value.manager.channels
    ensures var id, meant := IdAt(es, k), FromProtocol(es)[|Early(es, k, hs)|..];
            && Got(es, k) == ForId(Pending(es, k, hs), id) + ForId(meant, id)
            && (Got(es, k) == ForId(meant, id) <==> ForId(Pending(es, k, hs), id) == [])
  {
    OutboundInOrder(es, k);
    AddressedIsForId(es[k + 1..], IdAt(es, k));
    TakenSince(es, k, hs);
    var id, meant := IdAt(es, k), FromProtocol(es)[|Early(es, k, hs)|..];
    hide R.Run, FromProtocol, Early, Pending, H.LoopRun, Together, Undisturbed;
    ForIdAppend(Pending(es, k, hs), meant, id);
  }

  lemma OutgoingEffect(c: R.Created)
    requires c.told
    ensures var s := R.Step(R.START, R.Event.OutgoingConnection(true, Some(c)));
            && s.left.None? && s.manager.peerid == 2
            && s.manager.tasks == map[c.task := R.PeerTask(1, c.channel)] && s.manager.channels.Keys == {c.channel}
            && s.manager.toProtocol == [IncidentNewConnection(1, c.context.(typeConnect := OutgoingConnection))]
  {
  }

  lemma MessageEffect(m: R.Manager, id: PeerId, message: MessagePayload)
    ensures var s := R.Step(m, R.ProtocolMessage(id, message));
            s.left.None? && s.manager.toProtocol == m.toProtocol
  {
  }

  /** An outgoing peer connects and is joined, and the next connection is given its id. */
  lemma IdPassedOn(c: ConnectionContext) returns (es: seq<R.Event>)
    ensures |es| == 3 && FromProtocol(es) == [] && R.Creation(es[2]).Some? && EntryAt(es, 2).channel == 1
    ensures R.Run(es).Some? && R.Run(es).value.left.None? && R.StackRun(es)
    ensures R.Run(es[..2]).Some? && IdAt(es, 2) == 1 && |R.Run(es[..2]).value.manager.toProtocol| == 2
    ensures R.Run(es).value.manager.toProtocol[..] != []
            && R.Run(es).value.manager.toProtocol[0]
               == IncidentNewConnection(1, c.(typeConnect := OutgoingConnection))
  {
    var c0, c1 := R.Created(0, 0, c, true), R.Created(1, 1, c, true);
    var e0, e1 := R.Event.OutgoingConnection(true, Some(c0)), R.Event.IncomingConnection(Some(c1));
    var j := R.Joined(0, R.PeerError, true);
    var zero: seq<R.Event> := [];
    assert R.Run(zero) == Some(R.Stepped(R.START, None)) && R.StackRun(zero) && FromProtocol(zero) == [];
    hide R.Step, R.Run;
    OutgoingEffect(c0);
    R.RunMore(zero, e0);
    var one := zero + [e0];
    assert one[..0] == zero && R.StackRun(one) && FromProtocol(one) == [];
    R.JoinedEffect(R.Run(one).value.manager, 0);
    R.RunMore(one, j);
    var two := one + [j];
    assert two[..1] == one && R.StackRun(two) && FromProtocol(two) == [];
    R.IncomingEffect(R.Run(two).value.manager, c1);
    R.RunMore(two, e1);
    es := two + [e1];
    assert es[..2] == two && R.StackRun(es) && FromProtocol(es) == [];
  }

  /** HandleMessage's side: the outgoing connection is answered with a version. */
  lemma VersionSent(d: ConnectionContext, time: U64) returns (hs: seq<H.LoopEvent>)
    requires d.typeConnect.OutgoingConnection?
    ensures Processed(hs, [IncidentNewConnection(1, d)])
    ensures H.LoopRun(hs).sent == [ReadyReply(1, H.Built(d, time))]
  {
    var i := H.Input(IncidentNewConnection(1, d), H.Env(Some(time), true, true));
    hs := [H.FromPeerManager(i)];
    assert hs[..0] == [];
    assert H.LoopRun(hs) == H.LoopStep(H.START, hs[0]);
  }

  /**
   * A run in stack order in which the version that HandleMessage had for an outgoing peer is sent to the next one,
   * which has been given the same id: all that this one has got was pending when it was created.
   */
  lemma MisdirectedReply(c: ConnectionContext, time: U64) returns (es: seq<R.Event>, hs: seq<H.LoopEvent>)
    ensures |es| == 4 && R.Run(es).Some? && R.StackRun(es) && R.Run(es[..2]).Some? && R.Creation(es[2]).Some?
    ensures EntryAt(es, 2).channel in R.Run(es).value.manager.channels
    ensures Together(es, 2, hs) && |hs| <= |R.Run(es[..2]).value.manager.toProtocol|
    ensures Got(es, 2) == [ReadyLowMessage(H.Built(c.(typeConnect := OutgoingConnection), time))]
  {
    var d := c.(typeConnect := OutgoingConnection);
    var m := H.Built(d, time);
    hide R.Step, H.LoopRun, H.Built, R.Run, R.StackRun, FromProtocol, ForId, Early, Undisturbed, Received;
    var three := IdPassedOn(c);
    hs := VersionSent(d, time);
    es := ReplyTaken(three, m);
    assert R.Run(es).value.manager.toProtocol[..1] == [IncidentNewConnection(1, d)];
    EarlyIsAll(es, hs);
    MeantExactly(es, 2, hs);
    assert FromProtocol(es)[1..] == [];
    OneForId(m);
  }

  lemma OneForId(m: MessagePayload)
    ensures ForId([ReadyReply(1, m)], 1) == [ReadyLowMessage(m)] && ForId([], 1) == []
  {
    ForIdOne([], ReadyReply(1, m), 1);
    assert [] + [ReadyReply(1, m)] == [ReadyReply(1, m)];
  }

  lemma EarlyIsAll(es: seq<R.Event>, hs: seq<H.LoopEvent>)
    requires |es| > 2 && R.Run(es[..2]).Some? && |hs| <= |R.Run(es[..2]).value.manager.toProtocol|
    ensures Early(es, 2, hs) == H.LoopRun(hs).sent
  {
    hide H.LoopRun, R.Run;
    var a := |R.Run(es[..2]).value.manager.toProtocol|;
    if a <= |hs| { assert hs[..a] == hs; }
  }

  /** PeerManager takes the reply for id 1. */
  lemma ReplyTaken(three: seq<R.Event>, m: MessagePayload) returns (es: seq<R.Event>)
    requires |three| == 3 && FromProtocol(three) == [] && R.Creation(three[2]).Some? && EntryAt(three, 2).channel == 1
    requires R.Run(three).Some? && R.Run(three).value.left.None? && R.StackRun(three) && R.Run(three[..2]).Some?
    ensures |es| == 4 && es[..3] == three && es[..2] == three[..2] && es[2] == three[2]
    ensures R.Run(es).Some? && R.StackRun(es)
    ensures R.Run(es).value.manager.toProtocol == R.Run(three).value.manager.toProtocol
    ensures FromProtocol(es) == [ReadyReply(1, m)] && FromProtocol(es[..2]) == []
    ensures Undisturbed(es, 2, IdAt(es, 2), 1)
  {
    hide R.Step;
    var p := R.ProtocolMessage(1, m);
    MessageEffect(R.Run(three).value.manager, 1, m);
    R.RunMore(three, p);
    es := three + [p];
    assert es[..3] == three && es[..2] == three[..2];
    TakenParts(three, 2);
    assert FromProtocol(es) == FromProtocol(three) + [ReadyReply(1, m)];
  }
}
