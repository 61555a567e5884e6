/** Where PeerManager sends what it gets: out to the peers' channels, and in to HandleMessage. */
module Routing {
  import opened Events
  import opened Slices
  import R = Registry

  type Log = seq<EventsPeerManager>

  // ---- From the peers to HandleMessage ----

  /** The messages on the queue to HandleMessage. */
  function Forwarded(log: seq<EventsPeerManager>): seq<EventsPeerManager> {
    if log == [] then []
    else
      var init, e := Forwarded(log[..|log| - 1]), log[|log| - 1];
      if e.ReadyMessage? then init + [e] else init
  }

  /** The messages that came from peers. */
  function FromPeers(es: seq<R.Event>): seq<EventsPeerManager> {
    if es == [] then []
    else
      var init, e := FromPeers(es[..|es| - 1]), es[|es| - 1];
      if e.PeerMessage? then init + [ReadyMessage(e.fromPeerid, e.lowMessage)] else init
  }

  lemma ForwardedMore(log: seq<EventsPeerManager>, e: EventsPeerManager)
    ensures Forwarded(log + [e]) == if e.ReadyMessage? then Forwarded(log) + [e] else Forwarded(log)
  {
    assert (log + [e])[..|log|] == log;
  }

  /** One event tells HandleMessage of one event at most. */
  lemma TellsOne(m: R.Manager, e: R.Event)
    requires R.Enabled(m, e)
    ensures var s := R.Step(m, e);
            || (s.manager.toProtocol == m.toProtocol && (e.PeerMessage? ==> s.left.Some?))
            || (|s.manager.toProtocol| == |m.toProtocol| + 1
                && var t := s.manager.toProtocol[|m.toProtocol|];
                   s.manager.toProtocol == m.toProtocol + [t]
                   && if e.PeerMessage? then t == ReadyMessage(e.fromPeerid, e.lowMessage) else !t.ReadyMessage?)
  {
  }

  /** HandleMessage is sent exactly the peers' messages, in order, under the ids that they came with. */
  lemma {:induction false} InboundInOrder(es: seq<R.Event>)
    requires R.Run(es).Some?
    ensures var s := R.Run(es).value;
            && Forwarded(s.manager.toProtocol) <= FromPeers(es)
            && (s.left.None? ==> Forwarded(s.manager.toProtocol) == FromPeers(es))
    decreases |es|
  {
    if es == [] {
    } else {
      hide R.Step;
      var n := |es| - 1;
      InboundInOrder(es[..n]);
      var m, s := R.Run(es[..n]).value.manager, R.Run(es).value;
      TellsOne(m, es[n]);
      if |s.manager.toProtocol| > |m.toProtocol| {
        ForwardedMore(m.toProtocol, s.manager.toProtocol[|m.toProtocol|]);
      }
    }
  }

  // ---- From HandleMessage to a peer ----

  /** What the peer that owns channel c has taken from it. */
  function Received(es: seq<R.Event>, c: R.ChannelId): seq<EventsPeerManager>
    requires R.Run(es).Some?
  {
    if es == [] then []
    else
      var n := |es| - 1;
      var init, m := Received(es[..n], c), R.Run(es[..n]).value.manager;
      if es[n] == R.PeerReceives(c) then init + [m.channels[c].queue[0]] else init
  }

  /** What HandleMessage had for the id, as a peer should get it. */
  function Addressed(es: seq<R.Event>, id: PeerId): seq<EventsPeerManager> {
    if es == [] then []
    else Addressed(es[..|es| - 1], id) + AddressedBy(es[|es| - 1], id)
  }

  function AddressedBy(e: R.Event, id: PeerId): seq<EventsPeerManager> {
    match e
    case ProtocolMessage(to, m) => if to == id then [ReadyLowMessage(m)] else []
    case ViolentPeer(to) => if to == id then [Shutdown] else []
    case _ => []
  }

  /** The event gives the id to another peer, joins a task with it, or ends the receiving on the channel. */
  predicate Disturbs(m: R.Manager, e: R.Event, id: PeerId, c: R.ChannelId)
    requires R.Enabled(m, e)
  {
    || (R.Creation(e).Some? && m.peerid == id)
    || (e.Joined? && m.tasks[e.task].peerid == id)
    || e == R.PeerDropsReceiver(c)
  }

  /** No event after the first k + 1 disturbs the peer. */
  predicate Undisturbed(es: seq<R.Event>, k: nat, id: PeerId, c: R.ChannelId)
    requires R.Run(es).Some?
  {
    |es| > k + 1 ==>
      var n := |es| - 1;
      Undisturbed(es[..n], k, id, c) && !Disturbs(R.Run(es[..n]).value.manager, es[n], id, c)
  }

  /** The peer's entry and channel are there, and what it has got is what was for it. */
  predicate Routed(m: R.Manager, id: PeerId, meta: R.PeerSystemMetadata, received: Log, addressed: Log) {
    && id in m.allPeers && m.allPeers[id] == meta
    && meta.channel in m.channels && m.channels[meta.channel].receiverAlive
    && received + m.channels[meta.channel].queue == addressed
  }

  lemma CreationRoutes(m: R.Manager, e: R.Event)
    requires R.Inv(m) && R.Enabled(m, e) && R.Creation(e).Some?
    ensures var c := R.Creation(e).value;
            var meta := R.PeerSystemMetadata(c.context.removeAddress, R.KindOf(e), c.channel);
            Routed(R.Step(m, e).manager, m.peerid, meta, [], [])
  {
    R.CreationStep(m, e);
    hide R.Step;
    if m.peerid in m.allPeers { R.OneEntry(m, m.peerid); }
  }

  lemma OthersCreationKeeps(m: R.Manager, e: R.Event, id: PeerId, meta: R.PeerSystemMetadata, received: Log,
                            addressed: Log)
    requires R.Inv(m) && R.Enabled(m, e) && R.Creation(e).Some? && m.peerid != id
    requires Routed(m, id, meta, received, addressed)
    ensures Routed(R.Step(m, e).manager, id, meta, received, addressed)
  {
    R.CreationStep(m, e);
    hide R.Step;
    if m.peerid in m.allPeers { R.OneEntry(m, m.peerid); }
    hide R.Inv;
  }

  lemma RemovalKeeps(m: R.Manager, other: PeerId, id: PeerId, meta: R.PeerSystemMetadata, received: Log, addressed: Log)
    requires Routed(m, id, meta, received, addressed) && other != id
    ensures Routed(R.Remove(m, other), id, meta, received, addressed)
  {
  }

  lemma TakingKeeps(m: R.Manager, t: R.TaskId, id: PeerId, meta: R.PeerSystemMetadata, received: Log, addressed: Log)
    requires Routed(m, id, meta, received, addressed) && t in m.tasks && m.tasks[t].channel != meta.channel
    ensures Routed(R.Taken(m, t), id, meta, received, addressed)
  {
  }

  /** Telling HandleMessage of the join changes nothing for the peers. */
  lemma StepOfJoin(m: R.Manager, e: R.Event, n: R.Manager, id: PeerId, meta: R.PeerSystemMetadata,
                   received: Log, addressed: Log)
    requires R.Enabled(m, e) && e.Joined? && R.AfterJoin(m, e.task, e.outcome) == n
    requires Routed(n, id, meta, received, addressed)
    ensures Routed(R.Step(m, e).manager, id, meta, received, addressed)
  {
    hide R.AfterJoin;
  }

  lemma OthersJoinKeeps(m: R.Manager, e: R.Event, id: PeerId, meta: R.PeerSystemMetadata, received: Log, addressed: Log)
    requires R.Inv(m) && R.Enabled(m, e) && e.Joined? && m.tasks[e.task].peerid != id
    requires Routed(m, id, meta, received, addressed)
    ensures Routed(R.Step(m, e).manager, id, meta, received, addressed)
  {
    var other := m.tasks[e.task].peerid;
    R.JoinKeeps(m, e.task, e.outcome);
    R.EntryOfTask(m, id, e.task);
    R.AfterJoinIsTaken(m, e.task, e.outcome);
    hide R.Inv, R.Remove, R.AfterJoin, R.Taken, R.JoinedId, Routed;
    RemovalKeeps(m, other, id, meta, received, addressed);
    TakingKeeps(R.Remove(m, other), e.task, id, meta, received, addressed);
    StepOfJoin(m, e, R.Taken(R.Remove(m, other), e.task), id, meta, received, addressed);
  }

  lemma MessageRoutes(m: R.Manager, e: R.Event, id: PeerId, meta: R.PeerSystemMetadata, received: Log, addressed: Log)
    requires R.Inv(m) && R.Enabled(m, e) && (e.ProtocolMessage? || e.ViolentPeer?)
    requires Routed(m, id, meta, received, addressed)
    ensures Routed(R.Step(m, e).manager, id, meta, received, addressed + AddressedBy(e, id))
  {
    R.OneEntry(m, id);
    hide R.Inv;
    Associate(received, m.channels[meta.channel].queue, AddressedBy(e, id));
  }

  lemma StepRoutes(m: R.Manager, e: R.Event, id: PeerId, meta: R.PeerSystemMetadata, received: Log, addressed: Log)
    requires R.Inv(m) && R.Enabled(m, e) && !Disturbs(m, e, id, meta.channel)
    requires Routed(m, id, meta, received, addressed)
    ensures var taken := if e == R.PeerReceives(meta.channel) then [m.channels[meta.channel].queue[0]] else [];
            Routed(R.Step(m, e).manager, id, meta, received + taken, addressed + AddressedBy(e, id))
  {
    assert received + [] == received && addressed + [] == addressed;
    if R.Creation(e).Some? {
      OthersCreationKeeps(m, e, id, meta, received, addressed);
    } else if e.Joined? {
      OthersJoinKeeps(m, e, id, meta, received, addressed);
    } else if e.ProtocolMessage? || e.ViolentPeer? {
      MessageRoutes(m, e, id, meta, received, addressed);
    } else if e == R.PeerReceives(meta.channel) {
      var q := m.channels[meta.channel].queue;
      assert q == [q[0]] + q[1..];
      Associate(received, [q[0]], q[1..]);
    }
    hide R.Inv;
  }

  lemma ChannelsStay(m: R.Manager, e: R.Event)
    requires R.Enabled(m, e)
    ensures m.channels.Keys <= R.Step(m, e).manager.channels.Keys
  {
  }

  /** From a channel that is not there yet nothing has been taken. */
  lemma {:induction false} NothingReceived(es: seq<R.Event>, c: R.ChannelId)
    requires R.Run(es).Some? && c !in R.Run(es).value.manager.channels
    ensures Received(es, c) == []
    decreases |es|
  {
    if es == [] {
    } else {
      hide R.Step;
      var n := |es| - 1;
      ChannelsStay(R.Run(es[..n]).value.manager, es[n]);
      NothingReceived(es[..n], c);
    }
  }

  /** The id and the registered entry of the peer that event k creates. */
  function IdAt(es: seq<R.Event>, k: nat): PeerId
    requires k < |es| && R.Run(es[..k]).Some?
  {
    R.Run(es[..k]).value.manager.peerid
  }

  function EntryAt(es: seq<R.Event>, k: nat): R.PeerSystemMetadata
    requires k < |es| && R.Creation(es[k]).Some?
  {
    var c := R.Creation(es[k]).value;
    R.PeerSystemMetadata(c.context.removeAddress, R.KindOf(es[k]), c.channel)
  }

  /**
   * From its creation on, until its id is given out again, a task with its id is joined or it stops receiving, a peer
   * stays registered as it was created, and what it has taken from its channel and what is still queued there are
   * together, in order, exactly what HandleMessage had for its id.
   */
  lemma {:induction false} OutboundInOrder(es: seq<R.Event>, k: nat)
    requires k < |es| && R.Run(es).Some? && R.Run(es[..k]).Some? && R.Creation(es[k]).Some?
    requires Undisturbed(es, k, IdAt(es, k), EntryAt(es, k).channel)
    ensures Routed(R.Run(es).value.manager, IdAt(es, k), EntryAt(es, k),
                   Received(es, EntryAt(es, k).channel), Addressed(es[k + 1..], IdAt(es, k)))
    decreases |es|
  {
    var n := |es| - 1;
    var init, m := es[..n], R.Run(es[..n]).value.manager;
    var id, meta := IdAt(es, k), EntryAt(es, k);
    R.RunKeeps(init);
    hide R.Inv, R.Step, Disturbs, Routed, R.Creation, AddressedBy;
    if n == k {
      CreationRoutes(m, es[n]);
      CreationIsFresh(m, es[n]);
      NothingReceived(init, meta.channel);
      assert es[k + 1..] == [];
    } else {
      assert init[..k] == es[..k];
      OutboundInOrder(init, k);
      StepRoutes(m, es[n], id, meta, Received(init, meta.channel), Addressed(init[k + 1..], id));
      AddressedStep(es, k, id);
      assert Received(init, meta.channel) + [] == Received(init, meta.channel);
    }
  }

  lemma AddressedStep(es: seq<R.Event>, k: nat, id: PeerId)
    requires k + 1 < |es|
    ensures Addressed(es[k + 1..], id) == Addressed(es[..|es| - 1][k + 1..], id) + AddressedBy(es[|es| - 1], id)
  {
    var after := es[k + 1..];
    assert after[..|after| - 1] == es[..|es| - 1][k + 1..] && after[|after| - 1] == es[|es| - 1];
  }

  lemma CreationIsFresh(m: R.Manager, e: R.Event)
    requires R.Enabled(m, e) && R.Creation(e).Some?
    ensures R.Creation(e).value.channel !in m.channels && !e.PeerReceives?
  {
  }

  // ---- Exactly how long ----

  /** The peer that was created with this id and channel is registered, and receives. */
  predicate Held(m: R.Manager, id: PeerId, c: R.ChannelId) {
    id in m.allPeers && m.allPeers[id].channel == c && c in m.channels && m.channels[c].receiverAlive
  }

  lemma HeldBeforeCreation(m: R.Manager, e: R.Event, id: PeerId, c: R.ChannelId)
    requires R.Enabled(m, e) && R.Creation(e).Some? && c in m.channels && Held(R.Step(m, e).manager, id, c)
    ensures Held(m, id, c) && m.peerid != id
  {
    R.CreationStep(m, e);
    hide R.Step;
  }

  lemma HeldBeforeRemoval(m: R.Manager, other: PeerId, id: PeerId, c: R.ChannelId)
    requires c in m.channels && Held(R.Remove(m, other), id, c)
    ensures Held(m, id, c) && other != id
  {
  }

  lemma HeldBeforeTaking(m: R.Manager, t: R.TaskId, id: PeerId, c: R.ChannelId)
    requires t in m.tasks && c in m.channels && Held(R.Taken(m, t), id, c)
    ensures Held(m, id, c)
  {
  }

  lemma HeldBeforeJoin(m: R.Manager, e: R.Event, id: PeerId, c: R.ChannelId)
    requires R.Inv(m) && R.Enabled(m, e) && e.Joined? && c in m.channels && Held(R.Step(m, e).manager, id, c)
    ensures Held(m, id, c) && m.tasks[e.task].peerid != id
  {
    var other := m.tasks[e.task].peerid;
    R.JoinKeeps(m, e.task, e.outcome);
    R.AfterJoinIsTaken(m, e.task, e.outcome);
    var n := R.Remove(m, other);
    assert c in n.channels;
    hide R.Inv, R.Remove, R.AfterJoin, R.Taken, R.JoinedId;
    assert Held(R.AfterJoin(m, e.task, e.outcome), id, c);
    HeldBeforeTaking(n, e.task, id, c);
    HeldBeforeRemoval(m, other, id, c);
  }

  lemma HeldBeforeOther(m: R.Manager, e: R.Event, id: PeerId, c: R.ChannelId)
    requires R.Enabled(m, e) && R.Creation(e).None? && !e.Joined?
    requires c in m.channels && Held(R.Step(m, e).manager, id, c)
    ensures Held(m, id, c) && e != R.PeerDropsReceiver(c)
  {
  }

  lemma HeldOnlyUndisturbed(m: R.Manager, e: R.Event, id: PeerId, c: R.ChannelId)
    requires R.Inv(m) && R.Enabled(m, e) && c in m.channels && Held(R.Step(m, e).manager, id, c)
    ensures Held(m, id, c) && !Disturbs(m, e, id, c)
  {
    hide R.Inv, R.Step, Held;
    if R.Creation(e).Some? {
      HeldBeforeCreation(m, e, id, c);
    } else if e.Joined? {
      HeldBeforeJoin(m, e, id, c);
    } else {
      HeldBeforeOther(m, e, id, c);
    }
  }

  /** A peer stays registered as created and receiving exactly as long as it is not disturbed. */
  lemma {:induction false} HeldExactly(es: seq<R.Event>, k: nat)
    requires k < |es| && R.Run(es).Some? && R.Run(es[..k]).Some? && R.Creation(es[k]).Some?
    ensures EntryAt(es, k).channel in R.Run(es).value.manager.channels
    ensures Held(R.Run(es).value.manager, IdAt(es, k), EntryAt(es, k).channel)
            <==> Undisturbed(es, k, IdAt(es, k), EntryAt(es, k).channel)
    decreases |es|
  {
    var n := |es| - 1;
    var init, m := es[..n], R.Run(es[..n]).value.manager;
    var id, c := IdAt(es, k), EntryAt(es, k).channel;
    if Undisturbed(es, k, id, c) { OutboundInOrder(es, k); }
    hide R.Inv, R.Step, Disturbs, R.Creation;
    if n == k {
      R.RunKeeps(init);
      CreationRoutes(m, es[n]);
    } else {
      assert init[..k] == es[..k];
      HeldExactly(init, k);
      R.RunKeeps(init);
      ChannelsStay(m, es[n]);
      if Held(R.Step(m, es[n]).manager, id, c) { HeldOnlyUndisturbed(m, es[n], id, c); }
    }
  }
}
