/** HandleMessage as the source has it: two tables and a mutable state object per peer. */
module HandleMessage {
  import opened Wire
  import opened Wrappers
  import opened Events
  import opened Handshake

  class PeerStateMetadata {
    var sendVersion: bool
    var recvVerack: bool
    var sendVerack: bool
    var recvVersion: bool
    var completedHandshake: bool

    constructor Create()
      ensures Flags() == FRESH
    {
      sendVersion, recvVerack, sendVerack, recvVersion, completedHandshake := false, false, false, false, false;
    }

    function Flags(): Flags
      reads this
    {
      Handshake.Flags(sendVersion, recvVerack, sendVerack, recvVersion, completedHandshake)
    }
  }

  /** The source's handler: it sets the state's flags one by one between its sends. */
  method HandleMsg(peerid: PeerId, message: MessagePayload, context: ConnectionContext, state: PeerStateMetadata,
                   env: Env)
    returns (sent: seq<EventsHandleMessage>, error: Option<ErrorHandle>)
    modifies state
    ensures Handled(state.Flags(), sent, error) == Handle(peerid, message, context, old(state.Flags()), env)
  {
    sent := [];
    match message {
      case Version(version) =>
        match context.typeConnect {
          case IncomingConnection =>
            if !state.recvVersion && !state.sendVersion && !state.recvVerack && !state.sendVerack {
              if !ValidVersion(version) { return sent, Some(ErrorInvalidVersionMessage); }
              state.recvVersion := true;
              var built := BuildVersionMessage(context.localAddress, context.removeAddress, context.nonce, env.clock);
              if built.None? { return sent, Some(ErrorCreateVersionMessage); }
              if !env.firstSend { return sent, Some(PeerManagerClosed); }
              sent := sent + [ReadyReply(peerid, Version(built.value))];
              state.sendVersion := true;
              if !env.secondSend { return sent, Some(PeerManagerClosed); }
              sent := sent + [ReadyReply(peerid, Verack)];
              state.sendVerack := true;
              return sent, None;
            } else {
              if !env.firstSend { return sent, Some(PeerManagerClosed); }
              sent := sent + [IncidentViolentCompletedPeer(peerid)];
              return sent, Some(ErrorInvalidStateVersion);
            }
          case OutgoingConnection =>
            if !ValidVersion(version) { return sent, Some(ErrorInvalidVersionMessage); }
            if state.sendVersion && !state.recvVersion && !state.sendVerack && !state.recvVerack {
              state.recvVersion := true;
              if !env.firstSend { return sent, Some(PeerManagerClosed); }
              sent := sent + [ReadyReply(peerid, Verack)];
              state.sendVerack := true;
              return sent, None;
            } else {
              if !env.firstSend { return sent, Some(PeerManagerClosed); }
              sent := sent + [IncidentViolentCompletedPeer(peerid)];
              return sent, Some(ErrorInvalidStateVersion);
            }
        }
      case Verack =>
        if state.recvVersion && state.sendVersion && state.sendVerack && !state.recvVerack {
          state.recvVerack := true;
          if state.sendVersion && state.recvVersion && state.sendVerack && state.recvVerack {
            state.completedHandshake := true;
            return sent, None;
          }
          assert false;
        } else {
          if !env.firstSend { return sent, Some(PeerManagerClosed); }
          sent := sent + [IncidentViolentCompletedPeer(peerid)];
          return sent, Some(ErrorInvalidStateVerack);
        }
    }
  }

  class HandleMessage {
    var setContextPeers: map<PeerId, ConnectionContext>
    var setStatePeers: map<PeerId, PeerStateMetadata>

    /** No two peers share a state object. */
    ghost predicate Valid()
      reads this
    {
      forall p, q :: p in setStatePeers && q in setStatePeers && p != q ==> setStatePeers[p] != setStatePeers[q]
    }

    ghost function Tables(): Tables
      reads this, setStatePeers.Values
    {
      Handshake.Tables(setContextPeers, map p | p in setStatePeers :: setStatePeers[p].Flags())
    }

    constructor Create()
      ensures Valid() && Tables() == Handshake.START.tables
    {
      setContextPeers, setStatePeers := map[], map[];
    }

    /** Both tables have an entry for the new connection afterwards; an entry that is there already stays. */
    method Register(id: PeerId, context: ConnectionContext)
      requires Valid()
      modifies this
      ensures Valid() && fresh(setStatePeers.Values - old(setStatePeers.Values))
      ensures Tables() == Opened(old(Tables()), id, context)
    {
      if id !in setContextPeers {
        setContextPeers := setContextPeers[id := context];
      }
      assert Tables().contexts == Opened(old(Tables()), id, context).contexts;
      assert Tables().states == old(Tables()).states;
      if id !in setStatePeers {
        AddState(id);
      }
    }

    method AddState(id: PeerId)
      requires Valid() && id !in setStatePeers
      modifies this`setStatePeers
      ensures Valid() && fresh(setStatePeers.Values - old(setStatePeers.Values))
      ensures Tables().states == old(Tables()).states[id := FRESH]
    {
      var state := new PeerStateMetadata.Create();
      ghost var before := setStatePeers;
      setStatePeers := setStatePeers[id := state];
      assert setStatePeers.Values <= before.Values + {state};
      assert forall p :: p in before ==> setStatePeers[p] == before[p];
    }

    method MarkVersionSent(id: PeerId)
      requires Valid() && id in setStatePeers
      modifies setStatePeers.Values
      ensures Valid()
      ensures var f := old(Tables()).states[id];
              var g := if Untouched(f) then f.(sendVersion := true) else f;
              Tables() == old(Tables()).(states := old(Tables()).states[id := g])
    {
      var state := setStatePeers[id];
      if !state.sendVersion && !state.recvVersion && !state.sendVerack && !state.recvVerack {
        state.sendVersion := true;
      }
    }

    method OnNewConnection(id: PeerId, context: ConnectionContext, env: Env)
      returns (sent: seq<EventsHandleMessage>, left: bool)
      requires Valid()
      modifies this, setStatePeers.Values
      ensures Valid() && fresh(setStatePeers.Values - old(setStatePeers.Values))
      ensures Stepped(Tables(), sent, left) == NewConnection(old(Tables()), id, context, env)
    {
      sent := [];
      Register(id, context);
      assert id in Tables().contexts && id in Tables().states;
      var contextPeer := setContextPeers[id];
      if contextPeer.typeConnect.OutgoingConnection? {
        var built := BuildVersionMessage(contextPeer.localAddress, contextPeer.removeAddress, contextPeer.nonce,
                                         env.clock);
        if built.Some? {
          if !env.firstSend { return sent, true; }
          sent := [ReadyReply(id, Version(built.value))];
          MarkVersionSent(id);
        }
      }
      left := false;
    }

    method OnReadyMessage(id: PeerId, message: MessagePayload, env: Env) returns (sent: seq<EventsHandleMessage>)
      requires Valid()
      modifies setStatePeers.Values
      ensures Valid()
      ensures Stepped(Tables(), sent, false) == TablesStep(old(Tables()), Input(ReadyMessage(id, message), env))
    {
      sent := [];
      if id in setContextPeers {
        if id in setStatePeers {
          var error;
          sent, error := HandleMsg(id, message, setContextPeers[id], setStatePeers[id], env);
        }
      }
    }

    method OnCompletedPeer(id: PeerId)
      requires Valid()
      modifies this
      ensures Valid() && setStatePeers.Values <= old(setStatePeers.Values)
      ensures Tables() == Handshake.Tables(old(Tables()).contexts - {id}, old(Tables()).states - {id})
    {
      setContextPeers := setContextPeers - {id};
      setStatePeers := setStatePeers - {id};
    }

    method OnEvent(input: Input) returns (sent: seq<EventsHandleMessage>, left: bool)
      requires Valid()
      modifies this, setStatePeers.Values
      ensures Valid() && fresh(setStatePeers.Values - old(setStatePeers.Values))
      ensures Stepped(Tables(), sent, left) == TablesStep(old(Tables()), input)
    {
      sent, left := [], false;
      match input.event {
        case IncidentNewConnection(id, context) =>
          sent, left := OnNewConnection(id, context, input.env);
        case ReadyMessage(id, message) =>
          sent := OnReadyMessage(id, message, input.env);
        case IncidentCompletedAllPeer =>
          setContextPeers, setStatePeers := map[], map[];
        case IncidentCompletedPeer(id) =>
          OnCompletedPeer(id);
        case _ =>
      }
    }

    /** The source's loop; the outcomes of its select are given in the order in which they happen. */
    method Run(events: seq<LoopEvent>) returns (sent: seq<EventsHandleMessage>, end: LoopEnd)
      requires Valid() && Tables() == Handshake.START.tables
      modifies this, setStatePeers.Values
      ensures Valid()
      ensures Loop(Tables(), sent, end) == LoopRun(events)
    {
      hide TablesStep;
      sent := [];
      var i := 0;
      while i < |events|
        invariant i <= |events|
        invariant Valid() && fresh(setStatePeers.Values - old(setStatePeers.Values))
        invariant LoopRun(events[..i]) == Loop(Tables(), sent, Running)
      {
        assert events[..i + 1][..i] == events[..i];
        match events[i] {
          case FromPeerManager(input) =>
            var replies, left := OnEvent(input);
            sent := sent + replies;
            if left {
              LoopStays(events, i + 1);
              return sent, ErrorChannelPeerManagerClosed;
            }
          case PeerManagerDropped =>
            LoopStays(events, i + 1);
            return sent, ErrorChannelPeerManagerClosed;
          case ThreadShutdown =>
            LoopStays(events, i + 1);
            return sent, Finished;
          case ThreadDropped =>
            LoopStays(events, i + 1);
            return sent, ErrorChannelThreadProtocolClosed;
        }
        i := i + 1;
      }
      assert events[..i] == events;
      end := Running;
    }
  }
}
