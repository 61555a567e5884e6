/** The handshake of HandleMessage as a state machine over values: one peer's flags, and the tables of all peers. */
module Handshake {
  import opened Bytes
  import opened Wire
  import opened Wrappers
  import opened Events

  datatype Flags = Flags(
    sendVersion: bool,
    recvVerack: bool,
    sendVerack: bool,
    recvVersion: bool,
    completedHandshake: bool
  )

  const FRESH := Flags(false, false, false, false, false)

  predicate Untouched(f: Flags) {
    !f.sendVersion && !f.recvVersion && !f.sendVerack && !f.recvVerack
  }

  datatype ErrorHandle =
    | PeerManagerClosed
    | ErrorCreateVersionMessage
    | ErrorInvalidVersionMessage
    | ErrorInvalidStateVersion
    | ErrorInvalidStateVerack
    | ErrorInvalidStateHandshake

  /** The surroundings of one event: the clock, which fails before the epoch, and whether the sends succeed. */
  datatype Env = Env(clock: Option<U64>, firstSend: bool, secondSend: bool)

  datatype Handled = Handled(flags: Flags, sent: seq<EventsHandleMessage>, error: Option<ErrorHandle>)

  function Violent(id: PeerId, f: Flags, env: Env, error: ErrorHandle): Handled {
    if env.firstSend then Handled(f, [IncidentViolentCompletedPeer(id)], Some(error))
    else Handled(f, [], Some(PeerManagerClosed))
  }

  function Built(c: ConnectionContext, timestamp: U64): MessagePayload {
    Version(BuiltVersion(c.localAddress, c.removeAddress, c.nonce, timestamp))
  }

  /** What handling a message does to a peer's flags, and what it sends. */
  function Handle(id: PeerId, m: MessagePayload, c: ConnectionContext, f: Flags, env: Env): Handled {
    match m
    case Version(v) =>
      (match c.typeConnect
       case IncomingConnection =>
         if !Untouched(f) then Violent(id, f, env, ErrorInvalidStateVersion)
         else if !ValidVersion(v) then Handled(f, [], Some(ErrorInvalidVersionMessage))
         else
           var f1 := f.(recvVersion := true);
           if env.clock.None? then Handled(f1, [], Some(ErrorCreateVersionMessage))
           else if !env.firstSend then Handled(f1, [], Some(PeerManagerClosed))
           else
             var f2 := f1.(sendVersion := true);
             var version := ReadyReply(id, Built(c, env.clock.value));
             if !env.secondSend then Handled(f2, [version], Some(PeerManagerClosed))
             else Handled(f2.(sendVerack := true), [version, ReadyReply(id, Verack)], None)
       case OutgoingConnection =>
         if !ValidVersion(v) then Handled(f, [], Some(ErrorInvalidVersionMessage))
         else if f.sendVersion && !f.recvVersion && !f.sendVerack && !f.recvVerack then
           var f1 := f.(recvVersion := true);
           if !env.firstSend then Handled(f1, [], Some(PeerManagerClosed))
           else Handled(f1.(sendVerack := true), [ReadyReply(id, Verack)], None)
         else Violent(id, f, env, ErrorInvalidStateVersion))
    case Verack =>
      if f.recvVersion && f.sendVersion && f.sendVerack && !f.recvVerack then
        Handled(f.(recvVerack := true, completedHandshake := true), [], None)
      else Violent(id, f, env, ErrorInvalidStateVerack)
  }

  /** HandleMessage's two tables. */
  datatype Tables = Tables(contexts: map<PeerId, ConnectionContext>, states: map<PeerId, Flags>)

  datatype Input = Input(event: EventsPeerManager, env: Env)

  /** The tables after an event, what was sent, and whether the loop was left because a send failed. */
  datatype Stepped = Stepped(tables: Tables, sent: seq<EventsHandleMessage>, left: bool)

  function Opened(t: Tables, id: PeerId, c: ConnectionContext): Tables {
    Tables(if id in t.contexts then t.contexts else t.contexts[id := c],
           if id in t.states then t.states else t.states[id := FRESH])
  }

  /** An outgoing connection is announced to its peer with a version; a failed send leaves the loop. */
  function Announced(t: Tables, id: PeerId, env: Env): Stepped
    requires id in t.contexts && id in t.states
  {
    if t.contexts[id].typeConnect.IncomingConnection? || env.clock.None? then Stepped(t, [], false)
    else if !env.firstSend then Stepped(t, [], true)
    else
      var f := t.states[id];
      Stepped(t.(states := t.states[id := if Untouched(f) then f.(sendVersion := true) else f]),
              [ReadyReply(id, Built(t.contexts[id], env.clock.value))], false)
  }

  function NewConnection(t: Tables, id: PeerId, c: ConnectionContext, env: Env): Stepped {
    Announced(Opened(t, id, c), id, env)
  }

  function TablesStep(t: Tables, i: Input): Stepped {
    match i.event
    case IncidentNewConnection(id, c) => NewConnection(t, id, c, i.env)
    case ReadyMessage(id, m) =>
      if id in t.contexts && id in t.states then
        var r := Handle(id, m, t.contexts[id], t.states[id], i.env);
        Stepped(t.(states := t.states[id := r.flags]), r.sent, false)
      else Stepped(t, [], false)
    case IncidentCompletedPeer(id) => Stepped(Tables(t.contexts - {id}, t.states - {id}), [], false)
    case IncidentCompletedAllPeer => Stepped(Tables(map[], map[]), [], false)
    case _ => Stepped(t, [], false)
  }

  /** What one turn of the select loop sees. */
  datatype LoopEvent = FromPeerManager(input: Input) | PeerManagerDropped | ThreadShutdown | ThreadDropped

  datatype LoopEnd = Running | Finished | ErrorChannelThreadProtocolClosed | ErrorChannelPeerManagerClosed

  datatype Loop = Loop(tables: Tables, sent: seq<EventsHandleMessage>, end: LoopEnd)

  const START := Loop(Tables(map[], map[]), [], Running)

  function LoopStep(l: Loop, e: LoopEvent): Loop {
    if !l.end.Running? then l
    else match e
      case FromPeerManager(i) =>
        var r := TablesStep(l.tables, i);
        Loop(r.tables, l.sent + r.sent, if r.left then ErrorChannelPeerManagerClosed else Running)
      case PeerManagerDropped => l.(end := ErrorChannelPeerManagerClosed)
      case ThreadShutdown => l.(end := Finished)
      case ThreadDropped => l.(end := ErrorChannelThreadProtocolClosed)
  }

  function LoopRun(es: seq<LoopEvent>): Loop {
    if es == [] then START else LoopStep(LoopRun(es[..|es| - 1]), es[|es| - 1])
  }

  lemma {:induction false} LoopStays(es: seq<LoopEvent>, n: nat)
    requires n <= |es| && !LoopRun(es[..n]).end.Running?
    ensures LoopRun(es) == LoopRun(es[..n])
    decreases |es|
  {
    if n == |es| {
      assert es[..n] == es;
    } else {
      var init := es[..|es| - 1];
      assert init[..n] == es[..n];
      LoopStays(init, n);
    }
  }

  // ---- One peer's view ----

  datatype PeerView = Absent | Resident(context: ConnectionContext, flags: Flags)

  function ViewOf(t: Tables, p: PeerId): PeerView {
    if p in t.contexts && p in t.states then Resident(t.contexts[p], t.states[p]) else Absent
  }

  datatype PeerRun = PeerRun(view: PeerView, sent: seq<EventsHandleMessage>)

  function PeerAnnounced(p: PeerId, r: PeerView, env: Env): PeerRun
    requires r.Resident?
  {
    if r.context.typeConnect.IncomingConnection? || env.clock.None? || !env.firstSend then PeerRun(r, [])
    else PeerRun(if Untouched(r.flags) then r.(flags := r.flags.(sendVersion := true)) else r,
                 [ReadyReply(p, Built(r.context, env.clock.value))])
  }

  /** The machine of a single peer, which knows nothing of the others. */
  function PeerStep(p: PeerId, v: PeerView, i: Input): PeerRun {
    match i.event
    case IncidentNewConnection(_, c) =>
      PeerAnnounced(p, if v.Absent? then Resident(c, FRESH) else v, i.env)
    case ReadyMessage(_, m) =>
      if v.Absent? then PeerRun(v, [])
      else
        var r := Handle(p, m, v.context, v.flags, i.env);
        PeerRun(v.(flags := r.flags), r.sent)
    case IncidentCompletedPeer(_) => PeerRun(Absent, [])
    case IncidentCompletedAllPeer => PeerRun(Absent, [])
    case _ => PeerRun(v, [])
  }

  predicate Concerns(p: PeerId, e: EventsPeerManager) {
    match e
    case IncidentNewConnection(id, _) => id == p
    case ReadyMessage(id, _) => id == p
    case IncidentCompletedPeer(id) => id == p
    case IncidentCompletedAllPeer => true
    case _ => false
  }

  /** The events of a run that concern p. */
  function Mine(p: PeerId, es: seq<LoopEvent>): seq<Input> {
    if es == [] then []
    else
      var init, e := Mine(p, es[..|es| - 1]), es[|es| - 1];
      if e.FromPeerManager? && Concerns(p, e.input.event) then init + [e.input] else init
  }

  function Addressee(e: EventsHandleMessage): PeerId {
    if e.ReadyReply? then e.replyPeerid else e.violentPeerid
  }

  function SentTo(p: PeerId, sent: seq<EventsHandleMessage>): seq<EventsHandleMessage> {
    if sent == [] then []
    else
      var init, e := SentTo(p, sent[..|sent| - 1]), sent[|sent| - 1];
      if Addressee(e) == p then init + [e] else init
  }

  function PeerMachine(p: PeerId, inputs: seq<Input>): PeerRun {
    if inputs == [] then PeerRun(Absent, [])
    else
      var r := PeerMachine(p, inputs[..|inputs| - 1]);
      var s := PeerStep(p, r.view, inputs[|inputs| - 1]);
      PeerRun(s.view, r.sent + s.sent)
  }

  lemma {:induction false} SentToAppend(p: PeerId, s: seq<EventsHandleMessage>, t: seq<EventsHandleMessage>)
    ensures SentTo(p, s + t) == SentTo(p, s) + SentTo(p, t)
    decreases |t|
  {
    if t == [] {
      assert s + t == s;
    } else {
      assert (s + t)[..|s + t| - 1] == s + t[..|t| - 1];
      SentToAppend(p, s, t[..|t| - 1]);
    }
  }

  lemma {:induction false} SentToAll(p: PeerId, id: PeerId, s: seq<EventsHandleMessage>)
    requires forall k :: 0 <= k < |s| ==> Addressee(s[k]) == id
    ensures SentTo(p, s) == if p == id then s else []
  {
    if s == [] {
    } else {
      SentToAll(p, id, s[..|s| - 1]);
    }
  }

  predicate SameKeys(t: Tables) {
    t.contexts.Keys == t.states.Keys
  }

  lemma HandleAddressees(id: PeerId, m: MessagePayload, c: ConnectionContext, f: Flags, env: Env)
    ensures forall k :: 0 <= k < |Handle(id, m, c, f, env).sent| ==> Addressee(Handle(id, m, c, f, env).sent[k]) == id
  {
  }

  /** One event seen by one peer: its own machine's step when the event concerns it, nothing otherwise. */
  ghost predicate Projects(p: PeerId, t: Tables, i: Input) {
    var r := TablesStep(t, i);
    SameKeys(r.tables)
    && (!r.left ==>
          var s := if Concerns(p, i.event) then PeerStep(p, ViewOf(t, p), i) else PeerRun(ViewOf(t, p), []);
          ViewOf(r.tables, p) == s.view && SentTo(p, r.sent) == s.sent)
  }

  lemma OpenedView(p: PeerId, t: Tables, id: PeerId, c: ConnectionContext)
    requires SameKeys(t)
    ensures var o := Opened(t, id, c);
            SameKeys(o) && id in o.contexts
            && ViewOf(o, p) == if p == id && ViewOf(t, p).Absent? then Resident(c, FRESH) else ViewOf(t, p)
  {
  }

  lemma AnnouncedView(p: PeerId, t: Tables, id: PeerId, env: Env)
    requires SameKeys(t) && id in t.contexts
    ensures var r := Announced(t, id, env);
            SameKeys(r.tables)
            && (!r.left ==>
                  var s := if p == id then PeerAnnounced(p, ViewOf(t, p), env) else PeerRun(ViewOf(t, p), []);
                  ViewOf(r.tables, p) == s.view && SentTo(p, r.sent) == s.sent)
  {
    SentToAll(p, id, Announced(t, id, env).sent);
  }

  lemma NewConnectionProjects(p: PeerId, t: Tables, i: Input)
    requires SameKeys(t) && i.event.IncidentNewConnection?
    ensures Projects(p, t, i)
  {
    hide Opened, Announced, PeerAnnounced;
    var id := i.event.newPeerid;
    OpenedView(p, t, id, i.event.context);
    AnnouncedView(p, Opened(t, id, i.event.context), id, i.env);
  }

  lemma MessageProjects(p: PeerId, t: Tables, i: Input)
    requires SameKeys(t) && i.event.ReadyMessage?
    ensures Projects(p, t, i)
  {
    var id := i.event.peerid;
    if id in t.contexts {
      HandleAddressees(id, i.event.message, t.contexts[id], t.states[id], i.env);
    }
    hide Handle;
    SentToAll(p, id, TablesStep(t, i).sent);
  }

  lemma StepProjection(p: PeerId, t: Tables, i: Input)
    requires SameKeys(t)
    ensures Projects(p, t, i)
  {
    match i.event {
      case IncidentNewConnection(_, _) => NewConnectionProjects(p, t, i);
      case ReadyMessage(_, _) => MessageProjects(p, t, i);
      case _ =>
    }
  }

  /**
   * A run over any number of peers, seen by one of them, is the run of that peer's own machine
   * on the events that concern it; the other peers change nothing for it.
   */
  lemma {:induction false} SessionProjection(p: PeerId, es: seq<LoopEvent>)
    requires LoopRun(es).end.Running?
    ensures var l, r := LoopRun(es), PeerMachine(p, Mine(p, es));
            ViewOf(l.tables, p) == r.view && SentTo(p, l.sent) == r.sent && SameKeys(l.tables)
    decreases |es|
  {
    if es == [] {
    } else {
      var init, e := es[..|es| - 1], es[|es| - 1];
      SessionProjection(p, init);
      var l := LoopRun(init);
      StepProjection(p, l.tables, e.input);
      SentToAppend(p, l.sent, TablesStep(l.tables, e.input).sent);
      if Concerns(p, e.input.event) {
        assert Mine(p, es)[..|Mine(p, es)| - 1] == Mine(p, init);
      }
    }
  }

  // ---- One session: a new connection followed by messages ----

  /** The inputs of a session after its new connection. */
  predicate Messages(p: PeerId, hs: seq<Input>) {
    forall k :: 0 <= k < |hs| ==> hs[k].event.ReadyMessage? && hs[k].event.peerid == p
  }

  predicate BringsValidVersion(i: Input) {
    i.event.ReadyMessage? && i.event.message.Version? && ValidVersion(i.event.message.version)
  }

  predicate BringsVerack(i: Input) {
    i.event.ReadyMessage? && i.event.message.Verack?
  }

  /** Whether the new connection itself did what it should: an outgoing one needs the clock and the send. */
  predicate OpenedWell(kind: TypeConnection, env: Env) {
    kind.OutgoingConnection? ==> env.clock.Some? && env.firstSend
  }

  /** Whether the answer to the first valid version can be given. */
  predicate Answered(kind: TypeConnection, env: Env) {
    env.firstSend && (kind.IncomingConnection? ==> env.clock.Some? && env.secondSend)
  }

  predicate FirstValid(hs: seq<Input>, i: nat) {
    i < |hs| && BringsValidVersion(hs[i]) && forall k :: 0 <= k < i ==> !BringsValidVersion(hs[k])
  }

  ghost predicate VerackAfter(hs: seq<Input>, i: nat) {
    exists j: nat :: i < j < |hs| && BringsVerack(hs[j])
  }

  /** The session so far calls for a completed handshake. */
  ghost predicate CallsForCompletion(kind: TypeConnection, opening: Env, hs: seq<Input>) {
    OpenedWell(kind, opening)
    && exists i: nat :: FirstValid(hs, i) && Answered(kind, hs[i].env) && VerackAfter(hs, i)
  }

  function SessionRun(p: PeerId, c: ConnectionContext, opening: Env, hs: seq<Input>): PeerRun {
    PeerMachine(p, [Input(IncidentNewConnection(p, c), opening)] + hs)
  }

  lemma SessionRunStep(p: PeerId, c: ConnectionContext, opening: Env, hs: seq<Input>)
    requires hs != []
    ensures var r := SessionRun(p, c, opening, hs[..|hs| - 1]);
            var s := PeerStep(p, r.view, hs[|hs| - 1]);
            SessionRun(p, c, opening, hs) == PeerRun(s.view, r.sent + s.sent)
  {
    var all := [Input(IncidentNewConnection(p, c), opening)] + hs;
    assert all[..|all| - 1] == [Input(IncidentNewConnection(p, c), opening)] + hs[..|hs| - 1];
  }

  lemma SessionRunStart(p: PeerId, c: ConnectionContext, opening: Env)
    ensures var r := SessionRun(p, c, opening, []);
            r.view == Resident(c, if c.typeConnect.OutgoingConnection? && OpenedWell(c.typeConnect, opening)
                                  then FRESH.(sendVersion := true) else FRESH)
            && r.sent == if r.view.flags.sendVersion then [ReadyReply(p, Built(c, opening.clock.value))] else []
  {
    var i := Input(IncidentNewConnection(p, c), opening);
    assert [i] + [] == [i];
    assert PeerMachine(p, [i][..0]) == PeerRun(Absent, []);
  }

  /** The flags once the first valid version has been answered. */
  predicate Agreed(f: Flags) {
    f.sendVersion && f.recvVersion && f.sendVerack
  }

  /** Flags from which no message leads to completion. */
  predicate Stuck(kind: TypeConnection, f: Flags) {
    !f.completedHandshake && !f.recvVerack && !f.sendVerack
    && if kind.IncomingConnection? then f.recvVersion else (f.recvVersion || !f.sendVersion)
  }

  /** The flags while no valid version has come. */
  function Waiting(kind: TypeConnection): Flags {
    if kind.OutgoingConnection? then FRESH.(sendVersion := true) else FRESH
  }

  /** The flags once the first valid version has come, as message i. */
  ghost predicate FlagsAfter(kind: TypeConnection, hs: seq<Input>, i: nat, f: Flags) {
    FirstValid(hs, i)
    && if Answered(kind, hs[i].env) then Agreed(f) && f.recvVerack == f.completedHandshake == VerackAfter(hs, i)
       else Stuck(kind, f)
  }

  /** What the flags of a session say about its history. */
  ghost predicate FlagsTell(c: ConnectionContext, opening: Env, hs: seq<Input>, f: Flags) {
    if c.typeConnect.OutgoingConnection? && !OpenedWell(c.typeConnect, opening) then Stuck(c.typeConnect, f)
    else if forall k :: 0 <= k < |hs| ==> !BringsValidVersion(hs[k]) then f == Waiting(c.typeConnect)
    else exists i: nat :: FlagsAfter(c.typeConnect, hs, i, f)
  }

  lemma HandleStuck(p: PeerId, m: MessagePayload, c: ConnectionContext, f: Flags, env: Env)
    requires Stuck(c.typeConnect, f)
    ensures Stuck(c.typeConnect, Handle(p, m, c, f, env).flags)
  {
  }

  lemma HandleWaiting(p: PeerId, m: MessagePayload, c: ConnectionContext, env: Env)
    ensures var f := Handle(p, m, c, Waiting(c.typeConnect), env).flags;
            if m.Version? && ValidVersion(m.version) then
              if Answered(c.typeConnect, env) then Agreed(f) && !f.recvVerack && !f.completedHandshake
              else Stuck(c.typeConnect, f)
            else f == Waiting(c.typeConnect)
  {
  }

  lemma HandleAgreed(p: PeerId, m: MessagePayload, c: ConnectionContext, f: Flags, env: Env)
    requires Agreed(f) && f.recvVerack == f.completedHandshake
    ensures var g := Handle(p, m, c, f, env).flags;
            Agreed(g) && g.recvVerack == g.completedHandshake == (f.recvVerack || m.Verack?)
  {
  }

  lemma {:induction false} SessionFlags(p: PeerId, c: ConnectionContext, opening: Env, hs: seq<Input>)
    requires Messages(p, hs)
    ensures var v := SessionRun(p, c, opening, hs).view;
            v.Resident? && v.context == c && FlagsTell(c, opening, hs, v.flags)
    decreases |hs|
  {
    SessionRunStart(p, c, opening);
    if hs == [] {
    } else {
      var n := |hs| - 1;
      var init := hs[..n];
      SessionFlags(p, c, opening, init);
      SessionRunStep(p, c, opening, hs);
      FlagsTellStep(p, c, opening, hs, SessionRun(p, c, opening, init).view.flags);
    }
  }

  lemma FlagsTellStep(p: PeerId, c: ConnectionContext, opening: Env, hs: seq<Input>, f: Flags)
    requires hs != [] && Messages(p, hs)
    requires FlagsTell(c, opening, hs[..|hs| - 1], f)
    ensures var i := hs[|hs| - 1];
            FlagsTell(c, opening, hs, Handle(p, i.event.message, c, f, i.env).flags)
  {
    hide Handle;
    var n := |hs| - 1;
    var init, last, kind := hs[..n], hs[n], c.typeConnect;
    var m := last.event.message;
    if kind.OutgoingConnection? && !OpenedWell(kind, opening) {
      HandleStuck(p, m, c, f, last.env);
    } else if forall k :: 0 <= k < |init| ==> !BringsValidVersion(init[k]) {
      HandleWaiting(p, m, c, last.env);
      if BringsValidVersion(last) {
        assert FlagsAfter(kind, hs, n, Handle(p, m, c, f, last.env).flags);
      }
    } else {
      var i: nat :| FlagsAfter(kind, init, i, f);
      assert FirstValid(hs, i);
      VerackAfterStep(hs, i);
      if Answered(kind, init[i].env) {
        HandleAgreed(p, m, c, f, last.env);
      } else {
        HandleStuck(p, m, c, f, last.env);
      }
      assert FlagsAfter(kind, hs, i, Handle(p, m, c, f, last.env).flags);
    }
  }

  lemma VerackAfterStep(hs: seq<Input>, i: nat)
    requires i < |hs| - 1
    ensures VerackAfter(hs, i) <==> VerackAfter(hs[..|hs| - 1], i) || BringsVerack(hs[|hs| - 1])
  {
    var init := hs[..|hs| - 1];
    if VerackAfter(init, i) {
      var j: nat :| i < j < |init| && BringsVerack(init[j]);
      assert BringsVerack(hs[j]);
    }
    if VerackAfter(hs, i) {
      var j: nat :| i < j < |hs| && BringsVerack(hs[j]);
      assert j < |init| ==> BringsVerack(init[j]);
    }
  }

  /**
   * For any history of a session, in any surroundings, the handshake is completed exactly when the connection
   * opened well, the first valid version was answered, and a verack came later.
   */
  lemma ExactHandshake(p: PeerId, c: ConnectionContext, opening: Env, hs: seq<Input>)
    requires Messages(p, hs)
    ensures var v := SessionRun(p, c, opening, hs).view;
            v.Resident? && (v.flags.completedHandshake <==> CallsForCompletion(c.typeConnect, opening, hs))
  {
    SessionFlags(p, c, opening, hs);
    FirstValidUnique(hs);
  }

  lemma FirstValidUnique(hs: seq<Input>)
    ensures forall i: nat, j: nat :: FirstValid(hs, i) && FirstValid(hs, j) ==> i == j
  {
    forall i: nat, j: nat | FirstValid(hs, i) && FirstValid(hs, j)
      ensures i == j
    {
      var earlier := if i < j then i else j;
      assert BringsValidVersion(hs[earlier]);
    }
  }

  predicate AllWell(env: Env) {
    env.clock.Some? && env.firstSend && env.secondSend
  }

  /** When the clock and all sends succeed: completed exactly when some valid version is followed later by a verack. */
  lemma ExactHandshakeAllWell(p: PeerId, c: ConnectionContext, opening: Env, hs: seq<Input>)
    requires Messages(p, hs) && AllWell(opening) && forall k :: 0 <= k < |hs| ==> AllWell(hs[k].env)
    ensures var v := SessionRun(p, c, opening, hs).view;
            v.Resident?
            && (v.flags.completedHandshake
                <==> exists i: nat, j: nat :: 0 <= i < j < |hs| && BringsValidVersion(hs[i]) && BringsVerack(hs[j]))
  {
    ExactHandshake(p, c, opening, hs);
    if i: nat, j: nat :| 0 <= i < j < |hs| && BringsValidVersion(hs[i]) && BringsVerack(hs[j]) {
      var k := LeastValid(hs, i);
      assert VerackAfter(hs, k);
    }
  }

  lemma {:induction false} LeastValid(hs: seq<Input>, i: nat) returns (k: nat)
    requires i < |hs| && BringsValidVersion(hs[i])
    ensures k <= i && FirstValid(hs, k)
    decreases i
  {
    if j: nat :| 0 <= j < i && BringsValidVersion(hs[j]) {
      k := LeastValid(hs, j);
    } else {
      k := i;
    }
  }

  /** The same, in a run over any number of peers: it is this peer's own history that decides. */
  lemma ExactHandshakeAmongPeers(p: PeerId, es: seq<LoopEvent>, c: ConnectionContext, opening: Env, hs: seq<Input>)
    requires LoopRun(es).end.Running?
    requires Mine(p, es) == [Input(IncidentNewConnection(p, c), opening)] + hs && Messages(p, hs)
    ensures p in LoopRun(es).tables.states
    ensures LoopRun(es).tables.states[p].completedHandshake <==> CallsForCompletion(c.typeConnect, opening, hs)
  {
    SessionProjection(p, es);
    ExactHandshake(p, c, opening, hs);
  }

  /** A valid version has come, as message i or before. */
  ghost predicate Greeted(hs: seq<Input>) {
    exists i: nat :: FirstValid(hs, i)
  }

  /** A valid version has come, and a verack after it. */
  ghost predicate Settled(hs: seq<Input>) {
    exists i: nat :: FirstValid(hs, i) && VerackAfter(hs, i)
  }

  /**
   * The message is out of order after the history: a verack that is not the first one behind a valid version, or a
   * version behind a valid version, where an outgoing connection overlooks invalid ones.
   */
  ghost predicate Misplaced(kind: TypeConnection, hs: seq<Input>, m: MessagePayload) {
    if m.Verack? then !Greeted(hs) || Settled(hs)
    else Greeted(hs) && (kind.OutgoingConnection? ==> ValidVersion(m.version))
  }

  /**
   * When the clock and all sends succeed, a message gets its peer reported, and is refused for its order,
   * exactly when it is out of order.
   */
  lemma ReportedExactly(p: PeerId, c: ConnectionContext, opening: Env, hs: seq<Input>, m: MessagePayload, env: Env)
    requires Messages(p, hs) && AllWell(opening) && AllWell(env) && forall k :: 0 <= k < |hs| ==> AllWell(hs[k].env)
    ensures var v := SessionRun(p, c, opening, hs).view;
            v.Resident? && v.context == c
            && var r := Handle(p, m, c, v.flags, env);
               && (IncidentViolentCompletedPeer(p) in r.sent <==> Misplaced(c.typeConnect, hs, m))
               && (r.error == Some(if m.Verack? then ErrorInvalidStateVerack else ErrorInvalidStateVersion)
                   <==> Misplaced(c.typeConnect, hs, m))
  {
    SessionFlags(p, c, opening, hs);
    FirstValidUnique(hs);
    var f := SessionRun(p, c, opening, hs).view.flags;
    if k: nat :| k < |hs| && BringsValidVersion(hs[k]) {
      var i := LeastValid(hs, k);
      assert FlagsAfter(c.typeConnect, hs, i, f);
    } else {
      assert !Greeted(hs);
    }
    hide SessionRun, FlagsTell;
  }

  // ---- Which messages are answered, and which errors there are ----

  /** What a version sent for a connection shows: the remote address first, then the local one. */
  lemma BuiltForConnection(c: ConnectionContext, timestamp: U64)
    ensures Built(c, timestamp).Version?
    ensures BuiltOctets(VersionBytes(Built(c, timestamp).version), c.localAddress, c.removeAddress, c.nonce, timestamp)
  {
    BuiltVersionIsAccepted(c.localAddress, c.removeAddress, c.nonce, timestamp, []);
    hide BuiltOctets, VersionBytes, BuiltVersion;
  }

  /** The octets of a received version that a peer is answered for. */
  predicate Acceptable(s: seq<byte>) {
    VersionOf(s).Decoded? && 0 < VersionOf(s).used <= |s| && |s| >= 4
    && LeValue(s[0..4]) >= 70000 && s[VersionOf(s).used - 1] != 0
  }

  /**
   * A peer from which no valid version has come is answered for exactly the acceptable octets: an incoming one with a
   * version and a verack, an outgoing one, which has been sent its version, with a verack. For others nothing is sent.
   */
  lemma AnsweredExactly(p: PeerId, s: seq<byte>, c: ConnectionContext, env: Env)
    requires VersionOf(s).Decoded? && AllWell(env)
    ensures var r := Handle(p, Version(VersionOf(s).value), c, Waiting(c.typeConnect), env);
            if !Acceptable(s) then r == Handled(Waiting(c.typeConnect), [], Some(ErrorInvalidVersionMessage))
            else r.error.None? && Agreed(r.flags) && !r.flags.recvVerack && !r.flags.completedHandshake
                 && var version := ReadyReply(p, Built(c, env.clock.value));
                    r.sent == (if c.typeConnect.IncomingConnection? then [version] else []) + [ReadyReply(p, Verack)]
  {
    AcceptedOctets(s);
    hide VersionOf, Built;
  }

  /** The state in which the message is expected. */
  predicate InOrder(kind: TypeConnection, f: Flags, m: MessagePayload) {
    if m.Verack? then f.sendVersion && f.recvVersion && f.sendVerack && !f.recvVerack
    else f.sendVersion == kind.OutgoingConnection? && !f.recvVersion && !f.sendVerack && !f.recvVerack
  }

  /** A version that an outgoing connection overlooks, or an incoming one refuses, without minding the order. */
  predicate Refused(kind: TypeConnection, f: Flags, m: MessagePayload) {
    m.Version? && !ValidVersion(m.version) && (kind.OutgoingConnection? || InOrder(kind, f, m))
  }

  /** In whatever state and surroundings, the message has exactly the outcome that it should have. */
  lemma OutcomeExactly(p: PeerId, m: MessagePayload, c: ConnectionContext, f: Flags, env: Env)
    ensures var r, kind := Handle(p, m, c, f, env), c.typeConnect;
            && (r.error == Some(ErrorInvalidVersionMessage) <==> Refused(kind, f, m))
            && (r.error == Some(ErrorInvalidStateVersion)
                <==> m.Version? && !Refused(kind, f, m) && !InOrder(kind, f, m) && env.firstSend)
            && (r.error == Some(ErrorInvalidStateVerack) <==> m.Verack? && !InOrder(kind, f, m) && env.firstSend)
            && (r.error == Some(ErrorCreateVersionMessage)
                <==> m.Version? && kind.IncomingConnection? && !Refused(kind, f, m) && InOrder(kind, f, m)
                     && env.clock.None?)
            && r.error != Some(ErrorInvalidStateHandshake)
            && (IncidentViolentCompletedPeer(p) in r.sent
                <==> !Refused(kind, f, m) && !InOrder(kind, f, m) && env.firstSend)
            && (r.error.None? <==> !Refused(kind, f, m) && InOrder(kind, f, m) && (m.Version? ==> Answered(kind, env)))
            && (!InOrder(kind, f, m) || Refused(kind, f, m) ==> r.flags == f)
  {
  }

  // ---- Which event ends the loop ----

  /** The event is a new outgoing connection whose version is built, but cannot be sent. */
  predicate CannotAnnounce(t: Tables, i: Input) {
    && i.event.IncidentNewConnection? && i.env.clock.Some? && !i.env.firstSend
    && var id := i.event.newPeerid;
       (if id in t.contexts then t.contexts[id] else i.event.context).typeConnect.OutgoingConnection?
  }

  /** How the event ends the loop with these tables, if it does. */
  function EndOf(t: Tables, e: LoopEvent): LoopEnd {
    match e
    case FromPeerManager(i) => if CannotAnnounce(t, i) then ErrorChannelPeerManagerClosed else Running
    case PeerManagerDropped => ErrorChannelPeerManagerClosed
    case ThreadShutdown => Finished
    case ThreadDropped => ErrorChannelThreadProtocolClosed
  }

  lemma LeavesExactly(t: Tables, i: Input)
    ensures TablesStep(t, i).left <==> CannotAnnounce(t, i)
  {
    hide Handle;
  }

  /** The first event that ends the loop ends it as stated; until then it runs. */
  lemma LoopEndsExactly(es: seq<LoopEvent>, n: nat)
    requires n < |es| && LoopRun(es[..n]).end.Running?
    ensures var x := EndOf(LoopRun(es[..n]).tables, es[n]);
            if x.Running? then LoopRun(es[..n + 1]).end.Running? else LoopRun(es).end == x
  {
    hide LoopRun, LoopStep, EndOf;
    OneStep(es[..n + 1]);
    assert es[..n + 1][..n] == es[..n];
    StepEnds(LoopRun(es[..n]), es[n]);
    if !LoopRun(es[..n + 1]).end.Running? { LoopStays(es, n + 1); }
  }

  lemma OneStep(es: seq<LoopEvent>)
    requires es != []
    ensures LoopRun(es) == LoopStep(LoopRun(es[..|es| - 1]), es[|es| - 1])
  {
  }

  lemma StepEnds(l: Loop, e: LoopEvent)
    requires l.end.Running?
    ensures LoopStep(l, e).end == EndOf(l.tables, e)
  {
    if e.FromPeerManager? { LeavesExactly(l.tables, e.input); }
    hide TablesStep, CannotAnnounce;
  }

  // ---- What was sent tells the flags ----

  function Replies(sent: seq<EventsHandleMessage>): seq<MessagePayload> {
    if sent == [] then []
    else
      var init, e := Replies(sent[..|sent| - 1]), sent[|sent| - 1];
      if e.ReadyReply? then init + [e.reply] else init
  }

  lemma {:induction false} RepliesAppend(s: seq<EventsHandleMessage>, t: seq<EventsHandleMessage>)
    ensures Replies(s + t) == Replies(s) + Replies(t)
    decreases |t|
  {
    if t == [] {
      assert s + t == s;
    } else {
      assert (s + t)[..|s + t| - 1] == s + t[..|t| - 1];
      RepliesAppend(s, t[..|t| - 1]);
    }
  }

  lemma RepliesOfTwo(a: EventsHandleMessage, b: EventsHandleMessage)
    ensures Replies([a]) == if a.ReadyReply? then [a.reply] else []
    ensures Replies([a, b]) == Replies([a]) + Replies([b])
  {
    assert [a][..0] == [];
    assert [a, b] == [a] + [b];
    RepliesAppend([a], [b]);
  }

  /** The log is Version and Verack as far as the flags say, and the flags are ordered. */
  predicate LogMatches(f: Flags, log: seq<MessagePayload>) {
    && |log| == (if f.sendVersion then 1 else 0) + (if f.sendVerack then 1 else 0)
    && (f.sendVersion ==> log[0].Version? && ValidVersion(log[0].version))
    && (f.sendVerack ==> f.sendVersion && f.recvVersion && log[1] == Verack)
    && (f.recvVerack ==> f.sendVerack)
    && f.recvVerack == f.completedHandshake
  }

  predicate Grows(f: Flags, g: Flags) {
    && (f.sendVersion ==> g.sendVersion) && (f.recvVersion ==> g.recvVersion)
    && (f.sendVerack ==> g.sendVerack) && (f.recvVerack ==> g.recvVerack)
    && (f.completedHandshake ==> g.completedHandshake)
  }

  lemma RepliesOfHandled(id: PeerId, m: MessagePayload, c: ConnectionContext, f: Flags, env: Env)
    ensures var r := Handle(id, m, c, f, env);
            Replies(r.sent)
            == (if r.flags.sendVersion && !f.sendVersion then [Built(c, env.clock.GetOr(0))] else [])
               + (if r.flags.sendVerack && !f.sendVerack then [Verack] else [])
    ensures var r := Handle(id, m, c, f, env);
            r.flags.sendVersion && !f.sendVersion ==> env.clock.Some?
  {
    var r := Handle(id, m, c, f, env);
    assert Replies([]) == [];
    if |r.sent| == 1 {
      assert r.sent == [r.sent[0]];
      RepliesOfTwo(r.sent[0], r.sent[0]);
    } else if |r.sent| == 2 {
      assert r.sent == [r.sent[0], r.sent[1]];
      RepliesOfTwo(r.sent[0], r.sent[1]);
      RepliesOfTwo(r.sent[1], r.sent[1]);
    }
  }

  lemma HandledFlags(id: PeerId, m: MessagePayload, c: ConnectionContext, f: Flags, env: Env, log: seq<MessagePayload>)
    requires LogMatches(f, log)
    ensures var g := Handle(id, m, c, f, env).flags;
            && Grows(f, g) && g.recvVerack == g.completedHandshake
            && (g.sendVerack ==> g.sendVersion && g.recvVersion) && (g.recvVerack ==> g.sendVerack)
  {
  }

  lemma HandleKeepsLog(id: PeerId, m: MessagePayload, c: ConnectionContext, f: Flags, env: Env,
                       log: seq<MessagePayload>)
    requires LogMatches(f, log)
    ensures var r := Handle(id, m, c, f, env);
            LogMatches(r.flags, log + Replies(r.sent)) && Grows(f, r.flags)
  {
    hide Handle, Replies;
    RepliesOfHandled(id, m, c, f, env);
    HandledFlags(id, m, c, f, env, log);
  }

  /** On every history of a session, in any surroundings, the messages queued to the peer match its flags. */
  lemma {:induction false} SendLogMatchesFlags(p: PeerId, c: ConnectionContext, opening: Env, hs: seq<Input>)
    requires Messages(p, hs)
    ensures var r := SessionRun(p, c, opening, hs);
            r.view.Resident? && r.view.context == c && LogMatches(r.view.flags, Replies(r.sent))
    decreases |hs|
  {
    SessionRunStart(p, c, opening);
    if hs == [] {
      var r := SessionRun(p, c, opening, []);
      if r.view.flags.sendVersion { RepliesOfTwo(r.sent[0], r.sent[0]); }
    } else {
      var r, i := SessionRun(p, c, opening, hs[..|hs| - 1]), hs[|hs| - 1];
      SendLogMatchesFlags(p, c, opening, hs[..|hs| - 1]);
      SessionRunStep(p, c, opening, hs);
      HandleKeepsLog(p, i.event.message, c, r.view.flags, i.env, Replies(r.sent));
      RepliesAppend(r.sent, Handle(p, i.event.message, c, r.view.flags, i.env).sent);
    }
  }

  /** Every flag stays set as the session goes on; in particular completion is final. */
  lemma {:induction false} FlagsGrow(p: PeerId, c: ConnectionContext, opening: Env, hs: seq<Input>, n: nat)
    requires n <= |hs| && Messages(p, hs)
    ensures var v, w := SessionRun(p, c, opening, hs[..n]).view, SessionRun(p, c, opening, hs).view;
            v.Resident? && w.Resident? && Grows(v.flags, w.flags)
    decreases |hs|
  {
    SendLogMatchesFlags(p, c, opening, hs);
    SendLogMatchesFlags(p, c, opening, hs[..n]);
    if n == |hs| {
      assert hs[..n] == hs;
    } else {
      var init, i := hs[..|hs| - 1], hs[|hs| - 1];
      assert init[..n] == hs[..n];
      FlagsGrow(p, c, opening, init, n);
      SendLogMatchesFlags(p, c, opening, init);
      SessionRunStep(p, c, opening, hs);
      HandleKeepsLog(p, i.event.message, c, SessionRun(p, c, opening, init).view.flags, i.env,
                     Replies(SessionRun(p, c, opening, init).sent));
    }
  }
}
