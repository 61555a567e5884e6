/** The handshake of an outgoing and an incoming node joined by two message FIFOs. */
module TwoNodes {
  import opened Bytes
  import opened Wire
  import opened Wrappers
  import opened Events
  import opened Handshake

  /** The two ends: their ids for each other, and what they know of the connection. */
  datatype Setup = Setup(outId: PeerId, outContext: ConnectionContext, incId: PeerId, incContext: ConnectionContext)

  predicate Opposite(u: Setup) {
    u.outContext.typeConnect.OutgoingConnection? && u.incContext.typeConnect.IncomingConnection?
  }

  /** A FIFO with its history: the messages sent[handled..] are still on their way. */
  datatype Queue = Queue(sent: seq<MessagePayload>, handled: nat)

  /** Each node's view of its peer, the two FIFOs, and whether some node has reported the other as misbehaving. */
  datatype Duo = Duo(out: PeerView, inc: PeerView, toInc: Queue, toOut: Queue, violent: bool)

  const START := Duo(Absent, Absent, Queue([], 0), Queue([], 0), false)

  /** A node starts when its HandleMessage takes the new connection; it handles the next message afterwards. */
  datatype Action = StartOut(env: Env) | StartInc(env: Env) | DeliverOut(env: Env) | DeliverInc(env: Env)

  predicate Enabled(s: Duo, a: Action) {
    match a
    case StartOut(_) => s.out.Absent?
    case StartInc(_) => s.inc.Absent?
    case DeliverOut(_) => s.out.Resident? && s.toOut.handled < |s.toOut.sent|
    case DeliverInc(_) => s.inc.Resident? && s.toInc.handled < |s.toInc.sent|
  }

  /** One step of a node's own machine; the clock and the sends may fail. */
  function NodeStep(p: PeerId, v: PeerView, e: EventsPeerManager, env: Env): PeerRun {
    PeerStep(p, v, Input(e, env))
  }

  predicate Reports(sent: seq<EventsHandleMessage>) {
    exists k :: 0 <= k < |sent| && sent[k].IncidentViolentCompletedPeer?
  }

  function OutMoves(s: Duo, r: PeerRun, handled: nat): Duo {
    Duo(r.view, s.inc, s.toInc.(sent := s.toInc.sent + Replies(r.sent)), s.toOut.(handled := handled),
        s.violent || Reports(r.sent))
  }

  function IncMoves(s: Duo, r: PeerRun, handled: nat): Duo {
    Duo(s.out, r.view, s.toInc.(handled := handled), s.toOut.(sent := s.toOut.sent + Replies(r.sent)),
        s.violent || Reports(r.sent))
  }

  function Step(u: Setup, s: Duo, a: Action): Duo
    requires Enabled(s, a)
  {
    match a
    case StartOut(t) =>
      OutMoves(s, NodeStep(u.outId, s.out, IncidentNewConnection(u.outId, u.outContext), t), s.toOut.handled)
    case StartInc(t) =>
      IncMoves(s, NodeStep(u.incId, s.inc, IncidentNewConnection(u.incId, u.incContext), t), s.toInc.handled)
    case DeliverOut(t) =>
      OutMoves(s, NodeStep(u.outId, s.out, ReadyMessage(u.outId, s.toOut.sent[s.toOut.handled]), t),
               s.toOut.handled + 1)
    case DeliverInc(t) =>
      IncMoves(s, NodeStep(u.incId, s.inc, ReadyMessage(u.incId, s.toInc.sent[s.toInc.handled]), t),
               s.toInc.handled + 1)
  }

  /** The state after a sequence of actions, if each was enabled when it was taken. */
  function Run(u: Setup, actions: seq<Action>): Option<Duo> {
    if actions == [] then Some(START)
    else
      var n := |actions| - 1;
      match Run(u, actions[..n])
      case None => None
      case Some(s) => if Enabled(s, actions[n]) then Some(Step(u, s, actions[n])) else None
  }

  // ---- The stages of the handshake ----

  /** The outgoing node: absent, version sent, verack sent, completed. */
  function OutView(u: Setup, o: nat): PeerView {
    if o == 0 then Absent
    else if o == 1 then Resident(u.outContext, FRESH.(sendVersion := true))
    else if o == 2 then Resident(u.outContext, Flags(true, false, true, true, false))
    else Resident(u.outContext, Flags(true, true, true, true, true))
  }

  /** The incoming node: absent, resident, version and verack sent, completed. */
  function IncView(u: Setup, i: nat): PeerView {
    if i == 0 then Absent
    else if i == 1 then Resident(u.incContext, FRESH)
    else if i == 2 then Resident(u.incContext, Flags(true, false, true, true, false))
    else Resident(u.incContext, Flags(true, true, true, true, true))
  }

  function Progress(v: PeerView): nat {
    if v.Absent? then 0
    else if v.flags.completedHandshake then 3
    else if v.flags.sendVerack then 2
    else 1
  }

  function OutSent(o: nat): nat { if o >= 2 then 2 else o }
  function IncSent(i: nat): nat { if i >= 2 then 2 else 0 }
  function Consumed(stage: nat): nat { if stage >= 2 then stage - 1 else 0 }

  /** A version as this node builds it: valid, and 114 octets long. */
  predicate IsVersion(m: MessagePayload) {
    m.Version? && ValidVersion(m.version) && |VersionBytes(m.version)| == 114
  }

  /** The messages ever sent into a FIFO are an acceptable version and then a verack, as far as there are any. */
  predicate HandshakeMessages(ms: seq<MessagePayload>) {
    |ms| <= 2 && (|ms| > 0 ==> IsVersion(ms[0])) && (|ms| > 1 ==> ms[1] == Verack)
  }

  predicate Staged(q: Queue, sent: nat, handled: nat) {
    HandshakeMessages(q.sent) && |q.sent| == sent && q.handled == handled <= sent
  }

  /** What holds in every reachable state: the progress of the two nodes determines everything. */
  predicate Inv(u: Setup, s: Duo) {
    var o, i := Progress(s.out), Progress(s.inc);
    && !s.violent
    && s.out == OutView(u, o) && s.inc == IncView(u, i)
    && Staged(s.toInc, OutSent(o), Consumed(i))
    && Staged(s.toOut, IncSent(i), Consumed(o))
  }

  /** Steps that are left: the number of stages both nodes have still to go through. */
  function Remaining(s: Duo): int {
    6 - Progress(s.out) - Progress(s.inc)
  }

  lemma BuiltIsVersion(c: ConnectionContext, time: U64)
    ensures IsVersion(Built(c, time))
  {
  }

  /** The message that takes a node from stage k, which is 1 or 2, to the next. */
  predicate Expected(k: nat, m: MessagePayload) {
    if k == 1 then IsVersion(m) else m == Verack
  }

  lemma NothingReplied()
    ensures Replies([]) == [] && !Reports([])
  {
  }

  lemma OutStarts(u: Setup, env: Env)
    requires Opposite(u) && AllWell(env)
    ensures var r := NodeStep(u.outId, Absent, IncidentNewConnection(u.outId, u.outContext), env);
            r.view == OutView(u, 1) && Replies(r.sent) == [Built(u.outContext, env.clock.value)] && !Reports(r.sent)
  {
    var version := ReadyReply(u.outId, Built(u.outContext, env.clock.value));
    RepliesOfTwo(version, version);
  }

  lemma OutHandles(u: Setup, o: nat, m: MessagePayload, env: Env)
    requires Opposite(u) && AllWell(env) && 1 <= o <= 2 && Expected(o, m)
    ensures var r := NodeStep(u.outId, OutView(u, o), ReadyMessage(u.outId, m), env);
            r.view == OutView(u, o + 1) && Replies(r.sent) == (if o == 1 then [Verack] else []) && !Reports(r.sent)
  {
    var verack := ReadyReply(u.outId, Verack);
    RepliesOfTwo(verack, verack);
    NothingReplied();
  }

  lemma IncStarts(u: Setup, env: Env)
    requires Opposite(u) && AllWell(env)
    ensures var r := NodeStep(u.incId, Absent, IncidentNewConnection(u.incId, u.incContext), env);
            r.view == IncView(u, 1) && Replies(r.sent) == [] && !Reports(r.sent)
  {
    NothingReplied();
  }

  lemma IncHandles(u: Setup, i: nat, m: MessagePayload, env: Env)
    requires Opposite(u) && AllWell(env) && 1 <= i <= 2 && Expected(i, m)
    ensures var r := NodeStep(u.incId, IncView(u, i), ReadyMessage(u.incId, m), env);
            r.view == IncView(u, i + 1) && !Reports(r.sent)
            && Replies(r.sent) == (if i == 1 then [Built(u.incContext, env.clock.value), Verack] else [])
  {
    var version, verack := ReadyReply(u.incId, Built(u.incContext, env.clock.value)), ReadyReply(u.incId, Verack);
    RepliesOfTwo(version, verack);
    RepliesOfTwo(verack, verack);
    NothingReplied();
  }

  lemma OutStep(u: Setup, s: Duo, a: Action)
    requires Opposite(u) && AllWell(a.env) && Inv(u, s) && Enabled(s, a) && (a.StartOut? || a.DeliverOut?)
    ensures Inv(u, Step(u, s, a)) && Remaining(Step(u, s, a)) == Remaining(s) - 1
  {
    hide NodeStep, Replies, Reports, IsVersion;
    if a.StartOut? {
      OutStarts(u, a.env);
      BuiltIsVersion(u.outContext, a.env.clock.value);
    } else {
      OutHandles(u, Progress(s.out), s.toOut.sent[s.toOut.handled], a.env);
    }
  }

  lemma IncStep(u: Setup, s: Duo, a: Action)
    requires Opposite(u) && AllWell(a.env) && Inv(u, s) && Enabled(s, a) && (a.StartInc? || a.DeliverInc?)
    ensures Inv(u, Step(u, s, a)) && Remaining(Step(u, s, a)) == Remaining(s) - 1
  {
    hide NodeStep, Replies, Reports, IsVersion;
    if a.StartInc? {
      IncStarts(u, a.env);
    } else {
      IncHandles(u, Progress(s.inc), s.toInc.sent[s.toInc.handled], a.env);
      BuiltIsVersion(u.incContext, a.env.clock.value);
    }
  }

  lemma StepKeeps(u: Setup, s: Duo, a: Action)
    requires Opposite(u) && AllWell(a.env) && Inv(u, s) && Enabled(s, a)
    ensures Inv(u, Step(u, s, a)) && Remaining(Step(u, s, a)) == Remaining(s) - 1
  {
    if a.StartOut? || a.DeliverOut? { OutStep(u, s, a); } else { IncStep(u, s, a); }
  }

  /** The clock and all sends succeed all along. */
  predicate AlwaysWell(actions: seq<Action>) {
    forall k :: 0 <= k < |actions| ==> AllWell(actions[k].env)
  }

  /** In every interleaving no node is ever reported, and each action is one of at most six. */
  lemma {:induction false} HandshakeSafety(u: Setup, actions: seq<Action>)
    requires Opposite(u) && AlwaysWell(actions) && Run(u, actions).Some?
    ensures var s := Run(u, actions).value;
            Inv(u, s) && !s.violent && |actions| + Remaining(s) == 6 && Remaining(s) >= 0
    decreases |actions|
  {
    if actions == [] {
    } else {
      var n := |actions| - 1;
      HandshakeSafety(u, actions[..n]);
      StepKeeps(u, Run(u, actions[..n]).value, actions[n]);
    }
  }

  ghost predicate Maximal(s: Duo) {
    forall a :: !Enabled(s, a)
  }

  predicate BothCompleted(s: Duo) {
    s.out.Resident? && s.out.flags.completedHandshake && s.inc.Resident? && s.inc.flags.completedHandshake
  }

  /** A run can be continued exactly as long as the handshake is not completed on both sides. */
  lemma HandshakeCompletes(u: Setup, actions: seq<Action>)
    requires Opposite(u) && AlwaysWell(actions) && Run(u, actions).Some?
    ensures var s := Run(u, actions).value;
            (Maximal(s) <==> BothCompleted(s)) && (Maximal(s) <==> |actions| == 6)
  {
    HandshakeSafety(u, actions);
    var s := Run(u, actions).value;
    if Maximal(s) {
      var env := Env(None, false, false);
      assert !Enabled(s, StartOut(env)) && !Enabled(s, StartInc(env));
      assert !Enabled(s, DeliverOut(env)) && !Enabled(s, DeliverInc(env));
    }
  }

  // ---- In any surroundings ----

  /** What a node has ever sent matches its flags, and is the beginning of a handshake. */
  predicate Safe(c: ConnectionContext, v: PeerView, sent: seq<MessagePayload>) {
    if v.Absent? then sent == [] else v.context == c && LogMatches(v.flags, sent) && HandshakeMessages(sent)
  }

  predicate SafeInv(u: Setup, s: Duo) {
    && Safe(u.outContext, s.out, s.toInc.sent) && Safe(u.incContext, s.inc, s.toOut.sent)
    && s.toInc.handled <= |s.toInc.sent| && s.toOut.handled <= |s.toOut.sent|
  }

  lemma SafeStart(p: PeerId, c: ConnectionContext, env: Env)
    ensures var r := NodeStep(p, Absent, IncidentNewConnection(p, c), env);
            Safe(c, r.view, Replies(r.sent))
  {
    var r := NodeStep(p, Absent, IncidentNewConnection(p, c), env);
    NothingReplied();
    if r.sent != [] {
      BuiltIsVersion(c, env.clock.value);
      RepliesOfTwo(r.sent[0], r.sent[0]);
      assert r.sent == [r.sent[0]];
    }
    hide Replies, IsVersion;
  }

  lemma SafeHandle(p: PeerId, c: ConnectionContext, v: PeerView, m: MessagePayload, env: Env, sent: seq<MessagePayload>)
    requires v.Resident? && Safe(c, v, sent)
    ensures var r := NodeStep(p, v, ReadyMessage(p, m), env);
            Safe(c, r.view, sent + Replies(r.sent))
  {
    HandleKeepsLog(p, m, c, v.flags, env, sent);
    RepliesOfHandled(p, m, c, v.flags, env);
    BuiltIsVersion(c, env.clock.GetOr(0));
    hide Handle, Replies, IsVersion, ValidVersion;
  }

  lemma SafeStep(u: Setup, s: Duo, a: Action)
    requires SafeInv(u, s) && Enabled(s, a)
    ensures SafeInv(u, Step(u, s, a))
  {
    hide NodeStep, Replies, Reports, Safe;
    match a {
      case StartOut(env) => StartSafely(u.outId, u.outContext, s.out, s.toInc.sent, env);
      case StartInc(env) => StartSafely(u.incId, u.incContext, s.inc, s.toOut.sent, env);
      case DeliverOut(env) =>
        SafeHandle(u.outId, u.outContext, s.out, s.toOut.sent[s.toOut.handled], env, s.toInc.sent);
      case DeliverInc(env) =>
        SafeHandle(u.incId, u.incContext, s.inc, s.toInc.sent[s.toInc.handled], env, s.toOut.sent);
    }
  }

  lemma StartSafely(p: PeerId, c: ConnectionContext, v: PeerView, sent: seq<MessagePayload>, env: Env)
    requires v.Absent? && Safe(c, v, sent)
    ensures var r := NodeStep(p, v, IncidentNewConnection(p, c), env);
            Safe(c, r.view, sent + Replies(r.sent))
  {
    var r := NodeStep(p, Absent, IncidentNewConnection(p, c), env);
    SafeStart(p, c, env);
    assert [] + Replies(r.sent) == Replies(r.sent);
    hide NodeStep, Replies;
  }

  /** In any surroundings each node sends the beginning of a version that it built and a verack, as its flags say. */
  lemma {:induction false} SendsOnlyHandshake(u: Setup, actions: seq<Action>)
    requires Run(u, actions).Some?
    ensures SafeInv(u, Run(u, actions).value)
    decreases |actions|
  {
    if actions == [] {
    } else {
      hide SafeInv, Step, Enabled;
      var n := |actions| - 1;
      SendsOnlyHandshake(u, actions[..n]);
      SafeStep(u, Run(u, actions[..n]).value, actions[n]);
    }
  }
}
