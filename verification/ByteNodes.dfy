/**
 * The same two nodes joined by two byte streams: each write task puts the octets of its frames on a stream, as many
 * at a time as the socket takes, each read task takes chunks of any size from it. Every run at this level is a run of
 * the message FIFOs.
 */
module ByteNodes {
  import opened Bytes
  import opened Wire
  import opened Framing
  import opened Slices
  import opened Wrappers
  import opened Events
  import opened Handshake
  import TaskRead
  import TwoNodes

  const MAX_CHUNK: nat := 4096

  /**
   * One direction with its history: of the stream of all messages ever sent the first octets have been written,
   * octets in flight are on the wire, and of the messages the reader emitted the first ones have been handled.
   */
  datatype Pipe = Pipe(sent: seq<MessagePayload>, written: nat, wire: seq<byte>, reader: TaskRead.Reader, handled: nat)

  const EMPTY := Pipe([], 0, [], TaskRead.START, 0)

  datatype ByteDuo = ByteDuo(out: PeerView, inc: PeerView, toInc: Pipe, toOut: Pipe, violent: bool)

  const START := ByteDuo(Absent, Absent, EMPTY, EMPTY, false)

  datatype Action =
    | Node(action: TwoNodes.Action)
    | WriteToInc(toIncOctets: nat)
    | WriteToOut(toOutOctets: nat)
    | ReadAtInc(incOctets: nat)
    | ReadAtOut(outOctets: nat)

  // ---- One pipe ----

  predicate CanWrite(h: Checksum, p: Pipe, n: nat) {
    1 <= n && p.written + n <= |StreamBytes(h, p.sent)|
  }

  function Write(h: Checksum, p: Pipe, n: nat): Pipe
    requires CanWrite(h, p, n)
  {
    p.(written := p.written + n, wire := p.wire + StreamBytes(h, p.sent)[p.written..p.written + n])
  }

  predicate CanRead(p: Pipe, n: nat) {
    p.reader.end.Running? && 1 <= n <= |p.wire| && n <= MAX_CHUNK
  }

  function Read(h: Checksum, p: Pipe, n: nat): Pipe
    requires CanRead(p, n)
  {
    p.(reader := TaskRead.AfterRead(h, p.reader, p.wire[..n], true), wire := p.wire[n..])
  }

  predicate CanHandle(p: Pipe) {
    p.handled < |p.reader.emitted|
  }

  // ---- The two nodes ----

  predicate NodeEnabled(s: ByteDuo, a: TwoNodes.Action) {
    match a
    case StartOut(_) => s.out.Absent?
    case StartInc(_) => s.inc.Absent?
    case DeliverOut(_) => s.out.Resident? && CanHandle(s.toOut)
    case DeliverInc(_) => s.inc.Resident? && CanHandle(s.toInc)
  }

  predicate Enabled(h: Checksum, s: ByteDuo, a: Action) {
    match a
    case Node(na) => NodeEnabled(s, na)
    case WriteToInc(n) => CanWrite(h, s.toInc, n)
    case WriteToOut(n) => CanWrite(h, s.toOut, n)
    case ReadAtInc(n) => CanRead(s.toInc, n)
    case ReadAtOut(n) => CanRead(s.toOut, n)
  }

  function OutMoves(s: ByteDuo, r: PeerRun, handled: nat): ByteDuo {
    ByteDuo(r.view, s.inc, s.toInc.(sent := s.toInc.sent + Replies(r.sent)), s.toOut.(handled := handled),
            s.violent || TwoNodes.Reports(r.sent))
  }

  function IncMoves(s: ByteDuo, r: PeerRun, handled: nat): ByteDuo {
    ByteDuo(s.out, r.view, s.toInc.(handled := handled), s.toOut.(sent := s.toOut.sent + Replies(r.sent)),
            s.violent || TwoNodes.Reports(r.sent))
  }

  function NodeAction(u: TwoNodes.Setup, s: ByteDuo, a: TwoNodes.Action): ByteDuo
    requires NodeEnabled(s, a)
  {
    match a
    case StartOut(t) =>
      OutMoves(s, TwoNodes.NodeStep(u.outId, s.out, IncidentNewConnection(u.outId, u.outContext), t), s.toOut.handled)
    case StartInc(t) =>
      IncMoves(s, TwoNodes.NodeStep(u.incId, s.inc, IncidentNewConnection(u.incId, u.incContext), t), s.toInc.handled)
    case DeliverOut(t) =>
      var m := s.toOut.reader.emitted[s.toOut.handled];
      OutMoves(s, TwoNodes.NodeStep(u.outId, s.out, ReadyMessage(u.outId, m), t), s.toOut.handled + 1)
    case DeliverInc(t) =>
      var m := s.toInc.reader.emitted[s.toInc.handled];
      IncMoves(s, TwoNodes.NodeStep(u.incId, s.inc, ReadyMessage(u.incId, m), t), s.toInc.handled + 1)
  }

  function Step(h: Checksum, u: TwoNodes.Setup, s: ByteDuo, a: Action): ByteDuo
    requires Enabled(h, s, a)
  {
    match a
    case Node(na) => NodeAction(u, s, na)
    case WriteToInc(n) => s.(toInc := Write(h, s.toInc, n))
    case WriteToOut(n) => s.(toOut := Write(h, s.toOut, n))
    case ReadAtInc(n) => s.(toInc := Read(h, s.toInc, n))
    case ReadAtOut(n) => s.(toOut := Read(h, s.toOut, n))
  }

  function Run(h: Checksum, u: TwoNodes.Setup, actions: seq<Action>): Option<ByteDuo> {
    if actions == [] then Some(START)
    else
      var n := |actions| - 1;
      match Run(h, u, actions[..n])
      case None => None
      case Some(s) => if Enabled(h, s, actions[n]) then Some(Step(h, u, s, actions[n])) else None
  }

  // ---- The message level behind the byte level ----

  function QueueOf(p: Pipe): TwoNodes.Queue {
    TwoNodes.Queue(p.sent, p.handled)
  }

  function DuoOf(s: ByteDuo): TwoNodes.Duo {
    TwoNodes.Duo(s.out, s.inc, QueueOf(s.toInc), QueueOf(s.toOut), s.violent)
  }

  /** The node actions of a byte-level run. */
  function NodeActions(actions: seq<Action>): seq<TwoNodes.Action> {
    if actions == [] then []
    else
      var init, a := NodeActions(actions[..|actions| - 1]), actions[|actions| - 1];
      if a.Node? then init + [a.action] else init
  }

  // ---- What holds of a pipe ----

  predicate HasWholeFrame(h: Checksum, p: Pipe) {
    FrameOf(h, p.reader.buffer).Parsed?
  }

  /** What is still to come on the wire and has not been read. */
  function Ahead(h: Checksum, p: Pipe): seq<byte>
    requires p.written <= |StreamBytes(h, p.sent)|
  {
    p.wire + StreamBytes(h, p.sent)[p.written..]
  }

  /**
   * The reader has emitted a beginning of what was sent; while it runs, buffer, wire and what is to be written hold
   * the rest; it ends only by panicking; and a whole frame waits in its buffer only behind one that it has emitted.
   */
  predicate PipeInv(h: Checksum, p: Pipe) {
    var r := p.reader;
    && p.written <= |StreamBytes(h, p.sent)| && p.handled <= |r.emitted|
    && (r.end.Running? || r.end.TaskPanicked?)
    && r.emitted <= p.sent
    && (r.end.Running? ==> TaskRead.OnStream(h, p.sent, r, Ahead(h, p)))
    && (r.emitted == [] && r.end.Running? ==> !HasWholeFrame(h, p))
  }

  /** The reader is never more than one message behind what was sent, and keeps no whole frame waiting. */
  predicate Prompt(h: Checksum, p: Pipe) {
    |p.sent| <= p.handled + 1 && (p.reader.end.Running? ==> !HasWholeFrame(h, p))
  }

  /** More messages to send only lengthen what is ahead. */
  lemma OnStreamSent(h: Checksum, ms: seq<MessagePayload>, more: seq<MessagePayload>, r: TaskRead.Reader,
                     ahead: seq<byte>)
    requires TaskRead.OnStream(h, ms, r, ahead)
    ensures TaskRead.OnStream(h, ms + more, r, ahead + StreamBytes(h, more))
  {
    hide StreamBytes;
    var e := |r.emitted|;
    DropWithin(ms, more, e);
    StreamBytesAppend(h, ms[e..], more);
    var stray: seq<byte> := if e > 0 && ms[e - 1].Verack? then [0] else [];
    Associate(stray, StreamBytes(h, ms[e..]), StreamBytes(h, more));
    Associate(r.buffer, ahead, StreamBytes(h, more));
  }

  lemma AheadSent(h: Checksum, p: Pipe, more: seq<MessagePayload>)
    requires p.written <= |StreamBytes(h, p.sent)|
    ensures p.written <= |StreamBytes(h, p.sent + more)|
    ensures Ahead(h, p.(sent := p.sent + more)) == Ahead(h, p) + StreamBytes(h, more)
  {
    StreamBytesAppend(h, p.sent, more);
    hide StreamBytes;
    DropWithin(StreamBytes(h, p.sent), StreamBytes(h, more), p.written);
    Associate(p.wire, StreamBytes(h, p.sent)[p.written..], StreamBytes(h, more));
  }

  /** Writing changes nothing of what is ahead of the reader. */
  lemma WriteKeeps(h: Checksum, p: Pipe, n: nat)
    requires PipeInv(h, p) && CanWrite(h, p, n)
    ensures PipeInv(h, Write(h, p, n))
    ensures Prompt(h, p) ==> Prompt(h, Write(h, p, n))
  {
    hide FrameOf, StreamBytes, TaskRead.OnStream;
    var s, k := StreamBytes(h, p.sent), p.written;
    assert s[k..] == s[k..k + n] + s[k + n..];
    Associate(p.wire, s[k..k + n], s[k + n..]);
  }

  lemma HandshakeIsReadable(ms: seq<MessagePayload>)
    requires TwoNodes.HandshakeMessages(ms)
    ensures Readable(ms)
  {
  }

  /** What a read does: no parse error ever, a panic exactly when fewer than 24 octets are then buffered. */
  lemma ReadKeeps(h: Checksum, p: Pipe, n: nat)
    requires PipeInv(h, p) && CanRead(p, n) && TwoNodes.HandshakeMessages(p.sent)
    ensures PipeInv(h, Read(h, p, n))
    ensures Read(h, p, n).reader.end.TaskPanicked? <==> |p.reader.buffer| + n < LEN_HEADER_MESSAGE
    ensures Prompt(h, p) ==> Prompt(h, Read(h, p, n))
  {
    hide FrameOf, TaskRead.OnStream, Readable, StreamBytes;
    var r, s := p.reader, Read(h, p, n).reader;
    var chunk, rest := p.wire[..n], Ahead(h, Read(h, p, n));
    HandshakeIsReadable(p.sent);
    assert p.wire == chunk + p.wire[n..];
    Associate(chunk, p.wire[n..], StreamBytes(h, p.sent)[p.written..]);
    TaskRead.ReadOnStream(h, p.sent, r, chunk, rest);
    OnStreamEmitted(h, p.sent, s, rest);
    if Prompt(h, p) && s.end.Running? && FrameOf(h, r.buffer + chunk).Parsed? {
      assert |s.emitted| == |r.emitted| + 1;
      OnStreamAll(h, p.sent, s, rest);
    }
  }

  lemma OnStreamEmitted(h: Checksum, ms: seq<MessagePayload>, r: TaskRead.Reader, ahead: seq<byte>)
    ensures TaskRead.OnStream(h, ms, r, ahead) ==> r.emitted <= ms
  {
  }

  /** Once everything written has been emitted, no whole frame is left. */
  lemma OnStreamAll(h: Checksum, ms: seq<MessagePayload>, r: TaskRead.Reader, ahead: seq<byte>)
    requires TaskRead.OnStream(h, ms, r, ahead) && |r.emitted| == |ms|
    ensures !FrameOf(h, r.buffer).Parsed?
  {
    TaskRead.NoMoreFrames(h, ms, r.buffer, ahead);
  }

  /** With everything written and read, a message that was not emitted waits as a whole frame in the buffer. */
  lemma OnStreamRest(h: Checksum, ms: seq<MessagePayload>, r: TaskRead.Reader)
    requires TaskRead.OnStream(h, ms, r, []) && Readable(ms) && |r.emitted| < |ms|
    ensures FrameOf(h, r.buffer).Parsed?
  {
    hide FrameOf, Readable, FrameBytes;
    var e := |r.emitted|;
    TaskRead.BehindNext(h, ms, e);
    assert r.buffer + [] == r.buffer;
    ReadableAt(ms, e);
    FrameRoundTrip(h, ms[e], StreamBytes(h, ms[e + 1..]));
  }

  lemma ReadableAt(ms: seq<MessagePayload>, e: nat)
    requires Readable(ms) && e < |ms|
    ensures Fits(ms[e])
  {
  }

  // ---- The refinement ----

  /** What holds in every reachable state, whatever fails. */
  predicate SafeByteInv(h: Checksum, u: TwoNodes.Setup, s: ByteDuo) {
    TwoNodes.SafeInv(u, DuoOf(s)) && PipeInv(h, s.toInc) && PipeInv(h, s.toOut)
  }

  /** What holds besides when the clock and all sends succeed. */
  predicate ByteInv(h: Checksum, u: TwoNodes.Setup, s: ByteDuo) {
    SafeByteInv(h, u, s) && TwoNodes.Inv(u, DuoOf(s)) && Prompt(h, s.toInc)
  }

  predicate WellAction(a: Action) {
    a.Node? ==> AllWell(a.action.env)
  }

  /** The clock and all sends succeed all along. */
  predicate AlwaysWell(actions: seq<Action>) {
    forall k :: 0 <= k < |actions| ==> WellAction(actions[k])
  }

  /** A node action at the byte level is the same action at the message level. */
  lemma NodeActionRefines(u: TwoNodes.Setup, s: ByteDuo, a: TwoNodes.Action)
    requires NodeEnabled(s, a)
    requires s.toInc.reader.emitted <= s.toInc.sent && s.toOut.reader.emitted <= s.toOut.sent
    ensures TwoNodes.Enabled(DuoOf(s), a)
    ensures DuoOf(NodeAction(u, s, a)) == TwoNodes.Step(u, DuoOf(s), a)
  {
    hide TwoNodes.NodeStep, Replies, TwoNodes.Reports;
  }

  lemma EmittedWithinSent(h: Checksum, p: Pipe)
    requires PipeInv(h, p)
    ensures p.reader.emitted <= p.sent
  {
  }

  /** More messages sent, or more messages handled, keep what holds of a pipe. */
  lemma NodeKeepsPipe(h: Checksum, p: Pipe, q: Pipe)
    requires PipeInv(h, p)
    requires p.sent <= q.sent && q.written == p.written && q.wire == p.wire && q.reader == p.reader
    requires q.handled <= |p.reader.emitted|
    ensures PipeInv(h, q)
  {
    hide FrameOf, TaskRead.OnStream, StreamBytes;
    var more := q.sent[|p.sent|..];
    Rest(p.sent, q.sent);
    AheadSent(h, p, more);
    assert Ahead(h, q) == Ahead(h, p) + StreamBytes(h, more);
    hide Ahead;
    if p.reader.end.Running? { OnStreamSent(h, p.sent, more, p.reader, Ahead(h, p)); }
  }

  lemma NodeActionIsSafe(h: Checksum, u: TwoNodes.Setup, s: ByteDuo, a: TwoNodes.Action)
    requires SafeByteInv(h, u, s) && NodeEnabled(s, a)
    ensures SafeByteInv(h, u, NodeAction(u, s, a))
  {
    hide FrameOf, PipeInv, TwoNodes.NodeStep, Replies, TwoNodes.Reports, TwoNodes.SafeInv;
    EmittedWithinSent(h, s.toInc);
    EmittedWithinSent(h, s.toOut);
    NodeActionRefines(u, s, a);
    TwoNodes.SafeStep(u, DuoOf(s), a);
    var t := NodeAction(u, s, a);
    PipeBounds(h, s.toInc); PipeBounds(h, s.toOut);
    NodeKeepsPipe(h, s.toInc, t.toInc);
    NodeKeepsPipe(h, s.toOut, t.toOut);
  }

  lemma NodeActionKeeps(h: Checksum, u: TwoNodes.Setup, s: ByteDuo, a: TwoNodes.Action)
    requires TwoNodes.Opposite(u) && ByteInv(h, u, s) && NodeEnabled(s, a) && AllWell(a.env)
    ensures ByteInv(h, u, NodeAction(u, s, a))
  {
    NodeActionIsSafe(h, u, s, a);
    EmittedWithinSent(h, s.toInc);
    EmittedWithinSent(h, s.toOut);
    hide FrameOf, PipeInv, TwoNodes.NodeStep, Replies, TwoNodes.Reports, TwoNodes.SafeInv, TwoNodes.Inv;
    NodeActionRefines(u, s, a);
    TwoNodes.StepKeeps(u, DuoOf(s), a);
    OneAhead(u, DuoOf(NodeAction(u, s, a)));
  }

  lemma PipeBounds(h: Checksum, p: Pipe)
    requires PipeInv(h, p)
    ensures p.handled <= |p.reader.emitted|
  {
  }

  /** The outgoing node sends its verack only after the incoming node has handled its version. */
  lemma OneAhead(u: TwoNodes.Setup, s: TwoNodes.Duo)
    requires TwoNodes.Inv(u, s)
    ensures |s.toInc.sent| <= s.toInc.handled + 1
  {
  }

  lemma SafeSent(u: TwoNodes.Setup, s: TwoNodes.Duo)
    requires TwoNodes.SafeInv(u, s)
    ensures TwoNodes.HandshakeMessages(s.toInc.sent) && TwoNodes.HandshakeMessages(s.toOut.sent)
  {
  }

  lemma StepIsSafe(h: Checksum, u: TwoNodes.Setup, s: ByteDuo, a: Action)
    requires SafeByteInv(h, u, s) && Enabled(h, s, a)
    ensures SafeByteInv(h, u, Step(h, u, s, a))
  {
    SafeSent(u, DuoOf(s));
    hide FrameOf, FrameBytes, PipeInv, TwoNodes.NodeStep, NodeAction, TwoNodes.SafeInv, TwoNodes.HandshakeMessages;
    match a {
      case Node(na) => NodeActionIsSafe(h, u, s, na);
      case WriteToInc(n) => WriteKeeps(h, s.toInc, n);
      case WriteToOut(n) => WriteKeeps(h, s.toOut, n);
      case ReadAtInc(n) => ReadKeeps(h, s.toInc, n);
      case ReadAtOut(n) => ReadKeeps(h, s.toOut, n);
    }
  }

  lemma StepKeeps(h: Checksum, u: TwoNodes.Setup, s: ByteDuo, a: Action)
    requires TwoNodes.Opposite(u) && ByteInv(h, u, s) && Enabled(h, s, a) && WellAction(a)
    ensures ByteInv(h, u, Step(h, u, s, a))
  {
    SafeSent(u, DuoOf(s));
    StepIsSafe(h, u, s, a);
    hide FrameOf, FrameBytes, PipeInv, TwoNodes.NodeStep, NodeAction, Prompt;
    hide TwoNodes.SafeInv, TwoNodes.Inv, TwoNodes.HandshakeMessages;
    match a {
      case Node(na) => NodeActionKeeps(h, u, s, na);
      case WriteToInc(n) => WriteKeeps(h, s.toInc, n);
      case WriteToOut(n) =>
      case ReadAtInc(n) => ReadKeeps(h, s.toInc, n);
      case ReadAtOut(n) =>
    }
  }

  lemma StartKeeps(h: Checksum, u: TwoNodes.Setup)
    ensures ByteInv(h, u, START)
  {
  }

  /**
   * Every byte-level run, whatever the chunks and whatever fails, is a run of the message FIFOs with the same node
   * actions; in each of its states every reader has emitted a beginning of what the other node sent.
   */
  lemma {:induction false} ByteRunRefines(h: Checksum, u: TwoNodes.Setup, actions: seq<Action>)
    requires Run(h, u, actions).Some?
    ensures var s := Run(h, u, actions).value;
            && TwoNodes.Run(u, NodeActions(actions)) == Some(DuoOf(s))
            && s.toInc.reader.emitted <= s.toInc.sent && s.toOut.reader.emitted <= s.toOut.sent
            && SafeByteInv(h, u, s)
    decreases |actions|
  {
    hide FrameOf, PipeInv, TwoNodes.SafeInv, NodeAction, TwoNodes.Step, Write, Read;
    if actions == [] {
      StartKeeps(h, u);
    } else {
      var n := |actions| - 1;
      var init, a := actions[..n], actions[n];
      ByteRunRefines(h, u, init);
      var s := Run(h, u, init).value;
      StepIsSafe(h, u, s, a);
      StepRefines(h, u, s, a);
      if a.Node? {
        assert NodeActions(actions)[..|NodeActions(actions)| - 1] == NodeActions(init);
      }
    }
    var s := Run(h, u, actions).value;
    EmittedWithinSent(h, s.toInc);
    EmittedWithinSent(h, s.toOut);
  }

  lemma {:induction false} WellRunKeeps(h: Checksum, u: TwoNodes.Setup, actions: seq<Action>)
    requires TwoNodes.Opposite(u) && AlwaysWell(actions) && Run(h, u, actions).Some?
    ensures ByteInv(h, u, Run(h, u, actions).value)
    decreases |actions|
  {
    if actions == [] {
      StartKeeps(h, u);
    } else {
      hide ByteInv, Step, Enabled;
      var n := |actions| - 1;
      WellRunKeeps(h, u, actions[..n]);
      StepKeeps(h, u, Run(h, u, actions[..n]).value, actions[n]);
    }
  }

  lemma StepRefines(h: Checksum, u: TwoNodes.Setup, s: ByteDuo, a: Action)
    requires SafeByteInv(h, u, s) && Enabled(h, s, a)
    ensures if a.Node? then
              TwoNodes.Enabled(DuoOf(s), a.action) && DuoOf(Step(h, u, s, a)) == TwoNodes.Step(u, DuoOf(s), a.action)
            else DuoOf(Step(h, u, s, a)) == DuoOf(s)
  {
    hide FrameOf, FrameBytes, PipeInv, TwoNodes.NodeStep;
    EmittedWithinSent(h, s.toInc);
    EmittedWithinSent(h, s.toOut);
    if a.Node? { NodeActionRefines(u, s, a.action); }
  }

  /** In every reachable state a read never ends in a parse error, and panics exactly below 24 buffered octets. */
  lemma ReadsPanicExactly(h: Checksum, u: TwoNodes.Setup, actions: seq<Action>, n: nat)
    requires Run(h, u, actions).Some?
    ensures var s := Run(h, u, actions).value;
            && (CanRead(s.toInc, n) ==>
                  var e := Read(h, s.toInc, n).reader.end;
                  (e.Running? || e.TaskPanicked?)
                  && (e.TaskPanicked? <==> |s.toInc.reader.buffer| + n < LEN_HEADER_MESSAGE))
            && (CanRead(s.toOut, n) ==>
                  var e := Read(h, s.toOut, n).reader.end;
                  (e.Running? || e.TaskPanicked?)
                  && (e.TaskPanicked? <==> |s.toOut.reader.buffer| + n < LEN_HEADER_MESSAGE))
  {
    hide FrameOf, TwoNodes.IsVersion;
    ByteRunRefines(h, u, actions);
    var s := Run(h, u, actions).value;
    SafeSent(u, DuoOf(s));
    if CanRead(s.toInc, n) { ReadKeeps(h, s.toInc, n); }
    if CanRead(s.toOut, n) { ReadKeeps(h, s.toOut, n); }
  }

  // ---- Where byte-level runs end ----

  function Unwritten(h: Checksum, s: ByteDuo): int {
    |StreamBytes(h, s.toInc.sent)| - s.toInc.written + |StreamBytes(h, s.toOut.sent)| - s.toOut.written
  }

  function OnWires(s: ByteDuo): int {
    |s.toInc.wire| + |s.toOut.wire|
  }

  /**
   * No run goes on for ever: each step lowers the remaining stages, or else the unwritten octets, or else the
   * octets in flight.
   */
  lemma ByteProgress(h: Checksum, u: TwoNodes.Setup, s: ByteDuo, a: Action)
    requires TwoNodes.Opposite(u) && ByteInv(h, u, s) && Enabled(h, s, a) && WellAction(a)
    ensures var t := Step(h, u, s, a);
            var before, after := TwoNodes.Remaining(DuoOf(s)), TwoNodes.Remaining(DuoOf(t));
            && 0 <= after <= before && 0 <= Unwritten(h, t) && 0 <= OnWires(t)
            && (after == before ==> Unwritten(h, t) <= Unwritten(h, s))
            && (after == before && Unwritten(h, t) == Unwritten(h, s) ==> OnWires(t) < OnWires(s))
  {
    hide FrameOf, FrameBytes, TwoNodes.NodeStep, NodeAction, TaskRead.AfterRead;
    StepKeeps(h, u, s, a);
    StepRefines(h, u, s, a);
    if a.Node? { TwoNodes.StepKeeps(u, DuoOf(s), a.action); }
  }

  ghost predicate Maximal(h: Checksum, s: ByteDuo) {
    forall a :: !Enabled(h, s, a)
  }

  predicate Done(v: PeerView) {
    v.Resident? && v.flags.completedHandshake
  }

  predicate ReadersRun(s: ByteDuo) {
    s.toInc.reader.end.Running? && s.toOut.reader.end.Running?
  }

  predicate Still(h: Checksum, p: Pipe) {
    p.written == |StreamBytes(h, p.sent)| && p.wire == [] && p.handled == |p.reader.emitted|
  }

  lemma MaximalIsStill(h: Checksum, u: TwoNodes.Setup, s: ByteDuo)
    requires ByteInv(h, u, s) && Maximal(h, s) && ReadersRun(s)
    ensures s.out.Resident? && s.inc.Resident? && Still(h, s.toInc) && Still(h, s.toOut)
  {
    hide FrameOf, TwoNodes.Inv, StreamBytes, TaskRead.OnStream;
    var env := Env(None, false, false);
    assert !Enabled(h, s, Node(TwoNodes.StartOut(env))) && !Enabled(h, s, Node(TwoNodes.StartInc(env)));
    assert !Enabled(h, s, Node(TwoNodes.DeliverOut(env))) && !Enabled(h, s, Node(TwoNodes.DeliverInc(env)));
    assert !Enabled(h, s, WriteToInc(1)) && !Enabled(h, s, WriteToOut(1));
    assert !Enabled(h, s, ReadAtInc(1)) && !Enabled(h, s, ReadAtOut(1));
  }

  /** In a still pipe whose reader runs, all is emitted unless a whole frame waits in the buffer. */
  lemma StillPipe(h: Checksum, p: Pipe)
    requires PipeInv(h, p) && Still(h, p) && p.reader.end.Running? && TwoNodes.HandshakeMessages(p.sent)
    ensures HasWholeFrame(h, p) <==> p.handled < |p.sent|
    ensures p.handled == 0 ==> p.sent == []
  {
    hide FrameOf, TaskRead.OnStream, Readable, StreamBytes;
    HandshakeIsReadable(p.sent);
    assert Ahead(h, p) == [];
    if p.handled < |p.sent| {
      OnStreamRest(h, p.sent, p.reader);
    } else {
      OnStreamAll(h, p.sent, p.reader, []);
    }
  }

  /**
   * Where a run ends without a panic, the incoming node has completed its handshake; the outgoing node has
   * completed it exactly when its read task does not hold a whole frame that no further read will take out.
   */
  lemma QuietRunsCompleteExactly(h: Checksum, u: TwoNodes.Setup, actions: seq<Action>)
    requires TwoNodes.Opposite(u) && AlwaysWell(actions) && Run(h, u, actions).Some?
    requires Maximal(h, Run(h, u, actions).value) && ReadersRun(Run(h, u, actions).value)
    ensures var s := Run(h, u, actions).value;
            Done(s.inc) && (Done(s.out) <==> !HasWholeFrame(h, s.toOut))
  {
    hide FrameOf, PipeInv, TwoNodes.IsVersion;
    ByteRunRefines(h, u, actions);
    WellRunKeeps(h, u, actions);
    var s := Run(h, u, actions).value;
    MaximalIsStill(h, u, s);
    StillPipe(h, s.toInc);
    StillPipe(h, s.toOut);
  }

  // ---- Which reads lead to a completed handshake ----

  /** The lengths of the handshake's frames. */
  lemma FrameLengths(h: Checksum, ms: seq<MessagePayload>)
    requires TwoNodes.HandshakeMessages(ms)
    ensures |ms| > 0 ==> |FrameBytes(h, ms[0])| == 138
    ensures |ms| > 1 ==> |FrameBytes(h, ms[1])| == 25
    ensures |StreamBytes(h, ms)| == if |ms| == 0 then 0 else if |ms| == 1 then 138 else 163
  {
    hide FrameBytes;
    if |ms| > 0 {
      VersionFrameLength(h, ms[0]);
      if |ms| > 1 {
        VerackFrameLength(h);
        assert ms[1..] == [Verack];
        StreamBytesOne(h, Verack);
      } else {
        assert ms[1..] == [];
      }
    }
  }

  lemma VersionFrameLength(h: Checksum, m: MessagePayload)
    requires TwoNodes.IsVersion(m)
    ensures |FrameBytes(h, m)| == 138
  {
  }

  lemma VerackFrameLength(h: Checksum)
    ensures |FrameBytes(h, Verack)| == 25
  {
  }

  /** Octets on the stream that reach to the end of the next frame are parsed. */
  lemma WholeFrame(h: Checksum, p: Pipe, b: seq<byte>)
    requires p.written <= |StreamBytes(h, p.sent)|
    requires TaskRead.OnStream(h, p.sent, p.reader, Ahead(h, p)) && Readable(p.sent)
    requires b <= p.reader.buffer + Ahead(h, p) && |p.reader.emitted| < |p.sent|
    requires |b| >= |FrameBytes(h, p.sent[|p.reader.emitted|])|
    ensures FrameOf(h, b).Parsed?
  {
    hide FrameOf, FrameBytes, Readable;
    var e := |p.reader.emitted|;
    var f := FrameBytes(h, p.sent[e]);
    TaskRead.BehindNext(h, p.sent, e);
    ReadableAt(p.sent, e);
    assert f <= b;
    Rest(f, b);
    FrameRoundTrip(h, p.sent[e], b[|f|..]);
  }

  /** How many octets a run's last read at the outgoing node took, 0 if there was none. */
  function LastReadAtOut(actions: seq<Action>): nat {
    if actions == [] then 0
    else
      var a := actions[|actions| - 1];
      if a.ReadAtOut? then a.outOctets else LastReadAtOut(actions[..|actions| - 1])
  }

  /**
   * What the last read says of the reader: behind the version, a whole frame waits only if that read took more octets
   * than are left; behind the verack, it took one verack at most.
   */
  predicate ReadTells(h: Checksum, p: Pipe, last: nat) {
    p.reader.end.Running? ==>
      && (|p.reader.emitted| == 1 && HasWholeFrame(h, p) ==> last > |p.reader.buffer|)
      && (|p.reader.emitted| == 2 ==> last <= 25)
  }

  /** The read that completes the version: before it less than the version was there. */
  lemma FirstRead(h: Checksum, p: Pipe, n: nat)
    requires PipeInv(h, p) && CanRead(p, n) && TwoNodes.HandshakeMessages(p.sent)
    requires p.reader.emitted == [] && |Read(h, p, n).reader.emitted| == 1 && Read(h, p, n).reader.end.Running?
    ensures n > |Read(h, p, n).reader.buffer|
  {
    var r, b := p.reader, p.reader.buffer + p.wire[..n];
    var rest := Ahead(h, Read(h, p, n));
    ReadKeeps(h, p, n);
    HandshakeIsReadable(p.sent);
    FrameLengths(h, p.sent);
    if |r.buffer| >= 138 { WholeFrame(h, p, r.buffer); }
    TaskRead.BehindNext(h, p.sent, 0);
    hide FrameOf, FrameBytes, StreamBytes, Readable, TwoNodes.IsVersion;
    SplitWire(h, p, n);
    assert |b + rest| == 138 + |TaskRead.Behind(h, p.sent, 1)|;
  }

  lemma SplitWire(h: Checksum, p: Pipe, n: nat)
    requires CanRead(p, n) && p.written <= |StreamBytes(h, p.sent)|
    ensures p.reader.buffer + p.wire[..n] + Ahead(h, Read(h, p, n)) == p.reader.buffer + Ahead(h, p)
  {
    hide StreamBytes, TaskRead.AfterRead;
    assert p.wire == p.wire[..n] + p.wire[n..];
    Associate(p.wire[..n], p.wire[n..], StreamBytes(h, p.sent)[p.written..]);
    Associate(p.reader.buffer, p.wire[..n], Ahead(h, Read(h, p, n)));
  }

  /** Behind the version there is only one verack. */
  lemma SecondRead(h: Checksum, p: Pipe, n: nat)
    requires PipeInv(h, p) && CanRead(p, n) && TwoNodes.HandshakeMessages(p.sent)
    requires |p.reader.emitted| == 1 && |Read(h, p, n).reader.emitted| == 2 && Read(h, p, n).reader.end.Running?
    ensures n <= 25
  {
    ReadKeeps(h, p, n);
    HandshakeIsReadable(p.sent);
    FrameLengths(h, p.sent);
    TaskRead.BehindNext(h, p.sent, 1);
    hide FrameOf, FrameBytes, Readable, TwoNodes.IsVersion;
    assert p.sent[2..] == [];
  }

  lemma AllEmitted(h: Checksum, p: Pipe)
    requires PipeInv(h, p) && p.reader.end.Running? && TwoNodes.HandshakeMessages(p.sent) && |p.reader.emitted| == 2
    ensures p.written <= |StreamBytes(h, p.sent)| && |p.sent| == 2
    ensures p.reader.buffer + Ahead(h, p) == TaskRead.Behind(h, p.sent, 2)
  {
    hide FrameOf, StreamBytes, TaskRead.Behind, TwoNodes.IsVersion;
  }

  /** Behind the verack there is nothing to read on with. */
  lemma NoThirdRead(h: Checksum, p: Pipe, n: nat)
    requires PipeInv(h, p) && CanRead(p, n) && TwoNodes.HandshakeMessages(p.sent) && |p.reader.emitted| == 2
    ensures !Read(h, p, n).reader.end.Running?
  {
    AllEmitted(h, p);
    hide FrameOf, PipeInv, StreamBytes, TaskRead.Behind, TwoNodes.IsVersion;
    SplitWire(h, p, n);
    TaskRead.NoMoreFrames(h, p.sent, p.reader.buffer + p.wire[..n], Ahead(h, Read(h, p, n)));
  }

  lemma ReadTellsNext(h: Checksum, p: Pipe, n: nat)
    requires PipeInv(h, p) && CanRead(p, n) && TwoNodes.HandshakeMessages(p.sent)
    ensures ReadTells(h, Read(h, p, n), n)
  {
    hide FrameOf, PipeInv, TaskRead.OnStream, TwoNodes.IsVersion, StreamBytes, TaskRead.AfterRead;
    var q := Read(h, p, n);
    ReadKeeps(h, p, n);
    ReadAtMostOne(h, p, n);
    if |p.reader.emitted| == 2 { NoThirdRead(h, p, n); }
    if q.reader.end.Running? {
      EmittedWithinSent(h, q);
      if |p.reader.emitted| == 0 && |q.reader.emitted| == 1 {
        FirstRead(h, p, n);
      } else if |p.reader.emitted| == 1 && |q.reader.emitted| == 2 {
        SecondRead(h, p, n);
      }
    }
  }

  /** A read emits one message at most, and leaves no whole frame if it emits none. */
  lemma ReadAtMostOne(h: Checksum, p: Pipe, n: nat)
    requires CanRead(p, n)
    ensures var e, f := |p.reader.emitted|, |Read(h, p, n).reader.emitted|;
            f == e + 1 || (f == e && (Read(h, p, n).reader.end.Running? ==> !HasWholeFrame(h, Read(h, p, n))))
  {
    hide FrameOf;
  }

  lemma {:induction false} LastReadTells(h: Checksum, u: TwoNodes.Setup, actions: seq<Action>)
    requires Run(h, u, actions).Some?
    ensures ReadTells(h, Run(h, u, actions).value.toOut, LastReadAtOut(actions))
    decreases |actions|
  {
    hide FrameOf, PipeInv, NodeAction, Write, Read, StreamBytes, TwoNodes.IsVersion;
    if actions == [] {
    } else {
      var n := |actions| - 1;
      var s := Run(h, u, actions[..n]).value;
      ByteRunRefines(h, u, actions[..n]);
      LastReadTells(h, u, actions[..n]);
      SafeSent(u, DuoOf(s));
      if actions[n].ReadAtOut? {
        ReadTellsNext(h, s.toOut, actions[n].outOctets);
      } else {
        OthersKeepReader(h, u, s, actions[n]);
      }
    }
  }

  lemma OthersKeepReader(h: Checksum, u: TwoNodes.Setup, s: ByteDuo, a: Action)
    requires Enabled(h, s, a) && !a.ReadAtOut?
    ensures Step(h, u, s, a).toOut.reader == s.toOut.reader
  {
    hide TaskRead.AfterRead, TwoNodes.NodeStep, StreamBytes;
  }

  /**
   * Where a run ends without a panic, the outgoing node has completed its handshake exactly when its last read took no
   * more octets than one verack has: a read that brings the verack along with the version is the last one.
   */
  lemma LastReadDecides(h: Checksum, u: TwoNodes.Setup, actions: seq<Action>)
    requires TwoNodes.Opposite(u) && AlwaysWell(actions) && Run(h, u, actions).Some?
    requires Maximal(h, Run(h, u, actions).value) && ReadersRun(Run(h, u, actions).value)
    ensures var s := Run(h, u, actions).value;
            Done(s.inc) && (Done(s.out) <==> LastReadAtOut(actions) <= 25)
  {
    var s := Run(h, u, actions).value;
    hide FrameOf, PipeInv, Maximal, StreamBytes, Run, TwoNodes.IsVersion;
    ByteRunRefines(h, u, actions);
    WellRunKeeps(h, u, actions);
    QuietRunsCompleteExactly(h, u, actions);
    LastReadTells(h, u, actions);
    MaximalIsStill(h, u, s);
    StillPipe(h, s.toOut);
    LeftInStillPipe(h, s.toOut);
  }

  /** What a still pipe's reader holds behind the version is the verack. */
  lemma LeftInStillPipe(h: Checksum, p: Pipe)
    requires PipeInv(h, p) && Still(h, p) && TwoNodes.HandshakeMessages(p.sent)
    ensures p.reader.end.Running? && p.handled == 1 && |p.sent| == 2 ==> |p.reader.buffer| == 25
  {
    if p.reader.end.Running? && p.handled == 1 && |p.sent| == 2 {
      HandshakeIsReadable(p.sent);
      TaskRead.BehindNext(h, p.sent, 1);
      FrameLengths(h, p.sent);
      assert p.sent[2..] == [] && Ahead(h, p) == [];
    }
    hide FrameOf, FrameBytes, Readable;
  }

  // ---- The read sizes decide ----

  /** What a read task is about, told by counts alone. */
  datatype Count = Count(emitted: nat, buffered: nat, panicked: bool)

  /** A read of n octets: below 24 a panic; a version is taken out from 138 on, a verack behind it from 24 on. */
  function CountRead(c: Count, n: nat): Count {
    var b := c.buffered + n;
    if c.panicked then c
    else if b < 24 then Count(c.emitted, b, true)
    else if c.emitted == 0 && b >= 138 then Count(1, b - 138, false)
    else if c.emitted == 1 then Count(2, b - 24, false)
    else Count(c.emitted, b, false)
  }

  function CountReads(sizes: seq<nat>): Count {
    if sizes == [] then Count(0, 0, false) else CountRead(CountReads(sizes[..|sizes| - 1]), sizes[|sizes| - 1])
  }

  function ReadsAtOut(actions: seq<Action>): seq<nat> {
    if actions == [] then []
    else
      var init, a := ReadsAtOut(actions[..|actions| - 1]), actions[|actions| - 1];
      if a.ReadAtOut? then init + [a.outOctets] else init
  }

  function ReadsAtInc(actions: seq<Action>): seq<nat> {
    if actions == [] then []
    else
      var init, a := ReadsAtInc(actions[..|actions| - 1]), actions[|actions| - 1];
      if a.ReadAtInc? then init + [a.incOctets] else init
  }

  function CountOf(r: TaskRead.Reader): Count {
    Count(|r.emitted|, |r.buffer|, r.end.TaskPanicked?)
  }

  /** On the octets of a stream the next frame is taken out exactly when all that is drained of it is there. */
  lemma ParsedFromDrained(h: Checksum, ms: seq<MessagePayload>, e: nat, b: seq<byte>, ahead: seq<byte>)
    requires Readable(ms) && e < |ms| && b + ahead == TaskRead.Behind(h, ms, e)
    ensures FrameOf(h, b).Parsed? <==> |b| >= LEN_HEADER_MESSAGE + DrainedPayload(ms[e])
    ensures FrameOf(h, b).Parsed? ==> |Drained(FrameOf(h, b), b)| == |b| - LEN_HEADER_MESSAGE - DrainedPayload(ms[e])
  {
    TaskRead.BehindNext(h, ms, e);
    TaskRead.NextFrame(h, ms, e, b, ahead);
    ReadableAt(ms, e);
    DrainedFrame(h, ms[e..]);
    hide FrameOf, FrameBytes, StreamBytes, Readable, DrainedPayload;
    if |b| >= LEN_HEADER_MESSAGE + DrainedPayload(ms[e]) {
      assert b <= FrameBytes(h, ms[e]) + StreamBytes(h, ms[e + 1..]);
      FrameDrainable(h, ms[e], StreamBytes(h, ms[e + 1..]), b);
    }
  }

  lemma OnItsStream(h: Checksum, p: Pipe)
    requires PipeInv(h, p) && p.reader.end.Running?
    ensures p.written <= |StreamBytes(h, p.sent)| && |p.reader.emitted| <= |p.sent|
    ensures p.reader.buffer + Ahead(h, p) == TaskRead.Behind(h, p.sent, |p.reader.emitted|)
  {
    hide StreamBytes, FrameOf, Ahead, TaskRead.Behind;
  }

  /** On a stream nothing is refused. */
  lemma OutcomeOnStream(h: Checksum, ms: seq<MessagePayload>, e: nat, b: seq<byte>, ahead: seq<byte>)
    requires Readable(ms) && e <= |ms| && b + ahead == TaskRead.Behind(h, ms, e)
    ensures !FrameOf(h, b).Failed? && (FrameOf(h, b).Panicked? <==> |b| < LEN_HEADER_MESSAGE)
  {
    hide FrameOf, TaskRead.Behind, Readable;
    if e < |ms| { TaskRead.NextFrame(h, ms, e, b, ahead); } else { TaskRead.NoMoreFrames(h, ms, b, ahead); }
  }

  lemma CountsOfRead(h: Checksum, p: Pipe, n: nat)
    requires PipeInv(h, p) && CanRead(p, n) && TwoNodes.HandshakeMessages(p.sent)
    ensures CountOf(Read(h, p, n).reader) == CountRead(CountOf(p.reader), n)
  {
    var e, b, rest := |p.reader.emitted|, p.reader.buffer + p.wire[..n], Ahead(h, Read(h, p, n));
    OnItsStream(h, p);
    hide StreamBytes, Ahead, Readable, TaskRead.Behind, FrameOf, DrainedPayload, TwoNodes.IsVersion, PipeInv;
    ReadKeeps(h, p, n);
    HandshakeIsReadable(p.sent);
    SplitWire(h, p, n);
    DrainedLengths(p.sent);
    OutcomeOnStream(h, p.sent, e, b, rest);
    if e < |p.sent| {
      ParsedFromDrained(h, p.sent, e, b, rest);
    } else {
      TaskRead.NoMoreFrames(h, p.sent, b, rest);
    }
  }

  lemma DrainedLengths(ms: seq<MessagePayload>)
    requires TwoNodes.HandshakeMessages(ms)
    ensures |ms| > 0 ==> DrainedPayload(ms[0]) == 114
    ensures |ms| > 1 ==> DrainedPayload(ms[1]) == 0
  {
  }

  /** In every reachable state, whatever fails, the sizes of its reads say where a read task stands. */
  lemma {:induction false} ReadSizesTell(h: Checksum, u: TwoNodes.Setup, actions: seq<Action>)
    requires Run(h, u, actions).Some?
    ensures CountOf(Run(h, u, actions).value.toOut.reader) == CountReads(ReadsAtOut(actions))
    ensures CountOf(Run(h, u, actions).value.toInc.reader) == CountReads(ReadsAtInc(actions))
    decreases |actions|
  {
    hide FrameOf, PipeInv, NodeAction, Write, Read, StreamBytes, TwoNodes.HandshakeMessages, CountRead, CountOf;
    if actions == [] {
      NothingCounted();
    } else {
      var n := |actions| - 1;
      var s := Run(h, u, actions[..n]).value;
      ByteRunRefines(h, u, actions[..n]);
      ReadSizesTell(h, u, actions[..n]);
      SafeSent(u, DuoOf(s));
      match actions[n] {
        case ReadAtOut(k) =>
          CountsOfRead(h, s.toOut, k);
          assert ReadsAtOut(actions)[..|ReadsAtOut(actions)| - 1] == ReadsAtOut(actions[..n]);
        case ReadAtInc(k) =>
          CountsOfRead(h, s.toInc, k);
          assert ReadsAtInc(actions)[..|ReadsAtInc(actions)| - 1] == ReadsAtInc(actions[..n]);
        case _ =>
          NoRead(h, u, s, actions[n]);
      }
    }
  }

  lemma NothingCounted()
    ensures CountOf(TaskRead.START) == CountReads([])
  {
  }

  lemma NoRead(h: Checksum, u: TwoNodes.Setup, s: ByteDuo, a: Action)
    requires Enabled(h, s, a) && !a.ReadAtOut? && !a.ReadAtInc?
    ensures Step(h, u, s, a).toOut.reader == s.toOut.reader && Step(h, u, s, a).toInc.reader == s.toInc.reader
  {
    hide TwoNodes.NodeStep, StreamBytes;
  }

  /**
   * Where a run ends, in a panic or not, each node has completed its handshake exactly when the sizes of its reads
   * let it take out a version and a verack.
   */
  lemma ReadSizesDecide(h: Checksum, u: TwoNodes.Setup, actions: seq<Action>)
    requires TwoNodes.Opposite(u) && AlwaysWell(actions) && Run(h, u, actions).Some?
    requires Maximal(h, Run(h, u, actions).value)
    ensures var s := Run(h, u, actions).value;
            && (Done(s.out) <==> CountReads(ReadsAtOut(actions)).emitted == 2)
            && (Done(s.inc) <==> CountReads(ReadsAtInc(actions)).emitted == 2)
  {
    var s := Run(h, u, actions).value;
    ByteRunRefines(h, u, actions);
    WellRunKeeps(h, u, actions);
    ReadSizesTell(h, u, actions);
    AllHandled(h, s);
    PipeBounds(h, s.toOut); PipeBounds(h, s.toInc);
    hide FrameOf, PipeInv, Maximal, StreamBytes, Run, TwoNodes.IsVersion, CountReads, ReadsAtOut, ReadsAtInc;
  }

  lemma AllHandled(h: Checksum, s: ByteDuo)
    requires Maximal(h, s)
    ensures s.out.Resident? && s.inc.Resident? && !CanHandle(s.toOut) && !CanHandle(s.toInc)
  {
    hide StreamBytes;
    var env := Env(None, false, false);
    assert !Enabled(h, s, Node(TwoNodes.StartOut(env))) && !Enabled(h, s, Node(TwoNodes.StartInc(env)));
    assert !Enabled(h, s, Node(TwoNodes.DeliverOut(env))) && !Enabled(h, s, Node(TwoNodes.DeliverInc(env)));
  }

  // ---- Both ends of a run are possible ----

  lemma Go(h: Checksum, u: TwoNodes.Setup, actions: seq<Action>, s: ByteDuo, a: Action)
    returns (more: seq<Action>, t: ByteDuo)
    requires TwoNodes.Opposite(u) && Run(h, u, actions) == Some(s) && ByteInv(h, u, s) && AlwaysWell(actions)
    requires Enabled(h, s, a) && WellAction(a)
    ensures more == actions + [a] && t == Step(h, u, s, a)
    ensures Run(h, u, more) == Some(t) && ByteInv(h, u, t) && AlwaysWell(more)
  {
    hide Step, ByteInv, WellAction;
    more, t := actions + [a], Step(h, u, s, a);
    assert more[..|more| - 1] == actions;
    StepKeeps(h, u, s, a);
  }

  /** Where a pipe stands, by its counts. */
  predicate Stands(p: Pipe, sent: nat, written: nat, wire: nat, emitted: nat, handled: nat) {
    |p.sent| == sent && p.written == written && |p.wire| == wire && |p.reader.emitted| == emitted
    && p.handled == handled && p.reader.end.Running?
  }

  /** Taking the whole wire in one read emits the next message if it is all there, and only that one. */
  lemma ReadWire(h: Checksum, p: Pipe)
    requires PipeInv(h, p) && TwoNodes.HandshakeMessages(p.sent)
    requires CanRead(p, |p.wire|) && |p.reader.emitted| < |p.sent|
    requires |p.wire| >= |FrameBytes(h, p.sent[|p.reader.emitted|])|
    ensures var q := Read(h, p, |p.wire|);
            q.wire == [] && q.reader.end.Running? && |q.reader.emitted| == |p.reader.emitted| + 1
  {
    var ms, e, b := p.sent, |p.reader.emitted|, p.reader.buffer + p.wire;
    HandshakeIsReadable(ms);
    ReadableAt(ms, e);
    WholeFrame(h, p, b);
    hide FrameOf, FrameBytes;
    assert p.wire[..|p.wire|] == p.wire;
  }

  /** Both nodes have started, the incoming one has answered the version, and its answer is not written yet. */
  predicate Answered(s: ByteDuo) {
    && TwoNodes.Progress(s.out) == 1 && TwoNodes.Progress(s.inc) == 2
    && Stands(s.toInc, 1, 138, 0, 1, 1) && Stands(s.toOut, 2, 0, 0, 0, 0)
  }

  lemma Moves(h: Checksum, u: TwoNodes.Setup, s: ByteDuo, a: TwoNodes.Action)
    requires TwoNodes.Opposite(u) && ByteInv(h, u, s) && NodeEnabled(s, a) && AllWell(a.env)
    ensures var t := NodeAction(u, s, a);
            && TwoNodes.Progress(t.out) == TwoNodes.Progress(s.out) + (if a.StartOut? || a.DeliverOut? then 1 else 0)
            && TwoNodes.Progress(t.inc) == TwoNodes.Progress(s.inc) + (if a.StartInc? || a.DeliverInc? then 1 else 0)
            && t.toInc.(sent := [], handled := 0) == s.toInc.(sent := [], handled := 0)
            && t.toOut.(sent := [], handled := 0) == s.toOut.(sent := [], handled := 0)
  {
    hide FrameOf, PipeInv, TwoNodes.NodeStep, Replies, TwoNodes.Reports, TwoNodes.IsVersion;
    EmittedWithinSent(h, s.toInc);
    EmittedWithinSent(h, s.toOut);
    NodeActionRefines(u, s, a);
    TwoNodes.StepKeeps(u, DuoOf(s), a);
  }

  lemma RunToAnswer(h: Checksum, u: TwoNodes.Setup, env: Env) returns (actions: seq<Action>, s: ByteDuo)
    requires TwoNodes.Opposite(u) && AllWell(env)
    ensures AlwaysWell(actions) && Run(h, u, actions) == Some(s) && ByteInv(h, u, s) && Answered(s)
  {
    hide FrameOf, FrameBytes, StreamBytes, PipeInv, NodeAction, TwoNodes.IsVersion, TaskRead.AfterRead, Prompt, Run;
    assert Run(h, u, []) == Some(START) by { NothingRun(h, u); }
    StartKeeps(h, u);
    actions, s := [], START;
    Moves(h, u, s, TwoNodes.StartOut(env));
    actions, s := Go(h, u, actions, s, Node(TwoNodes.StartOut(env)));
    Moves(h, u, s, TwoNodes.StartInc(env));
    actions, s := Go(h, u, actions, s, Node(TwoNodes.StartInc(env)));
    assert Stands(s.toInc, 1, 0, 0, 0, 0);
    FrameLengths(h, s.toInc.sent);
    actions, s := Go(h, u, actions, s, WriteToInc(138));
    assert Stands(s.toInc, 1, 138, 138, 0, 0);
    ReadWire(h, s.toInc);
    actions, s := Go(h, u, actions, s, ReadAtInc(138));
    assert Stands(s.toInc, 1, 138, 0, 1, 0);
    Moves(h, u, s, TwoNodes.DeliverInc(env));
    actions, s := Go(h, u, actions, s, Node(TwoNodes.DeliverInc(env)));
  }

  lemma NothingRun(h: Checksum, u: TwoNodes.Setup)
    ensures Run(h, u, []) == Some(START)
  {
  }

  /** From the outgoing node's verack on: written, read and handled, it completes the incoming node's handshake. */
  lemma RunToIncDone(h: Checksum, u: TwoNodes.Setup, env: Env, before: seq<Action>, r: ByteDuo)
    returns (actions: seq<Action>, s: ByteDuo)
    requires TwoNodes.Opposite(u) && AllWell(env)
    requires Run(h, u, before) == Some(r) && ByteInv(h, u, r) && AlwaysWell(before)
    requires Stands(r.toInc, 2, 138, 0, 1, 1) && TwoNodes.Progress(r.inc) == 2
    ensures AlwaysWell(actions) && Run(h, u, actions) == Some(s) && ByteInv(h, u, s)
    ensures s.out == r.out && s.toOut == r.toOut.(sent := s.toOut.sent) && Stands(s.toInc, 2, 163, 0, 2, 2)
    ensures TwoNodes.Progress(s.inc) == 3
  {
    hide FrameOf, FrameBytes, StreamBytes, PipeInv, NodeAction, TwoNodes.IsVersion, TaskRead.AfterRead, Prompt, Run;
    actions, s := before, r;
    FrameLengths(h, s.toInc.sent);
    actions, s := Go(h, u, actions, s, WriteToInc(25));
    ReadWire(h, s.toInc);
    actions, s := Go(h, u, actions, s, ReadAtInc(25));
    Moves(h, u, s, TwoNodes.DeliverInc(env));
    IncMovesKeepOut(h, u, s, TwoNodes.DeliverInc(env));
    actions, s := Go(h, u, actions, s, Node(TwoNodes.DeliverInc(env)));
  }

  lemma IncMovesKeepOut(h: Checksum, u: TwoNodes.Setup, s: ByteDuo, a: TwoNodes.Action)
    requires NodeEnabled(s, a) && (a.StartInc? || a.DeliverInc?)
    ensures NodeAction(u, s, a).out == s.out && NodeAction(u, s, a).toOut.handled == s.toOut.handled
  {
  }

  lemma NothingLeftToWrite(h: Checksum, u: TwoNodes.Setup, s: ByteDuo)
    requires ByteInv(h, u, s) && |s.toInc.sent| == 2 && |s.toOut.sent| == 2
    requires s.toInc.written == 163 && s.toOut.written == 163
    ensures forall n :: !CanWrite(h, s.toInc, n) && !CanWrite(h, s.toOut, n)
  {
    FrameLengths(h, s.toInc.sent);
    FrameLengths(h, s.toOut.sent);
    hide StreamBytes;
  }

  /**
   * When the incoming node's version and verack reach the outgoing node in one read, and no other read follows,
   * the run ends with the verack still buffered and the outgoing handshake not completed.
   */
  lemma CoalescedReadStalls(h: Checksum, u: TwoNodes.Setup, env: Env) returns (actions: seq<Action>)
    requires TwoNodes.Opposite(u) && AllWell(env)
    ensures AlwaysWell(actions) && Run(h, u, actions).Some?
    ensures var s := Run(h, u, actions).value;
            Maximal(h, s) && ReadersRun(s) && Done(s.inc) && !Done(s.out)
  {
    hide FrameOf, FrameBytes, StreamBytes, PipeInv, NodeAction, TwoNodes.IsVersion, TaskRead.AfterRead, Prompt, Run;
    var s;
    actions, s := RunToAnswer(h, u, env);
    FrameLengths(h, s.toOut.sent);
    actions, s := Go(h, u, actions, s, WriteToOut(163));
    assert Stands(s.toOut, 2, 163, 163, 0, 0);
    ReadWire(h, s.toOut);
    actions, s := Go(h, u, actions, s, ReadAtOut(163));
    Moves(h, u, s, TwoNodes.DeliverOut(env));
    actions, s := Go(h, u, actions, s, Node(TwoNodes.DeliverOut(env)));
    actions, s := RunToIncDone(h, u, env, actions, s);
    assert Stands(s.toOut, 2, 163, 0, 1, 1);
    NothingLeftToWrite(h, u, s);
  }

  /** Written and read one by one, the same messages complete both handshakes. */
  lemma SeparateReadsComplete(h: Checksum, u: TwoNodes.Setup, env: Env) returns (actions: seq<Action>)
    requires TwoNodes.Opposite(u) && AllWell(env)
    ensures AlwaysWell(actions) && Run(h, u, actions).Some?
    ensures var s := Run(h, u, actions).value;
            Maximal(h, s) && ReadersRun(s) && Done(s.inc) && Done(s.out)
  {
    hide FrameOf, FrameBytes, StreamBytes, PipeInv, NodeAction, TwoNodes.IsVersion, TaskRead.AfterRead, Prompt, Run;
    var s;
    actions, s := RunToAnswer(h, u, env);
    FrameLengths(h, s.toOut.sent);
    actions, s := Go(h, u, actions, s, WriteToOut(138));
    ReadWire(h, s.toOut);
    actions, s := Go(h, u, actions, s, ReadAtOut(138));
    Moves(h, u, s, TwoNodes.DeliverOut(env));
    actions, s := Go(h, u, actions, s, Node(TwoNodes.DeliverOut(env)));
    FrameLengths(h, s.toOut.sent);
    actions, s := Go(h, u, actions, s, WriteToOut(25));
    ReadWire(h, s.toOut);
    actions, s := Go(h, u, actions, s, ReadAtOut(25));
    Moves(h, u, s, TwoNodes.DeliverOut(env));
    actions, s := Go(h, u, actions, s, Node(TwoNodes.DeliverOut(env)));
    actions, s := RunToIncDone(h, u, env, actions, s);
    NothingLeftToWrite(h, u, s);
  }
}
