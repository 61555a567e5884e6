/** The write task: messages taken from the peer's channel become octets on the socket. */
module TaskWrite {
  import opened Bytes
  import opened Wire
  import opened Framing
  import opened Slices

  /** How the two socket writes of one message end: both done, or cut after n octets of header or payload. */
  datatype SocketWrite = Written | HeaderCut(n: nat) | PayloadCut(n: nat)

  datatype WriteEvent =
    | LowLevelMessage(message: MessagePayload, socket: SocketWrite)
    | Shutdown
    | OtherEvent
    | ChannelClosed

  datatype WriteEnd = Running | Successful | ErrorInputOutput | ErrorChannelPeerClosed

  /** The octets written so far, the messages taken from the channel, and whether the task has returned. */
  datatype Writer = Writer(wire: seq<byte>, taken: seq<MessagePayload>, end: WriteEnd)

  const START := Writer([], [], Running)

  function Cut(s: seq<byte>, n: nat): seq<byte> {
    if n <= |s| then s[..n] else s
  }

  function WriterStep(h: Checksum, w: Writer, e: WriteEvent): Writer {
    if !w.end.Running? then w
    else match e
      case LowLevelMessage(m, Written) => w.(wire := w.wire + HeaderOf(h, m) + Payload(m), taken := w.taken + [m])
      case LowLevelMessage(m, HeaderCut(n)) =>
        Writer(w.wire + Cut(HeaderOf(h, m), n), w.taken + [m], ErrorInputOutput)
      case LowLevelMessage(m, PayloadCut(n)) =>
        Writer(w.wire + HeaderOf(h, m) + Cut(Payload(m), n), w.taken + [m], ErrorInputOutput)
      case Shutdown => w.(end := Successful)
      case OtherEvent => w
      case ChannelClosed => w.(end := ErrorChannelPeerClosed)
  }

  function WriterRun(h: Checksum, es: seq<WriteEvent>): Writer {
    if es == [] then START else WriterStep(h, WriterRun(h, es[..|es| - 1]), es[|es| - 1])
  }

  lemma {:induction false} WriterStays(h: Checksum, es: seq<WriteEvent>, n: nat)
    requires n <= |es| && !WriterRun(h, es[..n]).end.Running?
    ensures WriterRun(h, es) == WriterRun(h, es[..n])
    decreases |es|
  {
    if n == |es| {
      assert es[..n] == es;
    } else {
      var init := es[..|es| - 1];
      assert init[..n] == es[..n];
      WriterStays(h, init, n);
    }
  }

  /** The source's loop; the receive outcomes are given in the order in which they happen. */
  method StartTaskWrite(h: Checksum, events: seq<WriteEvent>) returns (wire: seq<byte>, end: WriteEnd)
    ensures wire == WriterRun(h, events).wire && end == WriterRun(h, events).end
  {
    wire := [];
    var i := 0;
    ghost var taken: seq<MessagePayload> := [];
    while i < |events|
      invariant i <= |events|
      invariant WriterRun(h, events[..i]) == Writer(wire, taken, Running)
    {
      assert events[..i + 1][..i] == events[..i];
      ghost var after := WriterRun(h, events[..i + 1]);
      match events[i] {
        case LowLevelMessage(message, socket) =>
          var payload: seq<byte>;
          match message {
            case Version(v) => payload := SerializeVersionMessage(v);
            case Verack => payload := [0];
          }
          var header := SerializeHeaderMessage(
            if message.Version? then BYTES_VERSION else BYTES_VERACK, DeclaredLength(message), h(payload));
          match socket {
            case HeaderCut(n) =>
              wire := wire + Cut(header, n);
              WriterStays(h, events, i + 1);
              return wire, ErrorInputOutput;
            case PayloadCut(n) =>
              wire := wire + header;
              wire := wire + Cut(payload, n);
              WriterStays(h, events, i + 1);
              return wire, ErrorInputOutput;
            case Written =>
              wire := wire + header;
              wire := wire + payload;
          }
          taken := taken + [message];
        case Shutdown =>
          WriterStays(h, events, i + 1);
          return wire, Successful;
        case OtherEvent =>
        case ChannelClosed =>
          WriterStays(h, events, i + 1);
          return wire, ErrorChannelPeerClosed;
      }
      i := i + 1;
    }
    assert events[..i] == events;
    end := Running;
  }

  lemma CutFrameOf(h: Checksum, ms: seq<MessagePayload>, m: MessagePayload, n: nat)
    ensures StreamBytes(h, ms) + HeaderOf(h, m) + Payload(m) == StreamBytes(h, ms + [m])
    ensures StreamBytes(h, ms) + Cut(HeaderOf(h, m), n) <= StreamBytes(h, ms + [m])
    ensures StreamBytes(h, ms) + HeaderOf(h, m) + Cut(Payload(m), n) <= StreamBytes(h, ms + [m])
  {
    StreamBytesAppend(h, ms, [m]);
    StreamBytesOne(h, m);
    hide HeaderOf, Payload;
    var s, head, payload := StreamBytes(h, ms), HeaderOf(h, m), Payload(m);
    Associate(s, head, payload);
    Associate(s, head, Cut(payload, n));
    CutIsPrefix(head, n);
    CutIsPrefix(payload, n);
    PrefixBehind(head, Cut(payload, n), payload);
    PrefixBehind(s, Cut(head, n), head + payload);
    PrefixBehind(s, head + Cut(payload, n), head + payload);
  }

  lemma CutIsPrefix(s: seq<byte>, n: nat)
    ensures Cut(s, n) <= s
  {
  }

  // ---- What a run does, told by its events alone ----

  /** The messages among the events, in order. */
  function Messages(es: seq<WriteEvent>): seq<MessagePayload> {
    if es == [] then []
    else
      var init, e := Messages(es[..|es| - 1]), es[|es| - 1];
      if e.LowLevelMessage? then init + [e.message] else init
  }

  /** How the event ends the task, if it does. */
  function EndOf(e: WriteEvent): WriteEnd {
    match e
    case LowLevelMessage(_, socket) => if socket.Written? then Running else ErrorInputOutput
    case Shutdown => Successful
    case OtherEvent => Running
    case ChannelClosed => ErrorChannelPeerClosed
  }

  /** How many octets of the frame get onto the socket when writing it fails. */
  function OctetsWritten(socket: SocketWrite): nat {
    match socket
    case Written => 0
    case HeaderCut(n) => if n <= LEN_HEADER_MESSAGE then n else LEN_HEADER_MESSAGE
    case PayloadCut(n) => LEN_HEADER_MESSAGE + n
  }

  /** What the event that ends the task puts on the socket. */
  function LastOctets(h: Checksum, e: WriteEvent): seq<byte> {
    if e.LowLevelMessage? then Cut(FrameBytes(h, e.message), OctetsWritten(e.socket)) else []
  }

  predicate NoEnd(es: seq<WriteEvent>) {
    forall j :: 0 <= j < |es| ==> EndOf(es[j]).Running?
  }

  /** While no event ends the task, all messages among the events are on the socket. */
  lemma {:induction false} WriterWritesAll(h: Checksum, es: seq<WriteEvent>)
    requires NoEnd(es)
    ensures WriterRun(h, es) == Writer(StreamBytes(h, Messages(es)), Messages(es), Running)
    decreases |es|
  {
    if es == [] {
    } else {
      var n := |es| - 1;
      assert EndOf(es[n]).Running?;
      WriterWritesAll(h, es[..n]);
      if es[n].LowLevelMessage? {
        CutFrameOf(h, Messages(es[..n]), es[n].message, 0);
        hide HeaderOf, Payload, StreamBytes;
      }
    }
  }

  /**
   * The first event that ends the task ends it as stated: the socket holds the frames of all messages before it, and of
   * a message whose writing failed as many octets as were written.
   */
  lemma WriterEndsExactly(h: Checksum, es: seq<WriteEvent>, k: nat)
    requires k < |es| && NoEnd(es[..k]) && !EndOf(es[k]).Running?
    ensures var w := WriterRun(h, es);
            w.end == EndOf(es[k]) && w.wire == StreamBytes(h, Messages(es[..k])) + LastOctets(h, es[k])
  {
    hide WriterStep, WriterRun, StreamBytes, LastOctets, EndOf, NoEnd;
    WriterWritesAll(h, es[..k]);
    OneStep(h, es[..k + 1]);
    assert es[..k + 1][..k] == es[..k];
    LastStep(h, WriterRun(h, es[..k]), es[k]);
    WriterStays(h, es, k + 1);
  }

  lemma OneStep(h: Checksum, es: seq<WriteEvent>)
    requires es != []
    ensures WriterRun(h, es) == WriterStep(h, WriterRun(h, es[..|es| - 1]), es[|es| - 1])
  {
  }

  lemma LastStep(h: Checksum, w: Writer, e: WriteEvent)
    requires w.end.Running? && !EndOf(e).Running?
    ensures WriterStep(h, w, e).end == EndOf(e) && WriterStep(h, w, e).wire == w.wire + LastOctets(h, e)
  {
    if e.LowLevelMessage? {
      var head, payload, n := HeaderOf(h, e.message), Payload(e.message), if e.socket.Written? then 0 else e.socket.n;
      CutParts(head, payload, n);
      Associate(w.wire, head, Cut(payload, n));
      hide HeaderOf, Payload, Cut;
    } else {
      assert w.wire + [] == w.wire;
    }
  }

  lemma CutParts(head: seq<byte>, payload: seq<byte>, n: nat)
    requires |head| == LEN_HEADER_MESSAGE
    ensures Cut(head, n) == Cut(head + payload, if n <= LEN_HEADER_MESSAGE then n else LEN_HEADER_MESSAGE)
    ensures head + Cut(payload, n) == Cut(head + payload, LEN_HEADER_MESSAGE + n)
  {
  }

  /** On every run the socket holds a beginning of the stream of the messages among the events. */
  lemma {:induction false} WriterWritesStream(h: Checksum, es: seq<WriteEvent>)
    ensures WriterRun(h, es).wire <= StreamBytes(h, Messages(es))
    ensures WriterRun(h, es).end.Running? <==> NoEnd(es)
    ensures WriterRun(h, es).end.Running? ==> WriterRun(h, es).wire == StreamBytes(h, Messages(es))
    decreases |es|
  {
    if NoEnd(es) {
      WriterWritesAll(h, es);
    } else {
      var k := FirstEnd(es);
      WriterEndsExactly(h, es, k);
      MessagesBehind(es, k);
      StreamBytesAppend(h, Messages(es[..k]), Messages(es[k..]));
      hide WriterRun, StreamBytes, FrameBytes;
      var s, rest := StreamBytes(h, Messages(es[..k])), StreamBytes(h, Messages(es[k..]));
      if es[k].LowLevelMessage? {
        FirstFrame(h, es[k..]);
        CutIsPrefix(FrameBytes(h, es[k].message), OctetsWritten(es[k].socket));
        assert LastOctets(h, es[k]) <= rest;
      }
      PrefixBehind(s, LastOctets(h, es[k]), rest);
    }
  }

  lemma {:induction false} FirstEnd(es: seq<WriteEvent>) returns (k: nat)
    requires !NoEnd(es)
    ensures k < |es| && NoEnd(es[..k]) && !EndOf(es[k]).Running?
    decreases |es|
  {
    var n := |es| - 1;
    if NoEnd(es[..n]) {
      k := n;
      forall j | 0 <= j < n ensures EndOf(es[j]).Running? { assert EndOf(es[..n][j]).Running?; }
    } else {
      k := FirstEnd(es[..n]);
      assert es[..n][..k] == es[..k];
    }
  }

  lemma {:induction false} MessagesBehind(es: seq<WriteEvent>, k: nat)
    requires k <= |es|
    ensures Messages(es) == Messages(es[..k]) + Messages(es[k..])
    decreases |es|
  {
    if k == |es| {
      assert es[..k] == es && es[k..] == [];
    } else {
      var n := |es| - 1;
      MessagesBehind(es[..n], k);
      assert es[..n][..k] == es[..k] && es[k..][..n - k] == es[..n][k..];
    }
  }

  lemma FirstFrame(h: Checksum, es: seq<WriteEvent>)
    requires es != [] && es[0].LowLevelMessage?
    ensures FrameBytes(h, es[0].message) <= StreamBytes(h, Messages(es))
  {
    MessagesBehind(es, 1);
    assert es[..1] == [es[0]] && [es[0]][..0] == [];
    assert Messages(es) == [es[0].message] + Messages(es[1..]);
    hide FrameBytes;
  }
}
