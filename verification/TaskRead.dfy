/** The read task: arbitrary chunks from the socket are buffered, and one frame at most is taken per read. */
module TaskRead {
  import opened Bytes
  import opened Wire
  import opened Framing
  import opened Slices

  /** What one turn of the select loop sees; sent says whether the peer still receives the message, if there is one. */
  datatype ReadEvent =
    | Read(chunk: seq<byte>, sent: bool)
    | SocketError
    | EndOfFile
    | Shutdown
    | OtherEvent
    | ChannelClosed

  datatype ReadEnd =
    | Running
    | Successful
    | SuccessfulEOF
    | ErrorInputOutput
    | ErrorChannelPeerClosed
    | ErrorParsing(error: ParsingError)
    | TaskPanicked

  /** All octets received while running, those still buffered, the messages emitted, and whether the task has ended. */
  datatype Reader = Reader(received: seq<byte>, buffer: seq<byte>, emitted: seq<MessagePayload>, end: ReadEnd)

  const START := Reader([], [], [], Running)

  function AfterRead(h: Checksum, r: Reader, chunk: seq<byte>, sent: bool): Reader {
    var buffer := r.buffer + chunk;
    var received := r.received + chunk;
    var f := FrameOf(h, buffer);
    match f
    case Parsed(m, k) =>
      if sent then Reader(received, Drained(f, buffer), r.emitted + [m], Running)
      else Reader(received, Drained(f, buffer), r.emitted, ErrorChannelPeerClosed)
    case Incomplete => Reader(received, buffer, r.emitted, Running)
    case Failed(e) => Reader(received, buffer, r.emitted, ErrorParsing(e))
    case Panicked => Reader(received, buffer, r.emitted, TaskPanicked)
  }

  function ReaderStep(h: Checksum, r: Reader, e: ReadEvent): Reader {
    if !r.end.Running? then r
    else match e
      case Read(chunk, sent) => AfterRead(h, r, chunk, sent)
      case SocketError => r.(end := ErrorInputOutput)
      case EndOfFile => r.(end := SuccessfulEOF)
      case Shutdown => r.(end := Successful)
      case OtherEvent => r
      case ChannelClosed => r.(end := ErrorChannelPeerClosed)
  }

  function ReaderRun(h: Checksum, es: seq<ReadEvent>): Reader {
    if es == [] then START else ReaderStep(h, ReaderRun(h, es[..|es| - 1]), es[|es| - 1])
  }

  lemma {:induction false} ReaderStays(h: Checksum, es: seq<ReadEvent>, n: nat)
    requires n <= |es| && !ReaderRun(h, es[..n]).end.Running?
    ensures ReaderRun(h, es) == ReaderRun(h, es[..n])
    decreases |es|
  {
    if n == |es| {
      assert es[..n] == es;
    } else {
      var init := es[..|es| - 1];
      assert init[..n] == es[..n];
      ReaderStays(h, init, n);
    }
  }

  /** The source's loop, with its inner parsing loop that leaves after one attempt. */
  method StartTaskRead(h: Checksum, events: seq<ReadEvent>)
    returns (storageBuffer: seq<byte>, emitted: seq<MessagePayload>, end: ReadEnd)
    ensures var r := ReaderRun(h, events);
            storageBuffer == r.buffer && emitted == r.emitted && end == r.end
  {
    hide FrameOf;
    storageBuffer, emitted := [], [];
    var i := 0;
    ghost var received: seq<byte> := [];
    while i < |events|
      invariant i <= |events|
      invariant ReaderRun(h, events[..i]) == Reader(received, storageBuffer, emitted, Running)
    {
      assert events[..i + 1][..i] == events[..i];
      match events[i] {
        case Read(chunk, sent) =>
          storageBuffer := storageBuffer + chunk;
          received := received + chunk;
          var frame := RawByteProcessing(h, storageBuffer);
          match frame {
            case Parsed(message, length) =>
              storageBuffer := storageBuffer[LEN_HEADER_MESSAGE + length..];
              if !sent {
                ReaderStays(h, events, i + 1);
                return storageBuffer, emitted, ErrorChannelPeerClosed;
              }
              emitted := emitted + [message];
            case Incomplete =>
            case Failed(e) =>
              ReaderStays(h, events, i + 1);
              return storageBuffer, emitted, ErrorParsing(e);
            case Panicked =>
              ReaderStays(h, events, i + 1);
              return storageBuffer, emitted, TaskPanicked;
          }
        case SocketError =>
          ReaderStays(h, events, i + 1);
          return storageBuffer, emitted, ErrorInputOutput;
        case EndOfFile =>
          ReaderStays(h, events, i + 1);
          return storageBuffer, emitted, SuccessfulEOF;
        case Shutdown =>
          ReaderStays(h, events, i + 1);
          return storageBuffer, emitted, Successful;
        case OtherEvent =>
        case ChannelClosed =>
          ReaderStays(h, events, i + 1);
          return storageBuffer, emitted, ErrorChannelPeerClosed;
      }
      i := i + 1;
    }
    assert events[..i] == events;
    end := Running;
  }

  // ---- The chunked reader refines the greedy parse ----

  /**
   * While the reader runs, the greedy parse of everything received is what was emitted followed by the greedy
   * parse of the buffer, and the buffer is the end of what was received. Afterwards, what was emitted is a beginning.
   */
  ghost predicate Refines(h: Checksum, r: Reader) {
    var g := GreedyParse(h, r.received);
    if r.end.Running? then
      && |r.buffer| <= |r.received| && r.buffer == r.received[|r.received| - |r.buffer|..]
      && Emits(r.emitted, GreedyParse(h, r.buffer), g)
    else r.emitted <= g.messages
  }

  predicate Emits(emitted: seq<MessagePayload>, pending: Greedy, g: Greedy) {
    g == Greedy(emitted + pending.messages, pending.left, pending.stop)
  }

  lemma SuffixStep(received: seq<byte>, buffer: seq<byte>, chunk: seq<byte>, rest: seq<byte>)
    requires |buffer| <= |received| && buffer == received[|received| - |buffer|..]
    requires |rest| <= |buffer + chunk| && rest == (buffer + chunk)[|buffer + chunk| - |rest|..]
    ensures rest == (received + chunk)[|received + chunk| - |rest|..]
  {
    Glue(received, |received| - |buffer|, |received|);
    var early := received[..|received| - |buffer|];
    assert received == early + buffer;
    Associate(early, buffer, chunk);
  }

  /** Octets that extend the stream extend the buffer: the unread part of the greedy parse stays that of the buffer. */
  lemma BacklogExtends(h: Checksum, received: seq<byte>, buffer: seq<byte>, emitted: seq<MessagePayload>,
                       chunk: seq<byte>)
    requires Emits(emitted, GreedyParse(h, buffer), GreedyParse(h, received))
    ensures Emits(emitted, GreedyParse(h, buffer + chunk), GreedyParse(h, received + chunk))
  {
    GreedyExtends(h, received, chunk);
    GreedyExtends(h, buffer, chunk);
    var p := GreedyParse(h, buffer);
    Associate(emitted, p.messages, GreedyParse(h, p.left + chunk).messages);
  }

  lemma EmitOne(h: Checksum, emitted: seq<MessagePayload>, buffer: seq<byte>, g: Greedy)
    requires FrameOf(h, buffer).Parsed?
    requires Emits(emitted, GreedyParse(h, buffer), g)
    ensures var f := FrameOf(h, buffer);
            Emits(emitted + [f.message], GreedyParse(h, Drained(f, buffer)), g)
  {
    var f := FrameOf(h, buffer);
    Associate(emitted, [f.message], GreedyParse(h, Drained(f, buffer)).messages);
  }

  lemma ReadRefines(h: Checksum, r: Reader, chunk: seq<byte>, sent: bool)
    requires r.end.Running? && Refines(h, r)
    ensures Refines(h, AfterRead(h, r, chunk, sent))
  {
    hide FrameOf, GreedyParse;
    var buffer := r.buffer + chunk;
    BacklogExtends(h, r.received, r.buffer, r.emitted, chunk);
    var f := FrameOf(h, buffer);
    if f.Parsed? {
      EmitOne(h, r.emitted, buffer, GreedyParse(h, r.received + chunk));
      SuffixStep(r.received, r.buffer, chunk, Drained(f, buffer));
    } else {
      SuffixStep(r.received, r.buffer, chunk, buffer);
    }
  }

  lemma StepRefines(h: Checksum, r: Reader, e: ReadEvent)
    requires Refines(h, r)
    ensures Refines(h, ReaderStep(h, r, e))
  {
    hide FrameOf, GreedyParse;
    if r.end.Running? && e.Read? {
      ReadRefines(h, r, e.chunk, e.sent);
    }
  }

  lemma StartRefines(h: Checksum)
    ensures Refines(h, START)
  {
  }

  /** Every run of the chunked reader refines the greedy parse of the stream it received. */
  lemma {:induction false} ReaderRefinesGreedyParse(h: Checksum, es: seq<ReadEvent>)
    ensures Refines(h, ReaderRun(h, es))
  {
    hide Refines, ReaderStep;
    if es == [] {
      StartRefines(h);
    } else {
      ReaderRefinesGreedyParse(h, es[..|es| - 1]);
      StepRefines(h, ReaderRun(h, es[..|es| - 1]), es[|es| - 1]);
    }
  }

  /** The emitted messages are a beginning of the greedy parse of all octets received, on every run. */
  lemma EmittedIsPrefix(h: Checksum, es: seq<ReadEvent>)
    ensures ReaderRun(h, es).emitted <= GreedyParse(h, ReaderRun(h, es).received).messages
    ensures ReaderRun(h, es).emitted <= GreedyParse(h, Chunks(es)).messages
  {
    ReaderRefinesGreedyParse(h, es);
    ReceivesAll(h, es);
    var r := ReaderRun(h, es);
    Rest(r.received, Chunks(es));
    GreedyMonotone(h, r.received, Chunks(es)[|r.received|..]);
    hide FrameOf, GreedyParse, ReaderRun;
  }

  /** From a written stream, read in any chunks and cut anywhere, the reader emits a beginning of the written list. */
  lemma EndToEndPrefix(h: Checksum, ms: seq<MessagePayload>, es: seq<ReadEvent>)
    requires ReaderRun(h, es).received <= StreamBytes(h, ms)
    ensures ReaderRun(h, es).emitted <= ms
  {
    EmittedIsPrefix(h, es);
    StreamPrefixParse(h, ms, ReaderRun(h, es).received);
  }

  // ---- What a run does, told by its events ----

  /** All octets among the events, in order. */
  function Chunks(es: seq<ReadEvent>): seq<byte> {
    if es == [] then []
    else
      var init, e := Chunks(es[..|es| - 1]), es[|es| - 1];
      if e.Read? then init + e.chunk else init
  }

  /** While the reader runs it has received all octets among the events, afterwards a beginning of them. */
  lemma {:induction false} ReceivesAll(h: Checksum, es: seq<ReadEvent>)
    ensures ReaderRun(h, es).end.Running? ==> ReaderRun(h, es).received == Chunks(es)
    ensures ReaderRun(h, es).received <= Chunks(es)
    decreases |es|
  {
    hide FrameOf;
    if es != [] { ReceivesAll(h, es[..|es| - 1]); }
  }

  /** How the event ends the task with these octets buffered, if it does. */
  function EndOf(h: Checksum, buffer: seq<byte>, e: ReadEvent): ReadEnd {
    match e
    case Read(chunk, sent) =>
      (match FrameOf(h, buffer + chunk)
       case Parsed(_, _) => if sent then Running else ErrorChannelPeerClosed
       case Incomplete => Running
       case Failed(error) => ErrorParsing(error)
       case Panicked => TaskPanicked)
    case SocketError => ErrorInputOutput
    case EndOfFile => SuccessfulEOF
    case Shutdown => Successful
    case OtherEvent => Running
    case ChannelClosed => ErrorChannelPeerClosed
  }

  /** What the event makes the reader emit with these octets buffered: one message at most, and only on a read. */
  function EmissionOf(h: Checksum, buffer: seq<byte>, e: ReadEvent): seq<MessagePayload> {
    if e.Read? && e.sent && FrameOf(h, buffer + e.chunk).Parsed? then [FrameOf(h, buffer + e.chunk).message] else []
  }

  /** What is buffered when event n comes. */
  function BufferAt(h: Checksum, es: seq<ReadEvent>, n: nat): seq<byte>
    requires n <= |es|
  {
    ReaderRun(h, es[..n]).buffer
  }

  predicate NoEnd(h: Checksum, es: seq<ReadEvent>) {
    forall n :: 0 <= n < |es| ==> EndOf(h, BufferAt(h, es, n), es[n]).Running?
  }

  lemma NoEndBefore(h: Checksum, es: seq<ReadEvent>)
    requires es != []
    ensures NoEnd(h, es) <==> NoEnd(h, es[..|es| - 1]) && EndOf(h, BufferAt(h, es, |es| - 1), es[|es| - 1]).Running?
  {
    hide EndOf, ReaderRun;
    var n := |es| - 1;
    forall k | 0 <= k < n ensures BufferAt(h, es[..n], k) == BufferAt(h, es, k) { assert es[..n][..k] == es[..k]; }
    if NoEnd(h, es) {
      forall k | 0 <= k < n ensures EndOf(h, BufferAt(h, es[..n], k), es[..n][k]).Running? {
        assert EndOf(h, BufferAt(h, es, k), es[k]).Running?;
      }
    }
  }

  /** The task runs exactly while no event ends it. */
  lemma {:induction false} ReaderRunsExactly(h: Checksum, es: seq<ReadEvent>)
    ensures ReaderRun(h, es).end.Running? <==> NoEnd(h, es)
    decreases |es|
  {
    hide FrameOf, NoEnd;
    if es == [] {
      NothingEnds(h);
    } else {
      ReaderRunsExactly(h, es[..|es| - 1]);
      NoEndBefore(h, es);
    }
  }

  lemma NothingEnds(h: Checksum)
    ensures NoEnd(h, [])
  {
  }

  /** The first event that ends the task ends it as stated, and nothing is emitted from then on. */
  lemma ReaderEndsExactly(h: Checksum, es: seq<ReadEvent>, n: nat)
    requires n < |es| && NoEnd(h, es[..n]) && !EndOf(h, BufferAt(h, es, n), es[n]).Running?
    ensures ReaderRun(h, es).end == EndOf(h, BufferAt(h, es, n), es[n])
    ensures ReaderRun(h, es).emitted == ReaderRun(h, es[..n]).emitted
  {
    hide FrameOf, NoEnd;
    ReaderRunsExactly(h, es[..n]);
    assert es[..n + 1][..n] == es[..n];
    ReaderStays(h, es, n + 1);
  }

  /** Each event of a running reader makes it emit what it should, and nothing else. */
  lemma ReaderEmitsExactly(h: Checksum, es: seq<ReadEvent>, n: nat)
    requires n < |es| && NoEnd(h, es[..n])
    ensures ReaderRun(h, es[..n + 1]).emitted
            == ReaderRun(h, es[..n]).emitted + EmissionOf(h, BufferAt(h, es, n), es[n])
  {
    hide FrameOf, NoEnd;
    ReaderRunsExactly(h, es[..n]);
    assert es[..n + 1][..n] == es[..n];
    var r := ReaderRun(h, es[..n]);
    assert r.emitted + [] == r.emitted;
  }

  /** A whole run: everything read is buffered or emitted, and nothing that was written on the way here is lost. */
  lemma ReadsEverything(h: Checksum, es: seq<ReadEvent>)
    requires NoEnd(h, es)
    ensures var r := ReaderRun(h, es);
            && |r.buffer| <= |Chunks(es)| && r.buffer == Chunks(es)[|Chunks(es)| - |r.buffer|..]
            && Emits(r.emitted, GreedyParse(h, r.buffer), GreedyParse(h, Chunks(es)))
  {
    ReaderRunsExactly(h, es);
    ReceivesAll(h, es);
    ReaderRefinesGreedyParse(h, es);
    hide FrameOf, GreedyParse, ReaderRun, NoEnd;
  }

  // ---- How far the reader lags behind ----

  /** Frames completed by the stream that r has received. */
  function Completed(h: Checksum, r: Reader): nat {
    |GreedyParse(h, r.received).messages|
  }

  /** One read emits one message if one is complete, so the count is the lesser of what is complete and one more. */
  lemma ReadEmitsOne(h: Checksum, r: Reader, chunk: seq<byte>)
    requires r.end.Running? && Refines(h, r)
    requires AfterRead(h, r, chunk, true).end.Running?
    ensures var s := AfterRead(h, r, chunk, true);
            |s.emitted| == if Completed(h, s) <= |r.emitted| then Completed(h, s) else |r.emitted| + 1
    ensures |r.emitted| <= Completed(h, AfterRead(h, r, chunk, true))
  {
    BacklogExtends(h, r.received, r.buffer, r.emitted, chunk);
    hide FrameOf;
  }

  function Reads(chunks: seq<seq<byte>>): seq<ReadEvent> {
    seq(|chunks|, i requires 0 <= i < |chunks| => Read(chunks[i], true))
  }

  function ReadAll(h: Checksum, chunks: seq<seq<byte>>): Reader {
    ReaderRun(h, Reads(chunks))
  }

  lemma ReadAllStep(h: Checksum, chunks: seq<seq<byte>>)
    requires chunks != []
    ensures var n := |chunks| - 1;
            ReadAll(h, chunks) == ReaderStep(h, ReadAll(h, chunks[..n]), Read(chunks[n], true))
  {
    assert Reads(chunks)[..|chunks| - 1] == Reads(chunks[..|chunks| - 1]);
  }

  /** Frames completed by the first j chunks. */
  function CompletedBy(h: Checksum, chunks: seq<seq<byte>>, j: nat): nat
    requires j <= |chunks|
  {
    Completed(h, ReadAll(h, chunks[..j]))
  }

  /**
   * What j reads completed plus one message for each later read bounds what is emitted, for every j, and some j
   * attains it.
   */
  ghost predicate LeastBound(h: Checksum, chunks: seq<seq<byte>>, emitted: nat) {
    && (forall j :: 0 <= j <= |chunks| ==> emitted <= CompletedBy(h, chunks, j) + |chunks| - j)
    && (exists j :: 0 <= j <= |chunks| && emitted == CompletedBy(h, chunks, j) + |chunks| - j)
  }

  lemma NothingRead(h: Checksum)
    ensures ReadAll(h, []) == START && Completed(h, START) == 0
  {
  }

  lemma {:induction false} EmittedCount(h: Checksum, chunks: seq<seq<byte>>)
    requires ReadAll(h, chunks).end.Running?
    ensures LeastBound(h, chunks, |ReadAll(h, chunks).emitted|)
    decreases |chunks|
  {
    hide FrameOf, GreedyParse, Completed, Refines, AfterRead, ReaderRun;
    assert chunks[..|chunks|] == chunks;
    if chunks == [] {
      NothingRead(h);
      assert 0 == CompletedBy(h, chunks, 0) + |chunks| - 0;
    } else {
      var n := |chunks| - 1;
      var init := chunks[..n];
      var r, s := ReadAll(h, init), ReadAll(h, chunks);
      ReadAllStep(h, chunks);
      EmittedCount(h, init);
      ReaderRefinesGreedyParse(h, Reads(init));
      ReadEmitsOne(h, r, chunks[n]);
      forall j | 0 <= j <= n
        ensures CompletedBy(h, chunks, j) == CompletedBy(h, init, j)
      {
        assert chunks[..j] == init[..j];
      }
      if |s.emitted| == Completed(h, s) {
        assert |s.emitted| == CompletedBy(h, chunks, n + 1) + |chunks| - (n + 1);
      } else {
        var j :| 0 <= j <= n && |r.emitted| == CompletedBy(h, init, j) + n - j;
        assert |s.emitted| == CompletedBy(h, chunks, j) + |chunks| - j;
      }
    }
  }

  /**
   * The reader has emitted every complete frame exactly when, for every number of last reads,
   * these completed no more frames than there were reads. In particular it has when no read completes two.
   */
  lemma NothingPending(h: Checksum, chunks: seq<seq<byte>>)
    requires ReadAll(h, chunks).end.Running?
    ensures ReadAll(h, chunks).emitted == GreedyParse(h, ReadAll(h, chunks).received).messages
            <==> forall j :: 0 <= j <= |chunks|
                   ==> CompletedBy(h, chunks, |chunks|) - CompletedBy(h, chunks, j) <= |chunks| - j
  {
    hide FrameOf, GreedyParse, ReaderRun;
    EmittedCount(h, chunks);
    EmittedIsPrefix(h, Reads(chunks));
    assert chunks[..|chunks|] == chunks;
  }

  // ---- Reading a stream that the other side's write task wrote ----

  /** The octets from which message e is to be read: behind a verack they start with its stray octet. */
  function Behind(h: Checksum, ms: seq<MessagePayload>, e: nat): seq<byte>
    requires e <= |ms|
  {
    (if e > 0 && ms[e - 1].Verack? then [0] else []) + StreamBytes(h, ms[e..])
  }

  /** The buffer and the octets still to come are those from which the next message is to be read. */
  predicate OnStream(h: Checksum, ms: seq<MessagePayload>, r: Reader, ahead: seq<byte>) {
    && |r.emitted| <= |ms| && r.emitted == ms[..|r.emitted|]
    && r.buffer + ahead == Behind(h, ms, |r.emitted|)
  }

  lemma BehindNext(h: Checksum, ms: seq<MessagePayload>, e: nat)
    requires e < |ms| && Readable(ms)
    ensures Behind(h, ms, e) == FrameBytes(h, ms[e]) + StreamBytes(h, ms[e + 1..])
    ensures Behind(h, ms, e) == StreamBytes(h, ms[e..])
    ensures Behind(h, ms, e + 1) == (if ms[e].Version? then [] else [0]) + StreamBytes(h, ms[e..][1..])
  {
    assert ms[e..][1..] == ms[e + 1..];
    assert e > 0 ==> ms[e - 1].Version?;
  }

  lemma NextFrame(h: Checksum, ms: seq<MessagePayload>, e: nat, b: seq<byte>, ahead: seq<byte>)
    requires Readable(ms) && e < |ms| && b + ahead == Behind(h, ms, e)
    ensures var f := FrameOf(h, b);
            && !f.Failed? && (f.Panicked? <==> |b| < LEN_HEADER_MESSAGE)
            && (f.Parsed? ==> f.message == ms[e] && Drained(f, b) + ahead == Behind(h, ms, e + 1))
  {
    hide FrameOf, FrameBytes;
    BehindNext(h, ms, e);
    var rest := StreamBytes(h, ms[e + 1..]);
    FrameBeginning(h, ms[e], rest, b);
    if FrameOf(h, b).Parsed? {
      DrainedStability(h, b, ahead);
      FrameRoundTrip(h, ms[e], rest);
      DrainedFrame(h, ms[e..]);
    }
  }

  lemma NoMoreFrames(h: Checksum, ms: seq<MessagePayload>, b: seq<byte>, ahead: seq<byte>)
    requires b + ahead == Behind(h, ms, |ms|)
    ensures FrameOf(h, b).Panicked? && |b| < LEN_HEADER_MESSAGE
  {
    assert |b| <= 1;
  }

  /**
   * Reading on a readable written stream never fails, takes the messages in order,
   * and panics exactly when the read leaves fewer than 24 octets in the buffer.
   */
  lemma ReadOnStream(h: Checksum, ms: seq<MessagePayload>, r: Reader, chunk: seq<byte>, ahead: seq<byte>)
    requires Readable(ms) && r.end.Running? && OnStream(h, ms, r, chunk + ahead)
    ensures var s := AfterRead(h, r, chunk, true);
            && (s.end.Running? || s.end.TaskPanicked?)
            && (s.end.TaskPanicked? <==> |r.buffer| + |chunk| < LEN_HEADER_MESSAGE)
            && (s.end.Running? ==> OnStream(h, ms, s, ahead))
  {
    hide FrameOf, Behind, StreamBytes;
    var b, e := r.buffer + chunk, |r.emitted|;
    Associate(r.buffer, chunk, ahead);
    if e == |ms| {
      NoMoreFrames(h, ms, b, ahead);
    } else {
      NextFrame(h, ms, e, b, ahead);
    }
  }
}
