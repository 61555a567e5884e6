/** Frames: what the writer puts on the wire, how one frame is parsed, and the greedy parse of a byte stream. */
module Framing {
  import opened Bytes
  import opened Wire
  import opened Slices

  const LEN_HEADER_MESSAGE: nat := 24
  const MAX_SIZE_PAYLOAD: nat := 0x40_0000

  // ---- Writing ----

  function Payload(m: MessagePayload): seq<byte> {
    match m
    case Version(v) => VersionBytes(v)
    case Verack => [0]
  }

  function Command(m: MessagePayload): (s: seq<byte>)
    ensures |s| == 12
  {
    if m.Version? then BYTES_VERSION else BYTES_VERACK
  }

  /** The header's length field: a verack declares 0 although its payload is one octet. */
  function DeclaredLength(m: MessagePayload): U32 {
    match m
    case Version(v) => |VersionBytes(v)| % 0x1_0000_0000
    case Verack => 0
  }

  function HeaderOf(h: Checksum, m: MessagePayload): (s: seq<byte>)
    ensures |s| == LEN_HEADER_MESSAGE
  {
    HeaderBytes(Command(m), DeclaredLength(m), h(Payload(m)))
  }

  function FrameBytes(h: Checksum, m: MessagePayload): (s: seq<byte>)
    ensures |s| > LEN_HEADER_MESSAGE
  {
    HeaderOf(h, m) + Payload(m)
  }

  function StreamBytes(h: Checksum, ms: seq<MessagePayload>): seq<byte> {
    if ms == [] then [] else FrameBytes(h, ms[0]) + StreamBytes(h, ms[1..])
  }

  lemma {:induction false} StreamBytesAppend(h: Checksum, ms: seq<MessagePayload>, ns: seq<MessagePayload>)
    ensures StreamBytes(h, ms + ns) == StreamBytes(h, ms) + StreamBytes(h, ns)
  {
    if ms == [] {
      assert ms + ns == ns;
    } else {
      assert (ms + ns)[1..] == ms[1..] + ns;
      StreamBytesAppend(h, ms[1..], ns);
    }
  }

  lemma StreamBytesOne(h: Checksum, m: MessagePayload)
    ensures StreamBytes(h, [m]) == FrameBytes(h, m)
  {
    hide FrameBytes;
    assert [m][1..] == [];
    assert FrameBytes(h, m) + [] == FrameBytes(h, m);
  }

  // ---- Parsing one frame ----

  datatype CommandType = VersionCommand | VerackCommand | UncertainCommand

  function MessageTypeDefinition(command: seq<byte>): CommandType {
    if command == BYTES_VERSION then VersionCommand
    else if command == BYTES_VERACK then VerackCommand
    else UncertainCommand
  }

  datatype ParsingError =
    | InvalidMagicBytes
    | InvalidCommand
    | LargePayloadSize
    | InvalidCheckSum
    | LowLevelParsing(lowLevel: LowLevelError)

  /**
   * Outcome of one parsing attempt: a message with the payload length to drain, nothing yet, an error,
   * or an index out of range (the guard of the source against short buffers never holds).
   */
  datatype Frame = Parsed(message: MessagePayload, length: nat) | Incomplete | Failed(error: ParsingError) | Panicked

  /** What the parser makes of the buffer, as a function of the buffer. */
  function FrameOf(h: Checksum, b: seq<byte>): (r: Frame)
    ensures r.Parsed? ==> LEN_HEADER_MESSAGE + r.length <= |b|
  {
    if |b| < 4 then Panicked
    else if U32OfBytes(b[0..4]) != MAGIC_BYTES then Failed(InvalidMagicBytes)
    else if |b| < 16 then Panicked
    else
      var command := MessageTypeDefinition(b[4..16]);
      if command.UncertainCommand? then Failed(InvalidCommand)
      else if |b| < LEN_HEADER_MESSAGE then Panicked
      else if command.VersionCommand? then
        if |b| < LEN_HEADER_MESSAGE + U32OfBytes(b[16..20]) then Incomplete
        else VersionFrameOf(h, b[20..24], b[24..])
      else if b[20..24] != h([0]) then Failed(InvalidCheckSum)
      else Parsed(Verack, 0)
  }

  function VersionFrameOf(h: Checksum, checksum: seq<byte>, s: seq<byte>): (r: Frame)
    ensures r.Parsed? ==> r.length <= |s|
  {
    match VersionOf(s)
    case Panic => Panicked
    case Malformed(e) => Failed(LowLevelParsing(e))
    case Decoded(v, n) =>
      if n > MAX_SIZE_PAYLOAD then Failed(LargePayloadSize)
      else if checksum != h(VersionBytes(v)) then Failed(InvalidCheckSum)
      else Parsed(Version(v), n)
  }

  /** The source's parser: an offset moving through the buffer. */
  method RawByteProcessing(h: Checksum, storageBuffer: seq<byte>) returns (r: Frame)
    ensures r == FrameOf(h, storageBuffer)
  {
    var offset := 0;
    if |storageBuffer| < offset + 4 { return Panicked; }
    var magicBytes := U32OfBytes(storageBuffer[offset..offset + 4]);
    offset := offset + 4;
    if magicBytes != MAGIC_BYTES { return Failed(InvalidMagicBytes); }
    if |storageBuffer| < offset + 12 { return Panicked; }
    var command := MessageTypeDefinition(storageBuffer[offset..offset + 12]);
    offset := offset + 12;
    match command {
      case VersionCommand =>
        if |storageBuffer| < offset + 4 { return Panicked; }
        var length := U32OfBytes(storageBuffer[offset..offset + 4]);
        offset := offset + 4;
        if |storageBuffer| < offset + 4 { return Panicked; }
        var checksum := storageBuffer[offset..offset + 4];
        offset := offset + 4;
        if |storageBuffer| < LEN_HEADER_MESSAGE + length { return Incomplete; }
        var decoded := UnserializeVersionMessage(storageBuffer[offset..]);
        if decoded.Panic? { return Panicked; }
        if decoded.Malformed? { return Failed(LowLevelParsing(decoded.error)); }
        if decoded.used > MAX_SIZE_PAYLOAD { return Failed(LargePayloadSize); }
        var reencoded := SerializeVersionMessage(decoded.value);
        if checksum != h(reencoded) { return Failed(InvalidCheckSum); }
        return Parsed(Version(decoded.value), decoded.used);
      case VerackCommand =>
        if |storageBuffer| < offset + 4 { return Panicked; }
        offset := offset + 4;
        if |storageBuffer| < offset + 4 { return Panicked; }
        var checksum := storageBuffer[offset..offset + 4];
        if checksum != h([0]) { return Failed(InvalidCheckSum); }
        return Parsed(Verack, 0);
      case UncertainCommand =>
        return Failed(InvalidCommand);
    }
  }

  /** The octets that are there name this network, and then, as far as they go, a version or a verack. */
  predicate PanicsOnHeader(b: seq<byte>) {
    |b| < LEN_HEADER_MESSAGE
    && (|b| >= 4 ==> U32OfBytes(b[0..4]) == MAGIC_BYTES)
    && (|b| >= 16 ==> !MessageTypeDefinition(b[4..16]).UncertainCommand?)
  }

  /** A version header whose declared length is there, in front of a payload that ends too early. */
  predicate PanicsOnPayload(b: seq<byte>) {
    |b| >= LEN_HEADER_MESSAGE
    && U32OfBytes(b[0..4]) == MAGIC_BYTES && b[4..16] == BYTES_VERSION
    && |b| >= LEN_HEADER_MESSAGE + U32OfBytes(b[16..20])
    && TooShort(b[LEN_HEADER_MESSAGE..])
  }

  /** On any octets whatever, the parser runs past their end exactly in these two cases. */
  lemma ParserPanicsExactly(h: Checksum, b: seq<byte>)
    ensures FrameOf(h, b).Panicked? <==> PanicsOnHeader(b) || PanicsOnPayload(b)
  {
    CommandTypes();
    if |b| >= LEN_HEADER_MESSAGE {
      DecoderPanicsExactly(b[24..]);
    }
    hide VersionOf, TooShort;
  }

  /** A version header that declares no payload ends the reader when nothing follows it. */
  lemma BareVersionHeaderPanics(h: Checksum, checksum: Octets4)
    ensures FrameOf(h, HeaderBytes(BYTES_VERSION, 0, checksum)).Panicked?
  {
    var b := HeaderBytes(BYTES_VERSION, 0, checksum);
    HeaderFields(BYTES_VERSION, 0, checksum);
    ParserPanicsExactly(h, b);
    hide FrameOf, HeaderBytes;
  }

  /** So does a user agent that is said to be longer than what is there, up to any length that the field can hold. */
  lemma OversizedUserAgentPanics(h: Checksum, length: U32, checksum: Octets4, fields: seq<byte>, n: U64,
                                 rest: seq<byte>)
    requires |fields| == 80 && length <= 88 + |rest| && |rest| < n
    ensures FrameOf(h, HeaderBytes(BYTES_VERSION, length, checksum) + (fields + LeBytes(n, 8) + rest)).Panicked?
  {
    var s := fields + LeBytes(n, 8) + rest;
    VersionHeadedFrame(h, length, checksum, s);
    assert s[80..88] == LeBytes(n, 8);
    U64RoundTrip(n);
    DecoderPanicsExactly(s);
    hide FrameOf, VersionOf;
  }

  /** A version header, and as many octets behind it as it declares. */
  predicate VersionReady(b: seq<byte>) {
    && |b| >= LEN_HEADER_MESSAGE
    && U32OfBytes(b[0..4]) == MAGIC_BYTES && b[4..16] == BYTES_VERSION
    && |b| >= LEN_HEADER_MESSAGE + U32OfBytes(b[16..20])
  }

  /** The user agent of a payload is all there. */
  predicate AgentThere(s: seq<byte>) {
    |s| >= 88 && |s| >= 88 + U64OfBytes(s[80..88])
  }

  function AgentOctets(s: seq<byte>): seq<byte>
    requires AgentThere(s)
  {
    s[88..88 + U64OfBytes(s[80..88])]
  }

  /** The payload is a whole version of k octets. */
  predicate VersionThere(s: seq<byte>, k: nat) {
    AgentThere(s) && ValidUtf8(AgentOctets(s)) && k == 93 + |AgentOctets(s)| && |s| >= k
  }

  lemma DecodedExactly(s: seq<byte>, k: nat)
    ensures VersionThere(s, k) <==> VersionOf(s).Decoded? && VersionOf(s).used == k
    ensures VersionOf(s) == Malformed(ErrorParseUtf8) <==> AgentThere(s) && !ValidUtf8(AgentOctets(s))
    ensures VersionOf(s) == Malformed(NotEnoughBytes)
            <==> AgentThere(s) && ValidUtf8(AgentOctets(s)) && |s| == 92 + |AgentOctets(s)|
  {
    if |s| >= 88 {
      var u := s[80..];
      var n: int := U64OfBytes(s[80..88]);
      assert u[0..8] == s[80..88];
      if |s| >= 88 + n { assert u[8..8 + n] == s[88..88 + n]; }
    }
  }

  /** Each error, and waiting, told by the octets: every buffer has exactly the outcome that it should have. */
  lemma ErrorsExactly(h: Checksum, b: seq<byte>)
    ensures var r := FrameOf(h, b);
            && (r == Failed(InvalidMagicBytes) <==> |b| >= 4 && U32OfBytes(b[0..4]) != MAGIC_BYTES)
            && (r == Failed(InvalidCommand)
                <==> |b| >= 16 && U32OfBytes(b[0..4]) == MAGIC_BYTES
                     && b[4..16] != BYTES_VERSION && b[4..16] != BYTES_VERACK)
            && (r.Incomplete?
                <==> |b| >= 24 && U32OfBytes(b[0..4]) == MAGIC_BYTES && b[4..16] == BYTES_VERSION && !VersionReady(b))
            && (r == Failed(LowLevelParsing(ErrorParseUtf8))
                <==> VersionReady(b) && AgentThere(b[24..]) && !ValidUtf8(AgentOctets(b[24..])))
            && (r == Failed(LowLevelParsing(NotEnoughBytes))
                <==> VersionReady(b) && AgentThere(b[24..]) && ValidUtf8(AgentOctets(b[24..]))
                     && |b| == 24 + 92 + |AgentOctets(b[24..])|)
            && (r == Failed(LargePayloadSize)
                <==> VersionReady(b) && exists k: nat :: VersionThere(b[24..], k) && k > 0x40_0000)
  {
    CommandTypes();
    if |b| >= 24 {
      var s := b[24..];
      DecodedExactly(s, if VersionOf(s).Decoded? then VersionOf(s).used else 0);
      forall k: nat | VersionThere(s, k) ensures VersionOf(s).Decoded? && VersionOf(s).used == k {
        DecodedExactly(s, k);
      }
    }
    hide VersionOf, ValidUtf8, AgentThere, AgentOctets, VersionThere, VersionBytes;
  }

  /** A checksum is refused exactly when it is not that of what is carried, up to the relay octet. */
  lemma ChecksumExactly(h: Checksum, b: seq<byte>)
    ensures FrameOf(h, b) == Failed(InvalidCheckSum)
            <==> || (VersionReady(b)
                     && exists k: nat :: VersionThere(b[24..], k) && k <= 0x40_0000
                                         && b[20..24] != h(Normalised(b[24..], k)))
                 || (|b| >= 24 && U32OfBytes(b[0..4]) == MAGIC_BYTES && b[4..16] == BYTES_VERACK && b[20..24] != h([0]))
  {
    CommandTypes();
    if VersionReady(b) {
      var s := b[24..];
      if VersionOf(s).Decoded? {
        DecodedExactly(s, VersionOf(s).used);
        CanonicalReencoding(s);
      }
      forall k: nat | VersionThere(s, k) ensures VersionOf(s).Decoded? && VersionOf(s).used == k {
        DecodedExactly(s, k);
      }
    }
    hide VersionOf, VersionThere, VersionBytes, Normalised;
  }

  /** Outcomes that no further octets can change. */
  predicate Final(r: Frame) {
    r.Parsed? || (r.Failed? && r.error != LowLevelParsing(NotEnoughBytes))
  }

  lemma VersionStability(s: seq<byte>, ext: seq<byte>)
    requires VersionOf(s).Decoded? || VersionOf(s) == Malformed(ErrorParseUtf8)
    ensures VersionOf(s + ext) == VersionOf(s)
  {
    var t := s + ext;
    DropWithin(s, ext, 80);
    UserAgentStability(s[80..], ext);
    if VersionOf(s).Decoded? {
      var n := UserAgentOf(s[80..]).used;
      Within(s, t, 0, 4); Within(s, t, 4, 12); Within(s, t, 12, 20);
      Within(s, t, 20, 46); Within(s, t, 46, 72); Within(s, t, 72, 80);
      Within(s, t, 80 + n, 84 + n);
    }
  }

  /** A final outcome on a buffer is the outcome on every extension of it. */
  lemma ParseStability(h: Checksum, b: seq<byte>, ext: seq<byte>)
    requires Final(FrameOf(h, b))
    ensures FrameOf(h, b + ext) == FrameOf(h, b)
  {
    var c := b + ext;
    Within(b, c, 0, 4);
    if FrameOf(h, b) != Failed(InvalidMagicBytes) {
      Within(b, c, 4, 16);
      if FrameOf(h, b) != Failed(InvalidCommand) {
        Within(b, c, 16, 20); Within(b, c, 20, 24);
        DropWithin(b, ext, 24);
        if MessageTypeDefinition(b[4..16]).VersionCommand? {
          VersionStability(b[24..], ext);
        }
      }
    }
  }

  function Zeros(n: nat): (s: seq<byte>)
    ensures |s| == n
  {
    seq(n, i => 0)
  }

  /** A payload that lacks only its relay octet is decoded once there is one. */
  lemma RelayOctetDecodes(s: seq<byte>)
    requires VersionOf(s) == Malformed(NotEnoughBytes)
    ensures VersionOf(s + [0]).Decoded?
  {
    DropWithin(s, [0], 80);
    UserAgentStability(s[80..], [0]);
    hide UserAgentOf;
  }

  lemma MissingOctetIsNotFinal(h: Checksum, b: seq<byte>)
    requires FrameOf(h, b) == Failed(LowLevelParsing(NotEnoughBytes))
    ensures FrameOf(h, b + [0]) != FrameOf(h, b)
  {
    var c := b + [0];
    Within(b, c, 0, 4); Within(b, c, 4, 16); Within(b, c, 16, 20); Within(b, c, 20, 24);
    DropWithin(b, [0], 24);
    RelayOctetDecodes(b[24..]);
    hide VersionOf;
  }

  lemma WaitingIsNotFinal(h: Checksum, b: seq<byte>)
    requires FrameOf(h, b).Incomplete?
    ensures |b| >= 20 && FrameOf(h, b + Zeros(U32OfBytes(b[16..20]))) != FrameOf(h, b)
  {
    var c := b + Zeros(U32OfBytes(b[16..20]));
    Within(b, c, 16, 20);
    hide VersionFrameOf;
  }

  /** Zeros behind a payload make up for what it lacks. */
  lemma ZerosSuffice(s: seq<byte>) returns (n: nat)
    ensures forall k: nat {:trigger Zeros(k)} :: k >= n ==> !TooShort(s + Zeros(k))
  {
    var field: int := U64OfBytes((s + Zeros(88))[80..88]);
    n := 92 + field;
    forall k: nat | k >= n ensures !TooShort(s + Zeros(k)) {
      assert (s + Zeros(k))[80..88] == (s + Zeros(88))[80..88];
    }
  }

  lemma PanicIsNotFinal(h: Checksum, b: seq<byte>) returns (ext: seq<byte>)
    requires FrameOf(h, b).Panicked?
    ensures FrameOf(h, b + ext) != FrameOf(h, b)
  {
    var missing := if |b| < 24 then Zeros(24 - |b|) else [];
    var n := ZerosSuffice((b + missing)[24..]);
    ext := missing + Zeros(n);
    Associate(b, missing, Zeros(n));
    DropWithin(b + missing, Zeros(n), 24);
    ParserPanicsExactly(h, b + ext);
    hide FrameOf, TooShort;
  }

  /** An outcome is final exactly when no further octets change it: for the others there are some that do. */
  lemma FinalExactly(h: Checksum, b: seq<byte>)
    ensures Final(FrameOf(h, b)) <==> forall ext: seq<byte> :: FrameOf(h, b + ext) == FrameOf(h, b)
  {
    hide FrameOf;
    if Final(FrameOf(h, b)) {
      forall ext: seq<byte> ensures FrameOf(h, b + ext) == FrameOf(h, b) { ParseStability(h, b, ext); }
    } else {
      var ext: seq<byte>;
      match FrameOf(h, b) {
        case Incomplete => WaitingIsNotFinal(h, b); ext := Zeros(U32OfBytes(b[16..20]));
        case Panicked => ext := PanicIsNotFinal(h, b);
        case Failed(_) => MissingOctetIsNotFinal(h, b); ext := [0];
      }
      assert FrameOf(h, b + ext) != FrameOf(h, b);
    }
  }

  // ---- Parsing what was written ----

  /** Whether the reader accepts the message's size. */
  predicate Fits(m: MessagePayload) {
    m.Version? ==> |VersionBytes(m.version)| <= MAX_SIZE_PAYLOAD
  }

  lemma HeaderFields(command: seq<byte>, length: U32, checksum: Octets4)
    requires |command| == 12
    ensures var s := HeaderBytes(command, length, checksum);
            U32OfBytes(s[0..4]) == MAGIC_BYTES && s[4..16] == command
            && U32OfBytes(s[16..20]) == length && s[20..24] == checksum
  {
    var p1 := LeBytes(MAGIC_BYTES, 4);
    var p2 := p1 + command;
    var p3 := p2 + LeBytes(length, 4);
    var s := HeaderBytes(command, length, checksum);
    First(p1, s);
    Within(p2, s, 4, 16); Last(p1, command);
    Within(p3, s, 16, 20); Last(p2, LeBytes(length, 4));
    Last(p3, checksum);
    U32RoundTrip(MAGIC_BYTES);
    U32RoundTrip(length);
  }

  lemma CommandTypes()
    ensures MessageTypeDefinition(BYTES_VERSION) == VersionCommand
    ensures MessageTypeDefinition(BYTES_VERACK) == VerackCommand
  {
    assert BYTES_VERSION[3] != BYTES_VERACK[3];
  }

  /** The parser on a well-formed header followed by anything. */
  lemma VersionHeadedFrame(h: Checksum, length: U32, checksum: Octets4, s: seq<byte>)
    ensures FrameOf(h, HeaderBytes(BYTES_VERSION, length, checksum) + s)
            == if |s| < length then Incomplete else VersionFrameOf(h, checksum, s)
  {
    var head := HeaderBytes(BYTES_VERSION, length, checksum);
    var b := head + s;
    HeaderFields(BYTES_VERSION, length, checksum);
    CommandTypes();
    Within(head, b, 0, 4); Within(head, b, 4, 16); Within(head, b, 16, 20); Within(head, b, 20, 24);
    Drop(head, s);
  }

  lemma VerackHeadedFrame(h: Checksum, length: U32, checksum: Octets4, s: seq<byte>)
    ensures FrameOf(h, HeaderBytes(BYTES_VERACK, length, checksum) + s)
            == if checksum != h([0]) then Failed(InvalidCheckSum) else Parsed(Verack, 0)
  {
    var head := HeaderBytes(BYTES_VERACK, length, checksum);
    var b := head + s;
    HeaderFields(BYTES_VERACK, length, checksum);
    CommandTypes();
    Within(head, b, 0, 4); Within(head, b, 4, 16); Within(head, b, 16, 20); Within(head, b, 20, 24);
  }

  /** All octets of a frame: magic and command literally, the length declared, the checksum, the payload. */
  lemma FrameLayout(h: Checksum, m: MessagePayload)
    ensures var s := FrameBytes(h, m);
            && s[0..4] == [0xd9, 0xb4, 0xbe, 0xf9]
            && (forall i :: 4 <= i < 16 ==>
                  s[i] == (if m.Version? then "version\0\0\0\0\0" else "verack\0\0\0\0\0\0")[i - 4] as int)
            && LeValue(s[16..20]) == (if m.Version? then |VersionBytes(m.version)| % 0x1_0000_0000 else 0)
            && s[24..] == (if m.Version? then VersionBytes(m.version) else [0]) && s[20..24] == h(s[24..])
  {
    var head, payload := HeaderOf(h, m), Payload(m);
    HeaderFields(Command(m), DeclaredLength(m), h(payload));
    MagicOctets();
    CommandOctets(m);
    Drop(head, payload);
    assert Command(m) == FrameBytes(h, m)[4..16];
    LeBytesOfValue(head[0..4]);
    Within(head, head + payload, 0, 4); Within(head, head + payload, 16, 20); Within(head, head + payload, 20, 24);
    forall i | 4 <= i < 16 ensures FrameBytes(h, m)[i] == Command(m)[i - 4] {
      assert FrameBytes(h, m)[4..16][i - 4] == FrameBytes(h, m)[i];
    }
    hide VersionBytes;
  }

  lemma MagicOctets()
    ensures LeBytes(MAGIC_BYTES, 4) == [0xd9, 0xb4, 0xbe, 0xf9]
  {
    assert LeBytes(0xf9, 1) == [0xf9] + LeBytes(0, 0);
    assert LeBytes(0xf9be, 2) == [0xbe] + LeBytes(0xf9, 1);
    assert LeBytes(0xf9beb4, 3) == [0xb4] + LeBytes(0xf9be, 2);
  }

  lemma CommandOctets(m: MessagePayload)
    ensures forall i :: 0 <= i < 12 ==>
              Command(m)[i] == (if m.Version? then "version\0\0\0\0\0" else "verack\0\0\0\0\0\0")[i] as int
  {
  }

  /** How many octets the reader drains behind the header of a message that was written. */
  function DrainedPayload(m: MessagePayload): nat {
    if m.Version? then |VersionBytes(m.version)| else 0
  }

  /** A whole frame is recognised whatever follows it, unless its payload is too large. */
  lemma FrameRoundTrip(h: Checksum, m: MessagePayload, tail: seq<byte>)
    ensures FrameOf(h, FrameBytes(h, m) + tail)
            == if Fits(m) then Parsed(m, DrainedPayload(m)) else Failed(LargePayloadSize)
  {
    Associate(HeaderOf(h, m), Payload(m), tail);
    match m {
      case Version(v) =>
        assert DeclaredLength(m) <= |VersionBytes(v)|;
        VersionHeadedFrame(h, DeclaredLength(m), h(VersionBytes(v)), VersionBytes(v) + tail);
        VersionRoundTrip(v, tail);
      case Verack =>
        VerackHeadedFrame(h, 0, h([0]), [0] + tail);
    }
  }

  /** The octets b carry message m in k payload octets: header with this declared length, right checksum, encoding. */
  predicate CarriesWith(h: Checksum, b: seq<byte>, m: MessagePayload, k: nat, length: U32) {
    |b| >= LEN_HEADER_MESSAGE + k
    && b[..LEN_HEADER_MESSAGE] == HeaderBytes(Command(m), length, h(Payload(m)))
    && match m
       case Version(v) =>
         0 < k <= MAX_SIZE_PAYLOAD && LEN_HEADER_MESSAGE + length <= |b|
         && Normalised(b[LEN_HEADER_MESSAGE..], k) == VersionBytes(v)
       case Verack => k == 0
  }

  ghost predicate Carries(h: Checksum, b: seq<byte>, m: MessagePayload, k: nat) {
    exists length: U32 :: CarriesWith(h, b, m, k, length)
  }

  lemma HeaderOfOctets(b: seq<byte>)
    requires |b| >= LEN_HEADER_MESSAGE && U32OfBytes(b[0..4]) == MAGIC_BYTES
    ensures b[..LEN_HEADER_MESSAGE] == HeaderBytes(b[4..16], U32OfBytes(b[16..20]), b[20..24])
  {
    LeBytesOfValue(b[0..4]); LeBytesOfValue(b[16..20]);
    Glue(b, 4, 16); Glue(b, 16, 20); Glue(b, 20, 24);
  }

  /** What an accepted buffer looks like, field by field. */
  lemma AcceptedFields(h: Checksum, b: seq<byte>)
    requires FrameOf(h, b).Parsed?
    ensures |b| >= LEN_HEADER_MESSAGE && U32OfBytes(b[0..4]) == MAGIC_BYTES
    ensures var f := FrameOf(h, b);
            b[4..16] == Command(f.message) && b[20..24] == h(Payload(f.message))
            && if f.message.Version? then
                 |b| >= LEN_HEADER_MESSAGE + U32OfBytes(b[16..20]) && f.length <= MAX_SIZE_PAYLOAD
                 && VersionOf(b[24..]) == Decoded(f.message.version, f.length)
               else f.length == 0
  {
  }

  lemma AcceptedCarries(h: Checksum, b: seq<byte>)
    requires FrameOf(h, b).Parsed?
    ensures Carries(h, b, FrameOf(h, b).message, FrameOf(h, b).length)
  {
    AcceptedFields(h, b);
    hide FrameOf, HeaderBytes, VersionOf, VersionBytes;
    HeaderOfOctets(b);
    var f := FrameOf(h, b);
    if f.message.Version? { CanonicalReencoding(b[24..]); }
    assert CarriesWith(h, b, f.message, f.length, U32OfBytes(b[16..20]));
  }

  lemma CarriesAccepted(h: Checksum, b: seq<byte>, m: MessagePayload, k: nat)
    requires Carries(h, b, m, k)
    ensures FrameOf(h, b) == Parsed(m, k)
  {
    hide FrameOf, HeaderBytes, VersionOf, VersionBytes;
    var s := b[LEN_HEADER_MESSAGE..];
    Rest(b[..LEN_HEADER_MESSAGE], b);
    var length: U32 :| CarriesWith(h, b, m, k, length);
    match m {
      case Version(v) =>
        VersionHeadedFrame(h, length, h(VersionBytes(v)), s);
        NormalisedLength(s, k);
        NormalisedDecodes(v, s);
      case Verack =>
        VerackHeadedFrame(h, length, h([0]), s);
    }
  }

  /** The parser takes a message out of the buffer exactly when the buffer's front carries it. */
  lemma AcceptedExactly(h: Checksum, b: seq<byte>, m: MessagePayload, k: nat)
    ensures FrameOf(h, b) == Parsed(m, k) <==> Carries(h, b, m, k)
  {
    if FrameOf(h, b) == Parsed(m, k) { AcceptedCarries(h, b); }
    if Carries(h, b, m, k) { CarriesAccepted(h, b, m, k); }
  }

  /** The beginning of a frame, cut anywhere: the parser panics below 24 octets and waits from there on. */
  lemma CutFrame(h: Checksum, m: MessagePayload, n: nat)
    requires Fits(m) && n < |FrameBytes(h, m)| && n < LEN_HEADER_MESSAGE + DeclaredLength(m)
    ensures FrameOf(h, FrameBytes(h, m)[..n]) == if n < LEN_HEADER_MESSAGE then Panicked else Incomplete
  {
    var head, b := HeaderOf(h, m), FrameBytes(h, m)[..n];
    HeaderFields(Command(m), DeclaredLength(m), h(Payload(m)));
    CommandTypes();
    if n < LEN_HEADER_MESSAGE {
      if n >= 4 { Within(b, head, 0, 4); }
      if n >= 16 { Within(b, head, 4, 16); }
    } else {
      assert b == head + b[24..];
      assert m.Version?;
      VersionHeadedFrame(h, DeclaredLength(m), h(Payload(m)), b[24..]);
    }
  }

  /**
   * Waiting is not final: the declared length is only a bound on when to try. With a declared length of 0,
   * a version cut before its relay octet is NotEnoughBytes, and one more octet makes it a message.
   */
  lemma NotEnoughBytesIsNotFinal(h: Checksum, v: VersionMessage)
    requires Fits(Version(v))
    ensures var b := HeaderBytes(BYTES_VERSION, 0, h(VersionBytes(v))) + VersionBytes(v)[..|VersionBytes(v)| - 1];
            FrameOf(h, b) == Failed(LowLevelParsing(NotEnoughBytes))
            && FrameOf(h, b + [RelayByte(v.relay)]) == Parsed(Version(v), |VersionBytes(v)|)
  {
    var s := VersionBytes(v);
    var cut, head := s[..|s| - 1], HeaderBytes(BYTES_VERSION, 0, h(s));
    CommandTypes();
    VersionHeadedFrame(h, 0, h(s), cut);
    VersionHeadedFrame(h, 0, h(s), s);
    assert head + cut + [RelayByte(v.relay)] == head + s;
    VersionRoundTrip(v, []);
    assert s + [] == s;
    CutVersion(v);
  }

  lemma CutVersion(v: VersionMessage)
    ensures VersionOf(VersionBytes(v)[..|VersionBytes(v)| - 1]) == Malformed(NotEnoughBytes)
  {
    var e, n := VersionBytes(v), |v.userAgent.data|;
    var cut := e[..|e| - 1];
    VersionLayout(v);
    U64RoundTrip(n);
    hide VersionBytes, VersionOf, LeBytes;
    assert cut[80..88] == e[80..88] && cut[88..88 + n] == e[88..88 + n];
    DecodedExactly(cut, 0);
  }

  // ---- The greedy parse of a whole stream ----

  /** Every frame at the front of the stream, the octets left behind them, and the outcome that stops the parse. */
  datatype Greedy = Greedy(messages: seq<MessagePayload>, left: seq<byte>, stop: Frame)

  function Then(m: MessagePayload, g: Greedy): Greedy {
    Greedy([m] + g.messages, g.left, g.stop)
  }

  function Joined(g: Greedy, r: Greedy): Greedy {
    Greedy(g.messages + r.messages, r.left, r.stop)
  }

  /** The buffer once a parsed message has been drained from it. */
  function Drained(r: Frame, b: seq<byte>): (rest: seq<byte>)
    requires r.Parsed? && LEN_HEADER_MESSAGE + r.length <= |b|
    ensures |rest| < |b|
  {
    b[LEN_HEADER_MESSAGE + r.length..]
  }

  function GreedyParse(h: Checksum, b: seq<byte>): Greedy
    decreases |b|
  {
    var r := FrameOf(h, b);
    if r.Parsed? then Then(r.message, GreedyParse(h, Drained(r, b))) else Greedy([], b, r)
  }

  /** The parse stops because of what the leftover octets are, and these end the stream. */
  lemma {:induction false} GreedyStop(h: Checksum, b: seq<byte>)
    ensures var g := GreedyParse(h, b);
            g.stop == FrameOf(h, g.left) && !g.stop.Parsed?
            && |g.left| <= |b| && g.left == b[|b| - |g.left|..]
    decreases |b|
  {
    hide FrameOf;
    var r := FrameOf(h, b);
    if r.Parsed? {
      GreedyStop(h, Drained(r, b));
    }
  }

  lemma DrainedStability(h: Checksum, b: seq<byte>, ext: seq<byte>)
    requires FrameOf(h, b).Parsed?
    ensures FrameOf(h, b + ext) == FrameOf(h, b)
    ensures Drained(FrameOf(h, b), b + ext) == Drained(FrameOf(h, b), b) + ext
  {
    ParseStability(h, b, ext);
    DropWithin(b, ext, LEN_HEADER_MESSAGE + FrameOf(h, b).length);
  }

  /** More octets extend the greedy parse: it resumes at the octets that were left over. */
  lemma {:induction false} GreedyExtends(h: Checksum, b: seq<byte>, ext: seq<byte>)
    ensures GreedyParse(h, b + ext) == Joined(GreedyParse(h, b), GreedyParse(h, GreedyParse(h, b).left + ext))
    decreases |b|
  {
    hide FrameOf;
    var r := FrameOf(h, b);
    if r.Parsed? {
      var rest := Drained(r, b);
      DrainedStability(h, b, ext);
      GreedyExtends(h, rest, ext);
      var g := GreedyParse(h, rest);
      Associate([r.message], g.messages, GreedyParse(h, g.left + ext).messages);
    } else {
      var g := GreedyParse(h, b + ext);
      assert [] + g.messages == g.messages;
    }
  }

  /** How many messages of a written list can be read back. */
  function ReadableCount(ms: seq<MessagePayload>): (n: nat)
    ensures n <= |ms|
  {
    if ms == [] || !Fits(ms[0]) then 0
    else if ms[0].Verack? then 1
    else 1 + ReadableCount(ms[1..])
  }

  /** Every payload is within the limit and no message follows a verack. */
  predicate Readable(ms: seq<MessagePayload>) {
    && (forall i :: 0 <= i < |ms| ==> Fits(ms[i]))
    && (forall i :: 0 <= i < |ms| - 1 ==> ms[i].Version?)
  }

  /** What stops the reader behind the readable part: an oversized payload, a verack's stray octet, or the end. */
  function StopOf(ms: seq<MessagePayload>): Frame {
    var n := ReadableCount(ms);
    if n == |ms| then Panicked
    else if n > 0 && ms[n - 1].Verack? then Failed(InvalidMagicBytes)
    else Failed(LargePayloadSize)
  }

  lemma StrayOctet(h: Checksum, tail: seq<byte>)
    ensures FrameOf(h, [0] + tail) == if |tail| < 3 then Panicked else Failed(InvalidMagicBytes)
  {
    if |tail| >= 3 {
      var s := ([0] + tail)[0..4];
      LeBytesOfValue(s);
      assert LeBytes(MAGIC_BYTES, 4)[0] == 0xd9 && s[0] == 0;
    }
  }

  lemma DrainedLength(m: MessagePayload)
    ensures DrainedPayload(m) <= |Payload(m)|
    ensures Payload(m)[DrainedPayload(m)..] == if m.Version? then [] else [0]
  {
    hide VersionBytes;
  }

  lemma FrameOfParts(h: Checksum, ms: seq<MessagePayload>)
    requires ms != []
    ensures StreamBytes(h, ms) == HeaderOf(h, ms[0]) + Payload(ms[0]) + StreamBytes(h, ms[1..])
  {
    hide HeaderOf, Payload;
  }

  /** Draining header and payload leaves the rest of the stream, behind the stray octet of a verack. */
  lemma DrainedFrame(h: Checksum, ms: seq<MessagePayload>)
    requires ms != []
    ensures LEN_HEADER_MESSAGE + DrainedPayload(ms[0]) <= |StreamBytes(h, ms)|
    ensures Drained(Parsed(ms[0], DrainedPayload(ms[0])), StreamBytes(h, ms))
            == (if ms[0].Version? then [] else [0]) + StreamBytes(h, ms[1..])
  {
    FrameOfParts(h, ms);
    DrainedLength(ms[0]);
    hide HeaderOf, Payload, DrainedPayload, StreamBytes;
    DropBehind(HeaderOf(h, ms[0]), Payload(ms[0]), StreamBytes(h, ms[1..]), DrainedPayload(ms[0]));
  }

  lemma ReadableStep(ms: seq<MessagePayload>)
    requires ms != [] && ms[0].Version? && Fits(ms[0])
    ensures ms[..ReadableCount(ms)] == [ms[0]] + ms[1..][..ReadableCount(ms[1..])]
    ensures StopOf(ms) == StopOf(ms[1..])
  {
  }

  /** The greedy parse of a written stream, one message further. */
  lemma StreamParseStep(h: Checksum, ms: seq<MessagePayload>)
    requires ms != []
    ensures GreedyParse(h, StreamBytes(h, ms))
            == if !Fits(ms[0]) then Greedy([], StreamBytes(h, ms), Failed(LargePayloadSize))
               else Then(ms[0], GreedyParse(h, (if ms[0].Version? then [] else [0]) + StreamBytes(h, ms[1..])))
  {
    var b := StreamBytes(h, ms);
    FrameRoundTrip(h, ms[0], StreamBytes(h, ms[1..]));
    DrainedFrame(h, ms);
    assert FrameOf(h, b) == if Fits(ms[0]) then Parsed(ms[0], DrainedPayload(ms[0])) else Failed(LargePayloadSize);
  }

  /** Behind a verack the reader keeps one stray octet, which spoils whatever is written next. */
  lemma AfterVerack(h: Checksum, ms: seq<MessagePayload>)
    ensures GreedyParse(h, [0] + StreamBytes(h, ms))
            == Greedy([], [0] + StreamBytes(h, ms), if ms == [] then Panicked else Failed(InvalidMagicBytes))
  {
    StrayOctet(h, StreamBytes(h, ms));
  }

  lemma NothingParsed(h: Checksum)
    ensures GreedyParse(h, []) == Greedy([], [], Panicked)
  {
  }

  /** The greedy parse of a written list, for every list: its readable part, then the stated stop. */
  lemma {:induction false} StreamParse(h: Checksum, ms: seq<MessagePayload>)
    ensures GreedyParse(h, StreamBytes(h, ms)).messages == ms[..ReadableCount(ms)]
    ensures GreedyParse(h, StreamBytes(h, ms)).stop == StopOf(ms)
    decreases |ms|
  {
    hide FrameOf, FrameBytes, GreedyParse;
    if ms == [] {
      NothingParsed(h);
    } else {
      StreamParseStep(h, ms);
      if Fits(ms[0]) {
        if ms[0].Version? {
          StreamParse(h, ms[1..]);
          ReadableStep(ms);
          assert [] + StreamBytes(h, ms[1..]) == StreamBytes(h, ms[1..]);
        } else {
          AfterVerack(h, ms[1..]);
          assert ms[..1] == [ms[0]];
        }
      }
    }
  }

  lemma {:induction false} ReadableCounts(ms: seq<MessagePayload>)
    ensures Readable(ms) <==> ReadableCount(ms) == |ms|
  {
    if ms == [] {
    } else {
      ReadableCounts(ms[1..]);
      if Readable(ms) {
        assert Readable(ms[1..]);
        if |ms| > 1 { assert ms[0].Version?; }
      }
    }
  }

  /** The written list comes back whole exactly when it is readable. */
  lemma StreamRoundTrip(h: Checksum, ms: seq<MessagePayload>)
    ensures GreedyParse(h, StreamBytes(h, ms)).messages == ms <==> Readable(ms)
  {
    StreamParse(h, ms);
    ReadableCounts(ms);
  }

  lemma GreedyMonotone(h: Checksum, b: seq<byte>, ext: seq<byte>)
    ensures GreedyParse(h, b).messages <= GreedyParse(h, b + ext).messages
  {
    GreedyExtends(h, b, ext);
  }

  /** From any beginning of a written stream only a beginning of the written list can be read. */
  lemma StreamPrefixParse(h: Checksum, ms: seq<MessagePayload>, b: seq<byte>)
    requires b <= StreamBytes(h, ms)
    ensures GreedyParse(h, b).messages <= ms
  {
    var whole := StreamBytes(h, ms);
    Rest(b, whole);
    GreedyMonotone(h, b, whole[|b|..]);
    StreamParse(h, ms);
  }

  /** The octets of a frame that the reader drains are all that it needs. */
  lemma FrameDrainable(h: Checksum, m: MessagePayload, rest: seq<byte>, b: seq<byte>)
    requires Fits(m) && b <= FrameBytes(h, m) + rest && |b| >= LEN_HEADER_MESSAGE + DrainedPayload(m)
    ensures FrameOf(h, b).Parsed?
  {
    hide FrameOf;
    if m.Version? {
      Rest(FrameBytes(h, m), b);
      FrameRoundTrip(h, m, b[|FrameBytes(h, m)|..]);
    } else {
      Rest(HeaderOf(h, m), b);
      VerackHeadedFrame(h, 0, h([0]), b[24..]);
    }
  }

  lemma DrainedWithin(h: Checksum, m: MessagePayload)
    ensures LEN_HEADER_MESSAGE + DrainedPayload(m) <= |FrameBytes(h, m)|
    ensures Fits(m) ==> LEN_HEADER_MESSAGE + DeclaredLength(m) == LEN_HEADER_MESSAGE + DrainedPayload(m)
  {
    hide VersionBytes, HeaderOf;
  }

  /** The beginning of one frame and what follows it. */
  lemma FrameBeginning(h: Checksum, m: MessagePayload, rest: seq<byte>, b: seq<byte>)
    requires Fits(m) && b <= FrameBytes(h, m) + rest
    ensures !FrameOf(h, b).Failed?
    ensures FrameOf(h, b).Panicked? <==> |b| < LEN_HEADER_MESSAGE
  {
    DrainedWithin(h, m);
    hide FrameOf, FrameBytes, DrainedPayload, DeclaredLength, Fits;
    if |b| < LEN_HEADER_MESSAGE + DrainedPayload(m) {
      assert b == FrameBytes(h, m)[..|b|];
      CutFrame(h, m, |b|);
    } else {
      FrameDrainable(h, m, rest, b);
    }
  }

  /**
   * At the beginning of a readable stream the parser never reports an error,
   * and panics exactly when fewer than 24 octets are there.
   */
  lemma ReadableStreamPanic(h: Checksum, ms: seq<MessagePayload>, b: seq<byte>)
    requires Readable(ms) && b <= StreamBytes(h, ms)
    ensures !FrameOf(h, b).Failed?
    ensures FrameOf(h, b).Panicked? <==> |b| < LEN_HEADER_MESSAGE
  {
    if ms != [] {
      FrameBeginning(h, ms[0], StreamBytes(h, ms[1..]), b);
    }
  }
}
