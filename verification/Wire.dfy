/** The payload codec: version messages, network addresses, user agents, headers and veracks. */
module Wire {
  import opened Bytes
  import opened Slices
  import opened Wrappers

  const MAGIC_BYTES: U32 := 0xf9beb4d9

  // The two commands, as zero-padded ASCII.
  const BYTES_VERSION: seq<byte> := [0x76, 0x65, 0x72, 0x73, 0x69, 0x6f, 0x6e, 0, 0, 0, 0, 0]
  const BYTES_VERACK: seq<byte> := [0x76, 0x65, 0x72, 0x61, 0x63, 0x6b, 0, 0, 0, 0, 0, 0]

  const USERAGENT := "/BitcoinCenter:0.0.1/"

  /** The double SHA-256 digest, cut to four octets; any total function serves. */
  type Checksum = seq<byte> -> Octets4

  datatype NetAddr = NetAddr(services: U64, ip: Octets16, port: U16)

  datatype UserAgent = UserAgent(data: Utf8String)

  datatype VersionMessage = VersionMessage(
    version: U32,
    services: U64,
    timestamp: U64,
    netAddrTo: NetAddr,
    netAddrFrom: NetAddr,
    nonce: U64,
    userAgent: UserAgent,
    startHeight: I32,
    relay: bool
  )

  datatype MessagePayload = Version(version: VersionMessage) | Verack

  datatype LowLevelError = ErrorParseUtf8 | NotEnoughBytes

  /** Outcome of a decoder. Panic is an index out of range, which ends the task that decodes. */
  datatype Decoded<+T> = Decoded(value: T, used: nat) | Malformed(error: LowLevelError) | Panic

  // ---- Encodings, as functions ----

  function NetAddrBytes(a: NetAddr): (s: seq<byte>)
    ensures |s| == 26
  {
    LeBytes(a.services, 8) + a.ip + Be16Bytes(a.port)
  }

  function UserAgentBytes(u: UserAgent): (s: seq<byte>)
    ensures |s| == 8 + |u.data|
  {
    LeBytes(|u.data|, 8) + u.data
  }

  /** The 80 octets in front of the user agent. */
  function VersionPrefix(v: VersionMessage): (s: seq<byte>)
    ensures |s| == 80
  {
    LeBytes(v.version, 4) + LeBytes(v.services, 8) + LeBytes(v.timestamp, 8)
    + NetAddrBytes(v.netAddrTo) + NetAddrBytes(v.netAddrFrom) + LeBytes(v.nonce, 8)
  }

  function RelayByte(relay: bool): byte {
    if relay then 1 else 0
  }

  function VersionBytes(v: VersionMessage): (s: seq<byte>)
    ensures |s| == 93 + |v.userAgent.data|
  {
    VersionPrefix(v) + UserAgentBytes(v.userAgent) + I32Bytes(v.startHeight) + [RelayByte(v.relay)]
  }

  function HeaderBytes(command: seq<byte>, length: U32, checksum: Octets4): (s: seq<byte>)
    requires |command| == 12
    ensures |s| == 24
  {
    LeBytes(MAGIC_BYTES, 4) + command + LeBytes(length, 4) + checksum
  }

  // ---- Decodings, as functions ----

  function NetAddrOf(s: seq<byte>): NetAddr
    requires |s| == 26
  {
    NetAddr(U64OfBytes(s[0..8]), s[8..24], Be16Value(s[24..26]))
  }

  function UserAgentOf(s: seq<byte>): Decoded<UserAgent> {
    if |s| < 8 || |s| < 8 + U64OfBytes(s[0..8]) then Panic
    else
      var data := s[8..8 + U64OfBytes(s[0..8])];
      if ValidUtf8(data) then Decoded(UserAgent(data), 8 + |data|) else Malformed(ErrorParseUtf8)
  }

  function VersionOf(s: seq<byte>): Decoded<VersionMessage> {
    if |s| < 80 then Panic
    else match UserAgentOf(s[80..])
      case Panic => Panic
      case Malformed(e) => Malformed(e)
      case Decoded(ua, n) =>
        if |s| < 84 + n then Panic
        else if |s| == 84 + n then Malformed(NotEnoughBytes)
        else Decoded(
            VersionMessage(U32OfBytes(s[0..4]), U64OfBytes(s[4..12]), U64OfBytes(s[12..20]),
                           NetAddrOf(s[20..46]), NetAddrOf(s[46..72]), U64OfBytes(s[72..80]),
                           ua, I32OfBytes(s[80 + n..84 + n]), s[84 + n] != 0),
            85 + n)
  }

  /** The payload ends before its fixed fields, or inside its user agent, or right behind a well-formed one. */
  predicate TooShort(s: seq<byte>) {
    |s| < 88
    || var n: int := U64OfBytes(s[80..88]);
       |s| < 88 + n || (ValidUtf8(s[88..88 + n]) && |s| < 92 + n)
  }

  /** The decoder runs past the end of exactly these payloads. */
  lemma DecoderPanicsExactly(s: seq<byte>)
    ensures VersionOf(s).Panic? <==> TooShort(s)
  {
    if |s| >= 88 {
      var u := s[80..];
      var n: int := U64OfBytes(s[80..88]);
      assert u[0..8] == s[80..88];
      if |s| >= 88 + n {
        assert u[8..8 + n] == s[88..88 + n];
      }
    }
  }

  // ---- The source's own serializers: octets appended to a growing vector ----

  method SerializeNetAddr(a: NetAddr) returns (vecBytes: seq<byte>)
    ensures vecBytes == NetAddrBytes(a)
  {
    vecBytes := [];
    vecBytes := vecBytes + LeBytes(a.services, 8);
    vecBytes := vecBytes + a.ip;
    vecBytes := vecBytes + Be16Bytes(a.port);
  }

  method SerializeUserAgent(u: UserAgent) returns (vecBytes: seq<byte>)
    ensures vecBytes == UserAgentBytes(u)
  {
    vecBytes := [];
    vecBytes := vecBytes + LeBytes(|u.data|, 8);
    vecBytes := vecBytes + u.data;
  }

  method SerializeVersionMessage(v: VersionMessage) returns (vecBytes: seq<byte>)
    ensures vecBytes == VersionBytes(v)
  {
    vecBytes := [];
    vecBytes := vecBytes + LeBytes(v.version, 4);
    vecBytes := vecBytes + LeBytes(v.services, 8);
    vecBytes := vecBytes + LeBytes(v.timestamp, 8);
    var to := SerializeNetAddr(v.netAddrTo);
    vecBytes := vecBytes + to;
    var from := SerializeNetAddr(v.netAddrFrom);
    vecBytes := vecBytes + from;
    vecBytes := vecBytes + LeBytes(v.nonce, 8);
    assert vecBytes == VersionPrefix(v);
    var agent := SerializeUserAgent(v.userAgent);
    vecBytes := vecBytes + agent;
    vecBytes := vecBytes + I32Bytes(v.startHeight);
    vecBytes := vecBytes + [RelayByte(v.relay)];
  }

  method SerializeHeaderMessage(command: seq<byte>, length: U32, checksum: Octets4) returns (vecBytes: seq<byte>)
    requires |command| == 12
    ensures vecBytes == HeaderBytes(command, length, checksum)
  {
    vecBytes := [];
    vecBytes := vecBytes + LeBytes(MAGIC_BYTES, 4);
    vecBytes := vecBytes + command;
    vecBytes := vecBytes + LeBytes(length, 4);
    vecBytes := vecBytes + checksum;
  }

  // ---- The source's own unserializers: an offset moving through the slice ----

  method UnserializeUserAgent(bytes: seq<byte>) returns (r: Decoded<UserAgent>)
    ensures r == UserAgentOf(bytes)
  {
    var offset: nat := 0;
    if |bytes| < offset + 8 { return Panic; }
    var length := U64OfBytes(bytes[offset..offset + 8]);
    offset := offset + 8;
    if |bytes| < offset + length { return Panic; }
    var data := bytes[offset..offset + length];
    assert |data| == length;
    if !ValidUtf8(data) { return Malformed(ErrorParseUtf8); }
    offset := offset + length;
    return Decoded(UserAgent(data), offset);
  }

  method UnserializeVersionMessage(bytes: seq<byte>) returns (r: Decoded<VersionMessage>)
    ensures r == VersionOf(bytes)
  {
    var offset: nat := 0;
    if |bytes| < offset + 4 { return Panic; }
    var version := U32OfBytes(bytes[offset..offset + 4]);
    offset := offset + 4;
    if |bytes| < offset + 8 { return Panic; }
    var services := U64OfBytes(bytes[offset..offset + 8]);
    offset := offset + 8;
    if |bytes| < offset + 8 { return Panic; }
    var timestamp := U64OfBytes(bytes[offset..offset + 8]);
    offset := offset + 8;
    if |bytes| < offset + 26 { return Panic; }
    var netAddrTo := NetAddrOf(bytes[offset..offset + 26]);
    offset := offset + 26;
    if |bytes| < offset + 26 { return Panic; }
    var netAddrFrom := NetAddrOf(bytes[offset..offset + 26]);
    offset := offset + 26;
    if |bytes| < offset + 8 { return Panic; }
    var nonce := U64OfBytes(bytes[offset..offset + 8]);
    offset := offset + 8;
    var agent := UnserializeUserAgent(bytes[offset..]);
    if !agent.Decoded? {
      return if agent.Panic? then Panic else Malformed(agent.error);
    }
    offset := offset + agent.used;
    if |bytes| < offset + 4 { return Panic; }
    var startHeight := I32OfBytes(bytes[offset..offset + 4]);
    offset := offset + 4;
    if |bytes| == offset { return Malformed(NotEnoughBytes); }
    var relay := bytes[offset] != 0;
    offset := offset + 1;
    return Decoded(
        VersionMessage(version, services, timestamp, netAddrTo, netAddrFrom, nonce, agent.value, startHeight, relay),
        offset);
  }

  // ---- Round trips ----

  lemma NetAddrRoundTrip(a: NetAddr)
    ensures NetAddrOf(NetAddrBytes(a)) == a
  {
    NetAddrLayout(a);
    U64RoundTrip(a.services);
  }

  lemma NetAddrCanonical(s: seq<byte>)
    requires |s| == 26
    ensures NetAddrBytes(NetAddrOf(s)) == s
  {
    LeBytesOfValue(s[0..8]);
    Glue(s, 8, 24);
    Glue(s, 24, 26);
  }

  lemma UserAgentRoundTrip(u: UserAgent, tail: seq<byte>)
    ensures UserAgentOf(UserAgentBytes(u) + tail) == Decoded(u, 8 + |u.data|)
  {
    var p := LeBytes(|u.data|, 8);
    var s := UserAgentBytes(u) + tail;
    First(p, s);
    U64RoundTrip(|u.data|);
    Within(UserAgentBytes(u), s, 8, 8 + |u.data|);
    Last(p, u.data);
  }

  lemma VersionPrefixFields(v: VersionMessage)
    ensures var s := VersionPrefix(v);
            U32OfBytes(s[0..4]) == v.version && U64OfBytes(s[4..12]) == v.services
            && U64OfBytes(s[12..20]) == v.timestamp && NetAddrOf(s[20..46]) == v.netAddrTo
            && NetAddrOf(s[46..72]) == v.netAddrFrom && U64OfBytes(s[72..80]) == v.nonce
  {
    PrefixLayout(v);
    U32RoundTrip(v.version);
    U64RoundTrip(v.services); U64RoundTrip(v.timestamp); U64RoundTrip(v.nonce);
    NetAddrRoundTrip(v.netAddrTo); NetAddrRoundTrip(v.netAddrFrom);
  }

  lemma NetAddrLayout(a: NetAddr)
    ensures var s := NetAddrBytes(a);
            && s[0..8] == LeBytes(a.services, 8) && s[8..24] == a.ip && s[24..26] == Be16Bytes(a.port)
            && 256 * s[24] as int + s[25] as int == a.port
  {
    var p1 := LeBytes(a.services, 8);
    var p2 := p1 + a.ip;
    First(p1, NetAddrBytes(a));
    Within(p2, NetAddrBytes(a), 8, 24); Last(p1, a.ip);
    Last(p2, Be16Bytes(a.port));
  }

  /** Where the fields of a version are on the wire. */
  lemma VersionLayout(v: VersionMessage)
    ensures var s := VersionBytes(v);
            var n := |v.userAgent.data|;
            && s[0..4] == LeBytes(v.version, 4) && s[4..12] == LeBytes(v.services, 8)
            && s[12..20] == LeBytes(v.timestamp, 8)
            && s[20..46] == NetAddrBytes(v.netAddrTo) && s[46..72] == NetAddrBytes(v.netAddrFrom)
            && s[72..80] == LeBytes(v.nonce, 8) && s[80..88] == LeBytes(n, 8) && s[88..88 + n] == v.userAgent.data
            && s[88 + n..92 + n] == I32Bytes(v.startHeight) && s[92 + n] == RelayByte(v.relay)
  {
    var s, p := VersionBytes(v), VersionPrefix(v);
    PrefixLayout(v);
    Within(p, s, 0, 4); Within(p, s, 4, 12); Within(p, s, 12, 20);
    Within(p, s, 20, 46); Within(p, s, 46, 72); Within(p, s, 72, 80);
    hide VersionPrefix;
    var u := UserAgentBytes(v.userAgent);
    Associate(p, LeBytes(|v.userAgent.data|, 8), v.userAgent.data);
    var p1 := p + LeBytes(|v.userAgent.data|, 8);
    var p2 := p1 + v.userAgent.data;
    assert p2 == p + u;
    Within(p1, s, 80, 88); Last(p, LeBytes(|v.userAgent.data|, 8));
    Within(p2, s, 88, |p2|); Last(p1, v.userAgent.data);
    Within(p2 + I32Bytes(v.startHeight), s, |p2|, |p2| + 4); Last(p2, I32Bytes(v.startHeight));
  }

  lemma PrefixLayout(v: VersionMessage)
    ensures var s := VersionPrefix(v);
            && s[0..4] == LeBytes(v.version, 4) && s[4..12] == LeBytes(v.services, 8)
            && s[12..20] == LeBytes(v.timestamp, 8)
            && s[20..46] == NetAddrBytes(v.netAddrTo) && s[46..72] == NetAddrBytes(v.netAddrFrom)
            && s[72..80] == LeBytes(v.nonce, 8)
  {
    var s := VersionPrefix(v);
    var p1 := LeBytes(v.version, 4);
    var p2 := p1 + LeBytes(v.services, 8);
    var p3 := p2 + LeBytes(v.timestamp, 8);
    var p4 := p3 + NetAddrBytes(v.netAddrTo);
    var p5 := p4 + NetAddrBytes(v.netAddrFrom);
    First(p1, s);
    Within(p2, s, 4, 12); Last(p1, LeBytes(v.services, 8));
    Within(p3, s, 12, 20); Last(p2, LeBytes(v.timestamp, 8));
    Within(p4, s, 20, 46); Last(p3, NetAddrBytes(v.netAddrTo));
    Within(p5, s, 46, 72); Last(p4, NetAddrBytes(v.netAddrFrom));
    Last(p5, LeBytes(v.nonce, 8));
  }

  lemma PrefixDecoded(v: VersionMessage, s: seq<byte>)
    requires VersionPrefix(v) <= s
    ensures U32OfBytes(s[0..4]) == v.version && U64OfBytes(s[4..12]) == v.services
            && U64OfBytes(s[12..20]) == v.timestamp && NetAddrOf(s[20..46]) == v.netAddrTo
            && NetAddrOf(s[46..72]) == v.netAddrFrom && U64OfBytes(s[72..80]) == v.nonce
  {
    var p := VersionPrefix(v);
    VersionPrefixFields(v);
    hide VersionPrefix;
    Within(p, s, 0, 4); Within(p, s, 4, 12); Within(p, s, 12, 20);
    Within(p, s, 20, 46); Within(p, s, 46, 72); Within(p, s, 72, 80);
  }

  lemma RestDecoded(v: VersionMessage, tail: seq<byte>)
    ensures var s := VersionBytes(v) + tail;
            var n := 8 + |v.userAgent.data|;
            && UserAgentOf(s[80..]) == Decoded(v.userAgent, n)
            && I32OfBytes(s[80 + n..84 + n]) == v.startHeight && s[84 + n] == RelayByte(v.relay)
  {
    var p, u, i := VersionPrefix(v), UserAgentBytes(v.userAgent), I32Bytes(v.startHeight);
    var s, n := VersionBytes(v) + tail, |u|;
    UserAgentAt(p, u, i + [RelayByte(v.relay)] + tail, s);
    UserAgentRoundTrip(v.userAgent, i + [RelayByte(v.relay)] + tail);
    hide VersionPrefix, UserAgentBytes, UserAgentOf, NetAddrOf, I32OfBytes, I32Bytes;
    Within(p + u + i, s, 80 + n, 84 + n); Last(p + u, i);
    I32RoundTrip(v.startHeight);
  }

  lemma PrefixFirst(v: VersionMessage, tail: seq<byte>)
    ensures VersionPrefix(v) <= VersionBytes(v) + tail
  {
    hide VersionPrefix;
  }

  /** Decoding what was encoded gives back the value and its length, whatever follows. */
  lemma VersionRoundTrip(v: VersionMessage, tail: seq<byte>)
    ensures VersionOf(VersionBytes(v) + tail) == Decoded(v, 93 + |v.userAgent.data|)
  {
    PrefixFirst(v, tail);
    PrefixDecoded(v, VersionBytes(v) + tail);
    RestDecoded(v, tail);
    hide VersionBytes, VersionPrefix, UserAgentOf, NetAddrOf, U32OfBytes, U64OfBytes, I32OfBytes;
  }

  lemma UserAgentAt(p: seq<byte>, u: seq<byte>, rest: seq<byte>, s: seq<byte>)
    requires |p| == 80 && s == p + u + rest
    ensures s[80..] == u + rest
  {
  }

  /** Encodings are injective and prefix-free: equal streams that start with an encoding start with the same one. */
  lemma VersionPrefixFree(v: VersionMessage, w: VersionMessage, s: seq<byte>, t: seq<byte>)
    requires VersionBytes(v) + s == VersionBytes(w) + t
    ensures v == w && s == t
  {
    VersionRoundTrip(v, s);
    VersionRoundTrip(w, t);
    Drop(VersionBytes(v), s);
    Drop(VersionBytes(w), t);
  }

  /** The k octets a version was decoded from, with a non-zero relay octet replaced by 1. */
  function Normalised(s: seq<byte>, k: nat): seq<byte>
    requires 0 < k <= |s|
  {
    s[..k - 1] + [RelayByte(s[k - 1] != 0)]
  }

  lemma UserAgentCanonical(s: seq<byte>)
    requires UserAgentOf(s).Decoded?
    ensures UserAgentOf(s).used <= |s|
    ensures UserAgentBytes(UserAgentOf(s).value) == s[..UserAgentOf(s).used]
  {
    LeBytesOfValue(s[0..8]);
    Glue(s, 8, UserAgentOf(s).used);
  }

  lemma VersionPrefixCanonical(s: seq<byte>)
    requires VersionOf(s).Decoded?
    ensures |s| >= 80 && VersionPrefix(VersionOf(s).value) == s[..80]
  {
    LeBytesOfValue(s[0..4]); LeBytesOfValue(s[4..12]); LeBytesOfValue(s[12..20]); LeBytesOfValue(s[72..80]);
    NetAddrCanonical(s[20..46]); NetAddrCanonical(s[46..72]);
    Glue(s, 4, 12); Glue(s, 12, 20); Glue(s, 20, 46); Glue(s, 46, 72); Glue(s, 72, 80);
  }

  /** Re-encoding an accepted payload gives back its octets, up to the relay octet. */
  lemma CanonicalReencoding(s: seq<byte>)
    requires VersionOf(s).Decoded?
    ensures 0 < VersionOf(s).used <= |s|
    ensures VersionBytes(VersionOf(s).value) == Normalised(s, VersionOf(s).used)
  {
    VersionPrefixCanonical(s);
    UserAgentCanonical(s[80..]);
    var n := UserAgentOf(s[80..]).used;
    assert s[80..][..n] == s[80..80 + n];
    I32Canonical(s[80 + n..84 + n]);
    Glue(s, 80, 80 + n); Glue(s, 80 + n, 84 + n);
  }

  lemma UserAgentStability(s: seq<byte>, ext: seq<byte>)
    requires !UserAgentOf(s).Panic?
    ensures UserAgentOf(s + ext) == UserAgentOf(s)
  {
    Within(s, s + ext, 0, 8);
    Within(s, s + ext, 8, 8 + U64OfBytes(s[0..8]));
  }

  lemma NormalisedLength(s: seq<byte>, k: nat)
    requires 0 < k <= |s|
    ensures |Normalised(s, k)| == k
  {
  }

  /** The value decoded from the octets in front of the relay octet. */
  function FieldsOf(p: seq<byte>, ua: UserAgent, relay: bool): VersionMessage
    requires |p| >= 84
  {
    VersionMessage(U32OfBytes(p[0..4]), U64OfBytes(p[4..12]), U64OfBytes(p[12..20]),
                   NetAddrOf(p[20..46]), NetAddrOf(p[46..72]), U64OfBytes(p[72..80]),
                   ua, I32OfBytes(p[|p| - 4..|p|]), relay)
  }

  /** Of the relay octet only matters whether it is zero. */
  lemma DecodedFrom(p: seq<byte>, s: seq<byte>, ua: UserAgent)
    requires |p| >= 84 && p <= s && |p| < |s|
    requires UserAgentOf(p[80..|p| - 4]) == Decoded(ua, |p| - 84)
    ensures VersionOf(s) == Decoded(FieldsOf(p, ua, s[|p|] != 0), |p| + 1)
  {
    var agent := p[80..|p| - 4];
    assert s[80..] == agent + s[|p| - 4..];
    UserAgentStability(agent, s[|p| - 4..]);
    hide UserAgentOf;
    Within(p, s, 0, 4); Within(p, s, 4, 12); Within(p, s, 12, 20);
    Within(p, s, 20, 46); Within(p, s, 46, 72); Within(p, s, 72, 80); Within(p, s, |p| - 4, |p|);
  }

  lemma AgentInEncoding(v: VersionMessage)
    ensures var p := VersionBytes(v)[..|VersionBytes(v)| - 1];
            UserAgentOf(p[80..|p| - 4]) == Decoded(v.userAgent, |p| - 84)
  {
    var e := VersionBytes(v);
    var p := e[..|e| - 1];
    UserAgentRoundTrip(v.userAgent, []);
    assert UserAgentBytes(v.userAgent) + [] == UserAgentBytes(v.userAgent);
    assert p[80..|p| - 4] == UserAgentBytes(v.userAgent);
  }

  /** Octets that agree with an encoding, up to the value of a non-zero relay octet, are decoded to its value. */
  lemma NormalisedDecodes(v: VersionMessage, s: seq<byte>)
    requires |VersionBytes(v)| <= |s| && VersionBytes(v) == Normalised(s, |VersionBytes(v)|)
    ensures VersionOf(s) == Decoded(v, |VersionBytes(v)|)
  {
    var e := VersionBytes(v);
    var p := e[..|e| - 1];
    assert p == s[..|e| - 1];
    VersionRoundTrip(v, []);
    assert e + [] == e;
    AgentInEncoding(v);
    hide VersionOf, UserAgentOf, VersionBytes;
    DecodedFrom(p, e, v.userAgent);
    DecodedFrom(p, s, v.userAgent);
    assert e[|p|] == RelayByte(s[|p|] != 0);
  }

  /**
   * The reader compares the header's checksum with that of the re-encoded value. This agrees with
   * the checksum of the received octets, for every checksum function, exactly when the relay octet is 0 or 1.
   */
  lemma ReencodedChecksumIsReceivedChecksum(s: seq<byte>)
    requires VersionOf(s).Decoded?
    ensures 0 < VersionOf(s).used <= |s|
    ensures (forall h: Checksum :: h(VersionBytes(VersionOf(s).value)) == h(s[..VersionOf(s).used]))
            <==> s[VersionOf(s).used - 1] <= 1
  {
    CanonicalReencoding(s);
    var v, k := VersionOf(s).value, VersionOf(s).used;
    assert s[..k] == s[..k - 1] + [s[k - 1]];
    if s[k - 1] > 1 {
      var received := s[..k];
      assert VersionBytes(v)[k - 1] == 1 && received[k - 1] != 1;
      var h: Checksum := (x: seq<byte>) => if x == received then [1, 0, 0, 0] else [0, 0, 0, 0];
      assert h(VersionBytes(v)) != h(received);
    }
  }

  // ---- Building and validating versions ----

  datatype IpAddr = V4(octets4: Octets4) | V6(octets16: Octets16)
  datatype SocketAddr = SocketAddr(ip: IpAddr, port: U16)

  /** The 16 address octets: an IPv4 address sits behind 0x00 0xff, which is not the IPv4-mapped form. */
  function IpOctets(ip: IpAddr): Octets16 {
    match ip
    case V4(o) => [0, 0, 0, 0, 0, 0, 0, 0, 0, 0, 0x00, 0xff] + o
    case V6(o) => o
  }

  method FillIpOctets(ip: IpAddr) returns (octets: seq<byte>)
    ensures octets == IpOctets(ip)
  {
    match ip {
      case V4(o) =>
        var bytesIp: array<byte> := new byte[16](i => 0);
        bytesIp[10] := 0x00;
        bytesIp[11] := 0xff;
        forall i | 0 <= i < 4 { bytesIp[12 + i] := o[i]; }
        octets := bytesIp[..];
        assert octets[12..] == o;
      case V6(o) => octets := o;
    }
  }

  function AsciiString(s: string): (u: Utf8String)
    requires |s| < 0x1_0000_0000 && forall i :: 0 <= i < |s| ==> s[i] as int <= 0x7F
    ensures |u| == |s|
  {
    var octets: seq<byte> := seq(|s|, i requires 0 <= i < |s| => s[i] as int);
    AsciiIsUtf8(octets);
    octets
  }

  function BuiltVersion(local: SocketAddr, remote: SocketAddr, nonce: U64, timestamp: U64): VersionMessage {
    VersionMessage(70001, 1, timestamp,
                   NetAddr(1, IpOctets(remote.ip), remote.port),
                   NetAddr(1, IpOctets(local.ip), local.port),
                   nonce, UserAgent(AsciiString(USERAGENT)), 0, true)
  }

  /** The source's builder: there is no version when the clock stands before the epoch. */
  method BuildVersionMessage(local: SocketAddr, remote: SocketAddr, nonce: U64, clock: Option<U64>)
    returns (r: Option<VersionMessage>)
    ensures r == if clock.None? then None else Some(BuiltVersion(local, remote, nonce, clock.value))
  {
    if clock.None? { return None; }
    var ipTo := FillIpOctets(remote.ip);
    var netAddrTo := NetAddr(1, ipTo, remote.port);
    var ipFrom := FillIpOctets(local.ip);
    var netAddrFrom := NetAddr(1, ipFrom, local.port);
    return Some(VersionMessage(70001, 1, clock.value, netAddrTo, netAddrFrom, nonce,
             UserAgent(AsciiString(USERAGENT)), 0, true));
  }

  predicate ValidVersion(v: VersionMessage) {
    v.version >= 70000 && v.relay
  }

  /** Which octets a version is accepted for: a number of at least 70000 in front, and a relay octet that is not 0. */
  lemma AcceptedOctets(s: seq<byte>)
    requires VersionOf(s).Decoded?
    ensures |s| >= 4 && 0 < VersionOf(s).used <= |s|
    ensures ValidVersion(VersionOf(s).value) <==> LeValue(s[0..4]) >= 70000 && s[VersionOf(s).used - 1] != 0
  {
  }

  /** The form of an address on the wire. */
  predicate IsIpOf(s: seq<byte>, ip: IpAddr) {
    match ip
    case V4(o) => s == [0, 0, 0, 0, 0, 0, 0, 0, 0, 0, 0, 0xff] + o
    case V6(o) => s == o
  }

  /** All octets of a version that this node builds. */
  predicate BuiltOctets(s: seq<byte>, local: SocketAddr, remote: SocketAddr, nonce: U64, timestamp: U64) {
    && |s| == 114
    && s[0..4] == [0x71, 0x11, 0x01, 0x00]
    && s[4..12] == [1, 0, 0, 0, 0, 0, 0, 0]
    && s[12..20] == LeBytes(timestamp, 8)
    && s[20..28] == [1, 0, 0, 0, 0, 0, 0, 0]
    && IsIpOf(s[28..44], remote.ip) && s[44..46] == [remote.port / 256, remote.port % 256]
    && s[46..54] == [1, 0, 0, 0, 0, 0, 0, 0]
    && IsIpOf(s[54..70], local.ip) && s[70..72] == [local.port / 256, local.port % 256]
    && s[72..80] == LeBytes(nonce, 8)
    && s[80..88] == [21, 0, 0, 0, 0, 0, 0, 0]
    && (forall i :: 0 <= i < 21 ==> s[88 + i] == "/BitcoinCenter:0.0.1/"[i] as int)
    && s[109..113] == [0, 0, 0, 0] && s[113] == 1
  }

  lemma BuiltNumbers()
    ensures LeBytes(70001, 4) == [0x71, 0x11, 0x01, 0x00]
    ensures LeBytes(1, 8) == [1, 0, 0, 0, 0, 0, 0, 0] && LeBytes(21, 8) == [21, 0, 0, 0, 0, 0, 0, 0]
    ensures I32Bytes(0) == [0, 0, 0, 0]
  {
    assert LeBytes(273, 3) == [0x11] + LeBytes(1, 2);
    assert LeBytes(70001, 4) == [0x71] + LeBytes(273, 3);
    ZeroOctets(7);
    ZeroOctets(4);
    ZeroOctets(1);
    assert LeBytes(1, 2) == [1] + LeBytes(0, 1);
    assert LeBytes(1, 8) == [1] + LeBytes(0, 7);
    assert LeBytes(21, 8) == [21] + LeBytes(0, 7);
  }

  lemma {:induction false} ZeroOctets(n: nat)
    ensures LeBytes(0, n) == seq(n, i => 0)
  {
    if n > 0 { ZeroOctets(n - 1); }
  }

  lemma BuiltAgent()
    ensures var u := AsciiString(USERAGENT);
            |u| == 21 && forall i :: 0 <= i < 21 ==> u[i] == "/BitcoinCenter:0.0.1/"[i] as int
  {
  }

  lemma BuiltAddresses(a: NetAddr, at: SocketAddr)
    requires a == NetAddr(1, IpOctets(at.ip), at.port)
    ensures var s := NetAddrBytes(a);
            && s[0..8] == [1, 0, 0, 0, 0, 0, 0, 0] && IsIpOf(s[8..24], at.ip)
            && s[24..26] == [at.port / 256, at.port % 256]
  {
    NetAddrLayout(a);
    BuiltNumbers();
  }

  /**
   * What this node builds survives the wire and is accepted by the other side's validation, and these are its octets:
   * the other side finds its own address behind octet 20 and this node's behind octet 46.
   */
  lemma BuiltVersionIsAccepted(local: SocketAddr, remote: SocketAddr, nonce: U64, timestamp: U64, tail: seq<byte>)
    ensures var v := BuiltVersion(local, remote, nonce, timestamp);
            ValidVersion(v) && VersionOf(VersionBytes(v) + tail) == Decoded(v, 114)
    ensures BuiltOctets(VersionBytes(BuiltVersion(local, remote, nonce, timestamp)), local, remote, nonce, timestamp)
  {
    var v := BuiltVersion(local, remote, nonce, timestamp);
    var s := VersionBytes(v);
    VersionRoundTrip(v, tail);
    VersionLayout(v);
    BuiltNumbers();
    BuiltAgent();
    BuiltAddresses(v.netAddrTo, remote);
    BuiltAddresses(v.netAddrFrom, local);
    hide VersionBytes, VersionOf, LeBytes, NetAddrBytes, IpOctets, IsIpOf, AsciiString, I32Bytes;
    Inside(s, 20, 46, 0, 8); Inside(s, 20, 46, 8, 24); Inside(s, 20, 46, 24, 26);
    Inside(s, 46, 72, 0, 8); Inside(s, 46, 72, 8, 24); Inside(s, 46, 72, 24, 26);
    forall i | 0 <= i < 21 ensures s[88 + i] == v.userAgent.data[i] { assert s[88..109][i] == s[88 + i]; }
  }
}
