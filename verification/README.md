# A verified model of the node's network and protocol layers

The node exchanges `version` and `verack` messages with its peers over TCP. This project models the whole way of
such a message and proves what the parts guarantee together:

- **Codec** (`Bytes`, `Wire`): the octets of headers, version messages, network addresses and user agents.
- **Framing** (`Framing`): what the write task puts on the wire, what the read task's parser makes of a buffer, and the
  greedy parse of a whole stream as the reference for any reader.
- **Read and write tasks** (`TaskRead`, `TaskWrite`): the loops around the socket, with arbitrary chunks and failures.
- **Relay** (`Peer`, `Routing`, `Relay`, `Attribution`, `Outbound`): a peer's loop between its two socket tasks and
  PeerManager, where PeerManager sends what it gets, the whole way of a message through these loops and the channel that
  all peers share, under whose id HandleMessage gets it, and whose replies a peer gets.
- **PeerManager** (`Registry`, `PeerManager`): the counter `peerid`, the registry, the join set, the mass disconnection
  and the drain. `Registry` is the state machine on values, `PeerManager` the class with the source's fields.
- **HandleMessage** (`Handshake`, `HandleMessage`): the two tables and the five flags of each peer. `Handshake` is the
  state machine on values, `HandleMessage` the classes with the source's fields.
- **Compositions**: `TwoNodes` joins an outgoing and an incoming node by message FIFOs, `ByteNodes` joins them by byte
  streams and refines the former, `Mirror` relates PeerManager's registry to HandleMessage's tables.

The methods follow the source's loops and in-place updates and are proved equal to functions (`FrameOf`, `ReaderRun`,
`TablesStep`, `Registry.Step`, ...); the properties are proved about these functions. Events of a `select!` are given as
a sequence in the order in which they happen, so a statement about every sequence is one about every schedule.
The module files are meant to be checked together with `dafny verify dfyconfig.toml`.

## What the code does, where one may expect otherwise

The model follows the code. These findings are stated as members named below, with the exact condition
where something fails:

- The guard against short buffers (`src/network/task_read.rs:68`) never holds, so the parser can run past the end of
  its buffer. The model has an explicit outcome `Panicked`. For arbitrary octets it comes about in two cases: fewer
  than 24 octets that, as far as they go, are a version's or a verack's header (other magic octets or commands are
  errors instead), and a version header, its declared length there, in front of a payload that ends too early
  (`Framing.ParserPanicsExactly`). A version header that declares no payload is such an input
  (`Framing.BareVersionHeaderPanics`), and so is a user agent that is said to be longer than the buffer, also near
  2^64, where the source's bound overflows or falls behind the slice's start (`src/network/wire.rs:259`,
  `Framing.OversizedUserAgentPanics`). On what another node wrote, only fewer than 24 buffered octets do it
  (`Framing.ReadableStreamPanic`, `ByteNodes.ReadsPanicExactly`).
- One read takes at most one frame out of the buffer. When a version and the verack behind it arrive in one read and
  nothing follows, the verack stays in the buffer and the outgoing handshake never completes
  (`ByteNodes.CoalescedReadStalls`). Where a run ends without a panic, it has completed exactly when the node's last
  read took 25 octets at most (`ByteNodes.LastReadDecides`); where it ends in whatever way, the sizes of all reads say
  for both nodes whether they have (`ByteNodes.ReadSizesDecide`). For a reader of any stream see
  `TaskRead.NothingPending`.
- A verack declares length 0, but one octet is written and none is drained. A stream is read back whole exactly when
  all payloads are within 4 MiB and no message follows a verack (`Framing.StreamRoundTrip`).
- The checksum of a version is compared with that of the re-encoded value, so a relay octet above 1 is taken for 1
  (`Wire.ReencodedChecksumIsReceivedChecksum`). The declared length of a version is only a bound on when to try, so
  missing octets are reported as an error that one more octet removes (`Framing.NotEnoughBytesIsNotFinal`,
  `Framing.MissingOctetIsNotFinal`). What the parser makes of a buffer is there to stay exactly when it is a message or
  an error other than missing octets; waiting, missing octets and panics are not (`Framing.FinalExactly`).
- An IPv4 address is written behind 0x00 0xff, which is not the IPv4-mapped form of section 2.5.5.2 of RFC 4291
  (`Wire.FillIpOctets`).
- `peerid` goes down whenever any peer ends, so an id can be given out while its holder still runs
  (`Registry.ReuseWitness`). The holders of the id, and only they, lose their senders
  (`Registry.CreationEvictsExactly`). Ids stay distinct exactly when no peer is created while the counter stands at an
  id in use (`Registry.DistinctIffUnused`). That peers end in reverse order of their creation is enough for it
  (`Registry.StackRunIsDistinct`) but not needed (`Registry.DistinctOffStack`); it is exactly what keeps the ids in use
  those from 1 to peerid - 1 (`Registry.DenseIffStack`).
- HandleMessage keeps the entries it has for an id, so a new peer can start with its predecessor's handshake completed
  (`Mirror.ReusedIdInheritsHandshake`). Once HandleMessage has caught up, it does exactly when its id is still
  registered, or was lost to a failed send, and the predecessor's handshake was completed
  (`Mirror.NewcomerStartsExactly`).
- A message that a peer left on the shared channel reaches HandleMessage under its id even when the id has been given to
  another peer by then, in stack order too (`Attribution.LateMessage`). What comes under a new peer's id is its own, in
  whatever way it goes on, exactly when every earlier session with the id was silent at its creation: its loop ended
  and none of its messages underway (`Attribution.OwnExactly`).
- Likewise a reply that was pending for an id when it was given to another peer is sent to that one
  (`Outbound.MisdirectedReply`). All that a new peer gets is meant for it exactly when nothing that HandleMessage sent
  before it knew of the peer, and that PeerManager had not taken yet, was addressed to its id (`Outbound.MeantExactly`).

## Model

| member | source | states |
|---|---|---|
| Bytes.LeBytesAt | src/network/wire.rs:56-58 | octet i of a little-endian field is the digit of weight 256^i |
| Bytes.LeValueOfBytes | src/network/wire.rs:72-82 | reading a little-endian field gives back every value that fits it |
| Bytes.LeBytesOfValue | src/network/wire.rs:72-82 | every field content is the encoding of the value read from it |
| Bytes.I32RoundTrip | src/network/wire.rs:97-98 | start heights survive, negative ones included |
| Bytes.I32Canonical | src/network/wire.rs:97-98 | every four octets are the encoding of the start height read from them |
| Bytes.Utf8Exactly | src/network/wire.rs:260 | octets are accepted as UTF-8 iff they encode a sequence of scalar values as section 3 of RFC 3629 says |
| Bytes.AsciiIsUtf8 | src/network/wire.rs:260 | the node's own user agent passes the UTF-8 check of section 4 of RFC 3629 |
| Wire.SerializeNetAddr | src/network/wire.rs:212-220 | appending field by field gives the 26 octets of the address |
| Wire.SerializeUserAgent | src/network/wire.rs:241-250 | the 8-octet length and then the text |
| Wire.SerializeVersionMessage | src/network/wire.rs:53-67 | appending field by field gives the octets on which all codec laws are stated |
| Wire.SerializeHeaderMessage | src/network/wire.rs:23-32 | the 24 header octets on which the framing laws are stated |
| Wire.UnserializeUserAgent | src/network/wire.rs:252-267 | the moving offset computes the decoding of the slice, with index panics and UTF-8 errors told apart |
| Wire.UnserializeVersionMessage | src/network/wire.rs:69-111 | the moving offset computes the decoding of the slice, for every slice, panics and errors included |
| Wire.NetAddrRoundTrip | src/network/wire.rs:212-232 | an address written and read is the same address |
| Wire.NetAddrCanonical | src/network/wire.rs:212-232 | any 26 octets are the encoding of the address read from them |
| Wire.UserAgentRoundTrip | src/network/wire.rs:241-267 | a user agent is read back from its encoding whatever follows it |
| Wire.VersionLayout | src/network/wire.rs:53-67 | the absolute position of every field of a version on the wire |
| Wire.VersionRoundTrip | src/network/wire.rs:53-111 | every version is read back from its encoding followed by anything, with length 93 plus the user agent's |
| Wire.VersionPrefixFree | src/network/wire.rs:53-111 | encodings are injective and no encoding is the beginning of another |
| Wire.CanonicalReencoding | src/network/wire.rs:53-111 | whatever payload is accepted, re-encoding gives its octets back, up to a non-zero relay octet becoming 1 |
| Wire.NormalisedDecodes | src/network/wire.rs:69-111 | conversely, octets that equal an encoding up to a non-zero relay octet are decoded to its value |
| Wire.ReencodedChecksumIsReceivedChecksum | src/network/task_read.rs:91-94 | the test on the re-encoded value agrees with one on the received octets, for every checksum function, iff the relay octet is 0 or 1 |
| Wire.FillIpOctets | src/network/wire.rs:120-137 | filling the array in place gives the node's form of the address |
| Wire.AcceptedOctets | src/network/wire.rs:196-201 | a decoded version is accepted iff its first four octets say at least 70000 and its relay octet is not 0 |
| Wire.BuildVersionMessage | src/network/wire.rs:117-194 | there is a version unless the clock stands before the epoch, and it is the one whose octets the next row gives |
| Wire.BuiltVersionIsAccepted | src/network/wire.rs:117-201 | a built version survives the wire and passes the other side's validation; all its 114 octets, the remote address behind octet 20, the local one behind octet 46, timestamp, nonce and text at their places |
| Framing.RawByteProcessing | src/network/task_read.rs:67-127 | the parser with its moving offset computes the outcome that the framing laws speak of, on every buffer |
| Wire.DecoderPanicsExactly | src/network/wire.rs:69-111 | the decoder runs past the end of a payload iff it ends before its fixed fields, inside its user agent, or less than 4 octets behind a well-formed one |
| Framing.ParserPanicsExactly | src/network/task_read.rs:67-127 | on arbitrary octets the parser panics iff a right but cut header is there, or a version header with its declared length in front of a payload that ends too early |
| Framing.BareVersionHeaderPanics | src/network/task_read.rs:89-91 | 24 octets on which the parser panics: a version header declaring no payload |
| Framing.OversizedUserAgentPanics | src/network/wire.rs:255-259 | for every user-agent length beyond the buffer the parser panics, whatever the other fields are |
| Framing.ErrorsExactly | src/network/task_read.rs:67-127 | on arbitrary octets, which buffers get InvalidMagicBytes, InvalidCommand, waiting, a UTF-8 error, missing octets and LargePayloadSize, each iff the octets say so |
| Framing.ChecksumExactly | src/network/task_read.rs:94-116 | InvalidCheckSum iff a whole version within the limit, or a verack header, is there whose checksum is not that of its octets, the relay octet taken for 0 or 1 |
| Framing.FrameLayout | src/network/task_write.rs:38-57 | all octets of a frame: magic and command literally, the declared length, the checksum of what follows, the payload |
| Framing.ParseStability | src/network/task_read.rs:67-127 | a message, with its length, or an error other than missing octets is the outcome on every longer buffer too |
| Framing.FinalExactly | src/network/task_read.rs:67-127 | on every buffer, the outcome survives every extension iff it is a message or an error other than missing octets |
| Framing.MissingOctetIsNotFinal | src/network/task_read.rs:89-94 | on every buffer that fails for missing octets, one more octet gives another outcome |
| Framing.NotEnoughBytesIsNotFinal | src/network/task_read.rs:89-94 | that outcome is an accepted message for every version that fits: cut before its relay octet behind a header declaring length 0 |
| Framing.FrameRoundTrip | src/network/task_write.rs:8-25 | what is written for a message is parsed as that message whatever follows, unless its payload exceeds 4 MiB |
| Framing.AcceptedExactly | src/network/task_read.rs:67-127 | a message of a given length is parsed iff the buffer's front is a header with the right magic, command and checksum and the encoding of the message |
| Framing.CutFrame | src/network/task_read.rs:67-127 | a frame cut anywhere before its declared end makes the parser panic below 24 octets and wait from there on |
| Framing.GreedyExtends | src/network/task_read.rs:31-49 | the greedy parse of a longer stream is that of the shorter one, resumed at the octets left over |
| Framing.GreedyStop | src/network/task_read.rs:67-127 | the octets left over end the stream and hold no whole frame |
| Framing.StreamParse | src/network/task_write.rs:14-25 | for every message list, the greedy parse of what is written is its readable part and the stated stop |
| Framing.StreamRoundTrip | src/network/task_write.rs:14-25 | the list comes back whole iff all payloads are within the limit and no message follows a verack |
| Framing.AfterVerack | src/network/wire.rs:284-294 | behind a verack one octet stays, and anything written next is InvalidMagicBytes |
| Framing.StreamPrefixParse | src/network/task_read.rs:31-49 | from any beginning of a written stream only a beginning of the list can be read |
| Framing.ReadableStreamPanic | src/network/task_read.rs:67-75 | on any beginning of a readable stream there is never an error, and a panic iff fewer than 24 octets are there |
| TaskWrite.StartTaskWrite | src/network/task_write.rs:5-36 | the loop refines the writer's machine, for every order of messages, failures and shutdown |
| TaskWrite.WriterWritesStream | src/network/task_write.rs:8-25 | on every run the socket holds a beginning of the stream of the messages among the events; the task runs iff no event ends it, and all of the stream is there then |
| TaskWrite.WriterEndsExactly | src/network/task_write.rs:8-34 | the first event that ends the task, and how; the socket then holds the frames of all messages before it and exactly the octets written of a failing one |
| TaskRead.StartTaskRead | src/network/task_read.rs:15-65 | the loop refines the reader's machine, for every order of chunks, failures and shutdown |
| TaskRead.ReaderRefinesGreedyParse | src/network/task_read.rs:18-50 | for any chunks, while the reader runs its buffer ends what was received, and emitted messages followed by the greedy parse of the buffer are the greedy parse of everything received |
| TaskRead.ReceivesAll | src/network/task_read.rs:24-29 | while the reader runs it has received all octets among the events, afterwards a beginning of them |
| TaskRead.ReadsEverything | src/network/task_read.rs:18-50 | while no event ends the task, its buffer ends all octets among the events, and what it emitted with the greedy parse of the buffer is the greedy parse of all of them |
| TaskRead.ReaderRunsExactly | src/network/task_read.rs:22-64 | the task runs iff no event so far ends it, a read by its parse outcome and the others by themselves |
| TaskRead.ReaderEndsExactly | src/network/task_read.rs:22-64 | the first event that ends the task, and with which end; nothing is emitted from then on |
| TaskRead.ReaderEmitsExactly | src/network/task_read.rs:31-42 | each event makes a running reader emit one message at most, on a read whose buffer parses, and otherwise nothing |
| TaskRead.EmittedIsPrefix | src/network/task_read.rs:18-50 | on every run, ended or not, the emitted messages are a beginning of the greedy parse of all octets among the events |
| TaskRead.EndToEndPrefix | src/network/task_read.rs:18-50 | from any cut of a written stream in any chunks the reader emits a beginning of the written list |
| TaskRead.EmittedCount | src/network/task_read.rs:31-49 | how many messages n reads emit: the least, over j, of the frames completed by j reads plus n - j |
| TaskRead.NothingPending | src/network/task_read.rs:31-49 | the reader has emitted every complete frame iff no number of last reads completed more frames than reads |
| TaskRead.ReadOnStream | src/network/task_read.rs:24-50 | a read on a readable written stream never fails, keeps the reader in place on the stream, and panics iff it leaves fewer than 24 octets |
| Handshake.SessionProjection | src/protocol/handlemessage.rs:60-176 | a run over any peers, seen by one, is that peer's own machine on the events that concern it; both tables keep equal ids |
| Handshake.ExactHandshake | src/protocol/handlemessage.rs:203-310 | for every history and any failing clock or sends, the handshake is completed iff the connection opened well, the first valid version was answered, and a verack came later |
| Handshake.ExactHandshakeAllWell | src/protocol/handlemessage.rs:203-310 | when clock and sends succeed: completed iff some valid version is followed later by a verack |
| Handshake.ExactHandshakeAmongPeers | src/protocol/handlemessage.rs:60-176 | the same among any number of other peers |
| Handshake.ReportedExactly | src/protocol/handlemessage.rs:203-310 | when clock and all sends succeed, a peer is reported as misbehaving, and its message refused with the matching error, iff the message is out of order after the history |
| Handshake.BuiltForConnection | src/protocol/handlemessage.rs:213-215 | the version sent for a connection has the remote address first and the local one second, with the connection's nonce |
| Handshake.AnsweredExactly | src/protocol/handlemessage.rs:208-280 | when clock and sends succeed, a peer from which no valid version has come is answered, as its kind requires, iff the received octets have a version of at least 70000 and a relay octet that is not 0; for others nothing is sent |
| Handshake.OutcomeExactly | src/protocol/handlemessage.rs:203-310 | in every state and surroundings, which message gets which error, gets its peer reported, or is handled, each iff |
| Handshake.LoopEndsExactly | src/protocol/handlemessage.rs:21-57 | which event ends the loop, and with which end; until then it runs |
| Handshake.SendLogMatchesFlags | src/protocol/handlemessage.rs:89-110 | on every history the messages queued to the peer are the beginning of a valid version and a verack that the flags say, and recv_verack is completed_handshake and implies the others |
| Handshake.FlagsGrow | src/protocol/handlemessage.rs:326-340 | no flag is ever cleared in a session; completion is final |
| HandleMessage.HandleMsg | src/protocol/handlemessage.rs:203-310 | setting the flags between the sends gives the state, the sends and the error of the machine |
| HandleMessage.HandleMessage.OnNewConnection | src/protocol/handlemessage.rs:60-121 | both tables afterwards, also for an id that is known already, and the announcement |
| HandleMessage.HandleMessage.OnReadyMessage | src/protocol/handlemessage.rs:122-151 | only the addressed peer's state object changes, and unknown ids change nothing |
| HandleMessage.HandleMessage.OnCompletedPeer | src/protocol/handlemessage.rs:158-176 | both entries go, whichever were there |
| HandleMessage.HandleMessage.Run | src/protocol/handlemessage.rs:21-200 | the loop with its shared state objects refines the machine on values, for every order of events and every end |
| TwoNodes.SendsOnlyHandshake | src/protocol/handlemessage.rs:89-110 | with any failing clock or sends, each of two nodes on message FIFOs only ever sends the beginning of a version that it built and a verack, as its flags say |
| TwoNodes.HandshakeSafety | src/protocol/handlemessage.rs:89-110 | when clock and sends succeed, in every interleaving of two nodes on message FIFOs neither is reported, the progress of both determines both states and queues, and each action lowers what remains by one |
| TwoNodes.HandshakeCompletes | src/protocol/handlemessage.rs:203-310 | a run in which clock and sends succeed cannot be continued iff both handshakes are completed, iff it has six actions |
| ByteNodes.ByteRunRefines | src/network/task_read.rs:22-64 | every run of two nodes on byte streams, written and read in any pieces, with any failing clock or sends, is a run of the message FIFOs with the same node actions, and every reader emitted a beginning of what the other node sent |
| ByteNodes.ReadsPanicExactly | src/network/task_read.rs:67-75 | in every reachable state a read never ends in a parse error, and panics iff fewer than 24 octets are then buffered |
| ByteNodes.ByteProgress | src/network/task_read.rs:22-64 | when clock and sends succeed, every action lowers remaining stages, unwritten octets and octets in flight in this order, so no run is endless |
| ByteNodes.QuietRunsCompleteExactly | src/network/task_read.rs:31-49 | where a run in which clock and sends succeed ends without a panic the incoming handshake is completed, and the outgoing one iff no whole frame is left in its read buffer |
| ByteNodes.ReadSizesTell | src/network/task_read.rs:18-50 | in every reachable state, with any failing clock or sends, the sizes of its reads say how much each reader has emitted, how many octets it holds, and whether it has panicked |
| ByteNodes.ReadSizesDecide | src/network/task_read.rs:18-50 | where a run in which clock and sends succeed ends, in a panic or not, each node has completed its handshake iff the sizes of its reads let it take out two messages |
| ByteNodes.LastReadDecides | src/network/task_read.rs:31-49 | where such a run ends without a panic, the outgoing handshake is completed iff the outgoing node's last read took at most 25 octets, one verack |
| ByteNodes.CoalescedReadStalls | src/network/task_read.rs:31-49 | a run that ends with the verack still buffered and the outgoing handshake not completed |
| ByteNodes.SeparateReadsComplete | src/network/task_read.rs:31-49 | a run that ends with both handshakes completed |
| Peer.SpawnLoop | src/network/peer.rs:52-119 | the loop refines the relay machine, for every order of events and every end |
| Peer.RelayedInOrder | src/network/peer.rs:52-118 | while the loop runs everything was passed on in order in both directions; afterwards a beginning of it |
| Peer.LoopRunsExactly | src/network/peer.rs:52-118 | the loop runs iff no event so far ends it, with everything passed on |
| Peer.LoopEndsExactly | src/network/peer.rs:52-118 | the first event that ends the loop, and how, with all before it passed on and nothing more |
| Peer.StopEnds | src/network/peer.rs:59-67 | in any interleaving, with any failing hand-overs, the loop does not outlast a Shutdown or a dropped sender that it sees |
| Peer.TakingAllEnds | src/network/peer.rs:54-69 | with a Shutdown queued or the sender gone, whatever the loop has been through before, it has ended once the peer has taken what is there, whatever else happens meanwhile |
| Peer.ReceptionsEnd | src/network/peer.rs:59-67 | when the peer only takes what is there and can hand everything over, it ends with a confirmed shutdown |
| Registry.CounterConservation | src/network/peermanager.rs:185-228 | in every reachable state peerid is one more than the number of tasks not joined, and the registry holds only their ids, at most peerid - 1 |
| Registry.TasksExactly | src/network/peermanager.rs:185-228 | over every run the tasks, their ids and the counter are what the creations and joins among the events alone say |
| Registry.LeftExactly | src/network/peermanager.rs:60-175 | the loop is left by the first event that makes it leave, for the reason that this event has |
| Registry.JoinKeeps | src/network/peermanager.rs:310-363 | every join result, a JoinError through set_id_peers too, names the joined task's own id, keeps the invariant, and finds a counter that does not underflow |
| Registry.StepKeeps | src/network/peermanager.rs:179-378 | every event keeps the invariant: counter, own channels, coverage of every task, ownership of every entry |
| Registry.RunKeeps | src/network/peermanager.rs:179-378 | the invariant holds after every run, ids reused or not |
| Registry.RegistryContained | src/network/peermanager.rs:310-363 | every entry belongs to a task not joined, and there are none when there are no tasks |
| Registry.EveryPeerIsToldToStop | src/network/peermanager.rs:546-550 | after the mass disconnection every task not joined, evicted or not, has a Shutdown queued or its sender or receiver gone, and whatever its loop has been through before, in every interleaving it has ended once it has taken what is there; channels of peers that are not registered are left alone |
| Registry.ReportedPeerIsToldToStop | src/network/peermanager.rs:365-373 | a report stops every task that has the reported id, in the same sense, those included that were evicted or whose entry was removed |
| Registry.DenseJoin | src/network/peermanager.rs:319-320 | joining keeps the ids exactly those below the counter iff the joined peer is the one created last |
| Registry.DenseIffStack | src/network/peermanager.rs:185-186 | all through a run the ids in use are exactly those from 1 to peerid - 1, iff peers end in reverse order of creation |
| Registry.DenseDistinct | src/network/peermanager.rs:185-186 | ids that are exactly those below the counter are held by one task each |
| Registry.DistinctIffUnused | src/network/peermanager.rs:185-186 | ids are distinct all through a run iff every connection is given an id that no task not joined has |
| Registry.StackRunIsDistinct | src/network/peermanager.rs:185-186 | if peers end in reverse order of creation, ids are distinct all through the run |
| Registry.DistinctOffStack | src/network/peermanager.rs:319-320 | a run with distinct ids throughout whose peers do not end in that order |
| Registry.CreationEvictsExactly | src/network/peermanager.rs:208-215 | creating a peer takes the sender from exactly those tasks that have its id |
| Registry.ReusedIdEvicts | src/network/peermanager.rs:208-215 | after any join out of that order, the next connection gets the id of a peer that still runs, whose only sender is dropped |
| Registry.ReuseWitness | src/network/peermanager.rs:185-186 | such a run from the start, with two running tasks of one id |
| PeerManager.PeerManager.OnConnection | src/network/peermanager.rs:180-282 | the fields after a connection of either kind, after one whose peer cannot be created, and when HandleMessage is gone |
| PeerManager.PeerManager.OnProtocolMessage | src/network/peermanager.rs:283-295 | a message reaches the registered channel, or its entry and sender go when the peer no longer receives, or nothing happens |
| PeerManager.PeerManager.SendToProtocol | src/network/peermanager.rs:296-301 | the event is queued, or the loop is left |
| PeerManager.PeerManager.TakeResult | src/network/peermanager.rs:310-363 | the fields after any join result, and the id it was booked under |
| PeerManager.PeerManager.OnEvent | src/network/peermanager.rs:179-377 | one turn of the loop is one step of the state machine |
| PeerManager.PeerManager.BulkPeerDisconnection | src/network/peermanager.rs:546-550 | in whatever order the entries are visited, every channel ends as stated |
| PeerManager.PeerManager.Drain | src/network/peermanager.rs:384-416 | once every task has been told to stop, joining what is left in any order with any results brings the counter to 1 and empties the registry, and takes nothing out of the channels |
| PeerManager.PeerManager.Run | src/network/peermanager.rs:57-543 | the loop refines the state machine; whatever ends it, every task that could be reached has a Shutdown in its channel, the counter is back at 1, and registry and join set are empty |
| Mirror.HandleMessageKeys | src/protocol/handlemessage.rs:60-81 | whatever happens to the sends, both tables' ids follow the events taken |
| Mirror.RegistryMirror | src/network/peermanager.rs:212-218 | at any lag, once HandleMessage has taken the queued events its ids are the registered ones and those lost to a failed send, all ids of tasks not joined |
| Mirror.NextIdIsKnownExactly | src/protocol/handlemessage.rs:60-81 | having caught up, HandleMessage knows the id of the next connection iff it is registered or lost to a failed send |
| Mirror.NewcomerStartsExactly | src/protocol/handlemessage.rs:60-121 | a new peer's handshake is completed at once iff its id is known so and its predecessor's was; it starts afresh iff its id is not, or what is known is a fresh start with the same context |
| Mirror.StackIdsAreUnknown | src/protocol/handlemessage.rs:60-81 | in particular, if peers end in reverse order of creation, a new connection's id is unknown to HandleMessage once it has caught up |
| Mirror.ReusedIdInheritsHandshake | src/protocol/handlemessage.rs:60-81 | a run whose last event creates a peer that has sent nothing but whose handshake HandleMessage holds completed |
| Routing.InboundInOrder | src/network/peermanager.rs:296-301 | over every run HandleMessage is sent exactly the peers' messages, in order, under their ids |
| Routing.OutboundInOrder | src/network/peermanager.rs:552-562 | while its id is not given out again, no task with it is joined and it receives, a peer stays registered as created, and what it took and what is queued are exactly what HandleMessage had for its id, in order |
| Routing.HeldExactly | src/network/peermanager.rs:208-215 | a peer stays registered as created and receiving iff its id is not given out again, no task with it is joined and it does not drop its receiver |
| Relay.RunsRegistry | src/network/peermanager.rs:296-301 | PeerManager's part of a run of the whole relay is a run of the registry's state machine |
| Relay.RunsLoop | src/network/peer.rs:52-119 | a session's part of such a run is a run of the peer's relay loop |
| Relay.FifoRelay | src/network/peer.rs:109-114 | in every reachable state, while a session's loop runs, all its reader emitted is, in order, what HandleMessage received of it and the session's part of each queue and hand on the way |
| Relay.ReceivedIsPrefix | src/network/peer.rs:70-79 | even after the loop has ended HandleMessage received a beginning of what the session's reader emitted |
| Relay.NewConnectionFirst | src/network/peermanager.rs:257-271 | HandleMessage learns of a session before any of its messages |
| Relay.InwardsOneQueue | src/network/peer.rs:109-114 | for a session all loops and channels inwards act as one queue: emitting puts in at the end, HandleMessage takes out at the front, nothing else changes it |
| Relay.HandsOnWhatItTakes | src/network/peer.rs:103-108 | while a session's loop runs it has handed to the write task exactly the messages it took from PeerManager, in order |
| Relay.OutwardsOneQueue | src/network/peer.rs:103-108 | for an undisturbed session what was handed to the write task and what still waits are together the messages that HandleMessage had for its id |
| Attribution.OnwardIsRun | src/network/peermanager.rs:179-377 | every continuation that the next theorem speaks of is the end of a run from the start |
| Attribution.OwnExactly | src/network/peermanager.rs:296-301 | all that is told under a new peer's id until the id is given out again is the new peer's own, in every continuation, iff every earlier session with the id was silent when it was created |
| Attribution.LateMessage | src/network/peermanager.rs:310-363 | a run in stack order in which a message of a joined peer is passed on behind the announcement of the next peer, under the same id |
| Outbound.MeantExactly | src/network/peermanager.rs:283-295 | an undisturbed peer gets what was pending for its id when it was created, then what HandleMessage sent for its id since it knew of it; so all is meant for it iff nothing pending was addressed to its id |
| Outbound.MisdirectedReply | src/network/peermanager.rs:283-295 | a run in stack order in which all that a new peer gets is the version meant for its predecessor |

## Left out

- Sockets, connecting, accepting, the listen loop, runtimes and threads: I/O. A read is an arbitrary chunk, a connection an event.
- SHA-256: the checksum is any function from octets to four octets.
- The clock and the nonce are inputs; log lines are left out.
- Conformance to the Bitcoin protocol or to IPv4-mapped addresses: the code deviates from both, and its own codec is what is proved.
- The result tables behind the peer's loop (src/network/peer.rs:121-629), thread_network.rs, thread_protocol.rs and main.rs: finite case splits.
- Bounded channels: channels hold any number of events, so blocking on 1024 full slots is not modelled, and that peers end after the mass disconnection is stated of what is queued for them, not as liveness under a scheduler.
- ConversionError: unreachable, since the slices converted always have the right length. The verack's length and size checks behind the header are constant and left out.
- `active_peers`, `FullMessage` and `IncidentZeroPeers`: unused by the code.
- PeerManager's arm for a closed peer channel (src/network/peermanager.rs:302-309): it cannot be taken, since PeerManager keeps a sender of that channel itself (src/network/peermanager.rs:37). HandleMessage's arm for the event it would send is modelled.
- The counter's upper end: peerid is unbounded above, its decrement wraps as a u64 would.
- PeerManager.PeerManager.TakeResult: the three arms of the source that do the same share one helper, and so do the two connection kinds and the four drain loops, which differ only in log lines and in the value returned.
- PeerManager.PeerManager.Run: which error value is returned for which reason is left out; the reason itself is returned.
- PeerManager.PeerManager.Drain: the iteration order of the hash map and the order of the join set are arbitrary choices.
- ByteNodes.ByteRunRefines: between a node's socket tasks and its HandleMessage there is one queue each way; that the loops there act as one queue is Relay.InwardsOneQueue and Relay.OutwardsOneQueue. A socket write that fails, or a reader that is shut down, is a run in which no more octets are written or read. The limit of 4096 octets per read is a condition there; TaskRead's laws hold for chunks of any length.
- Relay.FifoRelay: PeerManager's loop runs, so its sends to HandleMessage succeed; what is underway when it is left is lost. The session of a message is a history tag that the code lacks; what the ids alone tell is Attribution.OwnExactly.
