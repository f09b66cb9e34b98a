# XRNetwork, verified

XRNetwork is a room server. A client connects, goes through a handshake, becomes a member of a room,
and has its frames relayed to the other members. Every message on the wire is 65536 bytes: an 8-byte
header, a packed structure, zeros. All handlers run on one `io_context` thread, so the server is a
step machine whose step is one completion handler. This project models that machine, the client that
talks to it, the byte streams between them and the receiving side of the Unity client, and proves
what holds in every run.

## How it is laid out

| file | content |
|---|---|
| `Bytes.dfy`, `Wire.dfy`, `Protocol.dfy` | little-endian numbers and the swaps of nr_base.hpp, packed structures, the class `XRMessage`, what each frame means to either end |
| `Format.dfy` | every message byte by byte: what stands at which offset, for builders and readers |
| `OrderedSet.dfy` | the sorted sequence that stands for `std::set`, and the map it refines |
| `Writers.dfy`, `Channel.dfy` | the two write queues, TCP as a stream that is cut anywhere, and both together |
| `Schedule.dfy` | exactly when the server's writer keeps its frames apart, and when it may be given one |
| `RoomProtocol.dfy` | the server as a pure step function over rooms and sessions |
| `RoomInvariant.dfy`, `RoomTheorems.dfy`, `RoomRuns.dfy` | the invariant every step keeps and what follows for every run |
| `Laws.dfy` | what each event does to each field of each session, and what runs make of it, from the events alone |
| `Faults.dfy` | exactly when a step is undefined, with inputs that make it so |
| `Rearm.dfy`, `Server.dfy` | `nr_session` and `network_room` as classes that update themselves; each handler is proved to be one step of the step function |
| `Client.dfy` | `chat_client` as a class, proved against its queue and its dispatch |
| `Handshake.dfy` | one `chat_client` against one session of a server in an arbitrary reachable state, with a queue each way |
| `Names.dfy` | the names the client goes by: the service, and the id in its messages |
| `Wired.dfy`, `WiredRuns.dfy`, `WiredJoin.dfy`, `WiredLimits.dfy` | the same over the wire, with both write queues and both byte streams in place of the two queues: what holds there, exactly when, and runs in which it does not |
| `Unity.dfy` | `asyncReceiveCallback` and `OnReceive`, as functions over runs and as classes over shared arrays |

The pieces meet as follows. The class methods of `Server` equal steps of `RoomProtocol`, so the
theorems about runs are about them. A frame in a session's log is what a client decodes from the
bytes that `deliver_byte` was given. In `Wired` the client acts on the bytes that the stream shows it
and the server on the messages it reads; nothing is assumed about their order. There each tidy step
is proved to be a step of `Handshake`, and the runs up to the hand-over of JOIN are proved tidy from
the client's replies and the bytes counted on the stream. What follows JOIN can break this;
`WiredRuns` says exactly when, and `WiredJoin` exactly when it can give the client a wrong id.

## Assumptions

- Handlers do not interleave, and callbacks on signals do not touch the room.
- An id drawn in `join` is nonzero, fits 64 bits and was never drawn before.
- A read completes with 65536 bytes on an open socket, or with an error on any socket; a pending
  read on a closed socket can only fail. A write whose frame was handed over can complete or fail at
  any time.
- Undefined behaviour (null dereference, a copy past a fixed buffer) and an exception that leaves
  `io_context::run` are the outcome `Fault`, which ends a run. Nothing excludes them: the lemmas say
  exactly when they happen.
- The machine is little-endian.
- No byte array of .NET is longer than 2147483591 bytes; making a longer one throws.

## Where code and intention differ

The model follows the code.

- `chat_client` takes the service id of HELLO for its participant id until JOIN corrects it
  (nr_client.cpp:147).
- On a login mismatch the session is disconnected and still joins. `set_option` on the closed socket
  throws unless the room is full (`RoomRuns.MismatchNeverJoins`).
- A session that joins a full room keeps id 0; when its write fails it tells the room that 0 has left
  (`RoomFaults.FullRoomTellsZeroLeft`).
- `swap_xr_message_header` swaps at 64 bits and yields head 0 and size 0 for every header.
- `nr_session` pops a buffer before writing it, so its queue is empty at every handler boundary and
  nothing keeps two writes apart; two of them can mix their frames on the stream
  (`SessionChannel.OverlapMixesFrames`). Two writes can be in flight even in the handshake, when the
  completion handler of one is late (`WiredLimits.HandshakeWritesOverlap`), but only one of them then
  has bytes to send. A frame relayed while JOIN is being written can give the client a wrong id
  (`WiredLimits.OvertakenJoinMisleads`), unless the first 16 bytes of JOIN have been sent
  (`WiredJoin.WireTellsIff`).
- `OnReceive` discards the rest of its buffer with each message it processes, and with it any further
  frames in it (`Reassembly.OnlyFirstFrames`); a frame cut there is then read from its middle
  (`Reassembly.CutInLaterFrame`). It never discards a buffer that starts with head 0 or
  declares more than an array can hold. A frame whose zero padding spills into a later callback
  therefore makes the Unity client deaf (`Reassembly.FrameDecides`, `Reassembly.CutInPaddingDeafens`).
- The name of the server is copied into 1024 bytes unchecked; a longer one is undefined.
- JOIN_ACK names the participant to introduce, and nothing ties it to the sender.

## Model

| member | source | states |
|---|---|---|
| RoomTheorems.ViewsTrackTheRoom | room.hpp:60-162 | in every reachable state, replaying a member's NEW and LEAVE frames yields exactly the members it is acquainted with; acquaintance is mutual, introduced members know each other, no stranger is ever known, and once all are introduced the view is the room without itself |
| RoomTheorems.MemberLogsHaveOneJoin | handshake.hpp:73-100 | every member's log is greetings, one JOIN with its own id, then only NEW, LEAVE and relayed updates |
| RoomTheorems.IntroductionExchange | room.hpp:60-115 | an introduction hands one NEW of the newcomer to each of the n-1 others, hands it n-1 NEW frames in ascending id order with each member's descriptor, and changes nothing else |
| RoomTheorems.JoinAckExchanges | session.hpp:117-127 | in every reachable state a JOIN_ACK that does not fault replaces the descriptor of its session and is then that exchange for the member it names, and nothing else |
| RoomTheorems.RelayConservation | session.hpp:130-137 | an update reaches every other member once, byte for byte, and never its sender; frames grow by n-1, or by n if the sender has left |
| RoomTheorems.OtherStepsGainNothing | session.hpp:102-154 | no event but a good login in a room with space adds a member, changes a key or hands a frame to a session that has left |
| RoomTheorems.AdmitsRoster | room.hpp:38-54 | a good login in a room with space adds that session and no other, and leaves every other session alone |
| RoomLaws.StepObeys | session.hpp:102-183 | which events close a socket, end or arm a read in either loop, complete a write, change the descriptor or give an id, for every session, and that no other event does |
| RoomLaws.StepLaws | room.hpp:117-189 | which events take a session in or out, and exactly which frames each event but JOIN_ACK hands to each session |
| RoomLaws.AdmissionIff | room.hpp:38-41 | in every run a good login takes its session into the room if and only if its members are fewer than the last limit set |
| RoomLaws.SessionFieldsOverRuns | session.hpp:120-125 | over every run a session's descriptor is its last json and the configurations since, and its completed writes are those that ended |
| RoomLaws.AcceptedSession | nr_server.hpp:203-215 | an accepted session is open, without an id, with one handshake read and HELLO with the service and id 0 in its log; it faults exactly if the name exceeds 1024 bytes |
| RoomLaws.JoinAckAnnounces | session.hpp:117-127 | the bytes a member has put into its JOIN_ACK, and no others, are its descriptor afterwards, and every other member is handed one NEW with its id and these bytes |
| RoomInvariant.StepKeeps | session.hpp:102-153 | every handler that does not fault keeps the invariant behind these theorems |
| RoomInvariant.IntroduceKeeps | room.hpp:60-115 | an introduction keeps the views of all members consistent, whichever member is introduced and however often |
| RoomInvariant.DepartKeeps | room.hpp:117-162 | leaving, by id or by session, keeps the views consistent even for a session that is not a member |
| RoomInvariant.AdmitKeeps | room.hpp:38-54 | joining keeps the invariant, with the room full or not and the socket open or closed |
| RoomRuns.GrowthRespectsLimit | room.hpp:38-54 | no step takes the room past the limit in force, and growth is by one |
| RoomRuns.CapacityOverRuns | nr_server.hpp:93-106 | over every run the room holds at most the largest limit ever set, so narrowing its count to 16 bits is exact |
| RoomRuns.LeavingIsForGood | room.hpp:144-162 | a key never changes once given, and a session that left never returns and is handed nothing more |
| RoomRuns.RosterIsMap | room.hpp:386-396 | in every reachable state the set is strictly sorted and lookup by order agrees with a scan by id and with a map from ids |
| RoomRuns.OneReadEach | session.hpp:102-153 | a session has at most one read pending; a member has exactly one, in the session loop |
| RoomRuns.DisconnectAllDrains | room.hpp:135-162 | after disconnect_all_participants, in every run without joins, the room is empty once the reads of its members have failed |
| RoomRuns.FailingReadsDrain | session.hpp:150-152 | the failing reads of the n members, in any order, are a legal run that empties a room of n |
| RoomRuns.MismatchNeverJoins | handshake.hpp:73-81 | a wrong login never yields a member: the step fails exactly when the room has space, and otherwise the session stays out with id 0 and a closed socket |
| RoomRuns.SessionReadFaultsIff | session.hpp:116-147 | a message in the session loop leads to undefined behaviour if and only if it introduces an id that is not in the room, copies a descriptor too long for its buffer, or leaves a room the session is not in |
| RoomFaults.StepFaultsIff | session.hpp:102-153 | in every reachable state any event at all ends the run if and only if its guard fails: a name or a configuration too long for its buffer, a wrong login with space in the room, an unsafe session message, an unknown id to disconnect |
| RoomFaults.FirstMismatchFaults | handshake.hpp:75-81 | the first client to give a wrong login ends the run of a server with space in its room |
| RoomFaults.JoinAckZeroFaults | room.hpp:60-82 | a lone member that introduces id 0 makes the server dereference null |
| RoomFaults.FailedWriteTells | room.hpp:144-162 | a failed write takes its session out of the room and hands LEAVE with its id to every other member, whether it was in the room or not |
| RoomFaults.FullRoomTellsZeroLeft | room.hpp:40-44 | a session that finds the room full keeps id 0 and a closed socket, and its failed write tells every member that 0 has left |
| OrderedSet.FindIsScan | participant.hpp:73-86 | the binary search finds a key exactly if it is there, at its only position |
| OrderedSet.InsertRefinesMap | room.hpp:50 | ordered insertion of a new key is the map update |
| OrderedSet.EraseRefinesMap | room.hpp:126 | ordered erasure of a present key is the map removal |
| Rearm.RearmedEvent | session.hpp:147-149 | handling a message between two reads and then arming the next one is the same step as handling it with the read still counted |
| Server.NrSession.DeliverByte | session.hpp:51-75 | the buffer is posted and logged; the writer stays in order and the log gains the decoded frame |
| Server.NrSession.RunPosted | session.hpp:64-74 | the posted handler moves the front to the queue and writes it at once if the queue was empty |
| Server.NrSession.DoWriteByte | session.hpp:222-233 | the front leaves the queue before its write begins |
| Server.NrSession.WriteCompleted | session.hpp:234-249 | a completion starts the next write only if something is queued |
| Server.NrSession.CheckHandshakeHelloAck | handshake.hpp:49-71 | the configuration is appended to the descriptor and CREDENTIALS follows; it faults exactly if the declared size exceeds the buffer |
| Server.NrSession.TakeCredentials | handshake.hpp:73-78 | a mismatch closes the socket, and the session loop is entered either way |
| Server.NrSession.DoStartHandshake | handshake.hpp:37-47 | the first read is armed and HELLO goes out, byte for byte, with the service id, id 0, the time and the name; it faults exactly if the name does not fit its buffer |
| Server.NrSession.SendJoin | handshake.hpp:80-99 | JOIN goes out, byte for byte, and decodes to the session's id |
| Server.NrSession.OnHandshake | handshake.hpp:102-159 | the handler of a handshake message is one step of the step machine and keeps the invariant |
| Server.NrSession.OnHandshakeError | handshake.hpp:151-157 | the handler of a failed handshake read only closes the session |
| Server.NrSession.OnRead | session.hpp:102-149 | the handler of a session message is one step of the step machine and keeps the invariant |
| Server.NrSession.OnReadError | session.hpp:150-152 | the handler of a failed session read is the departure of that session |
| Server.NrSession.OnPosted | session.hpp:63-74 | the posted handler moves the writer and leaves the room as it is |
| Server.NrSession.OnWrite | session.hpp:234-249 | the handler of a completed write changes nothing of the room |
| Server.NrSession.OnWriteError | session.hpp:250-253 | the handler of a failed write is the departure of that session |
| Server.NetworkRoom.LowerBoundOf | room.hpp:388 | the search by key over the stored sessions returns the lower bound |
| Server.NetworkRoom.GetParticipantPtr | room.hpp:386-392 | the lookup returns the member with the id, or null exactly if there is none |
| Server.NetworkRoom.Insert | room.hpp:50 | insertion keeps the sessions in ascending order of id and does nothing if the key is there |
| Server.NetworkRoom.Erase | room.hpp:126 | erasure by key takes out the session with that key and no other |
| Server.NetworkRoom.Join | room.hpp:38-54 | a full room closes the socket; otherwise the id is drawn first, a closed socket fails, and the session is inserted |
| Server.NetworkRoom.Leave | room.hpp:144-162 | the session is erased by key and every remaining member is handed LEAVE |
| Server.NetworkRoom.DisconnectParticipant | room.hpp:117-133 | the same by id; it faults exactly if the id is not in the room |
| Server.NetworkRoom.DeliverToAll | room.hpp:171-176 | every member is handed the buffer once |
| Server.NetworkRoom.DeliverToAllExceptToOne | room.hpp:183-189 | every member whose id is not the exception is handed the buffer once |
| Server.NetworkRoom.NewParticipantToAll | room.hpp:75-93 | the others are handed NEW with the newcomer's id and descriptor; it faults exactly if there is no such member or its descriptor does not fit |
| Server.NetworkRoom.CollectPlayers | room.hpp:97-106 | though one uncleared temporary is refilled for each, every collected structure carries its own member's id and descriptor |
| Server.NetworkRoom.SendListOfPlayers | room.hpp:95-115 | the newcomer is handed the introductions of all others, in order |
| Server.NetworkRoom.InitNewParticipant | room.hpp:60-72 | the two halves together are one introduction, or a fault |
| Server.NetworkRoom.Accept | nr_server.hpp:203-215 | an accepted connection is a session with a handshake read pending and HELLO in its log, unless the server's name does not fit its buffer |
| Server.NetworkRoom.OnDisconnect | nr_server.hpp:128-131 | disconnecting by id is one step of the step machine |
| Server.NetworkRoom.DisconnectAllParticipants | room.hpp:135-142 | every member's socket is closed and the room keeps its members |
| Server.NetworkRoom.SetMaxParticipants | room.hpp:231-235 | the limit in force is the new one, whoever is in the room, and nothing else changes |
| SessionWriters.StartedInDeliveryOrder | session.hpp:61-75 | in every run the queue is empty between handlers and each delivered buffer has been started once, in order, or is still posted |
| SessionWriters.SingleWriteIff | session.hpp:222-254 | at most one write is outstanding in a run if and only if each posted handler finds no write in flight |
| SessionWriters.OverlapIsReachable | session.hpp:71-73 | two deliveries in one handler put two writes in flight |
| SessionChannel.SessionChannelRefinesQueue | session.hpp:222-254 | the client sees the delivered frames, whole and in order, if writes never overlap or if each frame waits for the bytes of those before it |
| Schedules.TidyIff | session.hpp:222-254 | a schedule of deliveries, writes and completions keeps the bytes of the frames in order, whatever the frames are, if and only if no byte of a frame is sent before the frames in front of it |
| Schedules.DrainedTidyIff | session.hpp:222-254 | once all bytes have arrived, the client has been shown the frames whole and in order, whatever they are, if and only if the schedule was tidy |
| Schedules.DeliverSafelyIff | session.hpp:61-75 | after any run, a call of deliver_byte is safe against every later behaviour of writes and network if and only if all frames given before have been sent whole, or the socket sends nothing more |
| Schedules.FirstBytesSafeIff | session.hpp:61-75 | while a frame is on its way in its turn, its first n bytes are safe from all frames that may be given behind it, and from whatever the writes and the network do, if and only if they have been sent, or the socket sends nothing more |
| Schedules.AnswersArriveWhole | session.hpp:61-75 | if each frame is given when the client has been shown all before it, the run is tidy and the client sees them whole and in order |
| Schedules.SingleFlightIff | session.hpp:222-254 | on the stream as well, at most one write is in flight if and only if the completion handler of each write has run before the posted handler of the next frame |
| SessionChannel.TidyRefinesQueue | session.hpp:105-112 | in a tidy run, at every point of it, the client has been shown a prefix of the delivered frames, whatever fails |
| SessionChannel.OverlapMixesFrames | session.hpp:61-75 | a run in which two overlapping writes show the client a message that was never sent |
| Streams.SameBytesSameMessages | session.hpp:105-112 | whole messages that spell a prefix of other messages' bytes are a prefix of those messages |
| Streams.ReaderRefinesQueue | handshake.hpp:107-114 | the reader that always asks for 65536 bytes dispatches a prefix of the messages sent, and all of them when the stream is drained |
| ClientChannel.ChannelRefinesQueue | nr_client.cpp:302-324 | for every interleaving and every segmentation the server dispatches a prefix of the messages given to write_byte, and all of them once all is drained |
| ClientChannel.WriterStaysOrderly | nr_client.cpp:38-57 | in every run a write is in progress exactly if the queue is not empty, until an error; nothing is lost, doubled or reordered |
| ChatClients.ChatClient.RunPosted | nr_client.cpp:38-57 | the posted handler appends to the queue and begins a write only if the queue was empty |
| ChatClients.ChatClient.OnWrite | nr_client.cpp:306-323 | the front is dropped when its write has completed and the next write begins; an error stops writing |
| ChatClients.ChatClient.Dispatch | nr_client.cpp:138-250 | the switch over the head updates the ids and sends the reply that the frame calls for |
| ChatClients.ChatClient.OnRead | nr_client.cpp:124-260 | a message is dispatched and the next read armed, or the client closes |
| ChatClients.ChatClient.OnTimer | nr_client.cpp:79-101 | an update with the current id goes out and the timer is armed again, unless the wait was cancelled |
| Handshake.HandshakeInOrder | handshake.hpp:37-133 | with a queue each way, in every run of a client against a server in any state the frames HELLO, HELLO_ACK, CREDENTIALS, CREDENTIALS_ACK, JOIN are sent in this order, each once, and at most one of them is under way |
| Handshake.ServerReadsWhatItExpects | session.hpp:116-147 | the server never faults on such a client, never refuses its login, and never reaches the default case that disconnects |
| Handshake.EachFrameAwaitsTheLast | handshake.hpp:49-100 | until JOIN the server sends frames one by one, each only when the client has handled all before it |
| Handshake.HandshakeNeverStalls | handshake.hpp:102-159 | until JOIN is handled the client can read, or a message waits and, if the session's socket is open, its one pending handshake read can take it |
| Handshake.HandshakeCompletes | handshake.hpp:37-133 | from every reachable server with space in its room the five handled messages are a legal run after which the session is a member and the client knows its id and has its timer armed |
| HandshakeNames.ClientGoesByItsNames | nr_client.cpp:147-150 | a client that has handled HELLO knows its service, and until JOIN takes it for its own id, which its HELLO_ACK carries; its login carries no id, and every update on its way the id of its session |
| Wired.StepKeepsCoupled | session.hpp:61-75 | over the wire, every step but one that lets a frame overtake another keeps what each side has been shown a prefix of what the other has sent, and the phases of the handshake |
| Wired.ServerReadsKeeps | session.hpp:102-149 | a message that the server takes from the byte stream is the next one of the client's queue, and its step is the step of the product with queues |
| Wired.ClientReadsKeeps | nr_client.cpp:124-260 | the bytes the client is shown decode to the next frame of the session's log, and its step is the step of the product with queues |
| WiredRuns.TidyUntilJoin | handshake.hpp:37-133 | in every run over the wire in which nothing has yet followed JOIN, no byte overtakes another frame, and at most the last frame has bytes to send |
| WiredRuns.TidyIfPatient | room.hpp:171-189 | a run stays tidy after JOIN if the frames that follow are handed over one by one, each when those before are sent whole |
| WiredRuns.WireKeepsOrder | handshake.hpp:37-133 | over the wire, until something follows JOIN and for as long as the run is tidy, the five handshake frames are sent in order, each once, at most one is under way, and the client is shown the frames of the server whole and in order |
| WiredRuns.WireTellsTheId | nr_client.cpp:216-225 | under the same condition, for as long as it lasts, a client that has handled a JOIN knows the id of its session |
| WiredRuns.WireReadsAreExpected | session.hpp:116-147 | under the same condition the server takes each message in the loop it is meant for, never faults on it and never reaches the default case |
| WiredRuns.WireTidyIff | session.hpp:222-254 | a run over the wire is tidy if and only if its schedule would keep the bytes of any frames in order |
| WiredRuns.WireHandsSafelyIff | session.hpp:61-75 | at any point of a run over the wire, handing the session a frame is safe if and only if its frames so far are sent whole or its socket sends nothing more |
| WiredJoin.WireTellsIff | nr_client.cpp:216-225 | when JOIN has been handed over and nothing has followed it: whatever frames are given next, and whatever the writes and the network do, a JOIN that the client is shown in its place tells the id of the session, if and only if the 16 bytes of its head and id have been sent or the socket sends nothing more |
| WiredJoin.ClientIsToldItsId | nr_client.cpp:216-225 | under that condition the client takes the id of its session from the JOIN it is shown, in every continuation of the run over the wire, tidy or not |
| WiredJoin.WireViewIsOfTheLog | room.hpp:60-162 | in a tidy run over the wire the client's picture of the room is one that its session's log has given, and when it has handled all of it, it is the members its session is acquainted with |
| WiredJoin.WireNeverStalls | handshake.hpp:102-159 | over the wire, until the client has handled JOIN, some read, posted handler, send, completion or receipt takes the handshake on, unless a socket is closed or has failed |
| WiredRuns.WireSingleFlightIff | session.hpp:222-254 | in a run over the wire the session has at most one write in flight if and only if the handler of each write has run before the posted handler of the next frame |
| WiredLimits.WireCompletes | handshake.hpp:37-133 | from every reachable server with space in its room a run over the wire ends with the session a member and the client knowing its id, its timer armed |
| WiredLimits.HandshakeWritesOverlap | session.hpp:61-75 | a run over the wire with two writes in flight in the middle of the handshake: all bytes of HELLO are sent and its completion handler has not run |
| WiredLimits.OvertakenJoinMisleads | room.hpp:183-189 | from every reachable server with an open member and space in its room, a run over the wire in which an update overtakes JOIN and the client takes a wrong id |
| WiredLimits.SomeClientIsMisled | room.hpp:183-189 | such a run exists: one member is in the room and a second client connects |
| Handshake.StepKeepsSound | nr_client.cpp:139-225 | every step of either side or of any other session keeps the phases of the handshake |
| Bystanders.StepStandsBy | room.hpp:171-189 | a step that is not its own read leaves a session's id alone, arms no read, and hands it frames only as a member and only NEW, LEAVE and updates |
| Bytes.SwapEndianReversesDigits | nr_base.hpp:120-131 | at every width the swap reverses the base-256 digits and undoes itself |
| Bytes.SwapByteVector | nr_base.hpp:133-138 | the vector is reversed, and reversing the result gives the original |
| Bytes.HeaderSwapIsConstant | XRMessage.hpp:41-48 | the header swap yields head 0 and size 0 for every header, so it undoes itself exactly on the zero header |
| Layout.UnpackOfPack | protocol.hpp:40-318 | reading back a packed structure returns every field, whatever follows it |
| Layout.PackOfUnpack | protocol.hpp:40-318 | packing what was read returns the bytes |
| Layout.ReadOfCutPack | protocol.hpp:274-318 | every field that ends before a cut survives it |
| Messages.ParseOfMessage | XRMessage.hpp:89-145 | a built message parses to its head, its size and its zero-padded buffer, for every size up to 65528 |
| WireFormat.MessageIsOfBytes | XRMessage.hpp:17-39 | the head, the size and 0xFFFF in the first eight bytes, then the buffer, then zeros |
| WireFormat.ParseIsOfBytes | session.hpp:111-147 | for every message, by the numbers at its offsets: what the server takes it for, and with which fields |
| WireFormat.DecodeIsOfBytes | nr_client.cpp:134-250 | for every message, by the numbers at its offsets: what a client takes it for, and with which fields |
| WireFormat.LoginIsOfBytes | handshake.hpp:75 | the login is accepted if and only if the bytes of the two words with their terminators stand in its buffers |
| WireFormat.HelloBytes | protocol.hpp:220-231 | HELLO holds the service, the participant, the time and the name with its length, zero padded |
| WireFormat.CredentialsBytes | handshake.hpp:61-65 | CREDENTIALS is all zeros behind its header |
| WireFormat.JoinBytes | handshake.hpp:82-97 | JOIN holds the id, the rate 1, 0xFFFF and the welcome with its length |
| WireFormat.NewBytes | room.hpp:79-86 | NEW holds the id, the size and the buffer |
| WireFormat.LeaveBytes | room.hpp:127-131 | LEAVE holds the id |
| WireFormat.HelloAckBytes | nr_client.cpp:150-166 | HELLO_ACK holds the id, the time and the 20 letters, zero padded |
| WireFormat.CredentialsAckBytes | nr_client.cpp:186-203 | CREDENTIALS_ACK, cut as it is, holds no id and the two words with their lengths, zero padded |
| WireFormat.UpdateAckBytes | nr_client.cpp:86-94 | UPDATE_ACK holds the id, the time and the json with its length |
| WireFormat.ParseJoinAck | session.hpp:117-125 | the server reads out of a JOIN_ACK its id and exactly the declared first bytes of its buffer, whatever stands behind them |
| WireFormat.ParseAnyHelloAck | handshake.hpp:57-59 | the same of any HELLO_ACK and its configuration |
| Messages.XRMessage.FromBuffer | XRMessage.hpp:89-125 | header, buffer and zeros in 65536 bytes |
| Messages.XRMessage.FromBytes | XRMessage.hpp:73-82 | the bytes of a read, zero padded to 65536 |
| Messages.XRMessage.GetHead | XRMessage.hpp:127-130 | the head as parsed from the bytes |
| Messages.XRMessage.GetPayloadSize | XRMessage.hpp:132-135 | the declared size as parsed from the bytes |
| Messages.XRMessage.GetPayload | XRMessage.hpp:137-140 | everything behind the header |
| Frames.FieldOfMessage | XRMessage.hpp:89-145 | every field of a structure sent whole is read back by the receiver |
| Frames.DecodeNew | room.hpp:99-112 | a NEW frame decodes to its id and descriptor whatever an earlier, longer descriptor left behind |
| Frames.DecodeHello | protocol.hpp:211-231 | a HELLO built for a service and an id decodes to them |
| Frames.DecodeJoin | protocol.hpp:98-112 | a JOIN decodes to its id |
| Frames.DecodeLeave | protocol.hpp:40-43 | a LEAVE decodes to its id |
| Frames.ParseHelloAck | nr_client.cpp:150-169 | the server reads the client's 20 bytes of configuration from its HELLO_ACK |
| Frames.ParseUpdateAck | nr_client.cpp:84-94 | the server and every receiver take the client's update for an update with all its bytes |
| Frames.CStringEqualIff | handshake.hpp:75 | comparing up to the terminator is equality with the word and its terminator |
| Frames.CutCredentialsAreChecked | nr_client.cpp:186-203 | though cut to the size of a smaller structure, the reply shows its login and password whole, and the server accepts it if and only if they are the two expected words |
| Reassembly.FrameDecides | unity_codes/XRNetworkParticipant.cs:281-311 | for every cut of a server frame into callbacks: whether it is processed, and that the client is ready for the next frame if and only if the first buffer holds the header and the body ends in the last one; otherwise it never processes a message again |
| Reassembly.Reassembles | unity_codes/XRNetworkParticipant.cs:281-311 | a message that only its last chunk completes is processed once, with its exact payload, and the buffer is empty again; if all that came exceeds an array, the loop stops instead |
| Reassembly.FailedMessageStays | unity_codes/XRNetworkParticipant.cs:306-309 | a message whose processing throws is still in the buffer |
| Reassembly.CutInPaddingDeafens | unity_codes/XRNetworkParticipant.cs:304-310 | every cut of a server frame in its padding deafens the client after that frame |
| Reassembly.OnlyFirstFrames | unity_codes/XRNetworkParticipant.cs:304-310 | of buffers that hold whole frames exactly the first frame of each is processed |
| Reassembly.CutInLaterFrame | unity_codes/XRNetworkParticipant.cs:304-310 | when a buffer ends inside the frame behind its first, the client then stops, or processes a message that was never sent, or waits; and in that case it never processes anything again if and only if what it takes for the header has head 0 or declares more than an array can hold |
| Reassembly.StuckIff | unity_codes/XRNetworkParticipant.cs:304-310 | with a whole header in the buffer, no input is ever processed if and only if the head is 0 or the declared size exceeds every array |
| ReceiveLoop.ReceiveConserves | unity_codes/XRAsyncTCPClient.cs:230-281 | for every chunking and every pattern of Available the buffers passed on and the one being filled are the bytes received; if the callback threw, the last buffer was passed on and is still there; if the buffer could grow no longer, only the last read is missing |
| ReceiveLoop.PassesAtTheEnds | unity_codes/XRAsyncTCPClient.cs:239-256 | the loop passes on one buffer for each read that is empty or leaves nothing available, and that buffer is all the data since the one before |
| ReceiveLoop.OneBurst | unity_codes/XRAsyncTCPClient.cs:239-256 | reads that leave more available, then one that does not, make one buffer of all their data |
| ReceiveLoop.FrameInOneBurst | unity_codes/XRAsyncTCPClient.cs:230-265 | if of the reads of a server frame only the last leaves nothing available, the frame is passed on at once and processed once, and the client is ready for the next, however the reads cut it |
| ReceiveLoop.StopsIff | unity_codes/XRAsyncTCPClient.cs:253-281 | the loop stops if and only if the callback has thrown or the buffer could grow no longer |
| ReceiveLoop.LoopReceivesFrame | unity_codes/XRAsyncTCPClient.cs:230-281 | the loop and the reassembler together on one server frame |
| ReceiveLoop.LoopReceivesFirstFrames | unity_codes/XRAsyncTCPClient.cs:230-281 | the loop and the reassembler together on several frames: the first of each buffer passed on is processed |
| UnityClient.XRNetworkParticipant.OnReceive | unity_codes/XRNetworkParticipant.cs:281-311 | the method over its fields is the reassembly step, with the buffer kept and not copied when it is the first, the concatenation that throws when it exceeds an array, and the bounds checks that throw |
| UnityClient.XRAsyncTCPClient.AsyncReceiveCallback | unity_codes/XRAsyncTCPClient.cs:230-281 | the handler over shared arrays is one step of the receive loop |
| UnityClient.SplitByteArray | unity_codes/XRAsyncTCPClient.cs:310-315 | a fresh copy of the slice |
| UnityClient.Combine | unity_codes/XRAsyncTCPClient.cs:317-323 | a fresh concatenation, or an exception exactly if it exceeds an array |
| UnityClient.ConcatByteArrays | unity_codes/XRNetworkProtocol.cs:335-343 | a fresh concatenation, also of two empty arrays, or an exception exactly if it exceeds an array |

## Left out

- Handshake.JoinTellsTheId: the product with queues takes the frames of the server to arrive whole and in the order of the log. Over the wire this is `WiredRuns.WireTellsTheId` and, with the exact condition, `WiredJoin.WireTellsIff`.
- WiredRuns.WireTellsTheId: says nothing of runs that are not tidy; for these `WiredJoin.WireTellsIff` decides about the JOIN. A client that has taken the right id can still be given another by a later mixture of frames.
- WiredJoin.WireTellsIff: the frames that may follow are arbitrary messages, not only those a room can hand over.
- WiredRuns.WireHandsSafelyIff: the bytes sent are known to the socket; what a handler of the session sees of them is that the completion handlers of its writes have run.
- Wired.StepKeepsCoupled: the end of a write and what the room makes of it are two events there, where the server has one handler; every run of the server is among those of the model.
- Reassembly.CutInLaterFrame: follows the client for one buffer behind the cut; what a misread message does to later buffers is the same lemma again.
- Handshake.ServerReadsWhatItExpects: faults caused by other sessions are steps of the environment and end the run.
- WiredJoin.WireNeverStalls: does not say that the environment lets the enabled step happen.
- Server.NetworkRoom.LowerBoundOf: a binary search over a sorted sequence in place of the red-black tree inside `std::set`; rotations and node identity are not modelled.
- Server.NrSession.DeliverByte: the log holds what was handed over; that its bytes reach the client is the matter of `SessionChannel`.
- Frames.ParseUpdateAck: the bytes past the packed structure, which the client sends because it declares the size of a larger one, are arbitrary.
- Sockets, timers, DNS and random numbers are steps of the environment or parameters.
- Calls from the console thread into the unsynchronised room, mutexes and object lifetimes.
- XRNetworkLobbyService.hpp, nr_service_console.cpp, error_messages.hpp, stream operators and logging: wrappers and printing.
- message.hpp and message_node.hpp: not on the path of live messages.
- The `XRMessage` constructor from a head and a vector: it builds and discards a temporary.
- Participant names, the deaf and keep-alive flags, participant info and verify_credentials: trivial accessors, or never called.
- The filling of local structures by memset and memcpy is the packing function; the padding of timestamps and text is a parameter or zeros.
- The sending side of the Unity client, its dispatch in ProcessMessage and the layouts of XRNetworkProtocol.cs, which carries unresolved merge markers: only what ProcessMessage is called with, and whether it throws, matters here.
- Certificates and SSL.
