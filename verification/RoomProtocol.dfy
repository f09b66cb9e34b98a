/** The server as a step machine: sessions, the room's ordered set of members and one step per
    completion handler (room.hpp, session.hpp, handshake.hpp). */
module RoomProtocol {
  import opened Bytes
  import opened Protocol
  import opened Messages
  import opened Frames
  import opened OrderedSet

  /** A session. `handshakeReads` and `sessionReads` count the reads pending in each of the two
      loops, `log` holds every frame handed to deliver_byte, and `completed` counts the writes
      whose handler has run. `joinedAt` and `introducedAt` are history: the tick of the join and
      of the last introduction, 0 if there was none. */
  datatype Session = Session(
    id: nat, open: bool, handshakeReads: nat, sessionReads: nat,
    descriptor: seq<Byte>, log: seq<Frame>, completed: nat,
    joinedAt: nat, introducedAt: nat)

  /** The server. `sessions` holds every session ever accepted, `members` the indices of the
      sessions in the room in ascending order of id. `drawn`, `clock` and `peak` are history:
      the ids drawn so far, the current tick and the largest limit ever set. */
  datatype Room = Room(
    sessions: seq<Session>, members: seq<nat>, limit: nat,
    drawn: set<nat>, clock: nat, peak: nat)

  /** Fault stands for undefined behaviour (a null or out-of-range access) and for an exception
      that ends io_context::run. */
  datatype Outcome = Next(room: Room) | Fault

  datatype Loop = HandshakeLoop | SessionLoop

  datatype Event =
    | Accept(service: nat, nameSize: nat)
    | ReadDone(s: nat, loop: Loop, m: Received, draw: nat)
    | ReadError(s: nat, loop: Loop)
    | WriteDone(s: nat)
    | WriteError(s: nat)
    | DisconnectId(id: nat)
    | DisconnectAll
    | SetLimit(limit: nat)

  // ----- the room's set -----

  function IdOf(r: Room, s: nat): nat {
    if s < |r.sessions| then r.sessions[s].id else 0
  }

  function DescriptorOf(r: Room, s: nat): seq<Byte> {
    if s < |r.sessions| then r.sessions[s].descriptor else []
  }

  function Ids(r: Room): (ids: seq<nat>)
    ensures |ids| == |r.members|
  {
    seq(|r.members|, i requires 0 <= i < |r.members| => IdOf(r, r.members[i]))
  }

  function Elements(ms: seq<nat>): set<nat> {
    set m | m in ms
  }

  function Members(r: Room): set<nat> {
    Elements(r.members)
  }

  function Others(r: Room, x: nat): set<nat> {
    set m | m in r.members && IdOf(r, m) != x
  }

  function Insert(r: Room, s: nat): Room {
    var k := IdOf(r, s);
    if Has(Ids(r), k) then r
    else r.(members := InsertAt(r.members, LowerBound(Ids(r), k), s))
  }

  function Erase(r: Room, k: nat): Room {
    if Has(Ids(r), k) then r.(members := RemoveAt(r.members, LowerBound(Ids(r), k)))
    else r
  }

  // ----- deliveries -----

  function Put(r: Room, s: nat, q: Session): Room
    requires s < |r.sessions|
  {
    r.(sessions := r.sessions[s := q])
  }

  function Append(r: Room, s: nat, fs: seq<Frame>): Room
    requires s < |r.sessions|
  {
    Put(r, s, r.sessions[s].(log := r.sessions[s].log + fs))
  }

  /** deliver_byte of one frame on each of a set of sessions. */
  function Deliver(r: Room, to: set<nat>, f: Frame): Room {
    r.(sessions := seq(|r.sessions|, i requires 0 <= i < |r.sessions| =>
      if i in to then r.sessions[i].(log := r.sessions[i].log + [f]) else r.sessions[i]))
  }

  /** The frames send_list_of_players emits for the members ms, in their order. */
  function Introductions(r: Room, ms: seq<nat>, x: nat): seq<Frame> {
    if ms == [] then [] else
      var last := ms[|ms| - 1];
      var before := Introductions(r, ms[..|ms| - 1], x);
      if IdOf(r, last) == x then before else before + [New(IdOf(r, last), DescriptorOf(r, last))]
  }

  // ----- the operations of network_room -----

  predicate DescriptorsFit(r: Room) {
    forall m :: m in r.members ==> |DescriptorOf(r, m)| <= DESCRIPTOR_SIZE
  }

  /** init_new_participant: the room learns of x, then x learns of the room. It dereferences the
      lookup of x and copies every member's descriptor into a fixed buffer. */
  function Introduce(r: Room, x: nat): Outcome {
    if !Has(Ids(r), x) || !DescriptorsFit(r) then Fault
    else
      var s := r.members[LowerBound(Ids(r), x)];
      var told := Deliver(r, Others(r, x), New(x, DescriptorOf(r, s)));
      Next(Receive(told, s, Introductions(r, r.members, x)))
  }

  /** The newcomer's side of an introduction. */
  function Receive(r: Room, s: nat, news: seq<Frame>): Room {
    if s < |r.sessions| then
      Put(r, s, r.sessions[s].(log := r.sessions[s].log + news, introducedAt := r.clock))
    else r
  }

  /** leave and disconnect_participant: erase by key, then tell the members that remain. */
  function Depart(r: Room, k: nat): Room {
    var erased := Erase(r, k);
    Deliver(erased, Members(erased), Leave(k))
  }

  /** The session with its id drawn, not yet in the set. */
  function Keyed(r: Room, s: nat, draw: nat): Room
    requires s < |r.sessions|
  {
    Put(r, s, r.sessions[s].(id := draw, joinedAt := r.clock)).(drawn := r.drawn + {draw})
  }

  /** join, followed by the JOIN frame of check_handshake_credentials_ack. */
  function Admit(r: Room, s: nat, draw: nat): Outcome
    requires s < |r.sessions|
  {
    var q := r.sessions[s];
    if |r.members| >= r.limit then Next(Append(Put(r, s, q.(open := false)), s, [Join(q.id)]))
    else if !q.open then Fault
    else
      Next(Append(Insert(Keyed(r, s, draw), s), s, [Join(draw)]))
  }

  // ----- the read handlers -----

  function HandshakeRead(r: Room, s: nat, m: Received, draw: nat): Outcome
    requires s < |r.sessions| && r.sessions[s].handshakeReads > 0
  {
    var q := r.sessions[s];
    match m
    case HelloAck(size, configuration) =>
      if size > DESCRIPTOR_SIZE then Fault
      else Next(Append(Put(r, s, q.(descriptor := q.descriptor + configuration)), s, [Credentials]))
    case CredentialsAck(accepted) =>
      Admit(Put(r, s, q.(open := q.open && accepted, handshakeReads := q.handshakeReads - 1,
                         sessionReads := q.sessionReads + 1)), s, draw)
    case _ => Next(r)
  }

  function SessionRead(r: Room, s: nat, m: Received): Outcome
    requires s < |r.sessions|
  {
    var q := r.sessions[s];
    match m
    case JoinAck(id, size, json) =>
      if size > DESCRIPTOR_SIZE then Fault
      else Introduce(Put(r, s, q.(descriptor := json)), id)
    case NewAck => Next(r)
    case UpdateAck(bytes) => Next(Deliver(r, Others(r, q.id), Update(bytes)))
    case LeaveAck => if Has(Ids(r), q.id) then Next(Depart(r, q.id)) else Fault
    case _ => Next(Put(r, s, q.(open := false)))
  }

  function Reads(q: Session, loop: Loop): nat {
    if loop == HandshakeLoop then q.handshakeReads else q.sessionReads
  }

  function TakeRead(q: Session, loop: Loop): Session
    requires Reads(q, loop) > 0
  {
    if loop == HandshakeLoop then q.(handshakeReads := q.handshakeReads - 1)
    else q.(sessionReads := q.sessionReads - 1)
  }

  /** The session when one more of its writes has completed. */
  function Wrote(q: Session): Session {
    q.(completed := q.completed + 1)
  }

  function NewSession(service: nat): Session {
    Session(0, true, 1, 0, [], [Hello(service, 0)], 0, 0, 0)
  }

  function CloseAll(r: Room): Room {
    r.(sessions := seq(|r.sessions|, i requires 0 <= i < |r.sessions| =>
      if i in r.members then r.sessions[i].(open := false) else r.sessions[i]))
  }

  // ----- steps and runs -----

  function Init(limit: nat): Room {
    Room([], [], limit, {}, 1, limit)
  }

  /** What the environment can do. A read completes with a message only on an open socket;
      a drawn id is a nonzero 64-bit number that was never drawn before. */
  predicate Enabled(r: Room, e: Event) {
    match e
    case Accept(service, _) => IsId(service)
    case ReadDone(s, loop, m, draw) =>
      && s < |r.sessions| && r.sessions[s].open && Reads(r.sessions[s], loop) > 0
      && 0 < draw && IsId(draw) && draw !in r.drawn
    case ReadError(s, loop) => s < |r.sessions| && Reads(r.sessions[s], loop) > 0
    case WriteDone(s) => s < |r.sessions| && r.sessions[s].completed < |r.sessions[s].log|
    case WriteError(s) => s < |r.sessions| && r.sessions[s].completed < |r.sessions[s].log|
    case DisconnectId(_) => true
    case DisconnectAll => true
    case SetLimit(limit) => limit < 0x1_0000
  }

  function Handle(r: Room, e: Event): Outcome
    requires Enabled(r, e)
  {
    match e
    case Accept(service, nameSize) =>
      if nameSize > NAME_SIZE then Fault else Next(r.(sessions := r.sessions + [NewSession(service)]))
    case ReadDone(s, HandshakeLoop, m, draw) => HandshakeRead(r, s, m, draw)
    case ReadDone(s, SessionLoop, m, _) => SessionRead(r, s, m)
    case ReadError(s, HandshakeLoop) =>
      Next(Put(r, s, TakeRead(r.sessions[s], HandshakeLoop).(open := false)))
    case ReadError(s, SessionLoop) =>
      Next(Depart(Put(r, s, TakeRead(r.sessions[s], SessionLoop)), r.sessions[s].id))
    case WriteDone(s) => Next(Put(r, s, Wrote(r.sessions[s])))
    case WriteError(s) =>
      Next(Depart(Put(r, s, Wrote(r.sessions[s])), r.sessions[s].id))
    case DisconnectId(id) => if Has(Ids(r), id) then Next(Depart(r, id)) else Fault
    case DisconnectAll => Next(CloseAll(r))
    case SetLimit(limit) => Next(r.(limit := limit, peak := if limit > r.peak then limit else r.peak))
  }

  function Tick(o: Outcome): Outcome {
    match o
    case Fault => Fault
    case Next(r) => Next(r.(clock := r.clock + 1))
  }

  function Step(r: Room, e: Event): Outcome
    requires Enabled(r, e)
  {
    Tick(Handle(r, e))
  }
}
