/** nr_session, handshake_session and network_room as objects that update themselves, each method
    proved against the step machine of RoomProtocol. */
module Server {
  import opened Bytes
  import opened Layout
  import opened Protocol
  import opened Messages
  import opened Frames
  import opened OrderedSet
  import opened RoomProtocol
  import opened RoomInvariant
  import opened RoomTheorems
  import opened Rearm
  import opened WireFormat
  import SessionWriters

  function Decoded(log: seq<Wire>): (fs: seq<Frame>)
    ensures |fs| == |log|
  {
    seq(|log|, i requires 0 <= i < |log| => Decode(log[i]))
  }

  lemma DecodedSnoc(log: seq<Wire>, w: Wire)
    ensures Decoded(log + [w]) == Decoded(log) + [Decode(w)]
  {}

  ghost function Indices(ps: seq<NrSession>): (ms: seq<nat>)
    ensures |ms| == |ps| && forall i :: 0 <= i < |ps| ==> ms[i] == ps[i].index
  {
    if ps == [] then [] else [ps[0].index] + Indices(ps[1..])
  }

  class NrSession {
    const room: NetworkRoom
    ghost const index: nat
    var id: nat
    var isOpen: bool
    var handshakeReads: nat
    var sessionReads: nat
    var descriptor: seq<Byte>
    var posted: seq<Wire>
    var deque: seq<Wire>
    var inFlight: seq<Wire>
    ghost var log: seq<Wire>
    ghost var started: seq<Wire>
    ghost var completed: nat
    ghost var joinedAt: nat
    ghost var introducedAt: nat

    constructor (room: NetworkRoom, ghost index: nat)
      ensures this.room == room && this.index == index && WriterOk()
      ensures id == 0 && log == []
      ensures Abs() == Session(0, true, 0, 0, [], [], 0, 0, 0)
    {
      this.room := room;
      this.index := index;
      id, isOpen, handshakeReads, sessionReads := 0, true, 0, 0;
      descriptor, posted, deque, inFlight := [], [], [], [];
      log, started, completed, joinedAt, introducedAt := [], [], 0, 0, 0;
    }

    ghost function Abs(): Session
      reads this
    {
      Session(id, isOpen, handshakeReads, sessionReads, descriptor, Decoded(log), completed, joinedAt, introducedAt)
    }

    /** The write queue of this session. */
    ghost function Writer(): SessionWriters.Writer<Wire>
      reads this
    {
      SessionWriters.Writer(posted, deque, inFlight, log, started)
    }

    ghost predicate WriterOk()
      reads this
    {
      SessionWriters.InOrder(Writer()) && completed + |inFlight| == |started|
    }

    /** deliver_byte: the buffer is copied into a handler that is posted. */
    method DeliverByte(w: Wire)
      modifies this`posted, this`log
      ensures Writer() == SessionWriters.Deliver(old(Writer()), w)
      ensures old(WriterOk()) ==> WriterOk()
      ensures Abs() == old(Abs()).(log := old(Abs()).log + [Decode(w)])
    {
      SessionWriters.DeliverInOrder(Writer(), w);
      posted := posted + [w];
      log := log + [w];
      DecodedSnoc(old(log), w);
    }

    /** do_write_byte: the front leaves the queue before its write begins. */
    method DoWriteByte()
      requires deque != []
      modifies this`deque, this`inFlight, this`started
      ensures Writer() == SessionWriters.StartFront(old(Writer()))
    {
      var front := deque[0];
      deque := deque[1..];
      inFlight := inFlight + [front];
      started := started + [front];
    }

    /** The handler deliver_byte posts. */
    method RunPosted()
      requires posted != []
      modifies this`posted, this`deque, this`inFlight, this`started
      ensures Writer() == SessionWriters.RunPosted(old(Writer()))
      ensures old(WriterOk()) ==> WriterOk()
      ensures Abs() == old(Abs())
    {
      SessionWriters.RunPostedInOrder(Writer());
      var inProgress := deque != [];
      deque := deque + [posted[0]];
      posted := posted[1..];
      if !inProgress {
        DoWriteByte();
      }
    }

    /** The completion handler of a write that went well. */
    method WriteCompleted(i: nat)
      requires i < |inFlight|
      modifies this`deque, this`inFlight, this`started, this`completed
      ensures Writer() == SessionWriters.Complete(old(Writer()), i, true)
      ensures old(WriterOk()) ==> WriterOk()
      ensures Abs() == Wrote(old(Abs()))
    {
      inFlight := RemoveAt(inFlight, i);
      completed := completed + 1;
      if deque != [] {
        DoWriteByte();
      }
    }

    /** The completion handler of a write that failed: it leaves the room and starts nothing. */
    method WriteFailed(i: nat)
      requires i < |inFlight|
      modifies this`inFlight, this`completed
      ensures old(WriterOk()) ==> WriterOk()
      ensures Writer() == SessionWriters.Complete(old(Writer()), i, false)
      ensures Abs() == Wrote(old(Abs()))
    {
      inFlight := RemoveAt(inFlight, i);
      completed := completed + 1;
    }

    // ----- the parts of the handlers that touch this session alone -----

    method Disconnect()
      modifies this`isOpen
      ensures Abs() == old(Abs()).(open := false) && Writer() == old(Writer())
    {
      isOpen := false;
    }

    /** set_option throws on a closed socket. */
    method SetKeepAlive() returns (ok: bool)
      ensures ok == isOpen
    {
      ok := isOpen;
    }

    method DoReadByte()
      modifies this`sessionReads
      ensures Abs() == old(Abs()).(sessionReads := old(sessionReads) + 1) && Writer() == old(Writer())
    {
      sessionReads := sessionReads + 1;
    }

    method DoReadHandshake()
      modifies this`handshakeReads
      ensures Abs() == old(Abs()).(handshakeReads := old(handshakeReads) + 1) && Writer() == old(Writer())
    {
      handshakeReads := handshakeReads + 1;
    }

    /** check_handshake_hello_ack: the configuration is appended to the descriptor, which is not
        cleared first. */
    method CheckHandshakeHelloAck(w: Wire) returns (ok: bool)
      requires WriterOk()
      modifies this`descriptor, this`posted, this`log
      ensures WriterOk() && ok == (ConfigurationSize(w) <= DESCRIPTOR_SIZE)
      ensures ok ==> Abs() == old(Abs()).(descriptor := old(descriptor) + Configuration(w),
                                          log := old(Abs()).log + [Credentials])
      ensures ok ==> Writer() == SessionWriters.Deliver(old(Writer()), CredentialsMessage())
    {
      if ConfigurationSize(w) > DESCRIPTOR_SIZE {
        return false;
      }
      descriptor := descriptor + Configuration(w);
      var body := Pack(ST_HANDSHAKE_CREDENTIALS, [Num(0), Block(Zeros(20480))]);
      var msg := new XRMessage.FromBuffer(HANDSHAKE_CREDENTIALS, body, |body|);
      assert body[..|body|] == body;
      DecodeCredentials();
      DeliverByte(msg.data[..]);
      ok := true;
    }

    /** The handler of a handshake read up to the point where it asks the room: the credentials are
        compared and the session loop is entered. */
    method TakeCredentials(w: Wire)
      requires handshakeReads > 0
      modifies this`handshakeReads, this`isOpen, this`sessionReads
      ensures Abs() == Taken(old(Abs()), AcceptsLogin(w)) && Writer() == old(Writer())
    {
      handshakeReads := handshakeReads - 1;
      if !AcceptsLogin(w) {
        Disconnect();
      }
      DoReadByte();
    }

    method SendJoin()
      requires WriterOk() && IsId(id)
      modifies this`posted, this`log
      ensures WriterOk() && Abs() == old(Abs()).(log := old(Abs()).log + [Frame.Join(id)])
      ensures Writer() == SessionWriters.Deliver(old(Writer()), JoinMessage(id))
    {
      var body := Pack(ST_PARTICIPANT_JOIN, JoinValues(id));
      var msg := new XRMessage.FromBuffer(PARTICIPANT_JOIN, body, |body|);
      assert body[..|body|] == body;
      DecodeJoin(id);
      DeliverByte(msg.data[..]);
    }

    /** do_start_handshake: the first read is armed, then HELLO goes out with the id still 0. The name is
        copied into a fixed buffer. */
    method DoStartHandshake(service: nat, timestamp: nat, name: seq<Byte>) returns (ok: bool)
      requires WriterOk() && id == 0 && IsId(service) && IsId(timestamp)
      modifies this`handshakeReads, this`posted, this`log
      ensures WriterOk() && ok == (|name| <= NAME_SIZE)
      ensures ok ==> Abs() == old(Abs()).(handshakeReads := old(handshakeReads) + 1,
                                   log := old(Abs()).log + [Frame.Hello(service, 0)])
      ensures ok ==> Writer() == SessionWriters.Deliver(old(Writer()), HelloMessage(service, 0, timestamp, name))
    {
      DoReadHandshake();
      ok := |name| <= NAME_SIZE;
      if !ok {
        return;
      }
      var body := Pack(ST_HANDSHAKE_HELLO, HelloValues(service, id, timestamp, name));
      var msg := new XRMessage.FromBuffer(HANDSHAKE_HELLO, body, |body|);
      assert body[..|body|] == body;
      DecodeHello(service, id, timestamp, name);
      DeliverByte(msg.data[..]);
    }

    method HandleHelloAck(w: Wire) returns (ok: bool)
      requires WriterOk() && handshakeReads > 0
      modifies this`handshakeReads, this`descriptor, this`posted, this`log
      ensures WriterOk() && ok == (ConfigurationSize(w) <= DESCRIPTOR_SIZE)
      ensures ok ==> Abs() == old(Abs()).(descriptor := old(descriptor) + Configuration(w),
                                          log := old(Abs()).log + [Credentials])
    {
      handshakeReads := handshakeReads - 1;
      ok := CheckHandshakeHelloAck(w);
      if ok {
        DoReadHandshake();
      }
    }

    method TakeSessionRead()
      requires sessionReads > 0
      modifies this`sessionReads
      ensures Abs() == TakeRead(old(Abs()), SessionLoop) && Writer() == old(Writer())
    {
      sessionReads := sessionReads - 1;
    }

    method FailHandshakeRead()
      requires handshakeReads > 0
      modifies this`handshakeReads, this`isOpen
      ensures Abs() == TakeRead(old(Abs()), HandshakeLoop).(open := false) && Writer() == old(Writer())
    {
      handshakeReads := handshakeReads - 1;
      Disconnect();
    }

    method SetDescriptor(d: seq<Byte>)
      modifies this`descriptor
      ensures Abs() == old(Abs()).(descriptor := d) && Writer() == old(Writer())
    {
      descriptor := d;
    }

    // ----- the completion handlers -----

    /** The handler of do_read_handshake for a whole message. */
    method OnHandshake(buffer: Wire, draw: nat) returns (ok: bool)
      requires room.Valid() && Inv(room.Abs()) && this in room.accepted
      requires Enabled(room.Abs(), ReadDone(index, HandshakeLoop, Parse(buffer), draw))
      modifies room, this
      ensures ok == Step(old(room.Abs()), ReadDone(index, HandshakeLoop, Parse(buffer), draw)).Next?
      ensures ok ==> room.Valid() && Inv(room.Abs())
      ensures ok ==> room.Abs() == Step(old(room.Abs()), ReadDone(index, HandshakeLoop, Parse(buffer), draw)).room
    {
      ghost var r, e := room.Abs(), ReadDone(index, HandshakeLoop, Parse(buffer), draw);
      room.SessionAt(this);
      ok := room.HandshakeMessage(this, buffer, draw);
      if ok {
        room.Finish(r, e);
      }
    }

    /** The handler of do_read_handshake for an error. */
    method OnHandshakeError()
      requires room.Valid() && Inv(room.Abs()) && this in room.accepted && handshakeReads > 0
      modifies room`clock, this
      ensures room.Valid() && Inv(room.Abs()) && Enabled(old(room.Abs()), ReadError(index, HandshakeLoop))
      ensures Step(old(room.Abs()), ReadError(index, HandshakeLoop)) == Next(room.Abs())
    {
      ghost var r := room.Abs();
      room.SessionAt(this);
      room.AbandonHandshake(this);
      room.Finish(r, ReadError(index, HandshakeLoop));
    }

    /** The handler of do_read_byte for a whole message. */
    method OnRead(buffer: Wire, ghost draw: nat) returns (ok: bool)
      requires room.Valid() && Inv(room.Abs()) && this in room.accepted
      requires Enabled(room.Abs(), ReadDone(index, SessionLoop, Parse(buffer), draw))
      modifies room, room.accepted
      ensures ok == Step(old(room.Abs()), ReadDone(index, SessionLoop, Parse(buffer), draw)).Next?
      ensures ok ==> room.Valid() && Inv(room.Abs())
      ensures ok ==> room.Abs() == Step(old(room.Abs()), ReadDone(index, SessionLoop, Parse(buffer), draw)).room
    {
      ghost var r, m := room.Abs(), Parse(buffer);
      room.SessionAt(this);
      ok := room.SessionLoopMessage(this, buffer, m, draw);
      if ok {
        room.Finish(r, ReadDone(index, SessionLoop, m, draw));
      }
    }

    /** The handler of do_read_byte for an error: the session leaves. */
    method OnReadError()
      requires room.Valid() && Inv(room.Abs()) && this in room.accepted && sessionReads > 0
      modifies room, room.accepted
      ensures room.Valid() && Inv(room.Abs()) && Enabled(old(room.Abs()), ReadError(index, SessionLoop))
      ensures Step(old(room.Abs()), ReadError(index, SessionLoop)) == Next(room.Abs())
    {
      ghost var r := room.Abs();
      room.SessionAt(this);
      room.FailRead(this);
      room.Finish(r, ReadError(index, SessionLoop));
    }

    /** The handler deliver_byte posted: it moves the writer and nothing of the room. */
    method OnPosted()
      requires room.Valid() && this in room.accepted && posted != []
      modifies this`posted, this`deque, this`inFlight, this`started
      ensures room.Valid() && room.Abs() == old(room.Abs())
      ensures Writer() == SessionWriters.RunPosted(old(Writer()))
    {
      room.SessionAt(this);
      RunPosted();
      room.OneChanged(this);
    }

    /** The handler of a write that went well. */
    method OnWrite(i: nat)
      requires room.Valid() && Inv(room.Abs()) && this in room.accepted && i < |inFlight|
      modifies room`clock, this
      ensures room.Valid() && Inv(room.Abs()) && Enabled(old(room.Abs()), WriteDone(index))
      ensures Step(old(room.Abs()), WriteDone(index)) == Next(room.Abs())
    {
      ghost var r := room.Abs();
      room.WriteIsPending(this);
      WriteDoneIs(r, index);
      room.CompleteWrite(this, i, true);
      room.Finish(r, WriteDone(index));
    }

    /** The handler of a write that failed: the session leaves. */
    method OnWriteError(i: nat)
      requires room.Valid() && Inv(room.Abs()) && this in room.accepted && i < |inFlight|
      modifies room, room.accepted
      ensures room.Valid() && Inv(room.Abs()) && Enabled(old(room.Abs()), WriteError(index))
      ensures Step(old(room.Abs()), WriteError(index)) == Next(room.Abs())
    {
      ghost var r := room.Abs();
      room.WriteIsPending(this);
      room.FailWrite(this, i);
      WriteErrorIs(r, index);
      room.Finish(r, WriteError(index));
    }
  }

  class NetworkRoom {
    var participants: seq<NrSession>
    var maxParticipants: nat
    ghost var accepted: seq<NrSession>
    ghost var drawn: set<nat>
    ghost var clock: nat
    ghost var peak: nat

    ghost predicate Valid()
      reads this, accepted
    {
      && (forall i :: 0 <= i < |accepted| ==> accepted[i].index == i && accepted[i].room == this)
      && (forall p :: p in participants ==> p.index < |accepted| && accepted[p.index] == p)
      && (forall i :: 0 <= i < |accepted| ==> IsId(accepted[i].id) && accepted[i].WriterOk())
    }

    ghost function AbsSessions(): (ss: seq<Session>)
      reads this, accepted
      ensures |ss| == |accepted|
      ensures forall i :: 0 <= i < |ss| ==> ss[i] == accepted[i].Abs()
    {
      var all := accepted;
      seq(|all|, i requires 0 <= i < |all| reads all => all[i].Abs())
    }

    ghost function Abs(): Room
      reads this, accepted
    {
      Room(AbsSessions(), Indices(participants), maxParticipants, drawn, clock, peak)
    }

    /** The change of one session is the change of one entry. */
    twostate lemma OneChanged(p: NrSession)
      requires old(Valid()) && unchanged(this) && p in old(accepted)
      requires forall q :: q in old(accepted) && q != p ==> unchanged(q)
      ensures p.index < |old(Abs()).sessions|
      ensures Abs() == Put(old(Abs()), p.index, p.Abs())
    {
      var k := p.index;
      assert accepted[k] == p;
      forall i | 0 <= i < |accepted| && i != k
        ensures accepted[i].Abs() == old(accepted[i].Abs())
      {
        assert accepted[i].index == i && accepted[i] in old(accepted);
      }
      assert AbsSessions() == old(AbsSessions())[k := p.Abs()];
    }

    lemma MemberAt(i: nat)
      requires Valid() && i < |participants|
      ensures participants[i] in accepted && participants[i].index < |accepted|
      ensures Abs().members[i] == participants[i].index
      ensures Abs().sessions[participants[i].index] == participants[i].Abs()
      ensures Ids(Abs())[i] == participants[i].id
    {
      assert participants[i] in participants;
      assert IdOf(Abs(), participants[i].index) == participants[i].id;
    }

    method DeliverTo(p: NrSession, w: Wire)
      requires Valid() && p in accepted
      modifies p`posted, p`log
      ensures Valid() && p.index < |Abs().sessions|
      ensures Abs() == Deliver(old(Abs()), {p.index}, Decode(w))
    {
      p.DeliverByte(w);
      OneChanged(p);
      assert Abs() == Deliver(old(Abs()), {p.index}, Decode(w));
    }

    /** The first i members that `to` names have been handed w; nothing else has changed. */
    ghost predicate Handed(before: Room, i: nat, w: Wire, to: set<nat>)
      reads this, accepted
    {
      && Valid() && Structure(before) && i <= |participants| == |before.members|
      && Abs() == Deliver(before, to * Elements(before.members[..i]), Decode(w))
    }

    lemma HandingBegins(w: Wire, to: set<nat>)
      requires Valid() && Structure(Abs())
      ensures Handed(Abs(), 0, w, to)
    {
      DeliverNone(Abs(), to * Elements([]), Decode(w));
    }

    lemma HandingEnds(before: Room, w: Wire, to: set<nat>)
      requires Handed(before, |participants|, w, to) && to <= Members(before)
      ensures Valid() && Abs() == Deliver(before, to, Decode(w))
    {
      assert before.members[..|participants|] == before.members;
      assert to * Members(before) == to;
    }

    /** One round of a delivery loop. */
    method HandTo(i: nat, w: Wire, ghost before: Room, ghost to: set<nat>)
      requires i < |participants| && Handed(before, i, w, to) && before.members[i] in to
      modifies accepted
      ensures Handed(before, i + 1, w, to) && participants == old(participants) && accepted == old(accepted)
    {
      MemberAt(i);
      DeliverNext(before, i, to, Decode(w));
      DeliverTo(participants[i], w);
    }

    lemma HandNone(i: nat, w: Wire, before: Room, to: set<nat>)
      requires i < |participants| && Handed(before, i, w, to) && before.members[i] !in to
      ensures Handed(before, i + 1, w, to)
    {
      DeliverNext(before, i, to, Decode(w));
    }

    method DeliverToAll(w: Wire)
      requires Valid() && Structure(Abs())
      modifies accepted
      ensures Valid() && participants == old(participants) && accepted == old(accepted)
      ensures Abs() == Deliver(old(Abs()), Members(old(Abs())), Decode(w))
    {
      ghost var before := Abs();
      HandingBegins(w, Members(before));
      var i := 0;
      while i < |participants|
        invariant 0 <= i <= |participants|
        invariant Handed(before, i, w, Members(before))
        invariant participants == old(participants) && accepted == old(accepted)
      {
        assert before.members[i] in Members(before);
        HandTo(i, w, before, Members(before));
        i := i + 1;
      }
      HandingEnds(before, w, Members(before));
    }

    lemma HandedKeepsId(i: nat, w: Wire, before: Room, except: nat)
      requires i < |participants| && Handed(before, i, w, Others(before, except))
      ensures participants[i].id == except <==> before.members[i] !in Others(before, except)
    {
      MemberAt(i);
      DeliverNext(before, i, Others(before, except), Decode(w));
      assert Ids(before)[i] == IdOf(before, before.members[i]);
    }

    method DeliverToAllExceptToOne(w: Wire, except: nat)
      requires Valid() && Structure(Abs())
      modifies accepted
      ensures Valid() && participants == old(participants) && accepted == old(accepted)
      ensures Abs() == Deliver(old(Abs()), Others(old(Abs()), except), Decode(w))
    {
      ghost var before := Abs();
      ghost var to := Others(before, except);
      HandingBegins(w, to);
      var i := 0;
      while i < |participants|
        invariant 0 <= i <= |participants|
        invariant Handed(before, i, w, to)
        invariant participants == old(participants) && accepted == old(accepted)
      {
        HandedKeepsId(i, w, before, except);
        if participants[i].id == except {
          HandNone(i, w, before, to);
        } else {
          HandTo(i, w, before, to);
        }
        i := i + 1;
      }
      HandingEnds(before, w, to);
    }

    // ----- the ordered set -----

    /** The search of the set, by the ordering alone. */
    method LowerBoundOf(k: nat) returns (p: nat)
      requires Valid() && Structure(Abs())
      ensures p == LowerBound(Ids(Abs()), k) && p <= |participants|
    {
      ghost var ids := Ids(Abs());
      var lo, hi := 0, |participants|;
      while lo < hi
        invariant lo <= hi <= |participants|
        invariant Bracket(ids, k, lo, hi)
      {
        var mid := (lo + hi) / 2;
        MemberAt(mid);
        BracketNarrows(ids, k, lo, hi, mid);
        if participants[mid].id < k {
          lo := mid + 1;
        } else {
          hi := mid;
        }
      }
      BracketCloses(ids, k, lo);
      p := lo;
    }

    method Locate(k: nat) returns (p: nat, present: bool)
      requires Valid() && Structure(Abs())
      ensures p == LowerBound(Ids(Abs()), k) && p <= |participants|
      ensures present == Has(Ids(Abs()), k)
    {
      p := LowerBoundOf(k);
      present := false;
      if p < |participants| {
        MemberAt(p);
        present := participants[p].id == k;
      }
    }

    method GetParticipantPtr(k: nat) returns (p: NrSession?)
      requires Valid() && Structure(Abs())
      ensures p == null <==> !Has(Ids(Abs()), k)
      ensures p != null ==> p in accepted && p.id == k && p.index == Abs().members[LowerBound(Ids(Abs()), k)]
    {
      var i, present := Locate(k);
      if present {
        MemberAt(i);
        p := participants[i];
      } else {
        p := null;
      }
    }

    method Erase(k: nat)
      requires Valid() && Structure(Abs())
      modifies this`participants
      ensures Valid() && Abs() == RoomProtocol.Erase(old(Abs()), k)
    {
      var i, present := Locate(k);
      if present {
        var rest := RemoveAt(participants, i);
        IndicesRemove(participants, i);
        assert Abs().members == Indices(participants);
        SetParticipants(rest);
      }
    }

    method Insert(p: NrSession)
      requires Valid() && Structure(Abs()) && p in accepted
      modifies this`participants
      ensures Valid() && Abs() == RoomProtocol.Insert(old(Abs()), p.index)
    {
      SessionAt(p);
      var i, present := Locate(p.id);
      if !present {
        var more := InsertAt(participants, i, p);
        IndicesInsert(participants, i, p);
        forall q | q in more
          ensures q in accepted
        {
          InsertedKeys(participants, i, p, q);
        }
        assert Abs().members == Indices(participants);
        SetParticipants(more);
      }
    }

    lemma SessionAt(p: NrSession)
      requires Valid() && p in accepted
      ensures p.index < |Abs().sessions| && Abs().sessions[p.index] == p.Abs()
    {}

    method SetParticipants(ps: seq<NrSession>)
      requires Valid() && forall q :: q in ps ==> q in accepted
      modifies this`participants
      ensures Valid() && participants == ps
      ensures Abs() == old(Abs()).(members := Indices(ps))
    {
      participants := ps;
      assert AbsSessions() == old(AbsSessions());
    }

    // ----- departures -----

    /** The LEAVE frame of leave and disconnect_participant. */
    method TellLeft(k: nat)
      requires Valid() && Structure(Abs()) && IsId(k)
      modifies accepted
      ensures Valid() && participants == old(participants) && accepted == old(accepted)
      ensures Abs() == Deliver(old(Abs()), Members(old(Abs())), Frame.Leave(k))
    {
      ghost var r := Abs();
      var w := LeavingMessage(k);
      assert Abs() == r;
      DecodeLeave(k);
      DeliverToAll(w);
    }

    method Leave(p: NrSession)
      requires Valid() && Structure(Abs()) && p in accepted
      modifies this`participants, accepted
      ensures Valid() && accepted == old(accepted)
      ensures Abs() == Depart(old(Abs()), old(p.id))
    {
      var k := p.id;
      EraseFacts(Abs(), k);
      SessionAt(p);
      Erase(k);
      TellLeft(k);
    }

    /** disconnect_participant by id; the lookup is dereferenced whether or not it found someone. */
    method DisconnectParticipant(k: nat) returns (ok: bool)
      requires Valid() && Structure(Abs())
      modifies this`participants, accepted
      ensures ok == Has(Ids(old(Abs())), k)
      ensures ok ==> Valid() && accepted == old(accepted) && Abs() == Depart(old(Abs()), k)
    {
      var p := GetParticipantPtr(k);
      if p == null {
        return false;
      }
      Leave(p);
      ok := true;
    }

    // ----- introductions -----

    /** new_paticipant_to_all: the descriptor is copied into a fixed buffer of the structure. */
    method NewParticipantToAll(x: nat) returns (ok: bool)
      requires Valid() && Structure(Abs())
      modifies accepted
      ensures var r := old(Abs());
        ok == (Has(Ids(r), x) && |DescriptorOf(r, r.members[LowerBound(Ids(r), x)])| <= DESCRIPTOR_SIZE)
      ensures ok ==> Valid() && participants == old(participants) && accepted == old(accepted)
      ensures ok ==> var r := old(Abs());
        Abs() == Deliver(r, Others(r, x), New(x, DescriptorOf(r, r.members[LowerBound(Ids(r), x)])))
    {
      var p := GetParticipantPtr(x);
      if p == null {
        return false;
      }
      SessionAt(p);
      if |p.descriptor| > DESCRIPTOR_SIZE {
        return false;
      }
      ghost var r := Abs();
      assert DescriptorOf(r, r.members[LowerBound(Ids(r), x)]) == p.descriptor;
      var w := NewParticipantMessage(x, p.descriptor);
      assert Abs() == r;
      DeliverToAllExceptToOne(w, x);
      ok := true;
    }

    /** The structures collected from the first i members; their descriptors fit. */
    ghost predicate Collected(i: nat, v: seq<StNew>, x: nat)
      reads this, accepted
    {
      && Valid() && i <= |participants|
      && Rolls(v, Introductions(Abs(), Abs().members[..i], x))
      && forall j :: 0 <= j < i && Ids(Abs())[j] != x ==> |DescriptorOf(Abs(), Abs().members[j])| <= DESCRIPTOR_SIZE
    }

    /** One round of the first loop of send_list_of_players. */
    method CollectPlayer(i: nat, v: seq<StNew>, x: nat, scratch: array<Byte>) returns (ok: bool, v': seq<StNew>)
      requires i < |participants| && Collected(i, v, x) && scratch.Length == DESCRIPTOR_SIZE
      modifies scratch
      ensures ok ==> Collected(i + 1, v', x)
      ensures !ok ==> Abs().members[i] in Others(Abs(), x) && |DescriptorOf(Abs(), Abs().members[i])| > DESCRIPTOR_SIZE
    {
      var p := participants[i];
      MemberAt(i);
      IntroductionsNext(Abs(), i, x);
      if p.id == x {
        return true, v;
      }
      if |p.descriptor| > DESCRIPTOR_SIZE {
        return false, v;
      }
      var entry := PlayerEntry(p.id, p.descriptor, scratch);
      RollsSnoc(v, Introductions(Abs(), Abs().members[..i], x), entry, New(p.id, p.descriptor));
      return true, v + [entry];
    }

    /** The first loop of send_list_of_players: one structure per other member, all filled through
        the same scratch buffer, which is not cleared in between. */
    method CollectPlayers(x: nat) returns (ok: bool, v: seq<StNew>)
      requires Valid() && Structure(Abs())
      ensures ok == OthersFitIn(Abs(), x)
      ensures ok ==> Rolls(v, Introductions(Abs(), Abs().members, x))
    {
      var scratch := new Byte[DESCRIPTOR_SIZE];
      forall i | 0 <= i < 1024 {
        scratch[i] := 0;
      }
      ok, v := true, [];
      var i := 0;
      while i < |participants|
        invariant 0 <= i <= |participants|
        invariant Collected(i, v, x)
      {
        ok, v := CollectPlayer(i, v, x, scratch);
        if !ok {
          return;
        }
        i := i + 1;
      }
      assert Abs().members[..i] == Abs().members;
      OthersFit(Abs(), x);
      ok := true;
    }

    /** The second loop: every structure becomes a message for the newcomer. */
    method DeliverPlayer(p: NrSession, n: StNew, ghost before: Room, ghost fs: seq<Frame>, ghost i: nat)
      requires Valid() && p in accepted && i < |fs| && Carries(n, fs[i])
      requires p.index < |before.sessions| && Abs() == Append(before, p.index, fs[..i])
      modifies p`posted, p`log
      ensures Valid() && Abs() == Append(before, p.index, fs[..i + 1])
    {
      AppendNext(before, p.index, fs, i);
      var w := PlayerMessage(n, fs[i]);
      DeliverTo(p, w);
    }

    method DeliverPlayers(p: NrSession, v: seq<StNew>, ghost fs: seq<Frame>)
      requires Valid() && p in accepted && Rolls(v, fs)
      modifies accepted
      ensures Valid() && participants == old(participants) && accepted == old(accepted)
      ensures p.index < |old(Abs()).sessions| && Abs() == Append(old(Abs()), p.index, fs)
    {
      ghost var before := Abs();
      SessionAt(p);
      AppendNone(before, p.index);
      var i := 0;
      while i < |v|
        invariant 0 <= i <= |v| == |fs|
        invariant Valid() && participants == old(participants) && accepted == old(accepted)
        invariant Abs() == Append(before, p.index, fs[..i])
      {
        DeliverPlayer(p, v[i], before, fs, i);
        i := i + 1;
      }
      assert fs[..i] == fs;
    }

    method SendListOfPlayers(p: NrSession) returns (ok: bool)
      requires Valid() && Structure(Abs()) && p in accepted
      modifies accepted
      ensures ok == OthersFitIn(old(Abs()), old(p.id))
      ensures ok ==> Valid() && participants == old(participants) && accepted == old(accepted)
      ensures p.index < |old(Abs()).sessions|
      ensures ok ==>
        Abs() == Append(old(Abs()), p.index, Introductions(old(Abs()), old(Abs()).members, old(p.id)))
    {
      SessionAt(p);
      var v;
      ok, v := CollectPlayers(p.id);
      if ok {
        DeliverPlayers(p, v, Introductions(Abs(), Abs().members, p.id));
      }
    }

    ghost method MarkIntroduced(p: NrSession)
      requires Valid() && p in accepted
      modifies p`introducedAt
      ensures Valid() && p.index < |old(Abs()).sessions|
      ensures Abs() == Stamp(old(Abs()), p.index)
    {
      SessionAt(p);
      p.introducedAt := clock;
      OneChanged(p);
    }

    /** The second half of an introduction, once the room has been told. */
    method Greet(np: NrSession, ghost r: Room) returns (ok: bool)
      requires Valid() && np in accepted && np.index < |r.sessions|
      requires Structure(r) && Has(Ids(r), np.id) && np.index == r.members[LowerBound(Ids(r), np.id)]
      requires |DescriptorOf(r, np.index)| <= DESCRIPTOR_SIZE
      requires Abs() == Deliver(r, Others(r, np.id), New(np.id, DescriptorOf(r, np.index)))
      modifies accepted
      ensures ok == DescriptorsFit(r)
      ensures ok ==> Valid() && participants == old(participants) && accepted == old(accepted)
      ensures ok ==> Abs() == Receive(old(Abs()), np.index, Introductions(r, r.members, old(np.id)))
    {
      GreetPlan(r, np.index, np.id, Abs());
      ok := SendListOfPlayers(np);
      if ok {
        MarkIntroduced(np);
      }
    }

    method InitNewParticipant(x: nat) returns (ok: bool)
      requires Valid() && Structure(Abs())
      modifies accepted
      ensures ok == Introduce(old(Abs()), x).Next?
      ensures ok ==> Valid() && participants == old(participants) && accepted == old(accepted)
      ensures ok ==> Abs() == Introduce(old(Abs()), x).room
    {
      var np := GetParticipantPtr(x);
      ghost var r := Abs();
      if np != null {
        SessionAt(np);
        FitsTogether(r, np.index, x);
      }
      ok := NewParticipantToAll(x);
      if ok {
        SessionAt(np);
        KeepsIds(r, Others(r, x), New(x, DescriptorOf(r, np.index)));
        ok := Greet(np, r);
      }
    }

    // ----- joining -----

    method SetId(p: NrSession, draw: nat)
      requires Valid() && p in accepted && IsId(draw)
      modifies p`id, p`joinedAt
      ensures Valid() && p.id == draw && p.index < |old(Abs()).sessions|
      ensures Abs() == Put(old(Abs()), p.index, old(Abs()).sessions[p.index].(id := draw, joinedAt := clock))
    {
      SessionAt(p);
      p.id := draw;
      p.joinedAt := clock;
      OneChanged(p);
    }

    ghost method NoteDrawn(draw: nat)
      requires Valid()
      modifies this`drawn
      ensures Valid() && Abs() == old(Abs()).(drawn := old(drawn) + {draw})
    {
      drawn := drawn + {draw};
      assert AbsSessions() == old(AbsSessions());
    }

    method DrawId(p: NrSession, draw: nat)
      requires Valid() && p in accepted && IsId(draw)
      modifies p`id, p`joinedAt, this`drawn
      ensures Valid() && p.id == draw
      ensures p.index < |old(Abs()).sessions| && Abs() == Keyed(old(Abs()), p.index, draw)
    {
      SetId(p, draw);
      NoteDrawn(draw);
    }

    method CloseSession(p: NrSession)
      requires Valid() && p in accepted
      modifies p`isOpen
      ensures Valid()
      ensures p.index < |old(Abs()).sessions|
      ensures Abs() == Put(old(Abs()), p.index, old(Abs()).sessions[p.index].(open := false))
    {
      SessionAt(p);
      p.Disconnect();
      OneChanged(p);
    }

    /** join: a full room turns the session away; otherwise it draws an id, sets an option of the
        socket, which throws if the socket is closed, and inserts itself. */
    method Join(p: NrSession, draw: nat) returns (ok: bool)
      requires Valid() && p in accepted && Joining(Abs(), p.index, draw)
      modifies p`id, p`joinedAt, p`isOpen, this`drawn, this`participants
      ensures var r := old(Abs());
        ok == (|r.members| >= r.limit || r.sessions[p.index].open)
      ensures ok ==> Valid()
      ensures var r := old(Abs());
        |r.members| >= r.limit ==> Abs() == Put(r, p.index, r.sessions[p.index].(open := false))
      ensures var r := old(Abs());
        ok && |r.members| < r.limit ==> Abs() == RoomProtocol.Insert(Keyed(r, p.index, draw), p.index)
    {
      SessionAt(p);
      if |participants| >= maxParticipants {
        CloseSession(p);
        return true;
      }
      KeyedStructure(Abs(), p.index, draw);
      ok := Enter(p, draw, Keyed(Abs(), p.index, draw));
    }

    /** The part of join behind the test of the limit. */
    method Enter(p: NrSession, draw: nat, ghost keyed: Room) returns (ok: bool)
      requires Valid() && p in accepted && IsId(draw) && p.index !in Abs().members && p.index < |Abs().sessions|
      requires keyed == Keyed(Abs(), p.index, draw) && Structure(keyed)
      modifies p`id, p`joinedAt, this`drawn, this`participants
      ensures ok == p.isOpen
      ensures ok ==> Valid() && Abs() == RoomProtocol.Insert(keyed, p.index)
    {
      DrawId(p, draw);
      assert Abs() == keyed;
      ok := p.SetKeepAlive();
      if ok {
        Insert(p);
      }
    }

    method SendJoinTo(p: NrSession)
      requires Valid() && p in accepted
      modifies p`posted, p`log
      ensures Valid() && p.index < |old(Abs()).sessions|
      ensures Abs() == Append(old(Abs()), p.index, [Frame.Join(old(p.id))])
    {
      SessionAt(p);
      p.SendJoin();
      OneChanged(p);
    }

    /** join and the JOIN frame that follows it. */
    method AdmitSession(p: NrSession, draw: nat) returns (ok: bool)
      requires Valid() && p in accepted && Joining(Abs(), p.index, draw)
      modifies p, this`drawn, this`participants
      ensures p.index < |old(Abs()).sessions|
      ensures ok == Admit(old(Abs()), p.index, draw).Next?
      ensures ok ==> Valid() && Abs() == Admit(old(Abs()), p.index, draw).room
    {
      SessionAt(p);
      ok := Join(p, draw);
      if ok {
        SessionAt(p);
        SendJoinTo(p);
      }
    }

    ghost method TickClock()
      requires Valid()
      modifies this`clock
      ensures Valid() && Abs() == old(Abs()).(clock := old(clock) + 1)
    {
      clock := clock + 1;
      assert AbsSessions() == old(AbsSessions());
    }

    // ----- the dispatch of the handshake loop -----

    method HelloAckReceived(p: NrSession, w: Wire) returns (ok: bool)
      requires Valid() && p in accepted && p.handshakeReads > 0
      modifies p
      ensures p.index < |old(Abs()).sessions| && old(Abs()).sessions[p.index].handshakeReads > 0
      ensures ok == HandshakeRead(old(Abs()), p.index, HelloAckOf(w), 0).Next?
      ensures ok ==> Valid() && Abs() == HandshakeRead(old(Abs()), p.index, HelloAckOf(w), 0).room
    {
      SessionAt(p);
      HelloAckIs(Abs(), p.index, ConfigurationSize(w), Configuration(w), 0);
      ok := p.HandleHelloAck(w);
      if ok {
        OneChanged(p);
      }
    }

    method EnterSessionLoop(p: NrSession, w: Wire)
      requires Valid() && p in accepted && p.handshakeReads > 0
      modifies p`handshakeReads, p`isOpen, p`sessionReads
      ensures Valid() && p.index < |old(Abs()).sessions| && old(Abs()).sessions[p.index].handshakeReads > 0
      ensures Abs() == Put(old(Abs()), p.index, Taken(old(Abs()).sessions[p.index], AcceptsLogin(w)))
    {
      SessionAt(p);
      p.TakeCredentials(w);
      OneChanged(p);
    }

    method CredentialsAckReceived(p: NrSession, w: Wire, draw: nat) returns (ok: bool)
      requires Valid() && Inv(Abs()) && p in accepted && p.handshakeReads > 0
      requires 0 < draw && IsId(draw) && draw !in drawn
      modifies p, this`drawn, this`participants
      ensures p.index < |old(Abs()).sessions| && old(Abs()).sessions[p.index].handshakeReads > 0
      ensures ok == HandshakeRead(old(Abs()), p.index, CredentialsAck(AcceptsLogin(w)), draw).Next?
      ensures ok ==> Valid()
      ensures ok ==> Abs() == HandshakeRead(old(Abs()), p.index, CredentialsAck(AcceptsLogin(w)), draw).room
    {
      SessionAt(p);
      TakenIsReady(Abs(), p.index, AcceptsLogin(w), draw);
      EnterSessionLoop(p, w);
      ok := AdmitSession(p, draw);
    }

    method HandshakeMessage(p: NrSession, w: Wire, draw: nat) returns (ok: bool)
      requires Valid() && Inv(Abs()) && p in accepted && p.handshakeReads > 0
      requires 0 < draw && IsId(draw) && draw !in drawn
      modifies p, this`drawn, this`participants
      ensures p.index < |old(Abs()).sessions| && old(Abs()).sessions[p.index].handshakeReads > 0
      ensures ok == HandshakeRead(old(Abs()), p.index, Parse(w), draw).Next?
      ensures ok ==> Valid() && Abs() == HandshakeRead(old(Abs()), p.index, Parse(w), draw).room
    {
      SessionAt(p);
      ParseByHead(w);
      ghost var r := Abs();
      var head := HeadOf(w);
      assert Abs() == r;
      if head == HANDSHAKE_HELLO_ACK {
        ok := HelloAckReceived(p, w);
      } else if head == HANDSHAKE_CREDENTIALS_ACK {
        ok := CredentialsAckReceived(p, w, draw);
      } else {
        ok := true;
      }
    }

    // ----- the dispatch of the session loop -----

    method ReplaceDescriptor(p: NrSession, d: seq<Byte>)
      requires Valid() && p in accepted && Structure(Abs())
      modifies p`descriptor
      ensures Valid() && p.index < |old(Abs()).sessions|
      ensures Abs() == Put(old(Abs()), p.index, old(Abs()).sessions[p.index].(descriptor := d))
      ensures Structure(Abs())
    {
      SessionAt(p);
      PutKeepsStructure(Abs(), p.index, Abs().sessions[p.index].(descriptor := d));
      p.SetDescriptor(d);
      OneChanged(p);
    }

    method JoinAckReceived(p: NrSession, w: Wire) returns (ok: bool)
      requires Valid() && Structure(Abs()) && p in accepted
      modifies accepted
      ensures p.index < |old(Abs()).sessions|
      ensures ok == SessionRead(old(Abs()), p.index, JoinAckOf(w)).Next?
      ensures ok ==> Valid() && Abs() == SessionRead(old(Abs()), p.index, JoinAckOf(w)).room
    {
      SessionAt(p);
      if JsonSize(w) > DESCRIPTOR_SIZE {
        return false;
      }
      ReplaceDescriptor(p, Json(w));
      ok := InitNewParticipant(Read(ST_PARTICIPANT_JOIN_ACK, Payload(w), 0).n);
    }

    method UpdateAckReceived(p: NrSession, w: Wire)
      requires Valid() && Structure(Abs()) && p in accepted && Decode(w) == Update(w)
      modifies accepted
      ensures Valid() && p.index < |old(Abs()).sessions|
      ensures SessionRead(old(Abs()), p.index, UpdateAck(w)) == Next(Abs())
    {
      SessionAt(p);
      DeliverToAllExceptToOne(w, p.id);
    }

    method LeaveAckReceived(p: NrSession) returns (ok: bool)
      requires Valid() && Structure(Abs()) && p in accepted
      modifies this`participants, accepted
      ensures p.index < |old(Abs()).sessions|
      ensures ok == SessionRead(old(Abs()), p.index, LeaveAck).Next?
      ensures ok ==> Valid() && accepted == old(accepted)
      ensures ok ==> Abs() == SessionRead(old(Abs()), p.index, LeaveAck).room
    {
      SessionAt(p);
      ok := DisconnectParticipant(p.id);
    }

    method UnknownReceived(p: NrSession, ghost m: Received)
      requires Valid() && p in accepted
      requires !m.JoinAck? && !m.NewAck? && !m.UpdateAck? && !m.LeaveAck?
      modifies p
      ensures Valid() && p.index < |old(Abs()).sessions|
      ensures SessionRead(old(Abs()), p.index, m) == Next(Abs())
    {
      CloseSession(p);
    }

    /** The switch of the session loop over the head of the message. */
    method Dispatch(p: NrSession, head: nat, w: Wire, ghost m: Received, ghost o: Outcome) returns (ok: bool)
      requires Valid() && Structure(Abs()) && p in accepted && Stands(head, w, m)
      requires p.index < |Abs().sessions| && o == SessionRead(Abs(), p.index, m)
      modifies this`participants, accepted
      ensures ok == o.Next?
      ensures ok ==> Valid() && accepted == old(accepted) && Abs() == o.room
    {
      ok := true;
      if head == PARTICIPANT_JOIN_ACK {
        ok := JoinAckReceived(p, w);
      } else if head == PARTICIPANT_NEW_ACK {
      } else if head == PARTICIPANT_UPDATE_ACK {
        UpdateAckReceived(p, w);
      } else if head == PARTICIPANT_LEAVE_ACK {
        ok := LeaveAckReceived(p);
      } else {
        UnknownReceived(p, m);
      }
    }

    method SessionMessage(p: NrSession, w: Wire, ghost m: Received, ghost o: Outcome) returns (ok: bool)
      requires Valid() && Structure(Abs()) && p in accepted && m == Parse(w)
      requires p.index < |Abs().sessions| && o == SessionRead(Abs(), p.index, m)
      modifies this`participants, accepted
      ensures ok == o.Next?
      ensures ok ==> Valid() && accepted == old(accepted) && Abs() == o.room
    {
      var head := HeadOf(w);
      ParseStands(w);
      ok := Dispatch(p, head, w, m, o);
    }

    method TakeRead(p: NrSession)
      requires Valid() && p in accepted && Structure(Abs()) && p.sessionReads > 0
      modifies p`sessionReads
      ensures Valid() && p.index < |old(Abs()).sessions| && Structure(Abs())
      ensures p.sessionReads == old(p.sessionReads) - 1
      ensures Abs() == WithReads(old(Abs()), p.index, old(p.sessionReads) - 1)
    {
      SessionAt(p);
      WithReadsLooks(Abs(), p.index, p.sessionReads - 1);
      p.TakeSessionRead();
      OneChanged(p);
    }

    method Rearm(p: NrSession, ghost r: Room, ghost n: nat)
      requires Valid() && p in accepted && Abs() == r && p.sessionReads + 1 == n
      modifies p`sessionReads
      ensures Valid() && Abs() == WithReads(r, p.index, n)
    {
      SessionAt(p);
      p.DoReadByte();
      OneChanged(p);
    }

    lemma SameReads(p: NrSession, n: nat)
      requires Valid() && p in accepted && p.index < |Abs().sessions| && Abs().sessions[p.index].sessionReads == n
      ensures p.sessionReads == n
    {
      SessionAt(p);
    }

    method HandleAndRearm(p: NrSession, w: Wire, ghost m: Received, ghost o: Outcome) returns (ok: bool)
      requires Valid() && Structure(Abs()) && p in accepted && m == Parse(w)
      requires p.index < |Abs().sessions| && o == SessionRead(Abs(), p.index, m)
      modifies this`participants, accepted
      ensures ok == o.Next?
      ensures ok ==> Valid() && accepted == old(accepted)
      ensures ok ==> Abs() == WithReads(o.room, p.index, old(p.sessionReads) + 1)
    {
      SessionAt(p);
      SessionReadKeepsReads(Abs(), p.index, m, o);
      ok := SessionMessage(p, w, m, o);
      if ok {
        SameReads(p, old(p.sessionReads));
        Rearm(p, o.room, old(p.sessionReads) + 1);
      }
    }

    method TakeHandleRearm(p: NrSession, w: Wire, ghost m: Received, ghost taken: Room, ghost o: Outcome)
      returns (ok: bool)
      requires Valid() && Structure(Abs()) && p in accepted && p.sessionReads > 0 && m == Parse(w)
      requires p.index < |taken.sessions| && taken == WithReads(Abs(), p.index, p.sessionReads - 1)
      requires o == SessionRead(taken, p.index, m)
      modifies this`participants, accepted
      ensures ok == o.Next?
      ensures ok ==> Valid() && accepted == old(accepted)
      ensures ok ==> Abs() == WithReads(o.room, p.index, old(p.sessionReads))
    {
      TakeRead(p);
      ok := HandleAndRearm(p, w, m, o);
    }

    /** The handler of do_read_byte for a whole message: handle it, then arm the next read. */
    method SessionLoopMessage(p: NrSession, w: Wire, ghost m: Received, ghost draw: nat) returns (ok: bool)
      requires Valid() && Structure(Abs()) && p in accepted && m == Parse(w)
      requires Enabled(Abs(), ReadDone(p.index, SessionLoop, m, draw))
      modifies this`participants, accepted
      ensures ok == Handle(old(Abs()), ReadDone(p.index, SessionLoop, m, draw)).Next?
      ensures ok ==> Valid() && accepted == old(accepted)
      ensures ok ==> Handle(old(Abs()), ReadDone(p.index, SessionLoop, m, draw)) == Next(Abs())
    {
      SessionAt(p);
      ghost var r, n := Abs(), p.sessionReads;
      ghost var taken := WithReads(r, p.index, n - 1);
      ghost var o := SessionRead(taken, p.index, m);
      RearmedEvent(r, p.index, m, draw, n, o);
      ok := TakeHandleRearm(p, w, m, taken, o);
    }

    // ----- the error handlers -----

    method AbandonHandshake(p: NrSession)
      requires Valid() && p in accepted && p.handshakeReads > 0
      modifies p`handshakeReads, p`isOpen
      ensures Valid() && p.index < |old(Abs()).sessions| && old(Abs()).sessions[p.index].handshakeReads > 0
      ensures var r, s := old(Abs()), p.index;
        Abs() == Put(r, s, RoomProtocol.TakeRead(r.sessions[s], HandshakeLoop).(open := false))
    {
      SessionAt(p);
      p.FailHandshakeRead();
      OneChanged(p);
    }

    method FailRead(p: NrSession)
      requires Valid() && Structure(Abs()) && p in accepted && p.sessionReads > 0
      modifies this`participants, accepted
      ensures Valid() && accepted == old(accepted)
      ensures p.index < |old(Abs()).sessions| && old(Abs()).sessions[p.index].sessionReads > 0
      ensures var r, s := old(Abs()), p.index;
        Abs() == Depart(Put(r, s, RoomProtocol.TakeRead(r.sessions[s], SessionLoop)), r.sessions[s].id)
    {
      SessionAt(p);
      TakeRead(p);
      SessionAt(p);
      Leave(p);
    }

    method CompleteWrite(p: NrSession, i: nat, ok: bool)
      requires Valid() && p in accepted && i < |p.inFlight|
      modifies p`deque, p`inFlight, p`started, p`completed
      ensures Valid() && p.index < |old(Abs()).sessions|
      ensures Abs() == WriteOff(old(Abs()), p.index)
    {
      SessionAt(p);
      if ok {
        p.WriteCompleted(i);
      } else {
        p.WriteFailed(i);
      }
      OneChanged(p);
    }

    method FailWrite(p: NrSession, i: nat)
      requires Valid() && Structure(Abs()) && p in accepted && i < |p.inFlight|
      modifies this`participants, accepted
      ensures Valid() && accepted == old(accepted)
      ensures p.index < |old(Abs()).sessions|
      ensures Abs() == Depart(WriteOff(old(Abs()), p.index), old(p.id))
    {
      WriteOffLooks(Abs(), p.index);
      CompleteWrite(p, i, false);
      Leave(p);
    }

    /** The end of a handler: one tick of the history. */
    ghost method Finish(r: Room, e: Event)
      requires Valid() && Inv(r) && Enabled(r, e) && Handle(r, e) == Next(Abs())
      modifies this`clock
      ensures Valid() && Inv(Abs()) && Step(r, e) == Next(Abs())
    {
      HandledStep(r, e, Abs());
      TickClock();
    }

    /** A write in flight is a frame handed over whose completion is outstanding. */
    lemma WriteIsPending(p: NrSession)
      requires Valid() && p in accepted && p.inFlight != []
      ensures p.index < |Abs().sessions| && Abs().sessions[p.index].id == p.id
      ensures Abs().sessions[p.index].completed < |Abs().sessions[p.index].log|
    {
      SessionAt(p);
      assert p.WriterOk();
    }

    // ----- the server's own calls -----

    constructor (limit: nat)
      requires limit < 0x1_0000
      ensures Valid() && Abs() == Init(limit) && Inv(Abs())
    {
      participants, maxParticipants := [], limit;
      accepted, drawn, clock, peak := [], {}, 1, limit;
      new;
      assert Abs() == Init(limit);
    }

    /** The accept handler: a session is made and its handshake started. */
    method Accept(service: nat, timestamp: nat, name: seq<Byte>) returns (ok: bool, p: NrSession)
      requires Valid() && Inv(Abs()) && IsId(service) && IsId(timestamp)
      modifies this
      ensures ok == Step(old(Abs()), RoomProtocol.Accept(service, |name|)).Next?
      ensures ok ==> Valid() && Inv(Abs()) && p in accepted && fresh(p)
      ensures ok ==> Step(old(Abs()), RoomProtocol.Accept(service, |name|)) == Next(Abs())
    {
      ghost var r := Abs();
      p := new NrSession(this, |accepted|);
      ok := p.DoStartHandshake(service, timestamp, name);
      if ok {
        assert p.Abs() == NewSession(service);
        Register(p);
        Finish(r, RoomProtocol.Accept(service, |name|));
      }
    }

    ghost method Register(p: NrSession)
      requires Valid() && p !in accepted && p.index == |accepted| && p.room == this && IsId(p.id) && p.WriterOk()
      modifies this`accepted
      ensures Valid() && accepted == old(accepted) + [p]
      ensures Abs() == old(Abs()).(sessions := old(Abs()).sessions + [p.Abs()])
    {
      accepted := accepted + [p];
      assert AbsSessions() == old(AbsSessions()) + [p.Abs()];
    }

    /** nr_server::disconnect_participant. */
    method OnDisconnect(k: nat) returns (ok: bool)
      requires Valid() && Inv(Abs())
      modifies this, accepted
      ensures ok == Step(old(Abs()), DisconnectId(k)).Next?
      ensures ok ==> Valid() && Inv(Abs()) && Abs() == Step(old(Abs()), DisconnectId(k)).room
    {
      ghost var r := Abs();
      ok := DisconnectParticipant(k);
      if ok {
        Finish(r, DisconnectId(k));
      }
    }

    /** The sockets of the first i members have been closed since `before`. */
    ghost predicate ClosedSoFar(before: Room, i: nat)
      reads this, accepted
    {
      Valid() && Structure(before) && i <= |participants| == |before.members| && Abs() == ClosedUpTo(before, i)
    }

    method CloseMember(i: nat, ghost before: Room)
      requires i < |participants| && ClosedSoFar(before, i)
      modifies accepted
      ensures ClosedSoFar(before, i + 1) && participants == old(participants) && accepted == old(accepted)
    {
      MemberAt(i);
      ClosedNext(before, i);
      CloseSession(participants[i]);
    }

    /** disconnect_all_participants: every member's socket is closed. */
    method DisconnectAllParticipants()
      requires Valid() && Inv(Abs())
      modifies this`clock, accepted
      ensures Valid() && Inv(Abs())
      ensures Step(old(Abs()), DisconnectAll) == Next(Abs())
    {
      ghost var r := Abs();
      CloseAllMembers();
      Finish(r, DisconnectAll);
    }

    method CloseAllMembers()
      requires Valid() && Structure(Abs())
      modifies accepted
      ensures Valid() && Abs() == CloseAll(old(Abs()))
    {
      ghost var r := Abs();
      ClosedNone(r);
      var i := 0;
      while i < |participants|
        invariant 0 <= i <= |participants|
        invariant ClosedSoFar(r, i) && participants == old(participants) && accepted == old(accepted)
      {
        CloseMember(i, r);
        i := i + 1;
      }
      ClosedWhole(r);
    }

    method SetMaxParticipants(limit: nat)
      requires Valid() && Inv(Abs()) && limit < 0x1_0000
      modifies this`maxParticipants, this`peak, this`clock
      ensures Valid() && Inv(Abs()) && maxParticipants == limit
      ensures Step(old(Abs()), SetLimit(limit)) == Next(Abs())
    {
      ghost var r := Abs();
      maxParticipants := limit;
      peak := if limit > peak then limit else peak;
      assert AbsSessions() == old(AbsSessions());
      Finish(r, SetLimit(limit));
    }
  }

  /** The sockets of the first n members are closed. */
  ghost function ClosedUpTo(r: Room, n: nat): Room
    requires n <= |r.members|
  {
    r.(sessions := CloseAll(r.(members := r.members[..n])).sessions)
  }

  lemma ClosedNone(r: Room)
    ensures ClosedUpTo(r, 0) == r
  {}

  lemma ClosedWhole(r: Room)
    ensures ClosedUpTo(r, |r.members|) == CloseAll(r)
  {
    assert r.members[..|r.members|] == r.members;
  }

  lemma ClosedNext(r: Room, n: nat)
    requires Structure(r) && n < |r.members|
    ensures var so, m := ClosedUpTo(r, n), r.members[n];
      m < |so.sessions| && ClosedUpTo(r, n + 1) == Put(so, m, so.sessions[m].(open := false))
  {
    var m := r.members[n];
    assert m in r.members;
    assert r.members[..n + 1] == r.members[..n] + [m];
  }

  lemma PutKeepsStructure(r: Room, s: nat, q: Session)
    requires Structure(r) && s < |r.sessions| && q.id == r.sessions[s].id
    ensures Structure(Put(r, s, q))
  {
    SameIds(r, Put(r, s, q));
  }

  /** The read buffer becomes a message whose header is looked at. */
  method HeadOf(w: Wire) returns (head: nat)
    ensures head == Head(w)
  {
    var msg := new XRMessage.FromBytes(w, |w|);
    assert msg.data[..] == w;
    head := msg.GetHead();
  }

  lemma DecodeUpdate(w: Wire)
    requires Head(w) == PARTICIPANT_UPDATE_ACK
    ensures Decode(w) == Update(w)
  {}

  /** A message with this head is taken for m in the session loop. */
  ghost predicate Stands(head: nat, w: Wire, m: Received) {
    && (if head == PARTICIPANT_JOIN_ACK then m == JoinAckOf(w) else !m.JoinAck?)
    && (if head == PARTICIPANT_NEW_ACK then m == NewAck else m != NewAck)
    && (if head == PARTICIPANT_UPDATE_ACK then m == UpdateAck(w) && Decode(w) == Update(w) else !m.UpdateAck?)
    && (if head == PARTICIPANT_LEAVE_ACK then m == LeaveAck else m != LeaveAck)
  }

  lemma ParseStands(w: Wire)
    ensures Stands(Head(w), w, Parse(w))
  {
    if Head(w) == PARTICIPANT_UPDATE_ACK {
      DecodeUpdate(w);
    }
  }

  lemma ParseByHead(w: Wire)
    ensures Head(w) == HANDSHAKE_HELLO_ACK <==> Parse(w).HelloAck?
    ensures Head(w) == HANDSHAKE_HELLO_ACK ==> Parse(w) == HelloAckOf(w)
    ensures Head(w) == HANDSHAKE_CREDENTIALS_ACK <==> Parse(w).CredentialsAck?
    ensures Head(w) == HANDSHAKE_CREDENTIALS_ACK ==> Parse(w) == CredentialsAck(AcceptsLogin(w))
  {}

  lemma TakenIsReady(r: Room, s: nat, ok: bool, draw: nat)
    requires Inv(r) && s < |r.sessions| && r.sessions[s].handshakeReads > 0
    requires 0 < draw && IsId(draw) && draw !in r.drawn
    ensures Joining(Put(r, s, Taken(r.sessions[s], ok)), s, draw)
    ensures HandshakeRead(r, s, CredentialsAck(ok), draw) == Admit(Put(r, s, Taken(r.sessions[s], ok)), s, draw)
  {
    var q := r.sessions[s];
    assert SessionOk(q, r.drawn, r.clock);
    PutKeeps(r, s, Taken(q, ok), r.clock, 0);
  }

  lemma KeyedStructure(r: Room, s: nat, draw: nat)
    requires Joining(r, s, draw)
    ensures s !in r.members && Structure(Keyed(r, s, draw))
  {
    var keyed := Keyed(r, s, draw);
    SameIds(r, keyed);
  }

  ghost function Stamp(r: Room, s: nat): Room
    requires s < |r.sessions|
  {
    Put(r, s, r.sessions[s].(introducedAt := r.clock))
  }

  lemma StampIsReceive(r: Room, s: nat, fs: seq<Frame>)
    requires s < |r.sessions|
    ensures Stamp(Append(r, s, fs), s) == Receive(r, s, fs)
  {}

  lemma KeepsIds(r: Room, to: set<nat>, f: Frame)
    ensures forall m :: IdOf(Deliver(r, to, f), m) == IdOf(r, m)
  {}

  lemma DeliverLooks(r: Room, to: set<nat>, f: Frame)
    ensures var told := Deliver(r, to, f);
      && told.members == r.members && Ids(told) == Ids(r) && |told.sessions| == |r.sessions|
      && (forall m :: DescriptorOf(told, m) == DescriptorOf(r, m) && IdOf(told, m) == IdOf(r, m))
  {
    SameIds(r, Deliver(r, to, f));
  }

  lemma ToldKeeps(r: Room, s: nat, x: nat)
    requires Structure(r) && Has(Ids(r), x) && s == r.members[LowerBound(Ids(r), x)]
    ensures var told := Deliver(r, Others(r, x), New(x, DescriptorOf(r, s)));
      && Structure(told) && Others(told, x) == Others(r, x)
      && (forall m :: DescriptorOf(told, m) == DescriptorOf(r, m) && IdOf(told, m) == IdOf(r, m))
      && Introductions(told, told.members, x) == Introductions(r, r.members, x)
  {
    var f := New(x, DescriptorOf(r, s));
    var told := Deliver(r, Others(r, x), f);
    DeliverLooks(r, Others(r, x), f);
    IntroductionsAlike(r, told, r.members, x);
  }

  /** The descriptors that send_list_of_players copies fit. */
  ghost predicate OthersFitIn(r: Room, x: nat) {
    forall m :: m in Others(r, x) ==> |DescriptorOf(r, m)| <= DESCRIPTOR_SIZE
  }

  lemma FitsTogether(r: Room, s: nat, x: nat)
    requires Structure(r) && Has(Ids(r), x) && s == r.members[LowerBound(Ids(r), x)]
    ensures DescriptorsFit(r) <==> |DescriptorOf(r, s)| <= DESCRIPTOR_SIZE && OthersFitIn(r, x)
  {
    FindIsScan(Ids(r), x);
    var s' := MemberHasId(r, x);
    forall m | m in r.members && m != s
      ensures m in Others(r, x)
    {
      UniqueMember(r, m, s);
    }
  }

  /** What the second half of an introduction has to do, in the room that has been told. */
  lemma GreetPlan(r: Room, s: nat, x: nat, told: Room)
    requires Structure(r) && Has(Ids(r), x) && s == r.members[LowerBound(Ids(r), x)] && s < |r.sessions|
    requires |DescriptorOf(r, s)| <= DESCRIPTOR_SIZE
    requires told == Deliver(r, Others(r, x), New(x, DescriptorOf(r, s)))
    ensures Structure(told) && |told.sessions| == |r.sessions| && OthersFitIn(told, x) == DescriptorsFit(r)
    ensures Stamp(Append(told, s, Introductions(told, told.members, x)), s)
      == Receive(told, s, Introductions(r, r.members, x))
  {
    ToldKeeps(r, s, x);
    FitsTogether(r, s, x);
    StampIsReceive(told, s, Introductions(r, r.members, x));
  }

  /** A value of ST_PARTICIPANT_NEW. */
  datatype StNew = StNew(id: nat, size: nat, buffer: seq<Byte>)

  /** The structures carry the frames, whatever their buffers hold past the descriptors. */
  ghost predicate Rolls(v: seq<StNew>, fs: seq<Frame>) {
    && |v| == |fs|
    && forall k :: 0 <= k < |v| ==> Carries(v[k], fs[k])
  }

  ghost predicate Carries(n: StNew, f: Frame) {
    IsId(n.id) && n.size <= |n.buffer| == DESCRIPTOR_SIZE && f == New(n.id, n.buffer[..n.size])
  }

  method PlayerMessage(n: StNew, ghost f: Frame) returns (w: Wire)
    requires Carries(n, f)
    ensures Decode(w) == f && PayloadSize(w) == 20492
  {
    var body := Pack(ST_PARTICIPANT_NEW, NewValues(n.id, n.size, n.buffer));
    DecodeNew(n.id, n.size, n.buffer);
    NewBytes(n.id, n.size, n.buffer);
    var msg := new XRMessage.FromBuffer(PARTICIPANT_NEW, body, |body|);
    assert body[..|body|] == body;
    w := msg.data[..];
  }

  lemma RollsSnoc(v: seq<StNew>, fs: seq<Frame>, n: StNew, f: Frame)
    requires Rolls(v, fs) && Carries(n, f)
    ensures Rolls(v + [n], fs + [f])
  {}

  method PlayerEntry(id: nat, descriptor: seq<Byte>, scratch: array<Byte>) returns (n: StNew)
    requires IsId(id) && scratch.Length == DESCRIPTOR_SIZE && |descriptor| <= DESCRIPTOR_SIZE
    modifies scratch
    ensures Carries(n, New(id, descriptor))
  {
    FillScratch(scratch, descriptor);
    n := StNew(id, |descriptor|, scratch[..]);
  }

  method FillScratch(scratch: array<Byte>, descriptor: seq<Byte>)
    requires scratch.Length == DESCRIPTOR_SIZE && |descriptor| <= DESCRIPTOR_SIZE
    modifies scratch
    ensures scratch[..][..|descriptor|] == descriptor
    ensures scratch[..][|descriptor|..] == old(scratch[..])[|descriptor|..]
  {
    forall i | 0 <= i < |descriptor| {
      scratch[i] := descriptor[i];
    }
  }

  lemma IntroductionsNext(r: Room, i: nat, x: nat)
    requires i < |r.members|
    ensures Introductions(r, r.members[..i + 1], x) == Introductions(r, r.members[..i], x)
      + if IdOf(r, r.members[i]) == x then [] else [New(IdOf(r, r.members[i]), DescriptorOf(r, r.members[i]))]
  {
    assert r.members[..i + 1][..i] == r.members[..i];
  }

  lemma OthersFit(r: Room, x: nat)
    requires forall j :: 0 <= j < |r.members| && Ids(r)[j] != x ==> |DescriptorOf(r, r.members[j])| <= DESCRIPTOR_SIZE
    ensures forall m :: m in Others(r, x) ==> |DescriptorOf(r, m)| <= DESCRIPTOR_SIZE
  {
    forall m | m in Others(r, x)
      ensures |DescriptorOf(r, m)| <= DESCRIPTOR_SIZE
    {
      var j :| 0 <= j < |r.members| && r.members[j] == m;
      assert Ids(r)[j] == IdOf(r, m);
    }
  }

  lemma AppendNone(r: Room, s: nat)
    requires s < |r.sessions|
    ensures Append(r, s, []) == r
  {
    assert r.sessions[s].log + [] == r.sessions[s].log;
    assert r.sessions[s := r.sessions[s]] == r.sessions;
  }

  lemma AppendNext(r: Room, s: nat, fs: seq<Frame>, i: nat)
    requires s < |r.sessions| && i < |fs|
    ensures Deliver(Append(r, s, fs[..i]), {s}, fs[i]) == Append(r, s, fs[..i + 1])
  {
    assert fs[..i + 1] == fs[..i] + [fs[i]];
    assert r.sessions[s].log + fs[..i] + [fs[i]] == r.sessions[s].log + fs[..i + 1];
  }

  method LeavingMessage(k: nat) returns (w: Wire)
    requires IsId(k)
    ensures w == LeaveMessage(k)
  {
    var body := Pack(ST_PARTICIPANT_LEAVE, [Num(k)]);
    var msg := new XRMessage.FromBuffer(PARTICIPANT_LEAVE, body, |body|);
    assert body[..|body|] == body;
    w := msg.data[..];
  }

  /** A message holding a fresh ST_PARTICIPANT_NEW: only the first 1024 bytes of its buffer are
      cleared before the descriptor is copied in. */
  method NewParticipantMessage(x: nat, descriptor: seq<Byte>) returns (w: Wire)
    requires IsId(x) && |descriptor| <= DESCRIPTOR_SIZE
    ensures Decode(w) == New(x, descriptor) && PayloadSize(w) == 20492
  {
    var buffer := new Byte[DESCRIPTOR_SIZE];
    forall i | 0 <= i < 1024 {
      buffer[i] := 0;
    }
    forall i | 0 <= i < |descriptor| {
      buffer[i] := descriptor[i];
    }
    assert buffer[..][..|descriptor|] == descriptor;
    DecodeNew(x, |descriptor|, buffer[..]);
    NewBytes(x, |descriptor|, buffer[..]);
    var body := Pack(ST_PARTICIPANT_NEW, NewValues(x, |descriptor|, buffer[..]));
    var msg := new XRMessage.FromBuffer(PARTICIPANT_NEW, body, |body|);
    assert body[..|body|] == body;
    w := msg.data[..];
  }

  lemma IndicesConcat(a: seq<NrSession>, b: seq<NrSession>)
    ensures Indices(a + b) == Indices(a) + Indices(b)
  {
    forall i | 0 <= i < |a + b|
      ensures Indices(a + b)[i] == (Indices(a) + Indices(b))[i]
    {
      assert Indices(a + b)[i] == (a + b)[i].index;
    }
  }

  lemma IndicesSplit(ps: seq<NrSession>, i: nat)
    requires i <= |ps|
    ensures Indices(ps[..i]) == Indices(ps)[..i] && Indices(ps[i..]) == Indices(ps)[i..]
  {
    var a, b := ps[..i], ps[i..];
    IndicesConcat(a, b);
    assert a + b == ps && Indices(ps) == Indices(a) + Indices(b);
  }

  lemma IndicesRemove(ps: seq<NrSession>, i: nat)
    requires i < |ps|
    ensures Indices(RemoveAt(ps, i)) == RemoveAt(Indices(ps), i)
    ensures forall q :: q in RemoveAt(ps, i) ==> q in ps
  {
    IndicesSplit(ps, i);
    IndicesSplit(ps, i + 1);
    IndicesConcat(ps[..i], ps[i + 1..]);
  }

  lemma IndicesInsert(ps: seq<NrSession>, i: nat, p: NrSession)
    requires i <= |ps|
    ensures Indices(InsertAt(ps, i, p)) == InsertAt(Indices(ps), i, p.index)
  {
    IndicesSplit(ps, i);
    IndicesConcat(ps[..i] + [p], ps[i..]);
    IndicesConcat(ps[..i], [p]);
  }

  lemma DeliverNone(r: Room, none: set<nat>, f: Frame)
    requires none == {}
    ensures Deliver(r, none, f) == r
  {}

  lemma DeliverTwice(r: Room, a: set<nat>, m: nat, f: Frame)
    requires m !in a
    ensures Deliver(Deliver(r, a, f), {m}, f) == Deliver(r, a + {m}, f)
  {}

  lemma DeliverNext(r: Room, n: nat, to: set<nat>, f: Frame)
    requires Structure(r) && n < |r.members|
    ensures var so := Deliver(r, to * Elements(r.members[..n]), f);
      && Ids(so) == Ids(r)
      && Deliver(r, to * Elements(r.members[..n + 1]), f)
         == if r.members[n] in to then Deliver(so, {r.members[n]}, f) else so
  {
    var m, before := r.members[n], to * Elements(r.members[..n]);
    assert r.members[..n + 1] == r.members[..n] + [m];
    SameIds(r, Deliver(r, before, f));
    forall i | 0 <= i < n
      ensures r.members[i] != m
    {
      assert Ids(r)[i] < Ids(r)[n];
    }
    if m in to {
      assert to * Elements(r.members[..n + 1]) == before + {m};
      DeliverTwice(r, before, m, f);
    } else {
      assert to * Elements(r.members[..n + 1]) == before;
    }
  }
}
