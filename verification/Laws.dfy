/** What each event does to each session, said field by field and over whole runs, from the events
    alone. */
module RoomLaws {
  import opened Bytes
  import opened Protocol
  import opened Messages
  import opened Frames
  import opened OrderedSet
  import opened RoomProtocol
  import opened RoomInvariant
  import opened RoomTheorems
  import opened RoomRuns
  import opened WireFormat

  // ----- the fields that are not news -----

  /** Only logs have grown and introductions been noted. */
  ghost predicate OnlyNews(r: Room, r': Room) {
    && |r'.sessions| == |r.sessions|
    && forall i :: 0 <= i < |r.sessions| ==>
         r'.sessions[i]
         == r.sessions[i].(log := r'.sessions[i].log, introducedAt := r'.sessions[i].introducedAt)
  }

  lemma NewsTwice(r: Room, a: Room, b: Room)
    requires OnlyNews(r, a) && OnlyNews(a, b)
    ensures OnlyNews(r, b)
  {}

  lemma DeliverIsNews(r: Room, to: set<nat>, f: Frame)
    ensures OnlyNews(r, Deliver(r, to, f))
  {}

  lemma DepartIsNews(r: Room, k: nat)
    ensures OnlyNews(r, Depart(r, k))
  {
    DeliverIsNews(Erase(r, k), Members(Erase(r, k)), Frame.Leave(k));
  }

  lemma IntroduceIsNews(r: Room, x: nat)
    requires Introduce(r, x).Next?
    ensures OnlyNews(r, Introduce(r, x).room)
  {
    var s := r.members[LowerBound(Ids(r), x)];
    var f := New(x, DescriptorOf(r, s));
    var told := Deliver(r, Others(r, x), f);
    DeliverIsNews(r, Others(r, x), f);
    ReceiveIsNews(told, s, Introductions(r, r.members, x));
    NewsTwice(r, told, Introduce(r, x).room);
  }

  lemma ReceiveIsNews(r: Room, s: nat, news: seq<Frame>)
    ensures OnlyNews(r, Receive(r, s, news))
  {}

  // ----- what an event does to the fields of session i -----

  /** The messages a session loop knows. */
  predicate Known(m: Received) {
    m.JoinAck? || m.NewAck? || m.UpdateAck? || m.LeaveAck?
  }

  /** The events that close the socket: a login that is wrong or finds the room full, a message the
      session loop does not know, a failed read of the handshake, and disconnecting all members. */
  predicate Closes(r: Room, e: Event, i: nat) {
    match e
    case ReadDone(s, HandshakeLoop, CredentialsAck(accepted), _) => i == s && (!accepted || |r.members| >= r.limit)
    case ReadDone(s, SessionLoop, m, _) => i == s && !Known(m)
    case ReadError(s, HandshakeLoop) => i == s
    case DisconnectAll => i in r.members
    case _ => false
  }

  /** The handshake loop is left by credentials and by an error. */
  predicate LeavesHandshake(e: Event, i: nat) {
    match e
    case ReadDone(s, HandshakeLoop, CredentialsAck(_), _) => i == s
    case ReadError(s, HandshakeLoop) => i == s
    case _ => false
  }

  predicate EntersLoop(e: Event, i: nat) {
    e.ReadDone? && e.loop == HandshakeLoop && e.m.CredentialsAck? && e.s == i
  }

  predicate LeavesLoop(e: Event, i: nat) {
    e.ReadError? && e.loop == SessionLoop && e.s == i
  }

  predicate EndsWrite(e: Event, i: nat) {
    (e.WriteDone? && e.s == i) || (e.WriteError? && e.s == i)
  }

  /** A configuration is appended, a json replaces all. */
  function DescriptorAfter(d: seq<Byte>, e: Event, i: nat): seq<Byte> {
    match e
    case ReadDone(s, HandshakeLoop, HelloAck(_, configuration), _) => if i == s then d + configuration else d
    case ReadDone(s, SessionLoop, JoinAck(_, _, json), _) => if i == s then json else d
    case _ => d
  }

  ghost predicate Obeys(r: Room, e: Event, r': Room, i: nat)
    requires Enabled(r, e) && i < |r.sessions|
  {
    && i < |r'.sessions|
    && (r'.sessions[i].open <==> r.sessions[i].open && !Closes(r, e, i))
    && r'.sessions[i].handshakeReads == r.sessions[i].handshakeReads - (if LeavesHandshake(e, i) then 1 else 0)
    && r'.sessions[i].sessionReads
       == r.sessions[i].sessionReads + (if EntersLoop(e, i) then 1 else 0) - (if LeavesLoop(e, i) then 1 else 0)
    && r'.sessions[i].completed == r.sessions[i].completed + (if EndsWrite(e, i) then 1 else 0)
    && r'.sessions[i].descriptor == DescriptorAfter(r.sessions[i].descriptor, e, i)
    && r'.sessions[i].id == (if Admits(r, e, i) then e.draw else r.sessions[i].id)
  }

  lemma NewsObeys(r: Room, e: Event, put: Room, r': Room, i: nat)
    requires Enabled(r, e) && i < |r.sessions| && OnlyNews(put, r') && Obeys(r, e, put, i)
    ensures Obeys(r, e, r', i)
  {}

  lemma HelloAckObeys(r: Room, e: Event, i: nat)
    requires Enabled(r, e) && Handle(r, e).Next? && i < |r.sessions|
    requires e.ReadDone? && e.loop == HandshakeLoop && e.m.HelloAck?
    ensures Obeys(r, e, Handle(r, e).room, i)
  {
    HelloAckIs(r, e.s, e.m.size, e.m.configuration, e.draw);
  }

  lemma AdmittedFields(r: Room, s: nat, draw: nat, i: nat)
    requires s < |r.sessions| && i < |r.sessions| && Admit(r, s, draw).Next?
    ensures var r' := Admit(r, s, draw).room;
      && |r'.sessions| == |r.sessions|
      && (i != s ==> r'.sessions[i] == r.sessions[i])
      && (|r.members| >= r.limit ==> r'.sessions[s].id == r.sessions[s].id && !r'.sessions[s].open)
      && (|r.members| < r.limit ==> r'.sessions[s].id == draw && r'.sessions[s].open && r.sessions[s].open)
      && r'.sessions[s].handshakeReads == r.sessions[s].handshakeReads
      && r'.sessions[s].sessionReads == r.sessions[s].sessionReads
      && r'.sessions[s].completed == r.sessions[s].completed
      && r'.sessions[s].descriptor == r.sessions[s].descriptor
      && r'.sessions[s].log == r.sessions[s].log + [Frame.Join(r'.sessions[s].id)]
  {}

  lemma CredentialsAckObeys(r: Room, e: Event, i: nat)
    requires Enabled(r, e) && Handle(r, e).Next? && i < |r.sessions|
    requires e.ReadDone? && e.loop == HandshakeLoop && e.m.CredentialsAck?
    ensures Obeys(r, e, Handle(r, e).room, i)
  {
    var taken := Put(r, e.s, Taken(r.sessions[e.s], e.m.accepted));
    CredentialsAckIs(r, e.s, e.m.accepted, e.draw);
    AdmittedFields(taken, e.s, e.draw, i);
  }

  lemma JoinAckObeys(r: Room, e: Event, i: nat)
    requires Enabled(r, e) && Handle(r, e).Next? && i < |r.sessions|
    requires e.ReadDone? && e.loop == SessionLoop && e.m.JoinAck?
    ensures Obeys(r, e, Handle(r, e).room, i)
  {
    var put := Put(r, e.s, r.sessions[e.s].(descriptor := e.m.json));
    assert Handle(r, e) == Introduce(put, e.m.id);
    IntroduceIsNews(put, e.m.id);
    NewsObeys(r, e, put, Handle(r, e).room, i);
  }

  lemma SessionReadObeys(r: Room, e: Event, i: nat)
    requires Enabled(r, e) && Handle(r, e).Next? && i < |r.sessions|
    requires e.ReadDone? && e.loop == SessionLoop && !e.m.JoinAck?
    ensures Obeys(r, e, Handle(r, e).room, i)
  {
    if e.m.UpdateAck? {
      DeliverIsNews(r, Others(r, r.sessions[e.s].id), Update(e.m.bytes));
      NewsObeys(r, e, r, Handle(r, e).room, i);
    } else if e.m.LeaveAck? {
      DepartIsNews(r, r.sessions[e.s].id);
      NewsObeys(r, e, r, Handle(r, e).room, i);
    }
  }

  lemma LossObeys(r: Room, e: Event, put: Room, k: nat, i: nat)
    requires Enabled(r, e) && Handle(r, e) == Next(Depart(put, k)) && i < |r.sessions| && Obeys(r, e, put, i)
    ensures Obeys(r, e, Handle(r, e).room, i)
  {
    DepartIsNews(put, k);
    NewsObeys(r, e, put, Depart(put, k), i);
  }

  lemma WriteErrorObeys(r: Room, s: nat, i: nat)
    requires Enabled(r, WriteError(s)) && i < |r.sessions|
    ensures Handle(r, WriteError(s)).Next? && Obeys(r, WriteError(s), Handle(r, WriteError(s)).room, i)
  {
    LossObeys(r, WriteError(s), Put(r, s, Wrote(r.sessions[s])), r.sessions[s].id, i);
  }

  lemma ReadErrorObeys(r: Room, s: nat, loop: Loop, i: nat)
    requires Enabled(r, ReadError(s, loop)) && i < |r.sessions|
    ensures Handle(r, ReadError(s, loop)).Next? && Obeys(r, ReadError(s, loop), Handle(r, ReadError(s, loop)).room, i)
  {
    if loop == SessionLoop {
      LossObeys(r, ReadError(s, loop), Put(r, s, TakeRead(r.sessions[s], SessionLoop)), r.sessions[s].id, i);
    }
  }

  lemma ErrorObeys(r: Room, e: Event, i: nat)
    requires Enabled(r, e) && Handle(r, e).Next? && i < |r.sessions|
    requires e.ReadError? || e.WriteError? || e.DisconnectId?
    ensures Obeys(r, e, Handle(r, e).room, i)
  {
    match e
    case WriteError(s) => WriteErrorObeys(r, s, i);
    case ReadError(s, loop) => ReadErrorObeys(r, s, loop, i);
    case DisconnectId(id) => LossObeys(r, e, r, id, i);
  }

  lemma QuietObeys(r: Room, e: Event, i: nat)
    requires Enabled(r, e) && Handle(r, e).Next? && i < |r.sessions|
    requires e.Accept? || e.WriteDone? || e.DisconnectAll? || e.SetLimit?
    ensures Obeys(r, e, Handle(r, e).room, i)
  {}

  lemma OtherHandshakeObeys(r: Room, e: Event, i: nat)
    requires Enabled(r, e) && Handle(r, e).Next? && i < |r.sessions|
    requires e.ReadDone? && e.loop == HandshakeLoop && !e.m.HelloAck? && !e.m.CredentialsAck?
    ensures Obeys(r, e, Handle(r, e).room, i)
  {}

  lemma ReadObeys(r: Room, e: Event, i: nat)
    requires Enabled(r, e) && Handle(r, e).Next? && i < |r.sessions| && e.ReadDone?
    ensures Obeys(r, e, Handle(r, e).room, i)
  {
    if e.loop == SessionLoop {
      if e.m.JoinAck? {
        JoinAckObeys(r, e, i);
      } else {
        SessionReadObeys(r, e, i);
      }
    } else if e.m.HelloAck? {
      HelloAckObeys(r, e, i);
    } else if e.m.CredentialsAck? {
      CredentialsAckObeys(r, e, i);
    } else {
      OtherHandshakeObeys(r, e, i);
    }
  }

  lemma HandleObeys(r: Room, e: Event, i: nat)
    requires Enabled(r, e) && Handle(r, e).Next? && i < |r.sessions|
    ensures Obeys(r, e, Handle(r, e).room, i)
  {
    if e.ReadDone? {
      ReadObeys(r, e, i);
    } else if e.ReadError? || e.WriteError? || e.DisconnectId? {
      ErrorObeys(r, e, i);
    } else {
      QuietObeys(r, e, i);
    }
  }

  /** Every event that does not fault changes the socket, the pending reads, the completed writes, the
      descriptor and the id of every session as these laws say, and of no other. */
  lemma StepObeys(r: Room, e: Event, i: nat)
    requires Enabled(r, e) && Step(r, e).Next? && i < |r.sessions|
    ensures Obeys(r, e, Step(r, e).room, i)
  {
    HandleObeys(r, e, i);
    assert Step(r, e) == Tick(Handle(r, e));
  }

  // ----- over whole runs -----

  /** The last limit set. */
  function LastLimit(limit: nat, es: seq<Event>): nat
    decreases |es|
  {
    if es == [] then limit else LastLimit(if es[0].SetLimit? then es[0].limit else limit, es[1..])
  }

  lemma StepLimit(r: Room, e: Event)
    requires Enabled(r, e) && Step(r, e).Next?
    ensures Step(r, e).room.limit == if e.SetLimit? then e.limit else r.limit
  {
    var o := Handle(r, e);
    HandleLimit(r, e);
    assert Step(r, e) == Tick(o);
  }

  lemma HandleLimit(r: Room, e: Event)
    requires Enabled(r, e) && Handle(r, e).Next?
    ensures Handle(r, e).room.limit == if e.SetLimit? then e.limit else r.limit
  {}

  lemma {:induction false} RunLimit(r: Room, es: seq<Event>)
    requires Legal(r, es)
    ensures After(r, es).limit == LastLimit(r.limit, es)
    decreases |es|
  {
    if es == [] {
    } else {
      StepLimit(r, es[0]);
      RunLimit(Step(r, es[0]).room, es[1..]);
    }
  }

  /** In every run a good login takes its session into the room if and only if the members are fewer than
      the last limit set. */
  lemma AdmissionIff(limit: nat, es: seq<Event>, s: nat, draw: nat)
    requires limit < 0x1_0000 && Legal(Init(limit), es)
    requires Enabled(After(Init(limit), es), ReadDone(s, HandshakeLoop, CredentialsAck(true), draw))
    ensures var r, e := After(Init(limit), es), ReadDone(s, HandshakeLoop, CredentialsAck(true), draw);
      && r.limit == LastLimit(limit, es) && Step(r, e).Next?
      && (s in Step(r, e).room.members <==> |r.members| < LastLimit(limit, es))
  {
    var r, e := After(Init(limit), es), ReadDone(s, HandshakeLoop, CredentialsAck(true), draw);
    RunLimit(Init(limit), es);
    assert Reachable(r);
    ReachableInv(r);
    if |r.members| < r.limit {
      AdmitsRoster(r, e, s);
    } else {
      FullRoomRefuses(r, s, draw);
    }
  }

  lemma FullRoomRefuses(r: Room, s: nat, draw: nat)
    requires Inv(r) && Enabled(r, ReadDone(s, HandshakeLoop, CredentialsAck(true), draw)) && |r.members| >= r.limit
    ensures var o := Handle(r, ReadDone(s, HandshakeLoop, CredentialsAck(true), draw));
      o.Next? && o.room.members == r.members && s !in r.members
  {
    CredentialsAckIs(r, s, true, draw);
    TakenKeeps(r, s, true, r.clock);
    assert MembersOk(r, 0);
  }

  /** The descriptor that a run gives to session s. */
  function DescriptorFrom(d: seq<Byte>, es: seq<Event>, s: nat): seq<Byte>
    decreases |es|
  {
    if es == [] then d else DescriptorFrom(DescriptorAfter(d, es[0], s), es[1..], s)
  }

  /** The number of writes of session s that a run has completed, well or not. */
  function WritesEnded(es: seq<Event>, s: nat): nat {
    if es == [] then 0 else (if EndsWrite(es[0], s) then 1 else 0) + WritesEnded(es[1..], s)
  }

  function CompletedOf(r: Room, s: nat): nat {
    if s < |r.sessions| then r.sessions[s].completed else 0
  }

  lemma NewcomerObeys(r: Room, e: Event, s: nat)
    requires Enabled(r, e) && Step(r, e).Next? && s >= |r.sessions|
    ensures DescriptorOf(Step(r, e).room, s) == [] && DescriptorAfter([], e, s) == []
    ensures CompletedOf(Step(r, e).room, s) == 0 && !EndsWrite(e, s)
  {
    NewcomerIs(r, e);
    assert Step(r, e) == Tick(Handle(r, e));
  }

  /** A step adds at most one session, and it is a fresh one. */
  lemma NewcomerIs(r: Room, e: Event)
    requires Enabled(r, e) && Handle(r, e).Next?
    ensures var r' := Handle(r, e).room;
      if e.Accept? then r'.sessions == r.sessions + [NewSession(e.service)] else |r'.sessions| == |r.sessions|
  {}

  /** An accepted session: open, without an id, one handshake read pending, and HELLO with the service
      and id 0 in its log. */
  lemma AcceptedSession(r: Room, service: nat, nameSize: nat)
    requires Enabled(r, Accept(service, nameSize))
    ensures Step(r, Accept(service, nameSize)).Next? <==> nameSize <= 1024
    ensures nameSize <= 1024 ==>
      var r' := Step(r, Accept(service, nameSize)).room;
      && |r'.sessions| == |r.sessions| + 1 && r'.members == r.members
      && var q := r'.sessions[|r.sessions|];
         && q.open && q.id == 0 && q.handshakeReads == 1 && q.sessionReads == 0
         && q.descriptor == [] && q.log == [Hello(service, 0)] && q.completed == 0
  {}

  lemma {:induction false} RunGives(r: Room, es: seq<Event>, s: nat)
    requires Legal(r, es)
    ensures DescriptorOf(After(r, es), s) == DescriptorFrom(DescriptorOf(r, s), es, s)
    ensures CompletedOf(After(r, es), s) == CompletedOf(r, s) + WritesEnded(es, s)
    decreases |es|
  {
    if es == [] {
    } else {
      if s < |r.sessions| {
        StepObeys(r, es[0], s);
      } else {
        NewcomerObeys(r, es[0], s);
      }
      RunGives(Step(r, es[0]).room, es[1..], s);
    }
  }

  /** In every run a session's descriptor is its last json and the configurations since, and its
      completed writes are those that ended. */
  lemma SessionFieldsOverRuns(limit: nat, es: seq<Event>, s: nat)
    requires Legal(Init(limit), es) && s < |After(Init(limit), es).sessions|
    ensures After(Init(limit), es).sessions[s].descriptor == DescriptorFrom([], es, s)
    ensures After(Init(limit), es).sessions[s].completed == WritesEnded(es, s)
  {
    RunGives(Init(limit), es, s);
  }

  // ----- the roster and the news -----

  /** The events after which a session is told to have left, and the id that is told. */
  predicate TakesLeave(e: Event) {
    match e
    case ReadDone(_, SessionLoop, LeaveAck, _) => true
    case ReadError(_, SessionLoop) => true
    case WriteError(_) => true
    case DisconnectId(_) => true
    case _ => false
  }

  function LeavingId(r: Room, e: Event): nat
    requires TakesLeave(e)
  {
    if e.DisconnectId? then e.id else IdOf(r, e.s)
  }

  predicate Departs(r: Room, e: Event, m: nat) {
    TakesLeave(e) && IdOf(r, m) == LeavingId(r, e) && (e.DisconnectId? || m == e.s)
  }

  /** The frames an event hands to session i. */
  function NewsFor(r: Room, e: Event, i: nat): seq<Frame>
    requires Enabled(r, e)
  {
    match e
    case ReadDone(s, HandshakeLoop, HelloAck(_, _), _) => if i == s then [Credentials] else []
    case ReadDone(s, HandshakeLoop, CredentialsAck(_), draw) =>
      if i == s then [Frame.Join(if Admits(r, e, s) then draw else 0)] else []
    case ReadDone(s, SessionLoop, UpdateAck(bytes), _) => if i in r.members && i != s then [Update(bytes)] else []
    case _ =>
      if TakesLeave(e) && i in r.members && !Departs(r, e, i) then [Frame.Leave(LeavingId(r, e))] else []
  }

  ghost predicate TellsNews(r: Room, e: Event, r': Room, i: nat)
    requires Enabled(r, e) && i < |r.sessions|
  {
    i < |r'.sessions| && r'.sessions[i].log == r.sessions[i].log + NewsFor(r, e, i)
  }

  ghost predicate KeepsRoster(r: Room, e: Event, r': Room)
    requires Enabled(r, e)
  {
    forall m :: m in r'.members <==> (m in r.members && !Departs(r, e, m)) || Admits(r, e, m)
  }

  lemma DepartLaws(r: Room, k: nat, i: nat)
    requires Structure(r) && i < |r.sessions|
    ensures var r' := Depart(r, k);
      && |r'.sessions| == |r.sessions|
      && (forall m :: m in r'.members <==> m in r.members && IdOf(r, m) != k)
      && r'.sessions[i].log == r.sessions[i].log + (if i in r.members && IdOf(r, i) != k then [Frame.Leave(k)] else [])
  {
    var erased := Erase(r, k);
    EraseFacts(r, k);
    DeliveryHands(erased, Members(erased), Frame.Leave(k), i);
  }

  lemma DepartsIff(r: Room, e: Event, m: nat)
    requires Inv(r) && Enabled(r, e) && TakesLeave(e) && m in r.members
    ensures Departs(r, e, m) <==> IdOf(r, m) == LeavingId(r, e)
  {
    if !e.DisconnectId? {
      KeyIsOwn(r, e.s);
    }
  }

  /** Taking out the session with the leaving id and telling the others, when `put` has its own fields
      changed. */
  lemma LeaveLaws(r: Room, e: Event, put: Room, i: nat)
    requires Inv(r) && Enabled(r, e) && TakesLeave(e) && i < |r.sessions|
    requires Handle(r, e) == Next(Depart(put, LeavingId(r, e)))
    requires put.members == r.members && |put.sessions| == |r.sessions|
    requires forall j :: 0 <= j < |r.sessions| ==>
      put.sessions[j].id == r.sessions[j].id && put.sessions[j].log == r.sessions[j].log
    ensures KeepsRoster(r, e, Handle(r, e).room) && TellsNews(r, e, Handle(r, e).room, i)
  {
    var k := LeavingId(r, e);
    SameIds(r, put);
    DepartLaws(put, k, i);
    assert forall m :: m in r.members ==> IdOf(put, m) == IdOf(r, m);
    LeavingFollows(r, e, Depart(put, k), i);
  }

  lemma LeavingFollows(r: Room, e: Event, r': Room, i: nat)
    requires Inv(r) && Enabled(r, e) && TakesLeave(e) && i < |r.sessions| && i < |r'.sessions|
    requires forall m :: m in r'.members <==> m in r.members && IdOf(r, m) != LeavingId(r, e)
    requires r'.sessions[i].log == r.sessions[i].log
      + if i in r.members && IdOf(r, i) != LeavingId(r, e) then [Frame.Leave(LeavingId(r, e))] else []
    ensures KeepsRoster(r, e, r') && TellsNews(r, e, r', i)
  {
    forall m | m in r.members
      ensures Departs(r, e, m) <==> IdOf(r, m) == LeavingId(r, e)
    {
      DepartsIff(r, e, m);
    }
    NewsOfLeaving(r, e, i);
  }

  lemma NewsOfLeaving(r: Room, e: Event, i: nat)
    requires Enabled(r, e) && TakesLeave(e)
    ensures NewsFor(r, e, i)
      == if i in r.members && !Departs(r, e, i) then [Frame.Leave(LeavingId(r, e))] else []
    ensures !Admits(r, e, i)
  {}

  lemma WriteErrorLaws(r: Room, s: nat, i: nat)
    requires Inv(r) && Enabled(r, WriteError(s)) && i < |r.sessions|
    ensures Handle(r, WriteError(s)).Next? && KeepsRoster(r, WriteError(s), Handle(r, WriteError(s)).room)
    ensures TellsNews(r, WriteError(s), Handle(r, WriteError(s)).room, i)
  {
    LeaveLaws(r, WriteError(s), Put(r, s, Wrote(r.sessions[s])), i);
  }

  lemma ReadErrorLaws(r: Room, s: nat, i: nat)
    requires Inv(r) && Enabled(r, ReadError(s, SessionLoop)) && i < |r.sessions|
    ensures Handle(r, ReadError(s, SessionLoop)).Next?
    ensures KeepsRoster(r, ReadError(s, SessionLoop), Handle(r, ReadError(s, SessionLoop)).room)
    ensures TellsNews(r, ReadError(s, SessionLoop), Handle(r, ReadError(s, SessionLoop)).room, i)
  {
    LeaveLaws(r, ReadError(s, SessionLoop), Put(r, s, TakeRead(r.sessions[s], SessionLoop)), i);
  }

  lemma LossLaws(r: Room, e: Event, i: nat)
    requires Inv(r) && Enabled(r, e) && TakesLeave(e) && Handle(r, e).Next? && i < |r.sessions|
    ensures KeepsRoster(r, e, Handle(r, e).room) && TellsNews(r, e, Handle(r, e).room, i)
  {
    match e
    case ReadDone(_, _, _, _) => LeaveLaws(r, e, r, i);
    case ReadError(s, _) => ReadErrorLaws(r, s, i);
    case WriteError(s) => WriteErrorLaws(r, s, i);
    case DisconnectId(_) => LeaveLaws(r, e, r, i);
  }

  lemma CredentialsAckLaws(r: Room, e: Event, i: nat)
    requires Inv(r) && Enabled(r, e) && Handle(r, e).Next? && i < |r.sessions|
    requires e.ReadDone? && e.loop == HandshakeLoop && e.m.CredentialsAck?
    ensures KeepsRoster(r, e, Handle(r, e).room) && TellsNews(r, e, Handle(r, e).room, i)
  {
    var taken := Put(r, e.s, Taken(r.sessions[e.s], e.m.accepted));
    CredentialsAckIs(r, e.s, e.m.accepted, e.draw);
    TakenKeeps(r, e.s, e.m.accepted, r.clock);
    AdmittedFields(taken, e.s, e.draw, i);
    assert r.sessions[i].log + [] == r.sessions[i].log;
    if Admits(r, e, e.s) {
      AdmitsRoster(r, e, e.s);
    } else {
      RefusedRoster(taken, e.s, e.draw);
    }
  }

  lemma RefusedRoster(r: Room, s: nat, draw: nat)
    requires s < |r.sessions| && Admit(r, s, draw).Next? && (|r.members| >= r.limit || !r.sessions[s].open)
    ensures Admit(r, s, draw).room.members == r.members && |r.members| >= r.limit
  {}

  lemma HelloAckLaws(r: Room, e: Event, i: nat)
    requires Enabled(r, e) && Handle(r, e).Next? && i < |r.sessions|
    requires e.ReadDone? && e.loop == HandshakeLoop && e.m.HelloAck?
    ensures KeepsRoster(r, e, Handle(r, e).room) && TellsNews(r, e, Handle(r, e).room, i)
  {
    HelloAckIs(r, e.s, e.m.size, e.m.configuration, e.draw);
  }

  lemma UpdateLaws(r: Room, e: Event, i: nat)
    requires Inv(r) && Enabled(r, e) && Handle(r, e).Next? && i < |r.sessions|
    requires e.ReadDone? && e.loop == SessionLoop && e.m.UpdateAck?
    ensures KeepsRoster(r, e, Handle(r, e).room) && TellsNews(r, e, Handle(r, e).room, i)
  {
    var to := Others(r, r.sessions[e.s].id);
    OthersOf(r, e.s);
    UpdateIsDelivery(r, e.s, e.m.bytes, e.draw, to);
    DeliveryHands(r, to, Update(e.m.bytes), i);
    NewsOfUpdate(r, e, i);
  }

  lemma NewsOfUpdate(r: Room, e: Event, i: nat)
    requires Enabled(r, e) && e.ReadDone? && e.loop == SessionLoop && e.m.UpdateAck?
    ensures NewsFor(r, e, i) == if i in r.members && i != e.s then [Update(e.m.bytes)] else []
    ensures !TakesLeave(e) && !Admits(r, e, i)
  {}

  lemma DeliveryHands(r: Room, to: set<nat>, f: Frame, i: nat)
    requires i < |r.sessions|
    ensures Deliver(r, to, f).members == r.members && |Deliver(r, to, f).sessions| == |r.sessions|
    ensures Deliver(r, to, f).sessions[i].log == r.sessions[i].log + if i in to then [f] else []
  {}

  lemma QuietLaws(r: Room, e: Event, i: nat)
    requires Enabled(r, e) && Handle(r, e).Next? && i < |r.sessions| && !TakesLeave(e)
    requires e.ReadDone? ==>
      if e.loop == HandshakeLoop then !e.m.HelloAck? && !e.m.CredentialsAck? else !e.m.JoinAck? && !e.m.UpdateAck?
    ensures KeepsRoster(r, e, Handle(r, e).room) && TellsNews(r, e, Handle(r, e).room, i)
  {}

  lemma HandleLaws(r: Room, e: Event, i: nat)
    requires Inv(r) && Enabled(r, e) && Handle(r, e).Next? && i < |r.sessions|
    requires !(e.ReadDone? && e.loop == SessionLoop && e.m.JoinAck?)
    ensures KeepsRoster(r, e, Handle(r, e).room) && TellsNews(r, e, Handle(r, e).room, i)
  {
    if TakesLeave(e) {
      LossLaws(r, e, i);
    } else if e.ReadDone? && e.loop == HandshakeLoop && e.m.HelloAck? {
      HelloAckLaws(r, e, i);
    } else if e.ReadDone? && e.loop == HandshakeLoop && e.m.CredentialsAck? {
      CredentialsAckLaws(r, e, i);
    } else if e.ReadDone? && e.loop == SessionLoop && e.m.UpdateAck? {
      UpdateLaws(r, e, i);
    } else {
      QuietLaws(r, e, i);
    }
  }

  /** Every event but a JOIN_ACK, whose news are the exchange, changes the roster and hands frames to
      every session as these laws say. */
  lemma StepLaws(r: Room, e: Event, i: nat)
    requires Reachable(r) && Enabled(r, e) && Step(r, e).Next? && i < |r.sessions|
    requires !(e.ReadDone? && e.loop == SessionLoop && e.m.JoinAck?)
    ensures KeepsRoster(r, e, Step(r, e).room) && TellsNews(r, e, Step(r, e).room, i)
  {
    ReachableInv(r);
    HandleLaws(r, e, i);
    assert Step(r, e) == Tick(Handle(r, e));
  }

  // ----- a descriptor on its way -----

  /** A member that introduces itself: the bytes it has put into its JOIN_ACK, and no others, are its
      descriptor afterwards, and every other member is handed one NEW with its id and these bytes. */
  lemma JoinAckAnnounces(
    r: Room, s: nat, id: nat, size: nat, buffer: seq<Byte>, past: seq<Byte>, draw: nat, m: nat)
    requires IsId(id) && size <= |buffer| == 20480 && |past| <= 45036
    requires Reachable(r) && s in r.members && s < |r.sessions| && r.sessions[s].id == id
    requires forall n :: n in r.members && n != s ==> |DescriptorOf(r, n)| <= DESCRIPTOR_SIZE
    requires Enabled(r, ReadDone(s, SessionLoop, Parse(JoinAckMessage(id, size, buffer, past)), draw))
    requires m in r.members && m != s
    ensures var o := Step(r, ReadDone(s, SessionLoop, Parse(JoinAckMessage(id, size, buffer, past)), draw));
      && o.Next? && s < |o.room.sessions| && o.room.sessions[s].descriptor == buffer[..size]
      && m < |r.sessions| && m < |o.room.sessions|
      && o.room.sessions[m].log == r.sessions[m].log + [New(id, buffer[..size])]
  {
    var json := buffer[..size];
    ParseJoinAck(id, size, buffer, past);
    var e := ReadDone(s, SessionLoop, JoinAck(id, size, json), draw);
    ReachableInv(r);
    assert IdOf(r, s) == id;
    SessionReadFaultsIff(r, s, e.m);
    StepObeys(r, e, s);
    JoinAckExchanges(r, s, id, size, json, draw);
    AnnouncedTo(r, s, json, id, Handle(r, e).room, m);
  }

  lemma AnnouncedTo(r: Room, s: nat, json: seq<Byte>, id: nat, r': Room, m: nat)
    requires Inv(r) && s in r.members && r.sessions[s].id == id && m in r.members && m != s
    requires var put := Put(r, s, r.sessions[s].(descriptor := json));
      && Structure(put) && LowerBound(Ids(put), id) < |put.members|
      && IdOf(put, put.members[LowerBound(Ids(put), id)]) == id && Exchanged(put, r', LowerBound(Ids(put), id))
    ensures m < |r'.sessions| && r'.sessions[m].log == r.sessions[m].log + [New(id, json)]
  {
    var put := Put(r, s, r.sessions[s].(descriptor := json));
    KeyIsOwn(r, s);
    var p := LowerBound(Ids(put), id);
    assert put.members[p] in r.members && put.members[p] == s;
  }
}
