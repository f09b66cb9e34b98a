/** When a step of the server is undefined, and what a session that never joined tells the room. */
module RoomFaults {
  import opened Bytes
  import opened Protocol
  import opened Frames
  import opened OrderedSet
  import opened RoomProtocol
  import opened RoomInvariant
  import opened RoomTheorems
  import opened RoomRuns

  /** What keeps each event from undefined behaviour and from an exception that ends the run. */
  ghost predicate SafeStep(r: Room, e: Event)
    requires Enabled(r, e)
  {
    match e
    case Accept(_, nameSize) => nameSize <= NAME_SIZE
    case ReadDone(_, HandshakeLoop, HelloAck(size, _), _) => size <= DESCRIPTOR_SIZE
    case ReadDone(_, HandshakeLoop, CredentialsAck(accepted), _) => accepted || |r.members| >= r.limit
    case ReadDone(s, SessionLoop, m, _) => SafeRead(r, s, m)
    case DisconnectId(id) => exists m :: m in r.members && IdOf(r, m) == id
    case _ => true
  }

  lemma AdmitFaultsIff(r: Room, s: nat, draw: nat)
    requires s < |r.sessions|
    ensures Admit(r, s, draw).Fault? <==> |r.members| < r.limit && !r.sessions[s].open
  {}

  lemma HandshakeFaultsIff(r: Room, s: nat, m: Received, draw: nat)
    requires Enabled(r, ReadDone(s, HandshakeLoop, m, draw))
    ensures HandshakeRead(r, s, m, draw).Next? <==> SafeStep(r, ReadDone(s, HandshakeLoop, m, draw))
  {
    if m.CredentialsAck? {
      CredentialsAckIs(r, s, m.accepted, draw);
      AdmitFaultsIff(Put(r, s, Taken(r.sessions[s], m.accepted)), s, draw);
    }
  }

  lemma DisconnectFaultsIff(r: Room, id: nat)
    requires Reachable(r)
    ensures Handle(r, DisconnectId(id)).Next? <==> exists m :: m in r.members && IdOf(r, m) == id
  {
    RosterIsMap(r, id);
  }

  /** A step of a reachable server faults if and only if its guard fails. */
  lemma StepFaultsIff(r: Room, e: Event)
    requires Reachable(r) && Enabled(r, e)
    ensures Step(r, e).Next? <==> SafeStep(r, e)
  {
    if e.ReadDone? && e.loop == HandshakeLoop {
      HandshakeFaultsIff(r, e.s, e.m, e.draw);
    } else if e.ReadDone? {
      SessionReadFaultsIff(r, e.s, e.m);
    } else if e.DisconnectId? {
      DisconnectFaultsIff(r, e.id);
    }
  }

  // ----- inputs that fault -----

  lemma AcceptedRoom(limit: nat, service: nat) returns (r: Room)
    requires limit < 0x1_0000 && IsId(service)
    ensures Reachable(r) && r == Init(limit).(sessions := [NewSession(service)], clock := 2)
  {
    var accept := Accept(service, 0);
    r := Step(Init(limit), accept).room;
    var es := [accept];
    assert es[1..] == [] && Init(limit).sessions + [NewSession(service)] == [NewSession(service)];
    assert Legal(r, []) && After(r, []) == r;
    assert Legal(Init(limit), es) && After(Init(limit), es) == After(r, []);
  }

  /** The first client to give a wrong login ends the run of a server whose room has space. */
  lemma FirstMismatchFaults(limit: nat, service: nat) returns (r: Room)
    requires 0 < limit < 0x1_0000 && IsId(service)
    ensures Reachable(r) && r.members == []
    ensures Enabled(r, ReadDone(0, HandshakeLoop, CredentialsAck(false), 1))
    ensures Step(r, ReadDone(0, HandshakeLoop, CredentialsAck(false), 1)).Fault?
  {
    r := AcceptedRoom(limit, service);
  }

  lemma ReachableStep(r: Room, e: Event)
    requires Reachable(r) && Enabled(r, e) && Step(r, e).Next?
    ensures Reachable(Step(r, e).room)
  {
    var limit: nat, es :| limit < 0x1_0000 && Legal(Init(limit), es) && r == After(Init(limit), es);
    RunSnoc(Init(limit), es, e);
  }

  lemma {:induction false} RunSnoc(r: Room, es: seq<Event>, e: Event)
    requires Legal(r, es) && Enabled(After(r, es), e) && Step(After(r, es), e).Next?
    ensures Legal(r, es + [e]) && After(r, es + [e]) == Step(After(r, es), e).room
    decreases |es|
  {
    if es == [] {
      var r' := Step(r, e).room;
      assert ([] + [e])[1..] == [] && Legal(r', []) && After(r', []) == r';
    } else {
      assert (es + [e])[1..] == es[1..] + [e];
      RunSnoc(Step(r, es[0]).room, es[1..], e);
    }
  }

  /** A server whose one member has just joined under id 1. */
  lemma RoomOfOne(limit: nat, service: nat) returns (r: Room)
    requires 0 < limit < 0x1_0000 && IsId(service)
    ensures Reachable(r) && r.members == [0] && r.limit == limit && r.drawn == {1} && |r.sessions| == 1
    ensures r.sessions[0].open && r.sessions[0].id == 1 && r.sessions[0].sessionReads == 1
  {
    var before := AcceptedRoom(limit, service);
    var e := ReadDone(0, HandshakeLoop, CredentialsAck(true), 1);
    CredentialsAckIs(before, 0, true, 1);
    assert Handle(before, e).Next?;
    r := Step(before, e).room;
    ReachableStep(before, e);
    assert {} + {1} == {1};
  }

  /** A member that introduces id 0 makes the server dereference null. */
  lemma JoinAckZeroFaults(limit: nat, service: nat) returns (r: Room)
    requires 0 < limit < 0x1_0000 && IsId(service)
    ensures Reachable(r) && r.members == [0]
    ensures Enabled(r, ReadDone(0, SessionLoop, JoinAck(0, 0, []), 2))
    ensures Step(r, ReadDone(0, SessionLoop, JoinAck(0, 0, []), 2)).Fault?
  {
    r := RoomOfOne(limit, service);
    RosterIsMap(r, 0);
  }

  // ----- a session that never joined -----

  /** The members but s remain, and each of them is handed the news that k has left. */
  ghost predicate Told(r: Room, r': Room, s: nat, k: nat) {
    && |r'.sessions| == |r.sessions|
    && (forall m :: m in r'.members <==> m in r.members && m != s)
    && (forall m :: 0 <= m < |r.sessions| && m in r.members && m != s ==>
          r'.sessions[m] == r.sessions[m].(log := r.sessions[m].log + [Frame.Leave(k)]))
  }

  lemma DepartTells(r: Room, s: nat, k: nat)
    requires Structure(r) && forall m :: m in r.members ==> (IdOf(r, m) == k <==> m == s)
    ensures Told(r, Depart(r, k), s, k)
  {
    EraseFacts(r, k);
  }

  lemma FailedWriteTold(r: Room, s: nat, q: Session, k: nat)
    requires Inv(r) && s < |r.sessions| && k == r.sessions[s].id && q.id == k
    ensures Told(r, Depart(Put(r, s, q), k), s, k)
  {
    SameIds(r, Put(r, s, q));
    KeyIsOwn(r, s);
    DepartTells(Put(r, s, q), s, k);
  }

  /** The failed write of a session takes it out of the room, if it is in it, and tells every other
      member that its id has left, whether it was in the room or not. */
  lemma FailedWriteTells(r: Room, s: nat)
    requires Reachable(r) && Enabled(r, WriteError(s))
    ensures Step(r, WriteError(s)).Next?
    ensures Told(r, Step(r, WriteError(s)).room, s, r.sessions[s].id)
  {
    ReachableInv(r);
    FailedWriteTold(r, s, Wrote(r.sessions[s]), r.sessions[s].id);
    var left := Depart(Put(r, s, Wrote(r.sessions[s])), r.sessions[s].id);
    WriteErrorStep(r, s, left);
    TickTold(r, left, s, r.sessions[s].id);
  }

  lemma WriteErrorStep(r: Room, s: nat, left: Room)
    requires Enabled(r, WriteError(s))
    requires left == Depart(Put(r, s, Wrote(r.sessions[s])), r.sessions[s].id)
    ensures Step(r, WriteError(s)) == Next(left.(clock := left.clock + 1))
  {
    assert Handle(r, WriteError(s)) == Next(left);
  }

  lemma TickTold(r: Room, left: Room, s: nat, k: nat)
    requires Told(r, left, s, k)
    ensures Told(r, left.(clock := left.clock + 1), s, k)
  {}

  /** A session that finds the room full keeps id 0 and a closed socket, and when its JOIN cannot be
      written every member of the room is told that 0 has left. */
  lemma FullRoomTellsZeroLeft(r: Room, s: nat, draw: nat)
    requires Reachable(r) && Enabled(r, ReadDone(s, HandshakeLoop, CredentialsAck(true), draw))
    requires |r.members| >= r.limit
    ensures Step(r, ReadDone(s, HandshakeLoop, CredentialsAck(true), draw)).Next?
    ensures var r' := Step(r, ReadDone(s, HandshakeLoop, CredentialsAck(true), draw)).room;
      && s !in r.members && s < |r'.sessions| && r'.sessions[s].id == 0 && !r'.sessions[s].open
      && Enabled(r', WriteError(s)) && Step(r', WriteError(s)).Next?
      && Told(r, Step(r', WriteError(s)).room, s, 0)
  {
    ReachableInv(r);
    var e := ReadDone(s, HandshakeLoop, CredentialsAck(true), draw);
    CredentialsAckIs(r, s, true, draw);
    TakenKeeps(r, s, true, r.clock);
    var r' := Step(r, e).room;
    ReachableStep(r, e);
    assert s !in r.members by {
      assert MembersOk(r, 0);
    }
    FailedWriteTells(r', s);
  }
}
