/** Properties that span steps: capacity, departures, emptying the room, and when a step faults. */
module RoomRuns {
  import opened Bytes
  import opened Protocol
  import opened Frames
  import opened OrderedSet
  import opened RoomProtocol
  import opened RoomInvariant
  import opened RoomTheorems

  // ----- capacity -----

  /** No step takes the room past the limit in force, and only an admission makes it grow. */
  lemma GrowthRespectsLimit(r: Room, e: Event)
    requires Reachable(r) && Enabled(r, e) && Handle(r, e).Next?
    ensures var r' := Handle(r, e).room;
      |r'.members| > |r.members| ==> |r'.members| == |r.members| + 1 <= r.limit
  {
    ReachableInv(r);
    if e.ReadDone? && Admits(r, e, e.s) {
      AdmitsRoster(r, e, e.s);
    } else {
      OtherStepsGainNothing(r, e);
    }
  }

  /** The largest limit set in a run that starts with the given one. */
  function LargestLimit(limit: nat, es: seq<Event>): nat
    decreases |es|
  {
    if es == [] then limit
    else if es[0].SetLimit? && es[0].limit > limit then LargestLimit(es[0].limit, es[1..])
    else LargestLimit(limit, es[1..])
  }

  lemma PeakStep(r: Room, e: Event)
    requires Enabled(r, e) && Handle(r, e).Next?
    ensures Handle(r, e).room.peak == if e.SetLimit? && e.limit > r.peak then e.limit else r.peak
  {}

  lemma {:induction false} PeakIsLargest(r: Room, es: seq<Event>)
    requires Legal(r, es)
    ensures After(r, es).peak == LargestLimit(r.peak, es)
    decreases |es|
  {
    if es == [] {
    } else {
      PeakStep(r, es[0]);
      PeakIsLargest(Step(r, es[0]).room, es[1..]);
    }
  }

  /** In every run the room holds at most as many members as the largest limit ever set, so its
      count survives the narrowing to 16 bits of participants_count. */
  lemma CapacityOverRuns(limit: nat, es: seq<Event>)
    requires limit < 0x1_0000 && Legal(Init(limit), es)
    ensures |After(Init(limit), es).members| <= LargestLimit(limit, es)
    ensures |After(Init(limit), es).members| % 0x1_0000 == |After(Init(limit), es).members|
  {
    var r := After(Init(limit), es);
    assert Reachable(r);
    ReachableInv(r);
    PeakIsLargest(Init(limit), es);
  }

  // ----- keys and departures -----

  /** s joined and is no longer in the room. */
  predicate Gone(r: Room, s: nat) {
    s < |r.sessions| && r.sessions[s].id != 0 && s !in r.members
  }

  lemma StepForGood(r: Room, e: Event, s: nat)
    requires Inv(r) && Enabled(r, e) && Step(r, e).Next? && s < |r.sessions| && r.sessions[s].id != 0
    ensures var r' := Step(r, e).room;
      && s < |r'.sessions| && r'.sessions[s].id == r.sessions[s].id
      && (Gone(r, s) ==> Gone(r', s) && r'.sessions[s].log == r.sessions[s].log)
  {
    if e.ReadDone? && Admits(r, e, e.s) {
      AdmitsRoster(r, e, e.s);
    } else {
      OtherStepsGainNothing(r, e);
    }
  }

  /** A key given at a join never changes again; a session that left the room never comes back
      and is never handed another frame. */
  lemma {:induction false} LeavingIsForGood(r: Room, es: seq<Event>, s: nat)
    requires Inv(r) && Legal(r, es) && s < |r.sessions| && r.sessions[s].id != 0
    ensures var r' := After(r, es);
      && s < |r'.sessions| && r'.sessions[s].id == r.sessions[s].id
      && (Gone(r, s) ==> Gone(r', s) && r'.sessions[s].log == r.sessions[s].log)
    decreases |es|
  {
    if es == [] {
    } else {
      StepForGood(r, es[0], s);
      StepKeeps(r, es[0]);
      LeavingIsForGood(Step(r, es[0]).room, es[1..], s);
    }
  }

  /** The ordered set is a map from ids to sessions: lookup by the ordering finds a key exactly when
      some member has it, and finds that member. */
  lemma RosterIsMap(r: Room, k: nat)
    requires Reachable(r)
    ensures Sorted(Ids(r))
    ensures Has(Ids(r), k) <==> exists m :: m in r.members && IdOf(r, m) == k
    ensures k in AsMap(Ids(r), r.members) <==> Has(Ids(r), k)
    ensures forall m :: m in r.members && IdOf(r, m) == k ==>
      Has(Ids(r), k) && r.members[LowerBound(Ids(r), k)] == m && AsMap(Ids(r), r.members)[k] == m
  {
    ReachableInv(r);
    FindIsScan(Ids(r), k);
    if Has(Ids(r), k) {
      var m := MemberHasId(r, k);
      assert IdOf(r, m) == k;
    }
    forall m | m in r.members && IdOf(r, m) == k
      ensures Has(Ids(r), k) && r.members[LowerBound(Ids(r), k)] == m
    {
      MemberIdIn(r, m);
      var n := MemberHasId(r, k);
      if n != m {
        UniqueMember(r, m, n);
      }
    }
  }

  // ----- emptying the room -----

  /** Every session has at most one read pending, every member exactly one, in the session loop. */
  lemma OneReadEach(r: Room, s: nat)
    requires Reachable(r) && s < |r.sessions|
    ensures r.sessions[s].handshakeReads + r.sessions[s].sessionReads <= 1
    ensures s in r.members ==> r.sessions[s].sessionReads == 1 && r.sessions[s].handshakeReads == 0
  {
    ReachableInv(r);
    assert SessionOk(r.sessions[s], r.drawn, r.clock);
  }

  predicate AllClosed(r: Room) {
    forall m :: m in r.members && m < |r.sessions| ==> !r.sessions[m].open
  }

  predicate NoJoin(e: Event) {
    e.ReadDone? ==> e.m != CredentialsAck(true)
  }

  /** While every member is closed and no one joins, members only leave, stay closed, and each
      failing read of a member takes that member out. */
  lemma ClosedStep(r: Room, e: Event)
    requires Inv(r) && AllClosed(r) && Enabled(r, e) && Step(r, e).Next? && NoJoin(e)
    ensures var r' := Step(r, e).room;
      && AllClosed(r')
      && (forall m :: m in r'.members ==> m in r.members)
      && (e.ReadError? && e.loop == SessionLoop ==> e.s !in r'.members)
  {
    OtherStepsGainNothing(r, e);
    StaysClosed(r, e);
    if e.ReadError? && e.loop == SessionLoop {
      FailingReadLeaves(r, e.s);
    }
  }

  ghost predicate NoneReopened(r: Room, r': Room) {
    && |r'.sessions| >= |r.sessions|
    && forall i :: 0 <= i < |r.sessions| && !r.sessions[i].open ==> !r'.sessions[i].open
  }

  lemma ReopensTwice(r: Room, a: Room, b: Room)
    requires NoneReopened(r, a) && NoneReopened(a, b)
    ensures NoneReopened(r, b)
  {}

  lemma PutReopensNone(r: Room, s: nat, q: Session)
    requires s < |r.sessions| && (q.open ==> r.sessions[s].open)
    ensures NoneReopened(r, Put(r, s, q))
  {}

  lemma DeliverReopensNone(r: Room, to: set<nat>, f: Frame)
    ensures NoneReopened(r, Deliver(r, to, f))
  {}

  lemma AdmitReopensNone(r: Room, s: nat, draw: nat)
    requires s < |r.sessions| && Admit(r, s, draw).Next?
    ensures NoneReopened(r, Admit(r, s, draw).room)
  {}

  lemma HandshakeReadReopensNone(r: Room, s: nat, m: Received, draw: nat)
    requires s < |r.sessions| && r.sessions[s].handshakeReads > 0 && HandshakeRead(r, s, m, draw).Next?
    ensures NoneReopened(r, HandshakeRead(r, s, m, draw).room)
  {
    if m.CredentialsAck? {
      var taken := Put(r, s, Taken(r.sessions[s], m.accepted));
      PutReopensNone(r, s, Taken(r.sessions[s], m.accepted));
      AdmitReopensNone(taken, s, draw);
      ReopensTwice(r, taken, Admit(taken, s, draw).room);
    }
  }

  lemma IntroduceReopensNone(r: Room, x: nat)
    requires Introduce(r, x).Next?
    ensures NoneReopened(r, Introduce(r, x).room)
  {
    var s := r.members[LowerBound(Ids(r), x)];
    var told := Deliver(r, Others(r, x), New(x, DescriptorOf(r, s)));
    DeliverReopensNone(r, Others(r, x), New(x, DescriptorOf(r, s)));
    ReceiveReopensNone(told, s, Introductions(r, r.members, x));
    ReopensTwice(r, told, Introduce(r, x).room);
  }

  lemma ReceiveReopensNone(r: Room, s: nat, news: seq<Frame>)
    ensures NoneReopened(r, Receive(r, s, news))
  {}

  lemma SessionReadReopensNone(r: Room, s: nat, m: Received)
    requires s < |r.sessions| && SessionRead(r, s, m).Next?
    ensures NoneReopened(r, SessionRead(r, s, m).room)
  {
    match m
    case JoinAck(id, _, json) =>
      var put := Put(r, s, r.sessions[s].(descriptor := json));
      PutReopensNone(r, s, r.sessions[s].(descriptor := json));
      IntroduceReopensNone(put, id);
      ReopensTwice(r, put, Introduce(put, id).room);
    case UpdateAck(bytes) => DeliverReopensNone(r, Others(r, r.sessions[s].id), Update(bytes));
    case LeaveAck => DepartReopensNone(r, r.sessions[s].id);
    case _ =>
  }

  lemma StaysClosed(r: Room, e: Event)
    requires Enabled(r, e) && Handle(r, e).Next?
    ensures NoneReopened(r, Handle(r, e).room)
  {
    if e.ReadDone? && e.loop == HandshakeLoop {
      HandshakeReadReopensNone(r, e.s, e.m, e.draw);
    } else if e.ReadDone? {
      SessionReadReopensNone(r, e.s, e.m);
    } else if e.WriteError? || e.ReadError? {
      ErrorReopensNone(r, e);
    }
  }

  lemma DepartReopensNone(r: Room, k: nat)
    ensures NoneReopened(r, Depart(r, k))
  {
    var erased := Erase(r, k);
    DeliverReopensNone(erased, Members(erased), Leave(k));
  }

  lemma LeavingReopensNone(r: Room, s: nat, q: Session, k: nat)
    requires s < |r.sessions| && (q.open ==> r.sessions[s].open)
    ensures NoneReopened(r, Depart(Put(r, s, q), k))
  {
    PutReopensNone(r, s, q);
    DepartReopensNone(Put(r, s, q), k);
    ReopensTwice(r, Put(r, s, q), Depart(Put(r, s, q), k));
  }

  lemma WriteErrorReopensNone(r: Room, s: nat)
    requires Enabled(r, WriteError(s))
    ensures Handle(r, WriteError(s)).Next? && NoneReopened(r, Handle(r, WriteError(s)).room)
  {
    LeavingReopensNone(r, s, Wrote(r.sessions[s]), r.sessions[s].id);
  }

  lemma ReadErrorReopensNone(r: Room, s: nat, loop: Loop, q: Session)
    requires Enabled(r, ReadError(s, loop)) && q == TakeRead(r.sessions[s], loop)
    ensures Handle(r, ReadError(s, loop)).Next? && NoneReopened(r, Handle(r, ReadError(s, loop)).room)
  {
    if loop == SessionLoop {
      LeavingReopensNone(r, s, q, r.sessions[s].id);
      assert Handle(r, ReadError(s, loop)) == Next(Depart(Put(r, s, q), r.sessions[s].id));
    } else {
      PutReopensNone(r, s, q.(open := false));
    }
  }

  lemma ErrorReopensNone(r: Room, e: Event)
    requires Enabled(r, e) && (e.WriteError? || e.ReadError?)
    ensures Handle(r, e).Next? && NoneReopened(r, Handle(r, e).room)
  {
    match e
    case WriteError(s) => WriteErrorReopensNone(r, s);
    case ReadError(s, loop) => ReadErrorReopensNone(r, s, loop, TakeRead(r.sessions[s], loop));
  }

  /** A session's key belongs to no other member. */
  lemma KeyIsOwn(r: Room, s: nat)
    requires Inv(r) && s < |r.sessions|
    ensures forall m :: m in r.members && m != s ==> IdOf(r, m) != r.sessions[s].id
    ensures s in r.members <==> r.sessions[s].id in Ids(r)
  {
    OthersOf(r, s);
    forall m | m in r.members && m != s
      ensures IdOf(r, m) != r.sessions[s].id
    {
      assert m in Others(r, r.sessions[s].id);
    }
    if s in r.members {
      MemberIdIn(r, s);
    }
    if r.sessions[s].id in Ids(r) {
      var m := MemberHasId(r, r.sessions[s].id);
      assert IdOf(r, m) == r.sessions[s].id;
    }
  }

  lemma FailingReadLeaves(r: Room, s: nat)
    requires Inv(r) && s < |r.sessions| && r.sessions[s].sessionReads > 0
    ensures var r' := Step(r, ReadError(s, SessionLoop)).room;
      && s !in r'.members
      && |r'.members| == (if s in r.members then |r.members| - 1 else |r.members|)
      && (forall m :: m in r'.members <==> m in r.members && m != s)
  {
    var put := Put(r, s, TakeRead(r.sessions[s], SessionLoop));
    var k := r.sessions[s].id;
    SameIds(r, put);
    KeyIsOwn(r, s);
    DepartRoster(put, k);
    var o := Handle(r, ReadError(s, SessionLoop));
    assert o == Next(Depart(put, k));
    assert Step(r, ReadError(s, SessionLoop)).room.members == o.room.members;
  }

  /** The failing reads of a run. */
  function Failed(es: seq<Event>): set<nat> {
    if es == [] then {}
    else (if es[0].ReadError? && es[0].loop == SessionLoop then {es[0].s} else {}) + Failed(es[1..])
  }

  lemma {:induction false} ClosedRun(r: Room, es: seq<Event>)
    requires Inv(r) && AllClosed(r) && Legal(r, es)
    requires forall e :: e in es ==> NoJoin(e)
    ensures AllClosed(After(r, es))
    ensures forall m :: m in After(r, es).members ==> m in r.members && m !in Failed(es)
    decreases |es|
  {
    if es == [] {
    } else {
      ClosedStep(r, es[0]);
      StepKeeps(r, es[0]);
      ClosedRun(Step(r, es[0]).room, es[1..]);
    }
  }

  lemma SomeElement(ms: seq<nat>)
    ensures ms != [] ==> exists m :: m in ms
  {
    if ms != [] {
      assert ms[0] in ms;
    }
  }

  /** After disconnect_all_participants no member is a ghost: whatever else happens, short of a
      join, once the pending read of every member has failed the room is empty. */
  lemma DisconnectAllDrains(r: Room, es: seq<Event>)
    requires Reachable(r) && Legal(Step(r, DisconnectAll).room, es)
    requires forall e :: e in es ==> NoJoin(e)
    requires forall m :: m in r.members ==> m in Failed(es)
    ensures After(Step(r, DisconnectAll).room, es).members == []
  {
    ReachableInv(r);
    StepKeeps(r, DisconnectAll);
    var closed := Step(r, DisconnectAll).room;
    ClosedRun(closed, es);
    SomeElement(After(closed, es).members);
  }

  function FailReads(ms: seq<nat>): (es: seq<Event>)
    ensures |es| == |ms|
  {
    seq(|ms|, i requires 0 <= i < |ms| => ReadError(ms[i], SessionLoop))
  }

  lemma LegalCons(r: Room, e: Event, es: seq<Event>)
    requires Enabled(r, e) && Step(r, e).Next? && Legal(Step(r, e).room, es)
    ensures Legal(r, [e] + es) && After(r, [e] + es) == After(Step(r, e).room, es)
  {
    assert ([e] + es)[1..] == es;
  }

  lemma TailElements(ms: seq<nat>)
    requires ms != [] && forall i, j :: 0 <= i < j < |ms| ==> ms[i] != ms[j]
    ensures forall m :: m in ms[1..] <==> m in ms && m != ms[0]
  {
    assert ms == [ms[0]] + ms[1..];
  }

  lemma DrainFirst(r: Room, ms: seq<nat>)
    requires Inv(r) && ms != []
    requires forall m :: m in ms <==> m in r.members
    ensures Enabled(r, ReadError(ms[0], SessionLoop)) && Inv(Step(r, ReadError(ms[0], SessionLoop)).room)
    ensures var r' := Step(r, ReadError(ms[0], SessionLoop)).room;
      |r'.members| == |r.members| - 1 && forall m :: m in r'.members <==> m in r.members && m != ms[0]
  {
    assert ms[0] in r.members;
    FailingReadLeaves(r, ms[0]);
    StepKeeps(r, ReadError(ms[0], SessionLoop));
  }

  /** The pending reads of the members can fail in any order, and each failure shrinks the room by
      one, so the n of them empty a room of n. */
  lemma {:induction false} FailingReadsDrain(r: Room, ms: seq<nat>)
    requires Inv(r) && |ms| == |r.members|
    requires forall i, j :: 0 <= i < j < |ms| ==> ms[i] != ms[j]
    requires forall m :: m in ms <==> m in r.members
    ensures Legal(r, FailReads(ms)) && After(r, FailReads(ms)).members == []
    decreases |ms|
  {
    if ms == [] {
    } else {
      DrainFirst(r, ms);
      TailElements(ms);
      var r' := Step(r, ReadError(ms[0], SessionLoop)).room;
      FailingReadsDrain(r', ms[1..]);
      LegalCons(r, ReadError(ms[0], SessionLoop), FailReads(ms[1..]));
      assert FailReads(ms) == [ReadError(ms[0], SessionLoop)] + FailReads(ms[1..]);
    }
  }

  // ----- faults -----

  /** A login mismatch never makes a member: the step is refused when the room is full, and ends
      the run when it is not. */
  lemma MismatchNeverJoins(r: Room, s: nat, draw: nat)
    requires Reachable(r) && Enabled(r, ReadDone(s, HandshakeLoop, CredentialsAck(false), draw))
    ensures var o := Handle(r, ReadDone(s, HandshakeLoop, CredentialsAck(false), draw));
      && (o.Fault? <==> |r.members| < r.limit)
      && (o.Next? ==> o.room.members == r.members && s !in o.room.members
                      && o.room.sessions[s].id == 0 && !o.room.sessions[s].open)
  {
    ReachableInv(r);
    assert SessionOk(r.sessions[s], r.drawn, r.clock);
  }

  /** The guard a caller can check that keeps a read of the session loop from faulting. */
  ghost predicate SafeRead(r: Room, s: nat, m: Received)
    requires s < |r.sessions|
  {
    match m
    case JoinAck(id, size, json) =>
      && size <= DESCRIPTOR_SIZE
      && (exists n :: n in r.members && IdOf(r, n) == id)
      && (s in r.members ==> |json| <= DESCRIPTOR_SIZE)
      && (forall n :: n in r.members && n != s ==> |DescriptorOf(r, n)| <= DESCRIPTOR_SIZE)
    case LeaveAck => s in r.members
    case _ => true
  }

  lemma IntroduceFaultsIff(r: Room, s: nat, json: seq<Byte>, x: nat)
    requires Reachable(r) && s < |r.sessions|
    ensures var put := Put(r, s, r.sessions[s].(descriptor := json));
      Introduce(put, x).Next? <==>
        && (exists n :: n in r.members && IdOf(r, n) == x)
        && (s in r.members ==> |json| <= DESCRIPTOR_SIZE)
        && (forall n :: n in r.members && n != s ==> |DescriptorOf(r, n)| <= DESCRIPTOR_SIZE)
  {
    var put := Put(r, s, r.sessions[s].(descriptor := json));
    SameIds(r, put);
    RosterIsMap(r, x);
    assert forall n :: DescriptorOf(put, n) == if n == s then json else DescriptorOf(r, n);
    assert Introduce(put, x).Next? <==> Has(Ids(put), x) && DescriptorsFit(put);
  }

  /** A read in the session loop faults exactly when it introduces an id that is not in the room,
      copies a descriptor that does not fit, or leaves a room it is not in. */
  lemma SessionReadFaultsIff(r: Room, s: nat, m: Received)
    requires Reachable(r) && s < |r.sessions| && r.sessions[s].sessionReads > 0
    ensures SessionRead(r, s, m).Next? <==> SafeRead(r, s, m)
  {
    if m.JoinAck? {
      IntroduceFaultsIff(r, s, m.json, m.id);
    } else if m.LeaveAck? {
      ReachableInv(r);
      KeyIsOwn(r, s);
      FindIsScan(Ids(r), r.sessions[s].id);
    }
  }
}
