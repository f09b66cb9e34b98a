/** Properties of every run of the server. */
module RoomTheorems {
  import opened Bytes
  import opened Protocol
  import opened Messages
  import opened Frames
  import opened OrderedSet
  import opened RoomProtocol
  import opened RoomInvariant

  // ----- runs -----

  ghost predicate Legal(r: Room, es: seq<Event>)
    decreases |es|
  {
    es == [] || (Enabled(r, es[0]) && Step(r, es[0]).Next? && Legal(Step(r, es[0]).room, es[1..]))
  }

  ghost function After(r: Room, es: seq<Event>): Room
    requires Legal(r, es)
    decreases |es|
  {
    if es == [] then r else After(Step(r, es[0]).room, es[1..])
  }

  ghost predicate Reachable(r: Room) {
    exists limit: nat, es :: limit < 0x1_0000 && Legal(Init(limit), es) && r == After(Init(limit), es)
  }

  lemma {:induction false} RunKeeps(r: Room, es: seq<Event>)
    requires Inv(r) && Legal(r, es)
    ensures Inv(After(r, es))
    decreases |es|
  {
    if es == [] {
    } else {
      StepKeeps(r, es[0]);
      RunKeeps(Step(r, es[0]).room, es[1..]);
    }
  }

  lemma ReachableInv(r: Room)
    requires Reachable(r)
    ensures Inv(r)
  {
    var limit: nat, es :| limit < 0x1_0000 && Legal(Init(limit), es) && r == After(Init(limit), es);
    RunKeeps(Init(limit), es);
  }

  // ----- replica consistency -----

  function MemberIds(r: Room): set<nat> {
    set m | m in r.members :: IdOf(r, m)
  }

  function AcquaintedIds(r: Room, p: nat): set<nat>
    requires p < |r.sessions|
  {
    set q | q in r.members && q < |r.sessions| && q != p && Acquainted(r.sessions[p], r.sessions[q]) :: r.sessions[q].id
  }

  predicate Introduced(q: Session) {
    q.introducedAt > q.joinedAt
  }

  /** What a member knows of the room by replaying its frames is exactly the members it is
      acquainted with: those introduced after it joined, or before whose joining it was last
      introduced. Acquaintance is mutual, no one else is ever in the view, any two introduced
      members know each other, and when all are introduced the view is the room itself. */
  lemma ViewsTrackTheRoom(r: Room, p: nat)
    requires Reachable(r) && p in r.members
    ensures p < |r.sessions|
    ensures View(r.sessions[p].log) == AcquaintedIds(r, p)
    ensures View(r.sessions[p].log) <= MemberIds(r) - {r.sessions[p].id}
    ensures forall q :: q in r.members && q != p ==>
      q < |r.sessions|
      && (r.sessions[q].id in View(r.sessions[p].log) <==> r.sessions[p].id in View(r.sessions[q].log))
    ensures forall q :: q in r.members && q != p && Introduced(r.sessions[p]) && Introduced(r.sessions[q]) ==>
      r.sessions[q].id in View(r.sessions[p].log)
    ensures (forall q :: q in r.members ==> Introduced(r.sessions[q])) ==>
      View(r.sessions[p].log) == MemberIds(r) - {r.sessions[p].id}
  {
    ReachableInv(r);
    var view := View(r.sessions[p].log);
    forall x | x in view
      ensures x in AcquaintedIds(r, p) && x in MemberIds(r) - {r.sessions[p].id}
    {
      var q := MemberHasId(r, x);
      assert Acquainted(r.sessions[p], r.sessions[q]);
      assert IdOf(r, q) == x;
    }
    if forall q :: q in r.members ==> Introduced(r.sessions[q]) {
      forall x | x in MemberIds(r) - {r.sessions[p].id}
        ensures x in view
      {
        var q :| q in r.members && IdOf(r, q) == x;
        assert Acquainted(r.sessions[p], r.sessions[q]);
      }
    }
  }

  // ----- the shape of a log -----

  /** Every member's log is greetings, one JOIN with its own id, then only news of the room;
      so there is no second JOIN anywhere in it. */
  lemma MemberLogsHaveOneJoin(r: Room, m: nat) returns (k: nat)
    requires Reachable(r) && m in r.members
    ensures m < |r.sessions| && JoinAt(r.sessions[m].log, r.sessions[m].id, k)
    ensures forall i :: 0 <= i < |r.sessions[m].log| && r.sessions[m].log[i].Join? ==> i == k
  {
    ReachableInv(r);
    assert SessionOk(r.sessions[m], r.drawn, r.clock);
    var log := r.sessions[m].log;
    k :| JoinAt(log, r.sessions[m].id, k);
    forall i | 0 <= i < |log| && log[i].Join?
      ensures i == k
    {
      assert !Greets(log[i]) && !Tells(log[i]);
    }
  }

  // ----- introductions -----

  lemma {:induction false} IntroductionsWithout(r: Room, ms: seq<nat>, x: nat)
    requires forall m :: m in ms ==> IdOf(r, m) != x
    ensures IsRoll(r, ms, Introductions(r, ms, x))
    decreases |ms|
  {
    if ms == [] {
    } else {
      IntroductionsWithout(r, ms[..|ms| - 1], x);
    }
  }

  lemma {:induction false} IntroductionsSkip(r: Room, ms: seq<nat>, x: nat, p: nat)
    requires p < |ms| && IdOf(r, ms[p]) == x
    requires forall i :: 0 <= i < |ms| && i != p ==> IdOf(r, ms[i]) != x
    ensures Introductions(r, ms, x) == Introductions(r, RemoveAt(ms, p), x)
    decreases |ms|
  {
    var init := ms[..|ms| - 1];
    if p == |ms| - 1 {
      assert RemoveAt(ms, p) == init;
    } else {
      IntroductionsSkip(r, init, x, p);
      var rest := RemoveAt(ms, p);
      assert rest[|rest| - 1] == ms[|ms| - 1] && rest[..|rest| - 1] == RemoveAt(init, p);
    }
  }

  /** The exchange for the member at position p: every other member is handed one NEW for it; it
      is handed one NEW per other member, in ascending order of id, with that member's descriptor;
      no one else is handed anything. */
  ghost predicate Exchanged(r: Room, r': Room, p: nat)
    requires p < |r.members| && Structure(r)
  {
    var s, others := r.members[p], RemoveAt(r.members, p);
    && r'.members == r.members && |r'.sessions| == |r.sessions| && s < |r.sessions|
    && (forall m :: m in others <==> m in r.members && m != s)
    && (forall i, j :: 0 <= i < j < |others| ==> IdOf(r, others[i]) < IdOf(r, others[j]))
    && (forall m :: 0 <= m < |r.sessions| && m in others ==>
          r'.sessions[m] == r.sessions[m].(log := r.sessions[m].log + [New(IdOf(r, s), DescriptorOf(r, s))]))
    && (forall m :: 0 <= m < |r.sessions| && m !in r.members ==> r'.sessions[m] == r.sessions[m])
    && (exists news: seq<Frame> :: IsRoll(r, others, news)
          && r'.sessions[s] == r.sessions[s].(log := r.sessions[s].log + news, introducedAt := r.clock))
  }

  /** One NEW frame per listed member, in order, each with that member's id and descriptor. */
  ghost predicate IsRoll(r: Room, ms: seq<nat>, news: seq<Frame>) {
    && |news| == |ms|
    && forall k :: 0 <= k < |ms| ==> news[k] == New(IdOf(r, ms[k]), DescriptorOf(r, ms[k]))
  }

  /** An introduction of x is an exchange between x and the n - 1 other members, and nothing else. */
  lemma IntroductionExchange(r: Room, x: nat)
    requires Structure(r) && Introduce(r, x).Next?
    ensures LowerBound(Ids(r), x) < |r.members|
    ensures IdOf(r, r.members[LowerBound(Ids(r), x)]) == x
    ensures Exchanged(r, Introduce(r, x).room, LowerBound(Ids(r), x))
  {
    FindIsScan(Ids(r), x);
    var s := MemberHasId(r, x);
    var p := LowerBound(Ids(r), x);
    var others := RemoveAt(r.members, p);
    OthersAreAscending(r, p);
    forall m
      ensures m in others <==> m in r.members && m != s
    {
      RemovedMember(r, p, m);
      if m in r.members && m != s {
        UniqueMember(r, m, s);
      }
    }
    IntroductionsSkip(r, r.members, x, p);
    IntroductionsWithout(r, others, x);
    ExchangeFrames(r, x, s, others);
  }

  /** A JOIN_ACK that does not fault replaces the descriptor of its session and is then the exchange
      for the member it names, whoever that is; nothing else changes. */
  lemma JoinAckExchanges(r: Room, s: nat, x: nat, size: nat, json: seq<Byte>, draw: nat)
    requires Reachable(r) && Enabled(r, ReadDone(s, SessionLoop, JoinAck(x, size, json), draw))
    requires Handle(r, ReadDone(s, SessionLoop, JoinAck(x, size, json), draw)).Next?
    ensures var put := Put(r, s, r.sessions[s].(descriptor := json));
      && Structure(put) && LowerBound(Ids(put), x) < |put.members|
      && IdOf(put, put.members[LowerBound(Ids(put), x)]) == x
      && Exchanged(put, Handle(r, ReadDone(s, SessionLoop, JoinAck(x, size, json), draw)).room, LowerBound(Ids(put), x))
  {
    ReachableInv(r);
    var put := Put(r, s, r.sessions[s].(descriptor := json));
    SameIds(r, put);
    assert Introduce(put, x) == Handle(r, ReadDone(s, SessionLoop, JoinAck(x, size, json), draw));
    IntroductionExchange(put, x);
  }

  lemma ExchangeFrames(r: Room, x: nat, s: nat, others: seq<nat>)
    requires Structure(r) && Introduce(r, x).Next? && s in r.members && r.sessions[s].id == x
    requires s == r.members[LowerBound(Ids(r), x)]
    requires forall m :: m in others <==> m in r.members && m != s
    requires forall m :: m in others ==> IdOf(r, m) != x
    ensures var r', news := Introduce(r, x).room, Introductions(r, r.members, x);
      && r'.members == r.members && |r'.sessions| == |r.sessions|
      && (forall m :: 0 <= m < |r.sessions| && m in others ==>
            r'.sessions[m] == r.sessions[m].(log := r.sessions[m].log + [New(x, DescriptorOf(r, s))]))
      && (forall m :: 0 <= m < |r.sessions| && m !in r.members ==> r'.sessions[m] == r.sessions[m])
      && r'.sessions[s] == r.sessions[s].(log := r.sessions[s].log + news, introducedAt := r.clock)
  {}

  lemma OthersAreAscending(r: Room, p: nat)
    requires Structure(r) && p < |r.members|
    ensures forall i :: 0 <= i < |r.members| && i != p ==> IdOf(r, r.members[i]) != IdOf(r, r.members[p])
    ensures var others := RemoveAt(r.members, p);
      && (forall i, j :: 0 <= i < j < |others| ==> IdOf(r, others[i]) < IdOf(r, others[j]))
      && (forall m :: m in others ==> IdOf(r, m) != IdOf(r, r.members[p]))
  {
    forall i | 0 <= i < |r.members|
      ensures Ids(r)[i] == IdOf(r, r.members[i])
    {}
    var others := RemoveAt(r.members, p);
    forall i | 0 <= i < |others|
      ensures others[i] == r.members[if i < p then i else i + 1]
    {}
  }

  // ----- relays -----

  /** The number of frames handed to the first n sessions. */
  function TotalFrames(r: Room, n: nat): nat
    requires n <= |r.sessions|
  {
    if n == 0 then 0 else TotalFrames(r, n - 1) + |r.sessions[n - 1].log|
  }

  function Below(to: set<nat>, n: nat): set<nat> {
    set i | i in to && i < n
  }

  lemma {:induction false} DeliverTotal(r: Room, to: set<nat>, f: Frame, n: nat)
    requires n <= |r.sessions|
    ensures TotalFrames(Deliver(r, to, f), n) == TotalFrames(r, n) + |Below(to, n)|
    decreases n
  {
    if n == 0 {
      assert Below(to, 0) == {};
    } else {
      DeliverTotal(r, to, f, n - 1);
      OneMoreBelow(to, n - 1);
    }
  }

  lemma OneMoreBelow(to: set<nat>, n: nat)
    ensures |Below(to, n + 1)| == |Below(to, n)| + if n in to then 1 else 0
  {
    if n in to {
      assert Below(to, n + 1) == Below(to, n) + {n};
    } else {
      assert Below(to, n + 1) == Below(to, n);
    }
  }

  lemma {:induction false} DistinctCount(ms: seq<nat>)
    requires forall i, j :: 0 <= i < j < |ms| ==> ms[i] != ms[j]
    ensures |Elements(ms)| == |ms|
  {
    if ms == [] {
      assert Elements(ms) == {};
    } else {
      var last, init := ms[|ms| - 1], ms[..|ms| - 1];
      DistinctCount(init);
      assert ms == init + [last];
      assert Elements(ms) == Elements(init) + {last};
    }
  }

  lemma MembersCount(r: Room)
    requires Structure(r)
    ensures |Members(r)| == |r.members|
  {
    forall i, j | 0 <= i < j < |r.members|
      ensures r.members[i] != r.members[j]
    {
      assert Ids(r)[i] < Ids(r)[j];
    }
    DistinctCount(r.members);
  }

  lemma OthersOf(r: Room, s: nat)
    requires Inv(r) && s < |r.sessions|
    ensures Others(r, r.sessions[s].id) == Members(r) - {s}
    ensures |Others(r, r.sessions[s].id)| == if s in r.members then |r.members| - 1 else |r.members|
  {
    forall m | m in r.members && m != s
      ensures IdOf(r, m) != r.sessions[s].id
    {
      if r.sessions[s].id != 0 {
        assert DistinctIds(r);
      }
    }
    MembersCount(r);
  }

  /** Every member but the sender is handed the update once; nothing else changes. */
  ghost predicate Relayed(r: Room, r': Room, s: nat, w: seq<Byte>) {
    && r'.members == r.members && |r'.sessions| == |r.sessions|
    && (forall i :: 0 <= i < |r.sessions| && i in r.members && i != s ==>
          r'.sessions[i] == r.sessions[i].(log := r.sessions[i].log + [Update(w)]))
    && (forall i :: 0 <= i < |r.sessions| && (i !in r.members || i == s) ==> r'.sessions[i] == r.sessions[i])
  }

  /** The frames handed out grow by one for each member but the sender. */
  ghost predicate RelayCounted(r: Room, r': Room, s: nat) {
    |r'.sessions| == |r.sessions|
    && TotalFrames(r', |r.sessions|)
       == TotalFrames(r, |r.sessions|) + if s in r.members then |r.members| - 1 else |r.members|
  }

  lemma DeliveryIsRelay(r: Room, s: nat, to: set<nat>, w: seq<Byte>)
    requires Structure(r) && s < |r.sessions| && to == Members(r) - {s}
    ensures Relayed(r, Deliver(r, to, Update(w)), s, w)
  {}

  lemma UpdateIsDelivery(r: Room, s: nat, w: seq<Byte>, draw: nat, to: set<nat>)
    requires Enabled(r, ReadDone(s, SessionLoop, UpdateAck(w), draw)) && to == Others(r, r.sessions[s].id)
    ensures Handle(r, ReadDone(s, SessionLoop, UpdateAck(w), draw)) == Next(Deliver(r, to, Update(w)))
  {}

  /** A relayed update reaches every other member once, byte for byte, and no one else: the frames
      handed out grow by n - 1, or by n when the sender is no longer in the room. */
  lemma RelayConservation(r: Room, s: nat, w: seq<Byte>, draw: nat)
    requires Reachable(r) && Enabled(r, ReadDone(s, SessionLoop, UpdateAck(w), draw))
    ensures Handle(r, ReadDone(s, SessionLoop, UpdateAck(w), draw)).Next?
    ensures Relayed(r, Handle(r, ReadDone(s, SessionLoop, UpdateAck(w), draw)).room, s, w)
    ensures RelayCounted(r, Handle(r, ReadDone(s, SessionLoop, UpdateAck(w), draw)).room, s)
  {
    ReachableInv(r);
    OthersOf(r, s);
    var to := Others(r, r.sessions[s].id);
    DeliveryIsRelay(r, s, to, w);
    RelayTotal(r, to, w);
    UpdateIsDelivery(r, s, w, draw, to);
  }

  lemma RelayTotal(r: Room, to: set<nat>, w: seq<Byte>)
    requires Structure(r) && to <= Members(r)
    ensures TotalFrames(Deliver(r, to, Update(w)), |r.sessions|) == TotalFrames(r, |r.sessions|) + |to|
  {
    DeliverTotal(r, to, Update(w), |r.sessions|);
    assert Below(to, |r.sessions|) == to;
  }

  // ----- the roster from step to step -----

  /** The one event that takes a session into the room. */
  predicate Admits(r: Room, e: Event, s: nat)
    requires Enabled(r, e)
  {
    && e.ReadDone? && e.s == s && e.loop == HandshakeLoop
    && e.m == CredentialsAck(true) && |r.members| < r.limit
  }

  lemma DepartRoster(r: Room, k: nat)
    requires Structure(r)
    ensures var r' := Depart(r, k);
      && |r'.members| == (if k in Ids(r) then |r.members| - 1 else |r.members|)
      && (forall m :: m in r'.members <==> m in r.members && IdOf(r, m) != k)
  {
    EraseFacts(r, k);
    FindIsScan(Ids(r), k);
  }

  lemma TakenIsJoining(r: Room, s: nat, draw: nat)
    requires Inv(r) && Enabled(r, ReadDone(s, HandshakeLoop, CredentialsAck(true), draw))
    ensures Joining(Put(r, s, Taken(r.sessions[s], true)), s, draw) && r.sessions[s].id == 0 && s !in r.members
  {
    var q := r.sessions[s];
    assert SessionOk(q, r.drawn, r.clock);
    PutKeeps(r, s, Taken(q, true), r.clock, 0);
  }

  lemma AdmitsRoster(r: Room, e: Event, s: nat)
    requires Inv(r) && Enabled(r, e) && Admits(r, e, s)
    ensures Handle(r, e).Next? && s !in r.members && r.sessions[s].id == 0
    ensures var r' := Handle(r, e).room;
      && |r'.members| == |r.members| + 1
      && |r'.sessions| == |r.sessions|
      && (forall m :: m in r'.members <==> m in r.members || m == s)
      && (forall i :: 0 <= i < |r.sessions| && i != s ==> r'.sessions[i] == r.sessions[i])
  {
    var taken := Put(r, s, Taken(r.sessions[s], true));
    TakenIsJoining(r, s, e.draw);
    AdmittedRoster(taken, s, e.draw);
    AdmittedSession(taken, s, e.draw);
    AdmittedCount(taken, s, e.draw);
    assert HandshakeRead(r, s, e.m, e.draw) == Admit(taken, s, e.draw);
  }

  lemma AdmittedCount(r: Room, s: nat, draw: nat)
    requires Joining(r, s, draw) && |r.members| < r.limit && r.sessions[s].open
    ensures |Admit(r, s, draw).room.members| == |r.members| + 1
  {
    FreshId(r, draw);
    var keyed := Keyed(r, s, draw);
    SameIds(r, keyed);
    InsertFacts(keyed, s);
  }

  /** No member is added, no key changes, and a session outside the room that has an id is
      handed nothing. */
  ghost predicate NothingGained(r: Room, r': Room) {
    && |r'.members| <= |r.members| && |r'.sessions| >= |r.sessions|
    && (forall m :: m in r'.members ==> m in r.members)
    && (forall i :: 0 <= i < |r.sessions| ==> r'.sessions[i].id == r.sessions[i].id)
    && (forall i :: 0 <= i < |r.sessions| && i !in r.members && r.sessions[i].id != 0 ==>
          r'.sessions[i].log == r.sessions[i].log)
  }

  lemma DepartGainsNothing(r: Room, s: nat, q: Session)
    requires Structure(r) && s < |r.sessions| && q.id == r.sessions[s].id && q.log == r.sessions[s].log
    ensures NothingGained(r, Depart(Put(r, s, q), q.id))
  {
    SameIds(r, Put(r, s, q));
    DropGainsNothing(Put(r, s, q), q.id);
  }

  lemma DropGainsNothing(r: Room, k: nat)
    requires Structure(r)
    ensures NothingGained(r, Depart(r, k))
  {
    DepartRoster(r, k);
    EraseFacts(r, k);
  }

  lemma IntroduceGainsNothing(r: Room, x: nat)
    requires Structure(r) && Introduce(r, x).Next?
    ensures NothingGained(r, Introduce(r, x).room)
  {
    FindIsScan(Ids(r), x);
    var s := MemberHasId(r, x);
    IntroduceHistory(r, x, s);
    var told := Deliver(r, Others(r, x), New(x, DescriptorOf(r, s)));
    assert Introduce(r, x).room == Receive(told, s, Introductions(r, r.members, x));
  }

  lemma LocalGainsNothing(r: Room, r': Room)
    requires r'.members == r.members && |r'.sessions| >= |r.sessions|
    requires forall i :: 0 <= i < |r.sessions| ==>
      r'.sessions[i].id == r.sessions[i].id && r'.sessions[i].log == r.sessions[i].log
    ensures NothingGained(r, r')
  {}

  lemma GainsCompose(r: Room, put: Room, r': Room)
    requires put.members == r.members && |put.sessions| == |r.sessions| && NothingGained(put, r')
    requires forall i :: 0 <= i < |r.sessions| ==>
      put.sessions[i].id == r.sessions[i].id && put.sessions[i].log == r.sessions[i].log
    ensures NothingGained(r, r')
  {}

  lemma JoinAckGainsNothing(r: Room, s: nat, json: seq<Byte>, x: nat)
    requires Structure(r) && s < |r.sessions|
    ensures var o := Introduce(Put(r, s, r.sessions[s].(descriptor := json)), x);
      o.Next? ==> NothingGained(r, o.room)
  {
    var put := Put(r, s, r.sessions[s].(descriptor := json));
    var o := Introduce(put, x);
    SameIds(r, put);
    if o.Next? {
      IntroduceGainsNothing(put, x);
      GainsCompose(r, put, o.room);
    }
  }

  lemma SessionReadGainsNothing(r: Room, s: nat, m: Received)
    requires Inv(r) && s < |r.sessions| && r.sessions[s].sessionReads > 0 && SessionRead(r, s, m).Next?
    ensures NothingGained(r, SessionRead(r, s, m).room)
  {
    match m
    case JoinAck(id, _, json) => JoinAckGainsNothing(r, s, json, id);
    case LeaveAck => DropGainsNothing(r, r.sessions[s].id);
    case _ => LocalOrRelayGainsNothing(r, s, m);
  }

  lemma LocalOrRelayGainsNothing(r: Room, s: nat, m: Received)
    requires s < |r.sessions| && r.sessions[s].sessionReads > 0 && !m.JoinAck? && !m.LeaveAck?
    ensures SessionRead(r, s, m).Next? && NothingGained(r, SessionRead(r, s, m).room)
  {}

  lemma HandshakeReadGainsNothing(r: Room, s: nat, m: Received, draw: nat)
    requires Inv(r) && s < |r.sessions| && r.sessions[s].handshakeReads > 0 && r.sessions[s].open
    requires HandshakeRead(r, s, m, draw).Next? && !(m == CredentialsAck(true) && |r.members| < r.limit)
    ensures NothingGained(r, HandshakeRead(r, s, m, draw).room)
  {
    assert SessionOk(r.sessions[s], r.drawn, r.clock);
  }

  lemma QuietStepsGainNothing(r: Room, e: Event)
    requires Enabled(r, e) && Handle(r, e).Next?
    requires e.Accept? || e.WriteDone? || e.DisconnectAll? || e.SetLimit? || (e.ReadError? && e.loop == HandshakeLoop)
    ensures NothingGained(r, Handle(r, e).room)
  {
    LocalGainsNothing(r, Handle(r, e).room);
  }

  lemma ReadErrorGainsNothing(r: Room, s: nat)
    requires Inv(r) && Enabled(r, ReadError(s, SessionLoop))
    ensures NothingGained(r, Handle(r, ReadError(s, SessionLoop)).room)
  {
    DepartGainsNothing(r, s, TakeRead(r.sessions[s], SessionLoop));
  }

  lemma WriteErrorGainsNothing(r: Room, s: nat)
    requires Inv(r) && Enabled(r, WriteError(s))
    ensures NothingGained(r, Handle(r, WriteError(s)).room)
  {
    DepartGainsNothing(r, s, Wrote(r.sessions[s]));
  }

  /** Apart from an admission no step gains anything. */
  lemma OtherStepsGainNothing(r: Room, e: Event)
    requires Inv(r) && Enabled(r, e) && Handle(r, e).Next?
    requires e.ReadDone? ==> !Admits(r, e, e.s)
    ensures NothingGained(r, Handle(r, e).room)
  {
    if e.ReadDone? {
      if e.loop == HandshakeLoop {
        HandshakeReadGainsNothing(r, e.s, e.m, e.draw);
      } else {
        SessionReadGainsNothing(r, e.s, e.m);
      }
    } else if e.WriteError? {
      WriteErrorGainsNothing(r, e.s);
    } else if e.ReadError? && e.loop == SessionLoop {
      ReadErrorGainsNothing(r, e.s);
    } else if e.DisconnectId? {
      DropGainsNothing(r, e.id);
    } else {
      QuietStepsGainNothing(r, e);
    }
  }
}
