/** A read handler runs between two reads of its session: the completed one is off the count and
    the next one is not on it yet. Nothing the handler does looks at that count. */
module Rearm {
  import opened Bytes
  import opened Frames
  import opened OrderedSet
  import opened RoomProtocol
  import opened RoomInvariant

  ghost function WithReads(r: Room, s: nat, n: nat): Room {
    if s < |r.sessions| then Put(r, s, r.sessions[s].(sessionReads := n)) else r
  }

  ghost function OutcomeWithReads(o: Outcome, s: nat, n: nat): Outcome {
    match o
    case Fault => Fault
    case Next(r) => Next(WithReads(r, s, n))
  }

  lemma WithReadsLooks(r: Room, s: nat, n: nat)
    ensures var r' := WithReads(r, s, n);
      && r'.members == r.members && Ids(r') == Ids(r) && |r'.sessions| == |r.sessions|
      && (forall m :: IdOf(r', m) == IdOf(r, m) && DescriptorOf(r', m) == DescriptorOf(r, m))
      && (Structure(r) ==> Structure(r'))
  {
    SameIds(r, WithReads(r, s, n));
  }

  /** One more write of the session has completed. */
  ghost function WriteOff(r: Room, s: nat): Room {
    if s < |r.sessions| then Put(r, s, Wrote(r.sessions[s])) else r
  }

  lemma WriteOffLooks(r: Room, s: nat)
    ensures Structure(r) ==> Structure(WriteOff(r, s))
  {
    SameIds(r, WriteOff(r, s));
  }

  lemma WriteDoneIs(r: Room, s: nat)
    requires Enabled(r, WriteDone(s))
    ensures Handle(r, WriteDone(s)) == Next(WriteOff(r, s))
  {}

  lemma WriteErrorIs(r: Room, s: nat)
    requires Enabled(r, WriteError(s))
    ensures Handle(r, WriteError(s)) == Next(Depart(WriteOff(r, s), r.sessions[s].id))
  {}

  /** A handled event ticks the clock and keeps the invariant. */
  lemma HandledStep(r: Room, e: Event, x: Room)
    requires Inv(r) && Enabled(r, e) && Handle(r, e) == Next(x)
    ensures Step(r, e) == Next(x.(clock := x.clock + 1)) && Inv(x.(clock := x.clock + 1))
  {
    StepKeeps(r, e);
  }

  lemma DeliverCommutes(r: Room, s: nat, n: nat, to: set<nat>, f: Frame)
    ensures Deliver(WithReads(r, s, n), to, f) == WithReads(Deliver(r, to, f), s, n)
  {}

  lemma OthersSame(r: Room, s: nat, n: nat, x: nat)
    ensures Others(WithReads(r, s, n), x) == Others(r, x)
  {
    WithReadsLooks(r, s, n);
  }

  lemma DepartCommutes(r: Room, s: nat, n: nat, k: nat)
    ensures Depart(WithReads(r, s, n), k) == WithReads(Depart(r, k), s, n)
  {
    WithReadsLooks(r, s, n);
    var e := Erase(r, k);
    assert Erase(WithReads(r, s, n), k) == WithReads(e, s, n);
    DeliverCommutes(e, s, n, Members(e), Leave(k));
  }

  lemma {:induction false} IntroductionsAlike(r: Room, r': Room, ms: seq<nat>, x: nat)
    requires forall m :: DescriptorOf(r', m) == DescriptorOf(r, m) && IdOf(r', m) == IdOf(r, m)
    ensures Introductions(r', ms, x) == Introductions(r, ms, x)
    decreases |ms|
  {
    if ms == [] {
    } else {
      IntroductionsAlike(r, r', ms[..|ms| - 1], x);
    }
  }

  lemma ReceiveCommutes(r: Room, s: nat, n: nat, m: nat, news: seq<Frame>)
    ensures Receive(WithReads(r, s, n), m, news) == WithReads(Receive(r, m, news), s, n)
  {}

  lemma IntroduceCommutes(r: Room, s: nat, n: nat, x: nat)
    ensures Introduce(WithReads(r, s, n), x) == OutcomeWithReads(Introduce(r, x), s, n)
  {
    var r' := WithReads(r, s, n);
    WithReadsLooks(r, s, n);
    assert DescriptorsFit(r') <==> DescriptorsFit(r);
    if Has(Ids(r), x) && DescriptorsFit(r) {
      var m := r.members[LowerBound(Ids(r), x)];
      var told := Deliver(r, Others(r, x), New(x, DescriptorOf(r, m)));
      OthersSame(r, s, n, x);
      DeliverCommutes(r, s, n, Others(r, x), New(x, DescriptorOf(r, m)));
      IntroductionsAlike(r, r', r.members, x);
      ReceiveCommutes(told, s, n, m, Introductions(r, r.members, x));
    }
  }

  lemma PutCommutes(r: Room, s: nat, n: nat, d: seq<Byte>)
    requires s < |r.sessions|
    ensures var r' := WithReads(r, s, n);
      && Put(r', s, r'.sessions[s].(descriptor := d)) == WithReads(Put(r, s, r.sessions[s].(descriptor := d)), s, n)
      && Put(r', s, r'.sessions[s].(open := false)) == WithReads(Put(r, s, r.sessions[s].(open := false)), s, n)
  {}

  lemma SessionReadCommutes(r: Room, s: nat, n: nat, m: Received)
    requires s < |r.sessions|
    ensures SessionRead(WithReads(r, s, n), s, m) == OutcomeWithReads(SessionRead(r, s, m), s, n)
  {
    WithReadsLooks(r, s, n);
    PutCommutes(r, s, n, if m.JoinAck? then m.json else []);
    match m
    case JoinAck(id, size, json) =>
      IntroduceCommutes(Put(r, s, r.sessions[s].(descriptor := json)), s, n, id);
    case UpdateAck(bytes) =>
      OthersSame(r, s, n, r.sessions[s].id);
      DeliverCommutes(r, s, n, Others(r, r.sessions[s].id), Update(bytes));
    case LeaveAck => DepartCommutes(r, s, n, r.sessions[s].id);
    case _ =>
  }

  lemma SessionReadKeepsReads(r: Room, s: nat, m: Received, o: Outcome)
    requires s < |r.sessions| && o == SessionRead(r, s, m)
    ensures o.Next? ==> s < |o.room.sessions| && o.room.sessions[s].sessionReads == r.sessions[s].sessionReads
  {}

  /** Taking the completed read off the count, handling the message and putting the next read on it
      is handling the message. */
  lemma RearmedRead(r: Room, s: nat, m: Received, n: nat)
    requires s < |r.sessions| && r.sessions[s].sessionReads == n > 0
    ensures var o := SessionRead(WithReads(r, s, n - 1), s, m);
      && (o.Next? <==> SessionRead(r, s, m).Next?)
      && (o.Next? ==> WithReads(o.room, s, n) == SessionRead(r, s, m).room)
  {
    SessionReadCommutes(r, s, n - 1, m);
    if SessionRead(r, s, m).Next? {
      SessionReadKeepsReads(r, s, m, SessionRead(r, s, m));
      WithReadsTwice(SessionRead(r, s, m).room, s, n - 1);
    }
  }

  /** The same of the event of a whole read. */
  lemma RearmedEvent(r: Room, s: nat, m: Received, draw: nat, n: nat, o: Outcome)
    requires Enabled(r, ReadDone(s, SessionLoop, m, draw)) && n == r.sessions[s].sessionReads
    requires o == SessionRead(WithReads(r, s, n - 1), s, m)
    ensures Handle(r, ReadDone(s, SessionLoop, m, draw)).Next? <==> o.Next?
    ensures o.Next? ==> Handle(r, ReadDone(s, SessionLoop, m, draw)) == Next(WithReads(o.room, s, n))
  {
    RearmedRead(r, s, m, n);
  }

  lemma WithReadsTwice(r: Room, s: nat, k: nat)
    requires s < |r.sessions|
    ensures WithReads(WithReads(r, s, k), s, r.sessions[s].sessionReads) == r
    ensures WithReads(r, s, k).sessions[s].sessionReads == k
  {}
}
