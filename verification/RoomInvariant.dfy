/** What every step of the server keeps. */
module RoomInvariant {
  import opened Bytes
  import opened Protocol
  import opened Messages
  import opened Frames
  import opened OrderedSet
  import opened RoomProtocol

  // ----- what a client learns from its frames -----

  function Replay(view: set<nat>, f: Frame): set<nat> {
    match f
    case New(id, _) => view + {id}
    case Leave(id) => view - {id}
    case _ => view
  }

  /** The room as a client that replays its NEW and LEAVE frames knows it. */
  function View(log: seq<Frame>): set<nat> {
    if log == [] then {} else Replay(View(log[..|log| - 1]), log[|log| - 1])
  }

  lemma ViewSnoc(log: seq<Frame>, f: Frame)
    ensures View(log + [f]) == Replay(View(log), f)
  {
    assert (log + [f])[..|log|] == log;
  }

  predicate Greets(f: Frame) {
    f.Hello? || f.Credentials?
  }

  predicate Tells(f: Frame) {
    f.New? || f.Leave? || f.Update?
  }

  ghost predicate Greeting(log: seq<Frame>) {
    forall i :: 0 <= i < |log| ==> Greets(log[i])
  }

  ghost predicate JoinAt(log: seq<Frame>, id: nat, j: nat) {
    && j < |log| && log[j] == Join(id)
    && (forall i :: 0 <= i < j ==> Greets(log[i]))
    && (forall i :: j < i < |log| ==> Tells(log[i]))
  }

  /** Greetings, one JOIN with the given id, then only news of the room. */
  ghost predicate LogShape(log: seq<Frame>, id: nat) {
    exists j :: JoinAt(log, id, j)
  }

  lemma {:induction false} GreetingShowsNothing(log: seq<Frame>)
    requires Greeting(log)
    ensures View(log) == {}
  {
    if log == [] {
    } else {
      GreetingShowsNothing(log[..|log| - 1]);
      assert Greets(log[|log| - 1]);
    }
  }

  lemma JoinClosesGreeting(log: seq<Frame>, id: nat)
    requires Greeting(log)
    ensures LogShape(log + [Join(id)], id)
  {
    assert JoinAt(log + [Join(id)], id, |log|);
  }

  lemma NewsKeepsShape(log: seq<Frame>, id: nat, f: Frame)
    requires LogShape(log, id) && Tells(f)
    ensures LogShape(log + [f], id)
  {
    var j :| JoinAt(log, id, j);
    assert JoinAt(log + [f], id, j);
  }

  // ----- the invariant -----

  ghost predicate Structure(r: Room) {
    && (forall m :: m in r.members ==> m < |r.sessions|)
    && Sorted(Ids(r))
    && |r.members| <= r.peak && r.limit <= r.peak < 0x1_0000
    && 0 !in r.drawn
  }

  ghost predicate LogOk(q: Session) {
    && (q.handshakeReads > 0 ==> q.id == 0 && Greeting(q.log))
    && (q.id == 0 ==> Greeting(q.log) || LogShape(q.log, 0))
    && (q.id != 0 ==> LogShape(q.log, q.id))
    && q.completed <= |q.log|
  }

  /** The state of one session; its history lies before tick t. */
  ghost predicate SessionOk(q: Session, drawn: set<nat>, t: nat) {
    && q.handshakeReads + q.sessionReads <= 1
    && (q.id != 0 ==> q.id in drawn && IsId(q.id))
    && q.joinedAt < t && q.introducedAt < t
    && (q.id == 0 ==> q.joinedAt == 0 && q.introducedAt == 0)
    && LogOk(q)
  }

  ghost predicate SessionsOk(r: Room, t: nat) {
    forall s :: 0 <= s < |r.sessions| ==> SessionOk(r.sessions[s], r.drawn, t)
  }

  ghost predicate DistinctIds(r: Room) {
    forall i, j :: 0 <= i < |r.sessions| && 0 <= j < |r.sessions| && i != j && r.sessions[i].id == r.sessions[j].id
      ==> r.sessions[i].id == 0
  }

  /** Members have an id and a join time, and exactly one pending read, in the session loop;
      the member with id k may be between two reads. */
  ghost predicate MembersOk(r: Room, k: nat) {
    forall m :: m in r.members && m < |r.sessions| ==>
      && r.sessions[m].id != 0 && r.sessions[m].joinedAt > 0
      && (r.sessions[m].id != k ==> r.sessions[m].sessionReads == 1)
  }

  /** One of the two was introduced after the other had joined. */
  predicate Acquainted(p: Session, q: Session) {
    p.introducedAt > q.joinedAt || q.introducedAt > p.joinedAt
  }

  ghost predicate PairsOk(r: Room) {
    forall p, q :: p in r.members && q in r.members && p != q && p < |r.sessions| && q < |r.sessions| ==>
      (r.sessions[q].id in View(r.sessions[p].log) <==> Acquainted(r.sessions[p], r.sessions[q]))
  }

  ghost predicate NoStrangers(r: Room) {
    forall p, x :: p in r.members && p < |r.sessions| && x in View(r.sessions[p].log) ==>
      x in Ids(r) && x != r.sessions[p].id
  }

  ghost predicate InvAt(r: Room, t: nat, k: nat) {
    Structure(r) && SessionsOk(r, t) && DistinctIds(r) && MembersOk(r, k) && PairsOk(r) && NoStrangers(r)
  }

  ghost predicate Inv(r: Room) {
    r.clock > 0 && InvAt(r, r.clock, 0)
  }

  // ----- members and their ids -----

  lemma MemberHasId(r: Room, k: nat) returns (m: nat)
    requires Structure(r) && k in Ids(r)
    ensures m in r.members && m < |r.sessions| && r.sessions[m].id == k
    ensures Has(Ids(r), k) && m == r.members[LowerBound(Ids(r), k)]
  {
    FindIsScan(Ids(r), k);
    m := r.members[LowerBound(Ids(r), k)];
  }

  lemma MemberIdIn(r: Room, m: nat)
    requires Structure(r) && m in r.members
    ensures r.sessions[m].id in Ids(r)
  {
    var i :| 0 <= i < |r.members| && r.members[i] == m;
    assert Ids(r)[i] == r.sessions[m].id;
  }

  lemma SameIds(r: Room, r': Room)
    requires r'.members == r.members
    requires forall m :: m in r.members ==> IdOf(r', m) == IdOf(r, m)
    ensures Ids(r') == Ids(r)
  {
    forall i | 0 <= i < |r.members|
      ensures Ids(r')[i] == Ids(r)[i]
    {
      assert r.members[i] in r.members;
    }
  }

  /** A step that keeps the roster, the keys, the history and what the members know of each
      other keeps the views right. */
  lemma ViewsKept(r: Room, r': Room)
    requires Structure(r) && PairsOk(r) && NoStrangers(r)
    requires r'.members == r.members && |r'.sessions| >= |r.sessions|
    requires forall m :: m in r.members ==>
      && r'.sessions[m].id == r.sessions[m].id
      && View(r'.sessions[m].log) == View(r.sessions[m].log)
      && r'.sessions[m].joinedAt == r.sessions[m].joinedAt
      && r'.sessions[m].introducedAt == r.sessions[m].introducedAt
    ensures Ids(r') == Ids(r) && PairsOk(r') && NoStrangers(r')
  {
    SameIds(r, r');
    forall p, q | p in r.members && q in r.members && p != q
      ensures r'.sessions[q].id in View(r'.sessions[p].log) <==> Acquainted(r'.sessions[p], r'.sessions[q])
    {
      assert r.sessions[q].id in View(r.sessions[p].log) <==> Acquainted(r.sessions[p], r.sessions[q]);
    }
    forall p, x | p in r.members && x in View(r'.sessions[p].log)
      ensures x in Ids(r') && x != r'.sessions[p].id
    {
      assert x in View(r.sessions[p].log);
    }
  }

  // ----- changes to one session -----

  /** A change to one session that leaves its key, its history and what it knows alone. */
  lemma PutKeeps(r: Room, s: nat, q: Session, t: nat, k: nat)
    requires InvAt(r, t, k) && s < |r.sessions| && SessionOk(q, r.drawn, t)
    requires q.id == r.sessions[s].id && View(q.log) == View(r.sessions[s].log)
    requires q.joinedAt == r.sessions[s].joinedAt && q.introducedAt == r.sessions[s].introducedAt
    requires s in r.members && q.id != k ==> q.sessionReads == 1
    ensures InvAt(Put(r, s, q), t, k)
  {
    ViewsKept(r, Put(r, s, q));
  }

  // ----- deliveries to members -----

  /** Delivering news to members keeps all but the views. */
  lemma DeliverKeepsSessions(r: Room, to: set<nat>, f: Frame, t: nat, k: nat)
    requires Structure(r) && SessionsOk(r, t) && DistinctIds(r) && MembersOk(r, k)
    requires to <= Members(r) && Tells(f)
    ensures var r' := Deliver(r, to, f);
      Structure(r') && SessionsOk(r', t) && DistinctIds(r') && MembersOk(r', k) && Ids(r') == Ids(r)
  {
    var r' := Deliver(r, to, f);
    SameIds(r, r');
    forall s | 0 <= s < |r'.sessions|
      ensures SessionOk(r'.sessions[s], r.drawn, t)
    {
      assert SessionOk(r.sessions[s], r.drawn, t);
      if s in to {
        NewsKeepsShape(r.sessions[s].log, r.sessions[s].id, f);
      }
    }
  }

  lemma RelayKeeps(r: Room, x: nat, w: seq<Byte>, t: nat, k: nat)
    requires InvAt(r, t, k)
    ensures InvAt(Deliver(r, Others(r, x), Update(w)), t, k)
  {
    var r' := Deliver(r, Others(r, x), Update(w));
    DeliverKeepsSessions(r, Others(r, x), Update(w), t, k);
    forall m | m in r.members
      ensures View(r'.sessions[m].log) == View(r.sessions[m].log)
    {
      ViewSnoc(r.sessions[m].log, Update(w));
    }
    ViewsKept(r, r');
  }

  // ----- departures -----

  lemma EraseFacts(r: Room, k: nat)
    requires Structure(r)
    ensures var r' := Erase(r, k);
      && Structure(r')
      && (forall m :: m in r'.members <==> m in r.members && IdOf(r, m) != k)
      && (forall x :: x in Ids(r') <==> x in Ids(r) && x != k)
  {
    var ids := Ids(r);
    FindIsScan(ids, k);
    if Has(ids, k) {
      var p := LowerBound(ids, k);
      RemoveKeepsSorted(ids, p);
      assert Ids(Erase(r, k)) == RemoveAt(ids, p);
      forall m
        ensures m in RemoveAt(r.members, p) <==> m in r.members && IdOf(r, m) != k
      {
        RemovedMember(r, p, m);
      }
    } else {
      forall m | m in r.members
        ensures IdOf(r, m) != k
      {
        MemberIdIn(r, m);
      }
    }
  }

  lemma RemovedMember(r: Room, p: nat, m: nat)
    requires Structure(r) && p < |r.members|
    ensures m in RemoveAt(r.members, p) <==> m in r.members && IdOf(r, m) != Ids(r)[p]
  {
    var t := RemoveAt(r.members, p);
    if m in r.members && IdOf(r, m) != Ids(r)[p] {
      var i :| 0 <= i < |r.members| && r.members[i] == m;
      assert t[if i < p then i else i - 1] == m;
    }
    if m in t {
      var i :| 0 <= i < |t| && t[i] == m;
      var j := if i < p then i else i + 1;
      assert r.members[j] == m && Ids(r)[j] == IdOf(r, m);
    }
  }

  /** Erasing k and telling the others takes k out of every view that is left. */
  lemma DepartKeeps(r: Room, k: nat, t: nat)
    requires InvAt(r, t, k)
    ensures InvAt(Depart(r, k), t, 0)
  {
    var e := Erase(r, k);
    EraseFacts(r, k);
    ErasedKeeps(r, k, t);
    DeliverKeepsSessions(e, Members(e), Leave(k), t, 0);
    LeaveShows(e, k);
    ViewsLose(r, Depart(r, k), k);
  }

  lemma ErasedKeeps(r: Room, k: nat, t: nat)
    requires InvAt(r, t, k)
    ensures var e := Erase(r, k);
      Structure(e) && SessionsOk(e, t) && DistinctIds(e) && MembersOk(e, 0) && e.sessions == r.sessions
  {
    EraseFacts(r, k);
  }

  lemma LeaveShows(r: Room, k: nat)
    requires Structure(r)
    ensures var r' := Deliver(r, Members(r), Leave(k));
      forall p :: p in r.members ==> View(r'.sessions[p].log) == View(r.sessions[p].log) - {k}
  {
    forall p | p in r.members
      ensures View(r.sessions[p].log + [Leave(k)]) == View(r.sessions[p].log) - {k}
    {
      ViewSnoc(r.sessions[p].log, Leave(k));
    }
  }

  lemma ViewsLose(r: Room, r': Room, k: nat)
    requires Structure(r) && PairsOk(r) && NoStrangers(r) && Structure(r') && |r'.sessions| == |r.sessions|
    requires forall m :: m in r'.members ==> m in r.members && IdOf(r, m) != k
    requires forall x :: x in Ids(r) && x != k ==> x in Ids(r')
    requires forall m :: m in r'.members ==>
      && r'.sessions[m].id == r.sessions[m].id
      && View(r'.sessions[m].log) == View(r.sessions[m].log) - {k}
      && r'.sessions[m].joinedAt == r.sessions[m].joinedAt
      && r'.sessions[m].introducedAt == r.sessions[m].introducedAt
    ensures PairsOk(r') && NoStrangers(r')
  {
    forall p, y | p in r'.members && y in View(r'.sessions[p].log)
      ensures y in Ids(r') && y != r'.sessions[p].id
    {
      assert y in View(r.sessions[p].log);
    }
    forall p, q | p in r'.members && q in r'.members && p != q
      ensures r'.sessions[q].id in View(r'.sessions[p].log) <==> Acquainted(r'.sessions[p], r'.sessions[q])
    {
      assert IdOf(r, q) != k && View(r'.sessions[p].log) == View(r.sessions[p].log) - {k};
      assert r.sessions[q].id in View(r.sessions[p].log) <==> Acquainted(r.sessions[p], r.sessions[q]);
    }
  }

  // ----- introductions -----

  function OtherIds(r: Room, ms: seq<nat>, x: nat): set<nat> {
    set m | m in ms && IdOf(r, m) != x :: IdOf(r, m)
  }

  lemma OtherIdsSnoc(r: Room, ms: seq<nat>, m: nat, x: nat)
    ensures OtherIds(r, ms + [m], x) == OtherIds(r, ms, x) + if IdOf(r, m) == x then {} else {IdOf(r, m)}
  {
    forall y | y in OtherIds(r, ms, x)
      ensures y in OtherIds(r, ms + [m], x)
    {
      var n :| n in ms && IdOf(r, n) != x && IdOf(r, n) == y;
      assert n in ms + [m];
    }
    assert m in ms + [m];
  }

  /** Replaying the list of players adds exactly the ids of the members other than x. */
  lemma {:induction false} IntroductionsShow(log: seq<Frame>, r: Room, ms: seq<nat>, x: nat)
    ensures View(log + Introductions(r, ms, x)) == View(log) + OtherIds(r, ms, x)
    decreases |ms|
  {
    if ms == [] {
      assert log + [] == log;
    } else {
      var last, init := ms[|ms| - 1], ms[..|ms| - 1];
      IntroductionsShow(log, r, init, x);
      OtherIdsSnoc(r, init, last, x);
      assert ms == init + [last];
      if IdOf(r, last) != x {
        var f := New(IdOf(r, last), DescriptorOf(r, last));
        assert log + Introductions(r, ms, x) == (log + Introductions(r, init, x)) + [f];
        ViewSnoc(log + Introductions(r, init, x), f);
      }
    }
  }

  lemma {:induction false} IntroductionsKeepShape(log: seq<Frame>, id: nat, r: Room, ms: seq<nat>, x: nat)
    requires LogShape(log, id)
    ensures LogShape(log + Introductions(r, ms, x), id)
    decreases |ms|
  {
    if ms == [] {
      assert log + [] == log;
    } else {
      var last, init := ms[|ms| - 1], ms[..|ms| - 1];
      IntroductionsKeepShape(log, id, r, init, x);
      if IdOf(r, last) != x {
        var f := New(IdOf(r, last), DescriptorOf(r, last));
        assert log + Introductions(r, ms, x) == (log + Introductions(r, init, x)) + [f];
        NewsKeepsShape(log + Introductions(r, init, x), id, f);
      }
    }
  }

  /** An introduction leaves x known to every other member and every other member known to x,
      and changes no other view. */
  lemma IntroduceViews(r: Room, x: nat, s: nat)
    requires Structure(r) && x in Ids(r) && DescriptorsFit(r)
    requires s == r.members[LowerBound(Ids(r), x)]
    ensures Introduce(r, x).Next? && s in r.members && s < |r.sessions| && r.sessions[s].id == x
    ensures var r' := Introduce(r, x).room;
      && View(r'.sessions[s].log) == View(r.sessions[s].log) + OtherIds(r, r.members, x)
      && (forall m :: m in r.members && m != s ==> View(r'.sessions[m].log) == View(r.sessions[m].log) + {x})
  {
    var s' := MemberHasId(r, x);
    var r' := Introduce(r, x).room;
    IntroductionsShow(r.sessions[s].log, r, r.members, x);
    forall m | m in r.members && m != s
      ensures View(r'.sessions[m].log) == View(r.sessions[m].log) + {x}
    {
      UniqueMember(r, m, s);
      ViewSnoc(r.sessions[m].log, New(x, DescriptorOf(r, s)));
    }
  }

  lemma UniqueMember(r: Room, m: nat, s: nat)
    requires Structure(r) && m in r.members && s in r.members && m != s
    ensures r.sessions[m].id != r.sessions[s].id
  {
    var i :| 0 <= i < |r.members| && r.members[i] == m;
    var j :| 0 <= j < |r.members| && r.members[j] == s;
    assert Ids(r)[i] == r.sessions[m].id && Ids(r)[j] == r.sessions[s].id;
  }

  lemma IntroduceKeepsSessions(r: Room, x: nat, t: nat)
    requires InvAt(r, t, 0) && r.clock < t && Introduce(r, x).Next?
    ensures var r' := Introduce(r, x).room;
      Structure(r') && SessionsOk(r', t) && DistinctIds(r') && MembersOk(r', 0) && Ids(r') == Ids(r)
  {
    FindIsScan(Ids(r), x);
    var s := MemberHasId(r, x);
    var f := New(x, DescriptorOf(r, s));
    var told := Deliver(r, Others(r, x), f);
    DeliverKeepsSessions(r, Others(r, x), f, t, 0);
    assert told.sessions[s] == r.sessions[s];
    assert SessionOk(told.sessions[s], r.drawn, t);
    var news := Introductions(r, r.members, x);
    IntroductionsKeepShape(r.sessions[s].log, r.sessions[s].id, r, r.members, x);
    ReceiveKeepsSessions(told, s, news, t);
  }

  lemma ReceiveKeepsSessions(r: Room, s: nat, news: seq<Frame>, t: nat)
    requires Structure(r) && SessionsOk(r, t) && DistinctIds(r) && MembersOk(r, 0) && r.clock < t
    requires s in r.members && LogShape(r.sessions[s].log + news, r.sessions[s].id)
    ensures var r' := Receive(r, s, news);
      Structure(r') && SessionsOk(r', t) && DistinctIds(r') && MembersOk(r', 0) && Ids(r') == Ids(r)
  {
    var q := r.sessions[s];
    assert SessionOk(q, r.drawn, t);
    assert SessionOk(q.(log := q.log + news, introducedAt := r.clock), r.drawn, t);
    SameIds(r, Receive(r, s, news));
  }

  lemma IntroduceKeeps(r: Room, x: nat, t: nat)
    requires InvAt(r, r.clock, 0) && t == r.clock + 1 && Introduce(r, x).Next?
    ensures InvAt(Introduce(r, x).room, t, 0)
  {
    LaterBound(r, r.clock, t, 0);
    IntroduceKeepsSessions(r, x, t);
    FindIsScan(Ids(r), x);
    var s := MemberHasId(r, x);
    IntroduceViews(r, x, s);
    IntroduceHistory(r, x, s);
    ViewsGain(r, Introduce(r, x).room, x, s);
  }

  lemma IntroduceHistory(r: Room, x: nat, s: nat)
    requires Structure(r) && Introduce(r, x).Next? && s in r.members && r.sessions[s].id == x
    requires s == r.members[LowerBound(Ids(r), x)]
    ensures var r' := Introduce(r, x).room;
      && r'.members == r.members && |r'.sessions| == |r.sessions|
      && r'.sessions[s].introducedAt == r.clock
      && forall m :: 0 <= m < |r.sessions| ==>
           && r'.sessions[m].id == r.sessions[m].id && r'.sessions[m].joinedAt == r.sessions[m].joinedAt
           && (m != s ==> r'.sessions[m].introducedAt == r.sessions[m].introducedAt)
  {}

  lemma ViewsGain(r: Room, r': Room, x: nat, s: nat)
    requires Structure(r) && SessionsOk(r, r.clock) && PairsOk(r) && NoStrangers(r)
    requires s in r.members && r.sessions[s].id == x
    requires r'.members == r.members && |r'.sessions| == |r.sessions| && Ids(r') == Ids(r)
    requires r'.sessions[s].introducedAt == r.clock
    requires forall m :: 0 <= m < |r.sessions| ==>
      && r'.sessions[m].id == r.sessions[m].id && r'.sessions[m].joinedAt == r.sessions[m].joinedAt
      && (m != s ==> r'.sessions[m].introducedAt == r.sessions[m].introducedAt)
    requires View(r'.sessions[s].log) == View(r.sessions[s].log) + OtherIds(r, r.members, x)
    requires forall m :: m in r.members && m != s ==> View(r'.sessions[m].log) == View(r.sessions[m].log) + {x}
    ensures PairsOk(r') && NoStrangers(r')
  {
    forall p, q | p in r.members && q in r.members && p != q
      ensures r'.sessions[q].id in View(r'.sessions[p].log) <==> Acquainted(r'.sessions[p], r'.sessions[q])
    {
      UniqueMember(r, p, q);
      assert SessionOk(r.sessions[p], r.drawn, r.clock) && SessionOk(r.sessions[q], r.drawn, r.clock);
      if p == s {
        assert IdOf(r, q) == r.sessions[q].id;
      } else if q != s {
        UniqueMember(r, q, s);
      }
    }
    forall p, y | p in r.members && y in View(r'.sessions[p].log)
      ensures y in Ids(r') && y != r'.sessions[p].id
    {
      if y !in View(r.sessions[p].log) {
        if p == s {
          var m :| m in r.members && IdOf(r, m) != x && IdOf(r, m) == y;
          MemberIdIn(r, m);
        } else {
          MemberIdIn(r, s);
          UniqueMember(r, p, s);
        }
      }
    }
  }

  lemma LaterBound(r: Room, t: nat, t': nat, k: nat)
    requires InvAt(r, t, k) && t <= t'
    ensures InvAt(r, t', k)
  {
    forall s | 0 <= s < |r.sessions|
      ensures SessionOk(r.sessions[s], r.drawn, t')
    {
      assert SessionOk(r.sessions[s], r.drawn, t);
    }
  }

  // ----- joins -----

  lemma FreshId(r: Room, draw: nat)
    requires Structure(r) && SessionsOk(r, r.clock) && MembersOk(r, 0) && draw !in r.drawn
    ensures draw !in Ids(r)
  {
    forall k | k in Ids(r)
      ensures k in r.drawn
    {
      var m := MemberHasId(r, k);
      assert SessionOk(r.sessions[m], r.drawn, r.clock);
    }
  }

  lemma InsertFacts(r: Room, s: nat)
    requires forall m :: m in r.members ==> m < |r.sessions|
    requires Sorted(Ids(r)) && s < |r.sessions| && r.sessions[s].id !in Ids(r)
    ensures var r' := Insert(r, s);
      && r' == r.(members := r'.members) && |r'.members| == |r.members| + 1
      && Ids(r') == InsertAt(Ids(r), LowerBound(Ids(r), r.sessions[s].id), r.sessions[s].id) && Sorted(Ids(r'))
      && (forall m :: m in r'.members <==> m in r.members || m == s)
  {
    var ids, k := Ids(r), r.sessions[s].id;
    FindIsScan(ids, k);
    InsertKeepsSorted(ids, k);
    var p := LowerBound(ids, k);
    forall m
      ensures m in InsertAt(r.members, p, s) <==> m in r.members || m == s
    {
      InsertedKeys(r.members, p, s, m);
    }
    assert Ids(Insert(r, s)) == InsertAt(ids, p, k);
  }

  /** The state of the joining session when the room takes it in. */
  ghost predicate Joining(r: Room, s: nat, draw: nat) {
    && InvAt(r, r.clock, 0) && r.clock > 0
    && s < |r.sessions| && r.sessions[s].id == 0 && Greeting(r.sessions[s].log)
    && r.sessions[s].handshakeReads == 0 && r.sessions[s].sessionReads == 1
    && 0 < draw && IsId(draw) && draw !in r.drawn
  }

  lemma AdmittedRoster(r: Room, s: nat, draw: nat)
    requires Joining(r, s, draw) && |r.members| < r.limit && r.sessions[s].open
    ensures Admit(r, s, draw).Next? && s !in r.members
    ensures var r' := Admit(r, s, draw).room;
      && Structure(r')
      && (forall m :: m in r'.members <==> m in r.members || m == s)
      && (forall x :: x in Ids(r') <==> x in Ids(r) || x == draw)
  {
    FreshId(r, draw);
    var keyed := Keyed(r, s, draw);
    SameIds(r, keyed);
    InsertFacts(keyed, s);
    SameIds(Insert(keyed, s), Admit(r, s, draw).room);
    forall x
      ensures x in InsertAt(Ids(r), LowerBound(Ids(r), draw), draw) <==> x in Ids(r) || x == draw
    {
      InsertedKeys(Ids(r), LowerBound(Ids(r), draw), draw, x);
    }
  }

  lemma AdmittedSession(r: Room, s: nat, draw: nat)
    requires Joining(r, s, draw) && |r.members| < r.limit && r.sessions[s].open
    ensures var r' := Admit(r, s, draw).room;
      && |r'.sessions| == |r.sessions| && r'.drawn == r.drawn + {draw}
      && (forall i :: 0 <= i < |r.sessions| && i != s ==> r'.sessions[i] == r.sessions[i])
      && var q := r'.sessions[s];
         && q.id == draw && q.joinedAt == r.clock && q.introducedAt == 0 && q.sessionReads == 1
         && SessionOk(q, r'.drawn, r.clock + 1) && View(q.log) == {}
  {
    var log := r.sessions[s].log;
    assert SessionOk(r.sessions[s], r.drawn, r.clock);
    JoinClosesGreeting(log, draw);
    GreetingShowsNothing(log);
    ViewSnoc(log, Join(draw));
  }

  lemma AdmitKeeps(r: Room, s: nat, draw: nat)
    requires Joining(r, s, draw) && Admit(r, s, draw).Next?
    ensures InvAt(Admit(r, s, draw).room, r.clock + 1, 0)
  {
    LaterBound(r, r.clock, r.clock + 1, 0);
    if |r.members| >= r.limit {
      var q := r.sessions[s];
      assert SessionOk(q, r.drawn, r.clock);
      JoinClosesGreeting(q.log, 0);
      ViewSnoc(q.log, Join(0));
      assert Admit(r, s, draw).room == Put(r, s, q.(open := false, log := q.log + [Join(0)]));
      PutKeeps(r, s, q.(open := false, log := q.log + [Join(0)]), r.clock + 1, 0);
    } else {
      var r' := Admit(r, s, draw).room;
      AdmittedRoster(r, s, draw);
      AdmittedSession(r, s, draw);
      FreshId(r, draw);
      AdmittedIds(r, r', s, draw);
      AdmittedViews(r, r', s, draw);
    }
  }

  lemma AdmittedIds(r: Room, r': Room, s: nat, draw: nat)
    requires Joining(r, s, draw) && |r'.sessions| == |r.sessions| && r'.drawn == r.drawn + {draw}
    requires SessionsOk(r, r.clock + 1)
    requires forall i :: 0 <= i < |r.sessions| && i != s ==> r'.sessions[i] == r.sessions[i]
    requires r'.sessions[s].id == draw && SessionOk(r'.sessions[s], r'.drawn, r.clock + 1)
    ensures SessionsOk(r', r.clock + 1) && DistinctIds(r')
  {
    forall i | 0 <= i < |r'.sessions|
      ensures SessionOk(r'.sessions[i], r'.drawn, r.clock + 1)
      ensures i != s ==> r'.sessions[i].id != draw
    {
      assert SessionOk(r.sessions[i], r.drawn, r.clock + 1);
    }
  }

  lemma AdmittedViews(r: Room, r': Room, s: nat, draw: nat)
    requires Joining(r, s, draw) && draw !in Ids(r)
    requires Structure(r') && |r'.sessions| == |r.sessions| && s !in r.members
    requires forall m :: m in r'.members <==> m in r.members || m == s
    requires forall x :: x in Ids(r') <==> x in Ids(r) || x == draw
    requires forall i :: 0 <= i < |r.sessions| && i != s ==> r'.sessions[i] == r.sessions[i]
    requires r'.sessions[s].id == draw && r'.sessions[s].joinedAt == r.clock
    requires r'.sessions[s].introducedAt == 0 && View(r'.sessions[s].log) == {}
    ensures PairsOk(r') && NoStrangers(r')
  {
    forall p, q | p in r'.members && q in r'.members && p != q
      ensures r'.sessions[q].id in View(r'.sessions[p].log) <==> Acquainted(r'.sessions[p], r'.sessions[q])
    {
      if p == s {
        assert SessionOk(r.sessions[q], r.drawn, r.clock);
      } else if q == s {
        assert SessionOk(r.sessions[p], r.drawn, r.clock);
      }
    }
  }

  // ----- every step -----

  lemma AcceptKeeps(r: Room, service: nat, t: nat)
    requires InvAt(r, t, 0) && t > 0
    ensures InvAt(r.(sessions := r.sessions + [NewSession(service)]), t, 0)
  {
    var r' := r.(sessions := r.sessions + [NewSession(service)]);
    forall s | 0 <= s < |r'.sessions|
      ensures SessionOk(r'.sessions[s], r'.drawn, t)
    {
      if s < |r.sessions| {
        assert SessionOk(r.sessions[s], r.drawn, t);
      }
    }
    ViewsKept(r, r');
  }

  lemma CloseAllKeeps(r: Room, t: nat)
    requires InvAt(r, t, 0)
    ensures InvAt(CloseAll(r), t, 0)
  {
    var r' := CloseAll(r);
    forall s | 0 <= s < |r'.sessions|
      ensures SessionOk(r'.sessions[s], r'.drawn, t)
    {
      assert SessionOk(r.sessions[s], r.drawn, t);
    }
    ViewsKept(r, r');
  }

  /** A configuration of the given size is taken. */
  lemma HelloAckIs(r: Room, s: nat, size: nat, c: seq<Byte>, draw: nat)
    requires s < |r.sessions| && r.sessions[s].handshakeReads > 0
    ensures HandshakeRead(r, s, HelloAck(size, c), draw)
      == (if size > DESCRIPTOR_SIZE then Fault else Next(Put(r, s, WithConfiguration(r.sessions[s], c))))
  {}

  function WithConfiguration(q: Session, c: seq<Byte>): Session {
    q.(descriptor := q.descriptor + c, log := q.log + [Credentials])
  }

  lemma HelloAckKeeps(r: Room, s: nat, c: seq<Byte>, t: nat)
    requires InvAt(r, t, 0) && s < |r.sessions| && r.sessions[s].handshakeReads > 0
    ensures InvAt(Put(r, s, WithConfiguration(r.sessions[s], c)), t, 0)
  {
    var q := r.sessions[s];
    assert SessionOk(q, r.drawn, t);
    ViewSnoc(q.log, Credentials);
    PutKeeps(r, s, WithConfiguration(q, c), t, 0);
  }

  /** The session as it stands when the room takes it in. */
  function Taken(q: Session, ok: bool): Session
    requires q.handshakeReads > 0
  {
    q.(open := q.open && ok, handshakeReads := q.handshakeReads - 1, sessionReads := q.sessionReads + 1)
  }

  lemma TakenKeeps(r: Room, s: nat, ok: bool, t: nat)
    requires InvAt(r, t, 0) && s < |r.sessions| && r.sessions[s].handshakeReads > 0
    ensures InvAt(Put(r, s, Taken(r.sessions[s], ok)), t, 0) && r.sessions[s].id == 0
    ensures Greeting(r.sessions[s].log) && r.sessions[s].handshakeReads == 1 && r.sessions[s].sessionReads == 0
  {
    assert SessionOk(r.sessions[s], r.drawn, t);
    PutKeeps(r, s, Taken(r.sessions[s], ok), t, 0);
  }

  lemma CredentialsAckKeeps(r: Room, s: nat, ok: bool, draw: nat, taken: Room)
    requires Inv(r) && s < |r.sessions| && r.sessions[s].handshakeReads > 0
    requires 0 < draw && IsId(draw) && draw !in r.drawn
    requires taken == Put(r, s, Taken(r.sessions[s], ok)) && Admit(taken, s, draw).Next?
    ensures InvAt(Admit(taken, s, draw).room, r.clock + 1, 0)
  {
    TakenKeeps(r, s, ok, r.clock);
    AdmitKeeps(taken, s, draw);
  }

  lemma CredentialsAckIs(r: Room, s: nat, ok: bool, draw: nat)
    requires s < |r.sessions| && r.sessions[s].handshakeReads > 0
    ensures HandshakeRead(r, s, CredentialsAck(ok), draw) == Admit(Put(r, s, Taken(r.sessions[s], ok)), s, draw)
  {}

  lemma HandshakeReadKeeps(r: Room, s: nat, m: Received, draw: nat)
    requires Inv(r) && s < |r.sessions| && r.sessions[s].handshakeReads > 0
    requires 0 < draw && IsId(draw) && draw !in r.drawn
    requires HandshakeRead(r, s, m, draw).Next?
    ensures InvAt(HandshakeRead(r, s, m, draw).room, r.clock + 1, 0)
  {
    match m
    case HelloAck(size, configuration) =>
      LaterBound(r, r.clock, r.clock + 1, 0);
      HelloAckIs(r, s, size, configuration, draw);
      HelloAckKeeps(r, s, configuration, r.clock + 1);
    case CredentialsAck(accepted) =>
      CredentialsAckIs(r, s, accepted, draw);
      CredentialsAckKeeps(r, s, accepted, draw, Put(r, s, Taken(r.sessions[s], accepted)));
    case _ => LaterBound(r, r.clock, r.clock + 1, 0);
  }

  lemma JoinAckKeeps(r: Room, s: nat, json: seq<Byte>, id: nat)
    requires Inv(r) && s < |r.sessions|
    ensures var o := Introduce(Put(r, s, r.sessions[s].(descriptor := json)), id);
      o.Next? ==> InvAt(o.room, r.clock + 1, 0)
  {
    var q' := r.sessions[s].(descriptor := json);
    assert SessionOk(r.sessions[s], r.drawn, r.clock);
    PutKeeps(r, s, q', r.clock, 0);
    if Introduce(Put(r, s, q'), id).Next? {
      IntroduceKeeps(Put(r, s, q'), id, r.clock + 1);
    }
  }

  lemma CloseKeeps(r: Room, s: nat, t: nat)
    requires InvAt(r, t, 0) && s < |r.sessions|
    ensures InvAt(Put(r, s, r.sessions[s].(open := false)), t, 0)
  {
    assert SessionOk(r.sessions[s], r.drawn, t);
    PutKeeps(r, s, r.sessions[s].(open := false), t, 0);
  }

  lemma SessionReadKeeps(r: Room, s: nat, m: Received)
    requires Inv(r) && s < |r.sessions| && SessionRead(r, s, m).Next?
    ensures InvAt(SessionRead(r, s, m).room, r.clock + 1, 0)
  {
    var t := r.clock + 1;
    LaterBound(r, r.clock, t, 0);
    match m
    case JoinAck(id, _, json) => JoinAckKeeps(r, s, json, id);
    case NewAck =>
    case UpdateAck(bytes) => RelayKeeps(r, r.sessions[s].id, bytes, t, 0);
    case LeaveAck => DisconnectKeeps(r, r.sessions[s].id, t);
    case _ => CloseKeeps(r, s, t);
  }

  lemma WeakenExcept(r: Room, t: nat, k: nat)
    requires InvAt(r, t, 0)
    ensures InvAt(r, t, k)
  {}

  lemma LeaveKeeps(r: Room, s: nat, q: Session, t: nat)
    requires InvAt(r, t, 0) && s < |r.sessions| && SessionOk(q, r.drawn, t)
    requires q.id == r.sessions[s].id && q.log == r.sessions[s].log
    requires q.joinedAt == r.sessions[s].joinedAt && q.introducedAt == r.sessions[s].introducedAt
    ensures InvAt(Depart(Put(r, s, q), r.sessions[s].id), t, 0)
  {
    WeakenExcept(r, t, q.id);
    PutKeeps(r, s, q, t, q.id);
    DepartKeeps(Put(r, s, q), q.id, t);
  }

  lemma ReadErrorKeeps(r: Room, s: nat, loop: Loop, t: nat)
    requires InvAt(r, t, 0) && Enabled(r, ReadError(s, loop))
    ensures InvAt(Handle(r, ReadError(s, loop)).room, t, 0)
  {
    var q := r.sessions[s];
    assert SessionOk(q, r.drawn, t);
    if loop == HandshakeLoop {
      PutKeeps(r, s, TakeRead(q, loop).(open := false), t, 0);
    } else {
      LeaveKeeps(r, s, TakeRead(q, loop), t);
    }
  }

  lemma WriteDoneKeeps(r: Room, s: nat, t: nat)
    requires InvAt(r, t, 0) && Enabled(r, WriteDone(s))
    ensures InvAt(Handle(r, WriteDone(s)).room, t, 0)
  {
    var q := r.sessions[s];
    assert SessionOk(q, r.drawn, t);
    PutKeeps(r, s, Wrote(q), t, 0);
  }

  lemma CompletedOk(q: Session, drawn: set<nat>, t: nat)
    requires SessionOk(q, drawn, t) && q.completed < |q.log|
    ensures SessionOk(Wrote(q), drawn, t)
  {}

  lemma WriteErrorKeeps(r: Room, s: nat, t: nat)
    requires InvAt(r, t, 0) && s < |r.sessions| && r.sessions[s].completed < |r.sessions[s].log|
    ensures InvAt(Depart(Put(r, s, Wrote(r.sessions[s])), r.sessions[s].id), t, 0)
  {
    CompletedOk(r.sessions[s], r.drawn, t);
    LeaveKeeps(r, s, Wrote(r.sessions[s]), t);
  }

  lemma ReadKeeps(r: Room, e: Event)
    requires Inv(r) && Enabled(r, e) && Handle(r, e).Next? && e.ReadDone?
    ensures InvAt(Handle(r, e).room, r.clock + 1, 0)
  {
    if e.loop == HandshakeLoop {
      HandshakeReadKeeps(r, e.s, e.m, e.draw);
    } else {
      SessionReadKeeps(r, e.s, e.m);
    }
  }

  lemma LossKeeps(r: Room, e: Event, t: nat)
    requires InvAt(r, t, 0) && Enabled(r, e) && Handle(r, e).Next?
    requires e.ReadError? || e.WriteError? || e.DisconnectId?
    ensures InvAt(Handle(r, e).room, t, 0)
  {
    match e
    case ReadError(s, loop) => ReadErrorKeeps(r, s, loop, t);
    case WriteError(s) => WriteErrorKeeps(r, s, t);
    case DisconnectId(id) => DisconnectKeeps(r, id, t);
  }

  lemma QuietKeeps(r: Room, e: Event, t: nat)
    requires InvAt(r, t, 0) && t > 0 && Enabled(r, e) && Handle(r, e).Next?
    requires e.Accept? || e.WriteDone? || e.DisconnectAll? || e.SetLimit?
    ensures InvAt(Handle(r, e).room, t, 0)
  {
    match e
    case Accept(service, _) => AcceptKeeps(r, service, t);
    case WriteDone(s) => WriteDoneKeeps(r, s, t);
    case DisconnectAll => CloseAllKeeps(r, t);
    case SetLimit(limit) => SetLimitKeeps(r, limit, t);
  }

  lemma HandleKeeps(r: Room, e: Event)
    requires Inv(r) && Enabled(r, e) && Handle(r, e).Next?
    ensures InvAt(Handle(r, e).room, r.clock + 1, 0)
  {
    LaterBound(r, r.clock, r.clock + 1, 0);
    if e.ReadDone? {
      ReadKeeps(r, e);
    } else if e.ReadError? || e.WriteError? || e.DisconnectId? {
      LossKeeps(r, e, r.clock + 1);
    } else {
      QuietKeeps(r, e, r.clock + 1);
    }
  }

  lemma DisconnectKeeps(r: Room, id: nat, t: nat)
    requires InvAt(r, t, 0)
    ensures InvAt(Depart(r, id), t, 0)
  {
    WeakenExcept(r, t, id);
    DepartKeeps(r, id, t);
  }

  lemma SetLimitKeeps(r: Room, limit: nat, t: nat)
    requires InvAt(r, t, 0) && limit < 0x1_0000
    ensures InvAt(r.(limit := limit, peak := if limit > r.peak then limit else r.peak), t, 0)
  {
    ViewsKept(r, r.(limit := limit, peak := if limit > r.peak then limit else r.peak));
  }

  lemma StepKeeps(r: Room, e: Event)
    requires Inv(r) && Enabled(r, e) && Step(r, e).Next?
    ensures Inv(Step(r, e).room)
  {
    var o := Handle(r, e);
    HandleKeeps(r, e);
    ClockUntouched(r, e);
    TickKeeps(o.room, r.clock + 1);
    assert Tick(o) == Next(o.room.(clock := r.clock + 1));
  }

  lemma ClockUntouched(r: Room, e: Event)
    requires Enabled(r, e) && Handle(r, e).Next?
    ensures Handle(r, e).room.clock == r.clock
  {}

  lemma TickKeeps(h: Room, t: nat)
    requires InvAt(h, t, 0)
    ensures InvAt(h.(clock := t), t, 0)
  {
    ViewsKept(h, h.(clock := t));
  }
}
