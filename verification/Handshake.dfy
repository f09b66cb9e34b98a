/** What the steps of the server that are not reads of its own do to a session. */
module Bystanders {
  import opened Bytes
  import opened Messages
  import opened Frames
  import opened OrderedSet
  import opened RoomProtocol
  import opened RoomInvariant
  import opened RoomTheorems

  /** The session keeps its id, gains no read, loses its handshake read only with its socket, and is
      handed only news of the room, and these only as a member. */
  ghost predicate Follows(q: Session, q': Session, member: bool) {
    && q'.id == q.id && q'.handshakeReads <= q.handshakeReads && q'.sessionReads <= q.sessionReads
    && (q'.open ==> q.open && q'.handshakeReads == q.handshakeReads)
    && q.log <= q'.log
    && (forall i :: |q.log| <= i < |q'.log| ==> Tells(q'.log[i]))
    && (!member ==> q'.log == q.log)
  }

  ghost predicate StandsBy(r: Room, r': Room, u: nat) {
    u < |r.sessions| <= |r'.sessions| && Follows(r.sessions[u], r'.sessions[u], u in r.members)
  }

  lemma StandsByTwice(r: Room, a: Room, b: Room, u: nat)
    requires StandsBy(r, a, u) && StandsBy(a, b, u)
    requires u in a.members ==> u in r.members
    ensures StandsBy(r, b, u)
  {
    var q, p, s := r.sessions[u].log, a.sessions[u].log, b.sessions[u].log;
    assert q == p[..|q|] == s[..|q|];
    forall i | |q| <= i < |s|
      ensures Tells(s[i])
    {
      assert i < |p| ==> s[i] == p[i];
    }
  }

  lemma DeliverStandsBy(r: Room, to: set<nat>, f: Frame, u: nat)
    requires u < |r.sessions| && to <= Members(r) && Tells(f)
    ensures StandsBy(r, Deliver(r, to, f), u)
  {}

  lemma DepartStandsBy(r: Room, k: nat, u: nat)
    requires Structure(r) && u < |r.sessions|
    ensures StandsBy(r, Depart(r, k), u)
  {
    var erased := Erase(r, k);
    EraseFacts(r, k);
    DeliverStandsBy(erased, Members(erased), Leave(k), u);
  }

  lemma {:induction false} IntroductionsTell(r: Room, ms: seq<nat>, x: nat)
    ensures forall f :: f in Introductions(r, ms, x) ==> Tells(f)
    decreases |ms|
  {
    if ms == [] {
    } else {
      IntroductionsTell(r, ms[..|ms| - 1], x);
    }
  }

  lemma ReceiveStandsBy(r: Room, s: nat, news: seq<Frame>, u: nat)
    requires u < |r.sessions| && s in r.members && forall f :: f in news ==> Tells(f)
    ensures StandsBy(r, Receive(r, s, news), u)
  {}

  lemma IntroduceStandsBy(r: Room, x: nat, u: nat)
    requires Structure(r) && u < |r.sessions| && Introduce(r, x).Next?
    ensures StandsBy(r, Introduce(r, x).room, u)
  {
    FindIsScan(Ids(r), x);
    var s := MemberHasId(r, x);
    var f := New(x, DescriptorOf(r, s));
    var told, news := Deliver(r, Others(r, x), f), Introductions(r, r.members, x);
    DeliverStandsBy(r, Others(r, x), f, u);
    IntroductionsTell(r, r.members, x);
    ReceiveStandsBy(told, s, news, u);
    StandsByTwice(r, told, Receive(told, s, news), u);
  }

  lemma JoinAckStandsBy(r: Room, s: nat, json: seq<Byte>, x: nat, u: nat)
    requires Structure(r) && s < |r.sessions| && u < |r.sessions|
    ensures var o := Introduce(Put(r, s, r.sessions[s].(descriptor := json)), x);
      o.Next? ==> StandsBy(r, o.room, u)
  {
    var put := Put(r, s, r.sessions[s].(descriptor := json));
    SameIds(r, put);
    var o := Introduce(put, x);
    if o.Next? {
      IntroduceStandsBy(put, x, u);
      StandsByTwice(r, put, o.room, u);
    }
  }

  lemma SessionReadStandsBy(r: Room, s: nat, m: Received, u: nat)
    requires Structure(r) && s < |r.sessions| && u < |r.sessions| && SessionRead(r, s, m).Next?
    ensures StandsBy(r, SessionRead(r, s, m).room, u)
  {
    match m
    case JoinAck(id, _, json) => JoinAckStandsBy(r, s, json, id, u);
    case UpdateAck(bytes) => DeliverStandsBy(r, Others(r, r.sessions[s].id), Update(bytes), u);
    case LeaveAck => DepartStandsBy(r, r.sessions[s].id, u);
    case _ =>
  }

  lemma HandshakeReadStandsBy(r: Room, s: nat, m: Received, draw: nat, u: nat)
    requires s < |r.sessions| && r.sessions[s].handshakeReads > 0 && u < |r.sessions| && u != s
    requires HandshakeRead(r, s, m, draw).Next?
    ensures StandsBy(r, HandshakeRead(r, s, m, draw).room, u)
  {}

  lemma LeaveStandsBy(r: Room, s: nat, q: Session, u: nat)
    requires Structure(r) && s < |r.sessions| && u < |r.sessions|
    requires q.id == r.sessions[s].id && q.log == r.sessions[s].log
    requires q.handshakeReads == r.sessions[s].handshakeReads && q.sessionReads <= r.sessions[s].sessionReads
    requires q.open == r.sessions[s].open
    ensures StandsBy(r, Depart(Put(r, s, q), q.id), u)
  {
    var put := Put(r, s, q);
    SameIds(r, put);
    DepartStandsBy(put, q.id, u);
    StandsByTwice(r, put, Depart(put, q.id), u);
  }

  lemma QuietStandsBy(r: Room, e: Event, u: nat)
    requires Enabled(r, e) && Handle(r, e).Next? && u < |r.sessions|
    requires e.Accept? || e.WriteDone? || e.DisconnectAll? || e.SetLimit? || (e.ReadError? && e.loop == HandshakeLoop)
    ensures StandsBy(r, Handle(r, e).room, u)
  {}

  lemma ReadStandsBy(r: Room, e: Event, u: nat)
    requires Inv(r) && Enabled(r, e) && Handle(r, e).Next? && u < |r.sessions| && e.ReadDone? && e.s != u
    ensures StandsBy(r, Handle(r, e).room, u)
  {
    if e.loop == HandshakeLoop {
      HandshakeReadStandsBy(r, e.s, e.m, e.draw, u);
    } else {
      SessionReadStandsBy(r, e.s, e.m, u);
    }
  }

  lemma LossStandsBy(r: Room, e: Event, u: nat)
    requires Inv(r) && Enabled(r, e) && Handle(r, e).Next? && u < |r.sessions|
    requires (e.ReadError? && e.loop == SessionLoop) || e.WriteError? || e.DisconnectId?
    ensures StandsBy(r, Handle(r, e).room, u)
  {
    match e
    case ReadError(s, _) => LeaveStandsBy(r, s, TakeRead(r.sessions[s], SessionLoop), u);
    case WriteError(s) => LeaveStandsBy(r, s, Wrote(r.sessions[s]), u);
    case DisconnectId(id) => DepartStandsBy(r, id, u);
  }

  lemma HandleStandsBy(r: Room, e: Event, u: nat)
    requires Inv(r) && Enabled(r, e) && Handle(r, e).Next? && u < |r.sessions|
    requires !(e.ReadDone? && e.s == u)
    ensures StandsBy(r, Handle(r, e).room, u)
  {
    if e.ReadDone? {
      ReadStandsBy(r, e, u);
    } else if (e.ReadError? && e.loop == SessionLoop) || e.WriteError? || e.DisconnectId? {
      LossStandsBy(r, e, u);
    } else {
      QuietStandsBy(r, e, u);
    }
  }

  /** Every step but a read of the session itself. */
  lemma StepStandsBy(r: Room, e: Event, u: nat)
    requires Inv(r) && Enabled(r, e) && Step(r, e).Next? && u < |r.sessions|
    requires !(e.ReadDone? && e.s == u)
    ensures StandsBy(r, Step(r, e).room, u)
  {
    var o := Handle(r, e);
    assert o.Next? && Step(r, e) == Tick(o);
    HandleStandsBy(r, e, u);
  }
}

/** chat_client on one session of the server, with a queue of messages each way. */
module Handshake {
  import opened Bytes
  import opened Messages
  import opened Frames
  import opened ClientDispatch
  import opened RoomInvariant
  import opened Bystanders
  import RP = RoomProtocol
  import RT = RoomTheorems

  datatype Mark = HelloMark | HelloAckMark | CredentialsMark | CredentialsAckMark | JoinMark

  /** The client talks on session u. It has handled the first `read` frames of that session's log;
      `up` holds what it sent and the server has not handled. `trace` is history: the handshake
      frames both sides have sent. */
  datatype Product = Product(room: RP.Room, u: nat, read: nat, up: seq<Wire>, client: Client, trace: seq<Mark>)

  /** Elsewhere is any step of the server that is not a read of session u: reads and errors of the
      other sessions, writes, lost connections, administration. */
  datatype Event =
    | Elsewhere(e: RP.Event)
    | ServerReads(loop: RP.Loop, draw: nat)
    | ClientReads(timestamp: nat)
    | TimerFires(timestamp: nat, json: seq<Byte>, past: seq<Byte>)

  datatype Outcome = Next(p: Product) | Fault

  // ----- the handshake frames of a channel -----

  function MarkOf(f: Frame): seq<Mark> {
    match f
    case Hello(_, _) => [HelloMark]
    case Credentials => [CredentialsMark]
    case Join(_) => [JoinMark]
    case _ => []
  }

  function AckMarkOf(m: Received): seq<Mark> {
    match m
    case HelloAck(_, _) => [HelloAckMark]
    case CredentialsAck(_) => [CredentialsAckMark]
    case _ => []
  }

  function Marks(fs: seq<Frame>): seq<Mark> {
    if fs == [] then [] else MarkOf(fs[0]) + Marks(fs[1..])
  }

  function AckMarks(ws: seq<Wire>): seq<Mark> {
    if ws == [] then [] else AckMarkOf(Parse(ws[0])) + AckMarks(ws[1..])
  }

  function Script(): seq<Mark> {
    [HelloMark, HelloAckMark, CredentialsMark, CredentialsAckMark, JoinMark]
  }

  // ----- steps -----

  function LogOf(r: RP.Room, u: nat): seq<Frame> {
    if u < |r.sessions| then r.sessions[u].log else []
  }

  function Log(p: Product): seq<Frame> {
    LogOf(p.room, p.u)
  }

  function Gained(r: RP.Room, r': RP.Room, u: nat): seq<Frame> {
    if |LogOf(r, u)| <= |LogOf(r', u)| then LogOf(r', u)[|LogOf(r, u)|..] else []
  }

  function InRoom(p: Product, o: RP.Outcome): Outcome {
    match o
    case Fault => Fault
    case Next(r) => Next(p.(room := r, trace := p.trace + Marks(Gained(p.room, r, p.u))))
  }

  function Say(p: Product, c: Client, ws: seq<Wire>): Product {
    p.(client := c, up := p.up + ws, trace := p.trace + AckMarks(ws))
  }

  predicate Enabled(p: Product, e: Event) {
    match e
    case Elsewhere(e) => RP.Enabled(p.room, e) && !(e.ReadDone? && e.s == p.u)
    case ServerReads(loop, draw) => p.up != [] && RP.Enabled(p.room, RP.ReadDone(p.u, loop, Parse(p.up[0]), draw))
    case ClientReads(timestamp) => IsId(timestamp) && p.read < |Log(p)| && GoodFrame(Log(p)[p.read])
    case TimerFires(timestamp, json, past) =>
      p.client.armed && IsId(p.client.participantId) && IsId(timestamp) && |json| <= 20480 && |past| == 12
  }

  function Step(p: Product, e: Event): Outcome
    requires Enabled(p, e)
  {
    match e
    case Elsewhere(e) => InRoom(p, RP.Step(p.room, e))
    case ServerReads(loop, draw) =>
      InRoom(p.(up := p.up[1..]), RP.Step(p.room, RP.ReadDone(p.u, loop, Parse(p.up[0]), draw)))
    case ClientReads(timestamp) =>
      var f := Log(p)[p.read];
      Next(Say(p.(read := p.read + 1), Learn(p.client, f), Reply(f, timestamp)))
    case TimerFires(timestamp, json, past) =>
      Next(Say(p, p.client, [UpdateAckMessage(p.client.participantId, timestamp, json, past)]))
  }

  /** A connection accepted in any state the server can be in; the length of the server's name
      leaves no trace. The client's ids are not yet set. */
  function Start(r: RP.Room, service: nat, c: Client): Product
    requires IsId(service)
  {
    Product(RP.Step(r, RP.Accept(service, 0)).room, |r.sessions|, 0, [], c, [HelloMark])
  }

  ghost predicate Starts(p: Product) {
    exists r, service: nat, c ::
      RT.Reachable(r) && IsId(service) && WellFormed(c) && !c.armed && p == Start(r, service, c)
  }

  ghost predicate Legal(p: Product, es: seq<Event>)
    decreases |es|
  {
    es == [] || (Enabled(p, es[0]) && Step(p, es[0]).Next? && Legal(Step(p, es[0]).p, es[1..]))
  }

  ghost function After(p: Product, es: seq<Event>): Product
    requires Legal(p, es)
    decreases |es|
  {
    if es == [] then p else After(Step(p, es[0]).p, es[1..])
  }

  ghost predicate Reachable(p: Product) {
    exists start, es :: Starts(start) && Legal(start, es) && p == After(start, es)
  }

  // ----- what every step keeps -----

  function Peer(p: Product): RP.Session
    requires p.u < |p.room.sessions|
  {
    p.room.sessions[p.u]
  }

  predicate Greeted(log: seq<Frame>) {
    |log| > 0 && log[0].Hello? && IsId(log[0].service)
  }

  ghost predicate AtHello(p: Product)
    requires p.u < |p.room.sessions|
  {
    && |Log(p)| == 1 && Greeted(Log(p)) && p.read <= 1 && (Peer(p).open ==> Peer(p).handshakeReads == 1)
    && Peer(p).id == 0 && Peer(p).sessionReads == 0 && !p.client.armed
    && p.trace == Script()[..1 + p.read]
    && (if p.read == 0 then p.up == []
        else |p.up| == 1 && Parse(p.up[0]) == HelloAck(20, Ascii("ABCDEFGHIJKLMNOPQRST")))
  }

  ghost predicate AtCredentials(p: Product)
    requires p.u < |p.room.sessions|
  {
    && |Log(p)| == 2 && Greeted(Log(p)) && Log(p)[1] == Credentials && 1 <= p.read <= 2
    && (Peer(p).open ==> Peer(p).handshakeReads == 1)
    && Peer(p).id == 0 && Peer(p).sessionReads == 0 && !p.client.armed
    && p.trace == Script()[..2 + p.read]
    && (if p.read == 1 then p.up == [] else |p.up| == 1 && Parse(p.up[0]) == CredentialsAck(true))
  }

  ghost predicate AtJoin(p: Product)
    requires p.u < |p.room.sessions|
  {
    && |Log(p)| >= 3 && Greeted(Log(p)) && Log(p)[1] == Credentials && Log(p)[2] == Join(Peer(p).id)
    && (forall i :: 3 <= i < |Log(p)| ==> Tells(Log(p)[i]))
    && IsId(Peer(p).id) && Peer(p).handshakeReads == 0 && 2 <= p.read <= |Log(p)|
    && p.trace == Script()
    && (p.read == 2 ==> p.up == [] && !p.client.armed)
    && (p.read > 2 ==> p.client.participantId == Peer(p).id)
    && (forall i :: 0 <= i < |p.up| ==> Parse(p.up[i]).UpdateAck?)
  }

  ghost predicate Sound(p: Product) {
    && Inv(p.room) && p.u < |p.room.sessions| && WellFormed(p.client)
    && (AtHello(p) || AtCredentials(p) || AtJoin(p))
  }

  lemma {:induction false} TellingHasNoMarks(fs: seq<Frame>)
    requires forall f :: f in fs ==> Tells(f)
    ensures Marks(fs) == []
  {
    if fs == [] {
    } else {
      assert fs[0] in fs;
      TellingHasNoMarks(fs[1..]);
    }
  }

  lemma {:induction false} UpdatesHaveNoMarks(ws: seq<Wire>)
    requires forall i :: 0 <= i < |ws| ==> Parse(ws[i]).UpdateAck?
    ensures AckMarks(ws) == []
  {
    if ws == [] {
    } else {
      UpdatesHaveNoMarks(ws[1..]);
    }
  }

  lemma OneMark(f: Frame)
    ensures Marks([f]) == MarkOf(f)
  {
    assert [f][1..] == [] && Marks([]) == [];
  }

  lemma OneAckMark(w: Wire)
    ensures AckMarks([w]) == AckMarkOf(Parse(w))
  {
    assert [w][1..] == [] && AckMarks([]) == [];
  }

  // ----- steps elsewhere -----

  lemma NotYetMember(p: Product)
    requires Sound(p) && Peer(p).id == 0
    ensures p.u !in p.room.members
  {
    assert MembersOk(p.room, 0);
  }

  lemma ElsewhereBefore(p: Product, r': RP.Room)
    requires Sound(p) && (AtHello(p) || AtCredentials(p)) && Inv(r') && StandsBy(p.room, r', p.u)
    ensures Sound(InRoom(p, RP.Next(r')).p)
  {
    NotYetMember(p);
    assert Gained(p.room, r', p.u) == [] && Marks([]) == [];
    assert p.trace + [] == p.trace;
  }

  lemma ElsewhereAfter(p: Product, r': RP.Room)
    requires Sound(p) && AtJoin(p) && Inv(r') && StandsBy(p.room, r', p.u)
    ensures Sound(InRoom(p, RP.Next(r')).p)
  {
    var news := Gained(p.room, r', p.u);
    var log, log' := Log(p), LogOf(r', p.u);
    assert log' == log + news;
    forall f | f in news
      ensures Tells(f)
    {
      var i: nat :| i < |news| && news[i] == f;
      assert log'[|log| + i] == f;
    }
    TellingHasNoMarks(news);
    assert p.trace + [] == p.trace;
    assert forall i :: 0 <= i < |log| ==> log'[i] == log[i];
    assert AtJoin(InRoom(p, RP.Next(r')).p);
  }

  lemma ElsewhereKeeps(p: Product, e: RP.Event)
    requires Sound(p) && Enabled(p, Elsewhere(e)) && Step(p, Elsewhere(e)).Next?
    ensures Sound(Step(p, Elsewhere(e)).p)
  {
    var r' := RP.Step(p.room, e).room;
    StepKeeps(p.room, e);
    StepStandsBy(p.room, e, p.u);
    if AtJoin(p) {
      ElsewhereAfter(p, r');
    } else {
      ElsewhereBefore(p, r');
    }
  }

  // ----- reads of the server -----

  lemma GainsOne(p: Product, r': RP.Room, f: Frame)
    requires LogOf(r', p.u) == Log(p) + [f]
    ensures InRoom(p, RP.Next(r')).p.trace == p.trace + MarkOf(f)
  {
    assert Gained(p.room, r', p.u) == [f];
    OneMark(f);
  }

  lemma HelloAckStep(p: Product, loop: RP.Loop, draw: nat)
    requires Sound(p) && AtHello(p) && Enabled(p, ServerReads(loop, draw))
    ensures var m := Parse(p.up[0]);
      && loop == RP.HandshakeLoop && m == HelloAck(20, Ascii("ABCDEFGHIJKLMNOPQRST"))
      && RP.Step(p.room, RP.ReadDone(p.u, loop, m, draw)).Next?
      && var r' := RP.Step(p.room, RP.ReadDone(p.u, loop, m, draw)).room;
         && LogOf(r', p.u) == Log(p) + [Credentials]
         && p.u < |r'.sessions| && r'.sessions[p.u].id == 0 && r'.sessions[p.u].sessionReads == 0
         && r'.sessions[p.u].handshakeReads == 1
  {}

  lemma MovesToCredentials(p: Product, r': RP.Room)
    requires Sound(p) && AtHello(p) && p.read == 1 && Inv(r')
    requires p.u < |r'.sessions| && r'.sessions[p.u].id == 0 && r'.sessions[p.u].sessionReads == 0
    requires r'.sessions[p.u].handshakeReads == 1
    requires LogOf(r', p.u) == Log(p) + [Credentials]
    ensures var p' := InRoom(p.(up := p.up[1..]), RP.Next(r')).p;
      Sound(p') && AtCredentials(p')
  {
    GainsOne(p.(up := p.up[1..]), r', Credentials);
    assert Script()[..2] + [CredentialsMark] == Script()[..3];
  }

  lemma ServerReadsHelloAck(p: Product, loop: RP.Loop, draw: nat)
    requires Sound(p) && AtHello(p) && Enabled(p, ServerReads(loop, draw))
    ensures Step(p, ServerReads(loop, draw)).Next? && Sound(Step(p, ServerReads(loop, draw)).p)
  {
    var e := RP.ReadDone(p.u, loop, Parse(p.up[0]), draw);
    HelloAckStep(p, loop, draw);
    StepKeeps(p.room, e);
    var r' := RP.Step(p.room, e).room;
    MovesToCredentials(p, r');
    assert Step(p, ServerReads(loop, draw)) == InRoom(p.(up := p.up[1..]), RP.Next(r'));
  }

  lemma CredentialsAckStep(p: Product, loop: RP.Loop, draw: nat)
    requires Sound(p) && AtCredentials(p) && Enabled(p, ServerReads(loop, draw))
    ensures var m := Parse(p.up[0]);
      && loop == RP.HandshakeLoop && m == CredentialsAck(true)
      && RP.Step(p.room, RP.ReadDone(p.u, loop, m, draw)).Next?
      && var r' := RP.Step(p.room, RP.ReadDone(p.u, loop, m, draw)).room;
         && p.u < |r'.sessions| && r'.sessions[p.u].handshakeReads == 0 && IsId(r'.sessions[p.u].id)
         && LogOf(r', p.u) == Log(p) + [Frame.Join(r'.sessions[p.u].id)]
  {
    assert SessionOk(Peer(p), p.room.drawn, p.room.clock);
  }

  lemma MovesToJoin(p: Product, r': RP.Room)
    requires Sound(p) && AtCredentials(p) && p.read == 2 && Inv(r')
    requires p.u < |r'.sessions| && r'.sessions[p.u].handshakeReads == 0 && IsId(r'.sessions[p.u].id)
    requires LogOf(r', p.u) == Log(p) + [Frame.Join(r'.sessions[p.u].id)]
    ensures var p' := InRoom(p.(up := p.up[1..]), RP.Next(r')).p;
      Sound(p') && AtJoin(p')
  {
    GainsOne(p.(up := p.up[1..]), r', Frame.Join(r'.sessions[p.u].id));
    assert Script()[..4] + [JoinMark] == Script();
  }

  lemma ServerReadsCredentialsAck(p: Product, loop: RP.Loop, draw: nat)
    requires Sound(p) && AtCredentials(p) && Enabled(p, ServerReads(loop, draw))
    ensures Step(p, ServerReads(loop, draw)).Next? && Sound(Step(p, ServerReads(loop, draw)).p)
  {
    var e := RP.ReadDone(p.u, loop, Parse(p.up[0]), draw);
    CredentialsAckStep(p, loop, draw);
    StepKeeps(p.room, e);
    var r' := RP.Step(p.room, e).room;
    MovesToJoin(p, r');
    assert Step(p, ServerReads(loop, draw)) == InRoom(p.(up := p.up[1..]), RP.Next(r'));
  }

  lemma SparesOthers(r: RP.Room, to: set<nat>, f: Frame, u: nat)
    requires u < |r.sessions| && u !in to
    ensures u < |RP.Deliver(r, to, f).sessions| && RP.Deliver(r, to, f).sessions[u] == r.sessions[u]
  {}

  lemma RelaySparesSender(r: RP.Room, u: nat, bytes: seq<Byte>)
    requires Inv(r) && u < |r.sessions|
    ensures var r' := RP.Deliver(r, RP.Others(r, r.sessions[u].id), Update(bytes));
      u < |r'.sessions| && r'.sessions[u] == r.sessions[u]
  {
    RT.OthersOf(r, u);
    SparesOthers(r, RP.Others(r, r.sessions[u].id), Update(bytes), u);
  }

  lemma UpdateStep(p: Product, loop: RP.Loop, draw: nat)
    requires Sound(p) && AtJoin(p) && Enabled(p, ServerReads(loop, draw))
    ensures var m := Parse(p.up[0]);
      && loop == RP.SessionLoop && m.UpdateAck?
      && RP.Step(p.room, RP.ReadDone(p.u, loop, m, draw)).Next?
      && var r' := RP.Step(p.room, RP.ReadDone(p.u, loop, m, draw)).room;
         p.u < |r'.sessions| && r'.sessions[p.u] == Peer(p)
  {
    RelaySparesSender(p.room, p.u, Parse(p.up[0]).bytes);
  }

  lemma ServerReadsUpdate(p: Product, loop: RP.Loop, draw: nat)
    requires Sound(p) && AtJoin(p) && Enabled(p, ServerReads(loop, draw))
    ensures Step(p, ServerReads(loop, draw)).Next? && Sound(Step(p, ServerReads(loop, draw)).p)
  {
    var e := RP.ReadDone(p.u, loop, Parse(p.up[0]), draw);
    UpdateStep(p, loop, draw);
    StepKeeps(p.room, e);
    var r' := RP.Step(p.room, e).room;
    assert Gained(p.room, r', p.u) == [] && Marks([]) == [];
    assert p.trace + [] == p.trace;
    assert AtJoin(Step(p, ServerReads(loop, draw)).p);
  }

  // ----- reads of the client and its timer -----

  lemma HelloAnswered(p: Product, w: Wire, c: Client)
    requires Sound(p) && AtHello(p) && p.read == 0 && WellFormed(c) && !c.armed
    requires Parse(w) == HelloAck(20, Ascii("ABCDEFGHIJKLMNOPQRST"))
    ensures var p' := p.(read := 1, up := [w], client := c, trace := Script()[..2]);
      Sound(p') && AtHello(p')
  {}

  lemma ClientReadsHello(p: Product, timestamp: nat)
    requires Sound(p) && AtHello(p) && Enabled(p, ClientReads(timestamp))
    ensures Sound(Step(p, ClientReads(timestamp)).p) && AtHello(Step(p, ClientReads(timestamp)).p)
  {
    var f := Log(p)[0];
    var w: Wire, c := HelloAckMessage(f.service, timestamp), Learn(p.client, f);
    ParseHelloAck(f.service, timestamp);
    OneAckMark(w);
    HelloAnswered(p, w, c);
    assert p.up + [w] == [w];
    assert Script()[..1] + [HelloAckMark] == Script()[..2];
    assert Say(p.(read := 1), c, [w]) == p.(read := 1, up := [w], client := c, trace := Script()[..2]);
  }

  lemma CredentialsAnswered(p: Product, w: Wire)
    requires Sound(p) && AtCredentials(p) && p.read == 1 && Parse(w) == CredentialsAck(true)
    ensures var p' := p.(read := 2, up := [w], trace := Script()[..4]);
      Sound(p') && AtCredentials(p')
  {}

  lemma ClientReadsCredentials(p: Product, timestamp: nat)
    requires Sound(p) && AtCredentials(p) && Enabled(p, ClientReads(timestamp))
    ensures Sound(Step(p, ClientReads(timestamp)).p) && AtCredentials(Step(p, ClientReads(timestamp)).p)
  {
    var w: Wire := CredentialsAckMessage(Ascii("login"), Ascii("password"));
    LoginIsAccepted();
    OneAckMark(w);
    CredentialsAnswered(p, w);
    assert p.up + [w] == [w];
    assert Script()[..3] + [CredentialsAckMark] == Script()[..4];
    assert Say(p.(read := 2), p.client, [w]) == p.(read := 2, up := [w], trace := Script()[..4]);
  }

  lemma LoginIsAccepted()
    ensures Parse(CredentialsAckMessage(Ascii("login"), Ascii("password"))) == CredentialsAck(true)
  {
    CutCredentialsAreChecked(Ascii("login"), Ascii("password"));
  }

  lemma ClientReadsNews(p: Product, timestamp: nat)
    requires Sound(p) && AtJoin(p) && Enabled(p, ClientReads(timestamp))
    ensures Sound(Step(p, ClientReads(timestamp)).p)
  {
    var f := Log(p)[p.read];
    assert p.read == 2 || Tells(f);
    assert Reply(f, timestamp) == [] && AckMarks([]) == [];
    assert p.trace + [] == p.trace && p.up + [] == p.up;
    assert AtJoin(Step(p, ClientReads(timestamp)).p);
  }

  lemma TimerKeeps(p: Product, timestamp: nat, json: seq<Byte>, past: seq<Byte>)
    requires Sound(p) && Enabled(p, TimerFires(timestamp, json, past))
    ensures Sound(Step(p, TimerFires(timestamp, json, past)).p)
  {
    var w: Wire := UpdateAckMessage(p.client.participantId, timestamp, json, past);
    ParseUpdateAck(p.client.participantId, timestamp, json, past);
    OneAckMark(w);
    assert p.trace + [] == p.trace;
    assert AtJoin(Step(p, TimerFires(timestamp, json, past)).p);
  }

  // ----- whole runs -----

  lemma StepKeepsSound(p: Product, e: Event)
    requires Sound(p) && Enabled(p, e) && Step(p, e).Next?
    ensures Sound(Step(p, e).p)
  {
    match e
    case Elsewhere(e) => ElsewhereKeeps(p, e);
    case TimerFires(timestamp, json, past) => TimerKeeps(p, timestamp, json, past);
    case ServerReads(loop, draw) =>
      if AtHello(p) {
        ServerReadsHelloAck(p, loop, draw);
      } else if AtCredentials(p) {
        ServerReadsCredentialsAck(p, loop, draw);
      } else {
        ServerReadsUpdate(p, loop, draw);
      }
    case ClientReads(timestamp) =>
      if AtHello(p) {
        ClientReadsHello(p, timestamp);
      } else if AtCredentials(p) {
        ClientReadsCredentials(p, timestamp);
      } else {
        ClientReadsNews(p, timestamp);
      }
  }

  lemma {:induction false} RunKeepsSound(p: Product, es: seq<Event>)
    requires Sound(p) && Legal(p, es)
    ensures Sound(After(p, es))
    decreases |es|
  {
    if es == [] {
    } else {
      StepKeepsSound(p, es[0]);
      RunKeepsSound(Step(p, es[0]).p, es[1..]);
    }
  }

  lemma StartsSound(p: Product)
    requires Starts(p)
    ensures Sound(p)
  {
    var r, service: nat, c :|
      RT.Reachable(r) && IsId(service) && WellFormed(c) && !c.armed && p == Start(r, service, c);
    RT.ReachableInv(r);
    StepKeeps(r, RP.Accept(service, 0));
    assert AtHello(p);
  }

  lemma ReachableSound(p: Product)
    requires Reachable(p)
    ensures Sound(p)
  {
    var start, es :| Starts(start) && Legal(start, es) && p == After(start, es);
    StartsSound(start);
    RunKeepsSound(start, es);
  }

  // ----- what the two sides can rely on -----

  /** The handshake frames on the two channels: sent and not yet handled. */
  function Outstanding(p: Product): seq<Mark> {
    Marks(if p.read <= |Log(p)| then Log(p)[p.read..] else []) + AckMarks(p.up)
  }

  lemma SoundInOrder(p: Product)
    requires Sound(p)
    ensures p.trace <= Script() && |Outstanding(p)| <= 1
  {
    assert Marks([]) == [] && AckMarks([]) == [];
    var log := Log(p);
    if AtJoin(p) {
      JoinOutstanding(p);
    } else {
      assert p.trace == Script()[..|p.trace|];
      if p.read == |log| {
        OneAckMark(p.up[0]);
        assert log[p.read..] == [] && p.up == [p.up[0]];
      } else {
        OneMark(log[p.read]);
        assert log[p.read..] == [log[p.read]];
      }
    }
  }

  /** In every run the two sides send the five handshake frames in this order, each once, and never
      are two of them under way. */
  lemma HandshakeInOrder(p: Product)
    requires Reachable(p)
    ensures p.trace <= Script() && |Outstanding(p)| <= 1
  {
    ReachableSound(p);
    SoundInOrder(p);
  }

  lemma JoinOutstanding(p: Product)
    requires Sound(p) && AtJoin(p)
    ensures |Outstanding(p)| <= 1
  {
    UpdatesHaveNoMarks(p.up);
    var log := Log(p);
    if p.read == 2 {
      assert log[2..] == [log[2]] + log[3..];
      TellingHasNoMarks(log[3..]);
    } else {
      TellingHasNoMarks(log[p.read..]);
    }
  }

  /** The server takes each message of the client in the loop it is meant for: it never faults, never
      refuses the login, and the session loop never meets a message it hangs up on. */
  lemma ServerReadsWhatItExpects(p: Product, loop: RP.Loop, draw: nat)
    requires Reachable(p) && Enabled(p, ServerReads(loop, draw))
    ensures Step(p, ServerReads(loop, draw)).Next?
    ensures loop == RP.SessionLoop ==> Parse(p.up[0]).UpdateAck?
    ensures loop == RP.HandshakeLoop ==> Parse(p.up[0]).HelloAck? || Parse(p.up[0]) == CredentialsAck(true)
  {
    ReachableSound(p);
    SoundReads(p, loop, draw);
  }

  lemma SoundReads(p: Product, loop: RP.Loop, draw: nat)
    requires Sound(p) && Enabled(p, ServerReads(loop, draw))
    ensures Step(p, ServerReads(loop, draw)).Next?
    ensures loop == RP.SessionLoop ==> Parse(p.up[0]).UpdateAck?
    ensures loop == RP.HandshakeLoop ==> Parse(p.up[0]).HelloAck? || Parse(p.up[0]) == CredentialsAck(true)
  {
    if AtHello(p) {
      HelloAckStep(p, loop, draw);
    } else if AtCredentials(p) {
      CredentialsAckStep(p, loop, draw);
    } else {
      UpdateStep(p, loop, draw);
    }
  }

  lemma OnlyThirdIsJoin(p: Product, i: nat)
    requires Sound(p) && i < |Log(p)| && Log(p)[i].Join?
    ensures AtJoin(p) && i == 2
  {
    assert Log(p)[0].Hello?;
    assert AtJoin(p) ==> i < 3 || Tells(Log(p)[i]);
  }

  /** Once the client has handled JOIN its participant id is the id the server knows the session by. */
  lemma JoinTellsTheId(p: Product, i: nat)
    requires Reachable(p) && i < p.read && i < |Log(p)| && Log(p)[i].Join?
    ensures p.u < |p.room.sessions| && p.client.participantId == p.room.sessions[p.u].id
  {
    ReachableSound(p);
    OnlyThirdIsJoin(p, i);
  }

  /** Until JOIN the server hands the client frames one by one, each only when the client has handled
      those before. */
  lemma EachFrameAwaitsTheLast(p: Product, e: Event)
    requires Reachable(p) && Enabled(p, e) && Step(p, e).Next?
    requires |Log(Step(p, e).p)| > |Log(p)| && |Log(p)| < 3
    ensures p.read == |Log(p)| && |Log(Step(p, e).p)| == |Log(p)| + 1
  {
    ReachableSound(p);
    SoundAwaits(p, e);
  }

  lemma SoundAwaits(p: Product, e: Event)
    requires Sound(p) && Enabled(p, e) && Step(p, e).Next?
    requires |Log(Step(p, e).p)| > |Log(p)| && |Log(p)| < 3
    ensures p.read == |Log(p)| && |Log(Step(p, e).p)| == |Log(p)| + 1
  {
    if e.Elsewhere? {
      NotYetMember(p);
      StepStandsBy(p.room, e.e, p.u);
    } else if AtHello(p) && e.ServerReads? {
      HelloAckStep(p, e.loop, e.draw);
    } else if e.ServerReads? {
      CredentialsAckStep(p, e.loop, e.draw);
    }
  }

  /** The handshake never stalls: until the client has handled JOIN there is a frame for it to
      handle, or a message for the server that a pending read can take. */
  lemma HandshakeNeverStalls(p: Product, timestamp: nat, draw: nat)
    requires Reachable(p) && p.read < 3 && IsId(timestamp)
    requires 0 < draw && IsId(draw) && draw !in p.room.drawn
    ensures p.u < |p.room.sessions|
    ensures Enabled(p, ClientReads(timestamp))
      || (p.up != [] && (Peer(p).open ==> Enabled(p, ServerReads(RP.HandshakeLoop, draw))))
  {
    ReachableSound(p);
    SoundNeverStalls(p, timestamp, draw);
  }

  lemma SoundNeverStalls(p: Product, timestamp: nat, draw: nat)
    requires Sound(p) && p.read < 3 && IsId(timestamp)
    requires 0 < draw && IsId(draw) && draw !in p.room.drawn
    ensures Enabled(p, ClientReads(timestamp))
      || (p.read == |Log(p)| && p.up != [] && (AtHello(p) || AtCredentials(p))
          && (Peer(p).open ==> Enabled(p, ServerReads(RP.HandshakeLoop, draw))))
  {}

  // ----- the handshake does complete -----

  /** The five handled messages, with nothing else happening. */
  function Exchange(timestamp: nat, draw: nat): (es: seq<Event>) {
    [ClientReads(timestamp), ServerReads(RP.HandshakeLoop, draw), ClientReads(timestamp),
     ServerReads(RP.HandshakeLoop, draw), ClientReads(timestamp)]
  }

  /** The session can still be admitted under the given id. */
  ghost predicate Admissible(p: Product, draw: nat)
    requires p.u < |p.room.sessions|
  {
    && Peer(p).open && Peer(p).handshakeReads == 1 && |p.room.members| < p.room.limit
    && 0 < draw && IsId(draw) && draw !in p.room.drawn
  }

  lemma ClientTurn(p: Product, timestamp: nat, draw: nat)
    requires Sound(p) && (AtHello(p) || AtCredentials(p)) && p.read == |Log(p)| - 1 && IsId(timestamp)
    requires Admissible(p, draw)
    ensures Enabled(p, ClientReads(timestamp))
    ensures var p' := Step(p, ClientReads(timestamp)).p;
      && Sound(p') && Admissible(p', draw) && p'.room == p.room && p'.u == p.u && p'.read == |Log(p')|
      && (AtHello(p) ==> AtHello(p')) && (AtCredentials(p) ==> AtCredentials(p'))
  {
    StepKeepsSound(p, ClientReads(timestamp));
  }

  lemma ServerTurn(p: Product, draw: nat)
    requires Sound(p) && AtHello(p) && p.read == 1 && Admissible(p, draw)
    ensures Enabled(p, ServerReads(RP.HandshakeLoop, draw)) && Step(p, ServerReads(RP.HandshakeLoop, draw)).Next?
    ensures var p' := Step(p, ServerReads(RP.HandshakeLoop, draw)).p;
      Sound(p') && AtCredentials(p') && p'.read == 1 && Admissible(p', draw) && p'.u == p.u
  {
    ServerReadsHelloAck(p, RP.HandshakeLoop, draw);
  }

  lemma AdmittingTurn(p: Product, draw: nat)
    requires Sound(p) && AtCredentials(p) && p.read == 2 && Admissible(p, draw)
    ensures Enabled(p, ServerReads(RP.HandshakeLoop, draw)) && Step(p, ServerReads(RP.HandshakeLoop, draw)).Next?
    ensures var p' := Step(p, ServerReads(RP.HandshakeLoop, draw)).p;
      && Sound(p') && AtJoin(p') && p'.read == 2 && p'.u == p.u
      && p'.u in p'.room.members && Peer(p').id == draw
  {
    var e := RP.ReadDone(p.u, RP.HandshakeLoop, CredentialsAck(true), draw);
    CredentialsAckStep(p, RP.HandshakeLoop, draw);
    ServerReadsCredentialsAck(p, RP.HandshakeLoop, draw);
    RT.AdmitsRoster(p.room, e, p.u);
    AdmittedUnder(p.room, p.u, draw);
  }

  lemma AdmittedUnder(r: RP.Room, u: nat, draw: nat)
    requires Inv(r) && RP.Enabled(r, RP.ReadDone(u, RP.HandshakeLoop, CredentialsAck(true), draw))
    requires |r.members| < r.limit
    ensures var o := RP.Handle(r, RP.ReadDone(u, RP.HandshakeLoop, CredentialsAck(true), draw));
      o.Next? && u < |o.room.sessions| && o.room.sessions[u].id == draw
  {}

  lemma LastTurn(p: Product, timestamp: nat)
    requires Sound(p) && AtJoin(p) && p.read == 2 && IsId(timestamp)
    ensures Enabled(p, ClientReads(timestamp))
    ensures var p' := Step(p, ClientReads(timestamp)).p;
      && Sound(p') && AtJoin(p') && p'.room == p.room && p'.u == p.u && p'.read == 3 && p'.client.armed
  {
    StepKeepsSound(p, ClientReads(timestamp));
  }

  lemma First(p: Product, e: Event, es: seq<Event>)
    requires Enabled(p, e) && Step(p, e).Next? && Legal(Step(p, e).p, es)
    ensures Legal(p, [e] + es) && After(p, [e] + es) == After(Step(p, e).p, es)
  {
    assert ([e] + es)[1..] == es;
  }

  /** The session is a member under the given id, and the client knows it and runs its timer. */
  ghost predicate Completed(p: Product, draw: nat) {
    && p.u in p.room.members && p.u < |p.room.sessions| && p.room.sessions[p.u].id == draw
    && p.client.participantId == draw && p.client.armed && p.trace == Script()
  }

  lemma JoinHalf(p: Product, timestamp: nat, draw: nat)
    requires Sound(p) && AtCredentials(p) && p.read == 1 && Admissible(p, draw) && IsId(timestamp)
    ensures var client, server := ClientReads(timestamp), ServerReads(RP.HandshakeLoop, draw);
      var es := [client] + ([server] + ([client] + []));
      Legal(p, es) && Completed(After(p, es), draw)
  {
    var client, server := ClientReads(timestamp), ServerReads(RP.HandshakeLoop, draw);
    ClientTurn(p, timestamp, draw);
    var p1 := Step(p, client).p;
    AdmittingTurn(p1, draw);
    var p2 := Step(p1, server).p;
    LastTurn(p2, timestamp);
    First(p2, client, []);
    First(p1, server, [client] + []);
    First(p, client, [server] + ([client] + []));
  }

  lemma HelloHalf(p: Product, timestamp: nat, draw: nat, es: seq<Event>)
    requires Sound(p) && AtHello(p) && p.read == 0 && Admissible(p, draw) && IsId(timestamp)
    requires es == [ClientReads(timestamp)] + ([ServerReads(RP.HandshakeLoop, draw)] + ([ClientReads(timestamp)] + []))
    ensures var all := [ClientReads(timestamp)] + ([ServerReads(RP.HandshakeLoop, draw)] + es);
      Legal(p, all) && Completed(After(p, all), draw)
  {
    var client, server := ClientReads(timestamp), ServerReads(RP.HandshakeLoop, draw);
    ClientTurn(p, timestamp, draw);
    var p1 := Step(p, client).p;
    ServerTurn(p1, draw);
    var p2 := Step(p1, server).p;
    JoinHalf(p2, timestamp, draw);
    First(p1, server, es);
    First(p, client, [server] + es);
  }

  lemma StartsAdmissible(r: RP.Room, service: nat, c: Client, draw: nat)
    requires RT.Reachable(r) && IsId(service) && WellFormed(c) && !c.armed
    requires |r.members| < r.limit && 0 < draw && IsId(draw) && draw !in r.drawn
    ensures var p := Start(r, service, c);
      Starts(p) && Sound(p) && AtHello(p) && p.read == 0 && Admissible(p, draw)
  {
    StartsSound(Start(r, service, c));
  }

  /** A connection to a server with space in its room can complete the handshake in five handled
      messages. */
  lemma HandshakeCompletes(r: RP.Room, service: nat, c: Client, timestamp: nat, draw: nat)
    requires RT.Reachable(r) && IsId(service) && WellFormed(c) && !c.armed && IsId(timestamp)
    requires |r.members| < r.limit && 0 < draw && IsId(draw) && draw !in r.drawn
    ensures var p := Start(r, service, c);
      Starts(p) && Legal(p, Exchange(timestamp, draw)) && Completed(After(p, Exchange(timestamp, draw)), draw)
  {
    var p := Start(r, service, c);
    StartsAdmissible(r, service, c, draw);
    Completes(p, timestamp, draw);
  }

  lemma Completes(p: Product, timestamp: nat, draw: nat)
    requires Sound(p) && AtHello(p) && p.read == 0 && Admissible(p, draw) && IsId(timestamp)
    ensures Legal(p, Exchange(timestamp, draw)) && Completed(After(p, Exchange(timestamp, draw)), draw)
  {
    var client, server := ClientReads(timestamp), ServerReads(RP.HandshakeLoop, draw);
    var es := [client] + ([server] + ([client] + []));
    HelloHalf(p, timestamp, draw, es);
    ExchangeIs(timestamp, draw, es);
  }

  lemma ExchangeIs(timestamp: nat, draw: nat, es: seq<Event>)
    requires es == [ClientReads(timestamp)] + ([ServerReads(RP.HandshakeLoop, draw)] + ([ClientReads(timestamp)] + []))
    ensures Exchange(timestamp, draw) == [ClientReads(timestamp)] + ([ServerReads(RP.HandshakeLoop, draw)] + es)
  {}
}
