/** Exactly when a client over the wire is told the id of its session, what it knows of the room, and
    that the handshake goes on. */
module WiredJoin {
  import opened Bytes
  import opened Messages
  import opened Frames
  import opened ClientDispatch
  import opened Wired
  import opened WiredRuns
  import RI = RoomInvariant
  import RP = RoomProtocol
  import RT = RoomTheorems
  import RoomFaults
  import Bystanders
  import Streams
  import HS = Handshake
  import SC = SessionChannel
  import SW = SessionWriters
  import CC = ClientChannel
  import Schedules

  // ----- the JOIN the client is shown -----

  /** If the third message shown to the client is a JOIN, it tells the id. */
  ghost predicate Tells(c: SC.Channel, id: nat) {
    |c.stream.dispatched| > 2 && Decode(c.stream.dispatched[2]).Join? ==> Decode(c.stream.dispatched[2]).id == id
  }

  /** So it does whatever is delivered next, and whatever the writes and the network do. */
  ghost predicate AlwaysTells(c: SC.Channel, id: nat) {
    forall ss :: SC.Legal(c, ss) ==> Tells(SC.After(c, ss), id)
  }

  lemma HeadAndIdDecide(m: Wire, join: Wire)
    requires m[..16] == join[..16] && Decode(join).Join?
    ensures Decode(m) == Decode(join)
  {
    DecodeCases(join, Decode(join));
    DecodeCases(m, Decode(m));
    assert m[0..2] == m[..16][0..2] && join[0..2] == join[..16][0..2];
    assert Payload(m)[0..8] == m[..16][8..16] && Payload(join)[0..8] == join[..16][8..16];
  }

  /** Another last byte of the id is another id. */
  lemma TopByteDecides(m: Wire, join: Wire)
    requires m[..8] == join[..8] && Decode(join).Join? && m[15] != join[15]
    ensures Decode(m).Join? && Decode(m).id != Decode(join).id
  {
    DecodeCases(join, Decode(join));
    DecodeCases(m, Decode(m));
    assert m[0..2] == m[..8][0..2] && join[0..2] == join[..8][0..2];
    var a, b := Payload(m)[0..8], Payload(join)[0..8];
    ImageOfNumber(a);
    ImageOfNumber(b);
    assert a[7] == m[15] && b[7] == join[15];
  }

  lemma ShownByte(c: SC.Channel, i: nat)
    requires Schedules.Counted(c) && |c.stream.dispatched| > 2 && i < MESSAGE_SIZE
    ensures MESSAGE_SIZE * 2 + i < |c.stream.pushed|
    ensures c.stream.dispatched[2][i] == c.stream.pushed[MESSAGE_SIZE * 2 + i]
  {
    Schedules.FlattenAt(c.stream.dispatched, 2, i);
  }

  lemma {:induction false} FramesStay(c: SC.Channel, ss: seq<SC.Event>)
    requires SC.Legal(c, ss)
    ensures c.frames <= SC.After(c, ss).frames
    decreases |ss|
  {
    if ss == [] {
    } else {
      FramesStay(SC.Step(c, ss[0]), ss[1..]);
    }
  }

  lemma InPlaceTells(c: SC.Channel)
    requires Schedules.Counted(c) && Schedules.InPlace(c, 2, 16) && Decode(c.frames[2]).Join?
    ensures Tells(c, Decode(c.frames[2]).id)
  {
    if |c.stream.dispatched| > 2 {
      var m, join := c.stream.dispatched[2], c.frames[2];
      forall i | 0 <= i < 16
        ensures m[..16][i] == join[..16][i]
      {
        ShownByte(c, i);
      }
      assert m[..16] == join[..16];
      HeadAndIdDecide(m, join);
    }
  }

  lemma SentTells(c: SC.Channel)
    requires Schedules.LastInTurn(c, 2) && Schedules.Counted(c) && Decode(c.frames[2]).Join? && c.sent[2] >= 16
    ensures AlwaysTells(c, Decode(c.frames[2]).id)
  {
    Schedules.SentInPlace(c, 2);
    forall ss | SC.Legal(c, ss)
      ensures Tells(SC.After(c, ss), Decode(c.frames[2]).id)
    {
      Schedules.RunStaysInPlace(c, ss, 2, 16);
      Schedules.RunConserves(c, ss);
      FramesStay(c, ss);
      InPlaceTells(SC.After(c, ss));
    }
  }

  lemma BrokenTells(c: SC.Channel, id: nat)
    requires Schedules.LastInTurn(c, 2) && Schedules.Counted(c) && c.broken && c.sent[2] < 16
    ensures AlwaysTells(c, id)
  {
    Schedules.SentInPlace(c, 2);
    forall ss | SC.Legal(c, ss)
      ensures Tells(SC.After(c, ss), id)
    {
      Schedules.BrokenSendsNothing(c, ss);
      Schedules.RunConserves(c, ss);
      Streams.FlattenSize(SC.After(c, ss).stream.dispatched);
    }
  }

  // ----- a frame that takes the place of the id -----

  /** Everything that has been sent arrives. */
  lemma {:induction false} AllArrives(c: SC.Channel) returns (ss: seq<SC.Event>)
    requires Schedules.Counted(c)
    ensures SC.Legal(c, ss)
    ensures var c' := SC.After(c, ss);
      Schedules.Counted(c') && c'.stream.transit == [] && c'.stream.pushed == c.stream.pushed && c'.frames == c.frames
    decreases |c.stream.transit|
  {
    var left := MESSAGE_SIZE - |c.stream.partial|;
    if c.stream.transit == [] {
      ss := [];
    } else {
      var e := SC.Receives(if |c.stream.transit| < left then |c.stream.transit| else left);
      Schedules.StepCounted(c, e);
      var rest := AllArrives(SC.Step(c, e));
      Schedules.RunBegins(c, e, rest);
      ss := [e] + rest;
    }
  }

  /** The writes begin, and JOIN is sent up to its head at least. */
  ghost predicate HeadSent(c: SC.Channel) {
    && Schedules.LastInTurn(c, 2) && Schedules.Counted(c) && !c.broken && c.writer.posted == []
    && 8 <= c.sent[2] < 16
  }

  lemma HeadGoesOut(c: SC.Channel) returns (ss: seq<SC.Event>)
    requires Schedules.LastInTurn(c, 2) && Schedules.Counted(c) && !c.broken && c.sent[2] < 16
    ensures SC.Legal(c, ss) && HeadSent(SC.After(c, ss)) && SC.After(c, ss).frames == c.frames
  {
    var starts := Schedules.AllStart(c);
    var c1 := SC.After(c, starts);
    StartedInTurn(c, c1);
    if c.sent[2] >= 8 {
      ss := starts;
    } else {
      var e := SC.Sends(2, 8 - c.sent[2]);
      assert 2 in c1.writer.inFlight;
      SC.StepInTurn(c1, e);
      SC.StepNumbered(c1, e);
      Schedules.StepCounted(c1, e);
      Schedules.RunEnds(c, starts, e);
      ss := starts + [e];
    }
  }

  lemma StartedInTurn(c: SC.Channel, c1: SC.Channel)
    requires Schedules.LastInTurn(c, 2) && Schedules.Counted(c) && SC.Numbered(c1)
    requires c1.frames == c.frames && c1.sent == c.sent && c1.stream == c.stream
    ensures Schedules.LastInTurn(c1, 2) && Schedules.Counted(c1)
  {
    var at: nat :| SC.SentUpTo(c, at);
    assert SC.SentUpTo(c1, at);
  }

  /** The next frame is sent from where JOIN stopped to the end of the message. */
  lemma NextFrameGoesOut(c: SC.Channel, w: Wire) returns (ss: seq<SC.Event>)
    requires HeadSent(c)
    ensures SC.Legal(c, ss)
    ensures var c' := SC.After(c, ss);
      && Schedules.Counted(c') && c'.stream.pushed == c.stream.pushed + w[..MESSAGE_SIZE - c.sent[2]]
  {
    var n := MESSAGE_SIZE - c.sent[2];
    var c1 := SC.Step(c, SC.Delivered(w));
    SC.StepNumbered(c, SC.Delivered(w));
    Schedules.StepCounted(c, SC.Delivered(w));
    assert c1.writer.posted == [3];
    var c2 := SC.Step(c1, SC.PostedRuns);
    SC.StepNumbered(c1, SC.PostedRuns);
    Schedules.StepCounted(c1, SC.PostedRuns);
    assert 3 in c2.writer.inFlight;
    Schedules.StepCounted(c2, SC.Sends(3, n));
    assert w[0..n] == w[..n];
    var c3 := SC.Step(c2, SC.Sends(3, n));
    assert SC.Legal(c3, []) && SC.After(c3, []) == c3;
    Schedules.RunBegins(c2, SC.Sends(3, n), []);
    Schedules.RunBegins(c1, SC.PostedRuns, [SC.Sends(3, n)] + []);
    Schedules.RunBegins(c, SC.Delivered(w), [SC.PostedRuns] + ([SC.Sends(3, n)] + []));
    ss := [SC.Delivered(w)] + ([SC.PostedRuns] + ([SC.Sends(3, n)] + []));
  }

  /** Three whole messages have been sent and have arrived. */
  lemma ThirdIsShown(c: SC.Channel)
    requires Schedules.Counted(c) && c.stream.transit == [] && |c.stream.pushed| == MESSAGE_SIZE * 3
    ensures |c.stream.dispatched| == 3
  {
    Streams.FlattenSize(c.stream.dispatched);
  }

  lemma WrongIdIsShown(c: SC.Channel, c': SC.Channel, w: Wire)
    requires HeadSent(c) && Decode(c.frames[2]).Join? && w[15 - c.sent[2]] != c.frames[2][15]
    requires Schedules.Counted(c') && c'.stream.transit == []
    requires c'.stream.pushed == c.stream.pushed + w[..MESSAGE_SIZE - c.sent[2]]
    ensures !Tells(c', Decode(c.frames[2]).id)
  {
    Schedules.SentInPlace(c, 2);
    var o, join := c.sent[2], c.frames[2];
    ThirdIsShown(c');
    var m := c'.stream.dispatched[2];
    forall i | 0 <= i < 8
      ensures m[..8][i] == join[..8][i]
    {
      ShownByte(c', i);
      assert c'.stream.pushed[MESSAGE_SIZE * 2 + i] == c.stream.pushed[MESSAGE_SIZE * 2 + i];
    }
    assert m[..8] == join[..8];
    ShownByte(c', 15);
    assert c'.stream.pushed[MESSAGE_SIZE * 2 + 15] == w[..MESSAGE_SIZE - o][15 - o];
    TopByteDecides(m, join);
  }

  lemma NotAlwaysTells(c: SC.Channel)
    requires Schedules.LastInTurn(c, 2) && Schedules.Counted(c) && Decode(c.frames[2]).Join?
    requires !c.broken && c.sent[2] < 16
    ensures !AlwaysTells(c, Decode(c.frames[2]).id)
  {
    var first := HeadGoesOut(c);
    var c1 := SC.After(c, first);
    var w := SC.Filled(if c.frames[2][15] == 0 then 1 else 0);
    var next := NextFrameGoesOut(c1, w);
    var c2 := SC.After(c1, next);
    var last := AllArrives(c2);
    SC.RunsCompose(c1, next, last);
    SC.RunsCompose(c, first, next + last);
    WrongIdIsShown(c1, SC.After(c2, last), w);
    assert !Tells(SC.After(c, first + (next + last)), Decode(c.frames[2]).id);
  }

  // ----- over the wire -----

  /** When JOIN has been handed over and nothing has followed it yet: whatever is handed over next, and
      whatever the writes and the network do, a JOIN that the client is shown in its place tells the id
      of the session, if and only if the socket sends nothing more or the 16 bytes of the head and the
      id have been sent. */
  lemma WireTellsIff(f: State, es: seq<Event>)
    requires Starts(f) && Legal(f, es) && |Log(After(f, es))| == 3
    ensures var g := After(f, es);
      && g.u < |g.room.sessions| && |g.down.sent| == 3
      && (AlwaysTells(g.down, g.room.sessions[g.u].id) <==> g.down.broken || g.down.sent[2] >= 16)
  {
    var g := After(f, es);
    JoinInTurn(f, es);
    JoinOfSession(f, es);
    if g.down.sent[2] >= 16 {
      SentTells(g.down);
    } else if g.down.broken {
      BrokenTells(g.down, g.room.sessions[g.u].id);
    } else {
      NotAlwaysTells(g.down);
    }
  }

  lemma JoinOfSession(f: State, es: seq<Event>)
    requires Starts(f) && Legal(f, es) && |Log(After(f, es))| == 3
    ensures var g := After(f, es);
      && RI.Inv(g.room) && g.u < |g.room.sessions| && g.room.sessions[g.u].handshakeReads == 0
      && |g.down.frames| == 3 && Decode(g.down.frames[2]) == Frame.Join(g.room.sessions[g.u].id)
      && Schedules.Counted(g.down)
  {
    RunCoupled(f, es);
    var g := After(f, es);
    assert HS.AtJoin(View(g));
    assert Decode(g.down.frames[2]) == Log(g)[2];
  }

  // ----- the id of a session that has left the handshake -----

  lemma RoomKeepsId(r: RP.Room, e: RP.Event, u: nat)
    requires RI.Inv(r) && u < |r.sessions| && r.sessions[u].handshakeReads == 0
    requires RP.Enabled(r, e) && RP.Step(r, e).Next?
    ensures var r' := RP.Step(r, e).room;
      && RI.Inv(r') && u < |r'.sessions|
      && r'.sessions[u].handshakeReads == 0 && r'.sessions[u].id == r.sessions[u].id
  {
    RI.StepKeeps(r, e);
    var o := RP.Handle(r, e);
    if e.ReadDone? && e.s == u {
      Bystanders.SessionReadStandsBy(r, u, e.m, u);
    } else {
      Bystanders.StepStandsBy(r, e, u);
    }
  }

  lemma StepKeepsId(f: State, e: Event)
    requires RI.Inv(f.room) && f.u < |f.room.sessions| && f.room.sessions[f.u].handshakeReads == 0
    requires Enabled(f, e) && Step(f, e).Next?
    ensures var g := Step(f, e).f;
      && RI.Inv(g.room) && g.u == f.u < |g.room.sessions|
      && g.room.sessions[g.u].handshakeReads == 0 && g.room.sessions[g.u].id == f.room.sessions[f.u].id
  {
    match e
    case Elsewhere(e, ws) => RoomKeepsId(f.room, e, f.u);
    case ServerReads(loop, draw, ws) => RoomKeepsId(f.room, ReadOf(f, loop, draw), f.u);
    case _ =>
  }

  lemma {:induction false} RunKeepsId(f: State, es: seq<Event>)
    requires RI.Inv(f.room) && f.u < |f.room.sessions| && f.room.sessions[f.u].handshakeReads == 0
    requires Legal(f, es)
    ensures var g := After(f, es);
      g.u == f.u < |g.room.sessions| && g.room.sessions[g.u].id == f.room.sessions[f.u].id
    decreases |es|
  {
    if es == [] {
    } else {
      StepKeepsId(f, es[0]);
      RunKeepsId(Step(f, es[0]).f, es[1..]);
    }
  }

  lemma ClientTakesId(h: State, timestamp: nat, id: nat)
    requires Enabled(h, ClientReads(timestamp)) && h.seen == 2
    requires Decode(h.down.stream.dispatched[2]) == Frame.Join(id)
    ensures Step(h, ClientReads(timestamp)).Next?
    ensures Step(h, ClientReads(timestamp)).f.client.participantId == id
  {}

  /** Under that condition the client takes the id of its session from the JOIN it is shown, in every
      continuation of the run, tidy or not. */
  lemma ClientIsToldItsId(f: State, es: seq<Event>, more: seq<Event>, timestamp: nat)
    requires Starts(f) && Legal(f, es) && |Log(After(f, es))| == 3 && |After(f, es).down.sent| == 3
    requires After(f, es).down.broken || After(f, es).down.sent[2] >= 16
    requires Legal(After(f, es), more) && After(After(f, es), more).seen == 2
    requires Enabled(After(After(f, es), more), ClientReads(timestamp))
    requires Decode(After(After(f, es), more).down.stream.dispatched[2]).Join?
    ensures var h := After(After(f, es), more);
      && h.u < |h.room.sessions| && Step(h, ClientReads(timestamp)).Next?
      && Step(h, ClientReads(timestamp)).f.client.participantId == h.room.sessions[h.u].id
  {
    var g, h := After(f, es), After(After(f, es), more);
    WireTellsIff(f, es);
    JoinOfSession(f, es);
    RunKeepsId(g, more);
    RunOfLink(g, more);
    assert Tells(SC.After(g.down, DownRun(more)), g.room.sessions[g.u].id);
    ClientTakesId(h, timestamp, g.room.sessions[g.u].id);
  }

  // ----- what the client knows of the room -----

  /** The frames the client has handled. */
  function Handled(f: State): (fs: seq<Frame>) {
    seq(Min(f.seen, |f.down.stream.dispatched|), i requires 0 <= i < |f.down.stream.dispatched| =>
      Decode(f.down.stream.dispatched[i]))
  }

  lemma HandledIsPrefix(g: State)
    requires Coupled(g)
    ensures |Handled(g)| == g.seen <= |Log(g)| && Handled(g) == Log(g)[..g.seen]
  {
    InTurnShows(g.down);
  }

  lemma {:induction false} RoomReachable(f: State, es: seq<Event>)
    requires RT.Reachable(f.room) && Legal(f, es)
    ensures RT.Reachable(After(f, es).room)
    decreases |es|
  {
    if es == [] {
    } else {
      match es[0] {
        case Elsewhere(e, ws) => RoomFaults.ReachableStep(f.room, e);
        case ServerReads(loop, draw, ws) => RoomFaults.ReachableStep(f.room, ReadOf(f, loop, draw));
        case _ =>
      }
      RoomReachable(Step(f, es[0]).f, es[1..]);
    }
  }

  lemma StartRoomReachable(f: State)
    requires Starts(f)
    ensures RT.Reachable(f.room)
  {
    var r, service: nat, c, hello: Wire :|
      && RT.Reachable(r) && IsId(service) && WellFormed(c) && !c.armed && Decode(hello) == Hello(service, 0)
      && f == Start(r, service, c, hello);
    RoomFaults.ReachableStep(r, RP.Accept(service, 0));
  }

  /** In a tidy run the frames the client has handled are the first of its session's log, so its picture
      of the room is one the log has given before; when it has handled them all and the session is a
      member, it is the members its session is acquainted with. */
  lemma WireViewIsOfTheLog(f: State, es: seq<Event>)
    requires Starts(f) && Legal(f, es) && (Tidy(f, es) || |Log(After(f, es))| <= 3)
    ensures var g := After(f, es);
      && g.seen <= |Log(g)| && RI.View(Handled(g)) == RI.View(Log(g)[..g.seen])
      && (g.seen == |Log(g)| && g.u in g.room.members ==>
            g.u < |g.room.sessions| && RI.View(Handled(g)) == RT.AcquaintedIds(g.room, g.u))
  {
    RunCoupled(f, es);
    var g := After(f, es);
    HandledIsPrefix(g);
    if g.seen == |Log(g)| && g.u in g.room.members {
      StartRoomReachable(f);
      RoomReachable(f, es);
      WholeLogShows(g.room, g.u, Handled(g));
    }
  }

  lemma WholeLogShows(r: RP.Room, u: nat, fs: seq<Frame>)
    requires RT.Reachable(r) && u in r.members && fs == HS.LogOf(r, u)[..|HS.LogOf(r, u)|]
    ensures u < |r.sessions| && RI.View(fs) == RT.AcquaintedIds(r, u)
  {
    RT.ViewsTrackTheRoom(r, u);
    assert fs == r.sessions[u].log;
  }

  // ----- the handshake goes on -----

  /** The events that take the handshake on: no delivery from elsewhere, and no failure. */
  predicate Advances(e: Event) {
    match e
    case ClientReads(_) => true
    case ServerReads(_, _, _) => true
    case Down(s) => s.PostedRuns? || s.Sends? || s.Receives?
    case Up(c) => c.PostedRuns? || c.Sends? || c.WriteCompletes? || c.Receives?
    case _ => false
  }

  lemma SomeUnsent(c: SC.Channel) returns (j: nat)
    requires Schedules.Counted(c) && c.stream.transit == [] && |c.stream.dispatched| < |c.frames|
    ensures j < |c.sent| && c.sent[j] < MESSAGE_SIZE
  {
    Streams.FlattenSize(c.stream.dispatched);
    assert |c.stream.pushed| == MESSAGE_SIZE * |c.stream.dispatched| + |c.stream.partial| < MESSAGE_SIZE * |c.sent|;
    if forall i :: 0 <= i < |c.sent| ==> c.sent[i] == MESSAGE_SIZE {
      AllSentIsFull(c.sent);
      assert false;
    }
    j :| j < |c.sent| && c.sent[j] != MESSAGE_SIZE;
  }

  lemma {:induction false} AllSentIsFull(ns: seq<nat>)
    requires forall i :: 0 <= i < |ns| ==> ns[i] == MESSAGE_SIZE
    ensures Schedules.Sum(ns) == MESSAGE_SIZE * |ns|
    decreases |ns|
  {
    if ns == [] {
    } else {
      AllSentIsFull(ns[..|ns| - 1]);
    }
  }

  lemma DownAdvances(c: SC.Channel) returns (s: SC.Event)
    requires Schedules.Counted(c) && SC.Numbered(c) && !c.broken && |c.stream.dispatched| < |c.frames|
    ensures SC.Enabled(c, s) && Advances(Down(s))
  {
    if c.stream.transit != [] {
      s := SC.Receives(1);
    } else if c.writer.posted != [] {
      s := SC.PostedRuns;
    } else {
      var j := SomeUnsent(c);
      assert j in c.writer.inFlight;
      s := SC.Sends(j, 1);
    }
  }

  lemma UpAdvances(c: CC.Channel) returns (e: CC.Event)
    requires CC.Sound(c) && !c.writer.failed && |c.stream.dispatched| < |c.writer.passed|
    ensures CC.Enabled(c, e) && Advances(Up(e))
  {
    if c.stream.transit != [] {
      e := CC.Receives(1);
    } else if c.writer.posted != [] {
      e := CC.PostedRuns;
    } else if c.writer.deque == [] {
      Streams.FlattenSize(c.stream.dispatched);
      Streams.FlattenSize(c.writer.completed);
      assert false;
    } else {
      e := if c.offset == MESSAGE_SIZE then CC.WriteCompletes else CC.Sends(1);
    }
  }

  lemma CredentialsAreSpelled(g: State, draw: nat)
    requires Coupled(g) && g.handled < |g.up.stream.dispatched| && HS.AtHello(View(g))
    requires HS.Enabled(View(g), HS.ServerReads(RP.HandshakeLoop, draw))
    ensures Enabled(g, ServerReads(RP.HandshakeLoop, draw, [CredentialsMessage()]))
  {
    NextMessage(g);
    HS.HelloAckStep(View(g), RP.HandshakeLoop, draw);
    DecodeCredentials();
    HandsOne(g, RP.HandshakeLoop, draw, CredentialsMessage(), ReadOf(g, RP.HandshakeLoop, draw));
  }

  lemma JoinIsSpelled(g: State, draw: nat) returns (id: nat)
    requires Coupled(g) && g.handled < |g.up.stream.dispatched| && HS.AtCredentials(View(g))
    requires HS.Enabled(View(g), HS.ServerReads(RP.HandshakeLoop, draw))
    ensures IsId(id) && Enabled(g, ServerReads(RP.HandshakeLoop, draw, [JoinMessage(id)]))
  {
    NextMessage(g);
    HS.CredentialsAckStep(View(g), RP.HandshakeLoop, draw);
    id := RP.Step(g.room, ReadOf(g, RP.HandshakeLoop, draw)).room.sessions[g.u].id;
    DecodeJoin(id);
    HandsOne(g, RP.HandshakeLoop, draw, JoinMessage(id), ReadOf(g, RP.HandshakeLoop, draw));
  }

  /** The server's answer to what the client says in the handshake can be spelled out. */
  lemma AnswerIsSpelled(g: State, draw: nat) returns (ws: seq<Wire>)
    requires Coupled(g) && g.handled < |g.up.stream.dispatched|
    requires HS.AtHello(View(g)) || HS.AtCredentials(View(g))
    requires HS.Enabled(View(g), HS.ServerReads(RP.HandshakeLoop, draw))
    ensures Enabled(g, ServerReads(RP.HandshakeLoop, draw, ws))
  {
    if HS.AtHello(View(g)) {
      CredentialsAreSpelled(g, draw);
      ws := [CredentialsMessage()];
    } else {
      var id := JoinIsSpelled(g, draw);
      ws := [JoinMessage(id)];
    }
  }

  /** A socket is closed or its writing has failed. */
  predicate Disconnected(g: State) {
    g.down.broken || g.up.writer.failed || (g.u < |g.room.sessions| && !g.room.sessions[g.u].open)
  }

  lemma CoupledAdvances(g: State, timestamp: nat, draw: nat) returns (e: Event)
    requires Coupled(g) && SC.Numbered(g.down) && g.seen < 3 && !Disconnected(g)
    requires IsId(timestamp) && 0 < draw && IsId(draw) && draw !in g.room.drawn
    ensures Enabled(g, e) && Advances(e)
  {
    InTurnShows(g.down);
    CC.SoundDelivers(g.up);
    HS.SoundNeverStalls(View(g), timestamp, draw);
    if g.seen < |g.down.stream.dispatched| {
      e := ClientReads(timestamp);
    } else if g.seen < |Log(g)| {
      var s := DownAdvances(g.down);
      e := Down(s);
    } else if g.handled < |g.up.stream.dispatched| {
      var ws := AnswerIsSpelled(g, draw);
      e := ServerReads(RP.HandshakeLoop, draw, ws);
    } else {
      var c := UpAdvances(g.up);
      e := Up(c);
    }
  }

  /** Over the wire too the handshake never stalls: until the client has handled JOIN some step takes it
      on, unless a socket is closed. */
  lemma WireNeverStalls(f: State, es: seq<Event>, timestamp: nat, draw: nat) returns (e: Event)
    requires Starts(f) && Legal(f, es) && (Tidy(f, es) || |Log(After(f, es))| <= 3)
    requires After(f, es).seen < 3 && !Disconnected(After(f, es))
    requires IsId(timestamp) && 0 < draw && IsId(draw) && draw !in After(f, es).room.drawn
    ensures Enabled(After(f, es), e) && Advances(e)
  {
    RunCoupled(f, es);
    WireNumbered(f, es);
    e := CoupledAdvances(After(f, es), timestamp, draw);
  }
}
