/** Two runs over the wire that show what the server does not keep: writes overlap already in the
    handshake, and a frame that overtakes JOIN gives the client a wrong id. */
module WiredLimits {
  import opened Bytes
  import opened Protocol
  import opened Messages
  import opened Frames
  import opened ClientDispatch
  import opened Wired
  import RI = RoomInvariant
  import RP = RoomProtocol
  import RT = RoomTheorems
  import HS = Handshake
  import SC = SessionChannel
  import CC = ClientChannel
  import Schedules
  import RoomFaults

  ghost predicate Reach(f: State) {
    exists start, es :: Starts(start) && Legal(start, es) && f == After(start, es)
  }

  lemma {:induction false} RunSnoc(f: State, es: seq<Event>, e: Event)
    requires Legal(f, es) && Enabled(After(f, es), e) && Step(After(f, es), e).Next?
    ensures Legal(f, es + [e]) && After(f, es + [e]) == Step(After(f, es), e).f
    decreases |es|
  {
    if es == [] {
      var f' := Step(f, e).f;
      assert ([] + [e])[1..] == [] && Legal(f', []) && After(f', []) == f';
    } else {
      assert (es + [e])[1..] == es[1..] + [e];
      RunSnoc(Step(f, es[0]).f, es[1..], e);
    }
  }

  lemma ReachStep(f: State, e: Event)
    requires Reach(f) && Enabled(f, e) && Step(f, e).Next?
    ensures Reach(Step(f, e).f)
  {
    var start, es :| Starts(start) && Legal(start, es) && f == After(start, es);
    RunSnoc(start, es, e);
  }

  // ----- several steps of one link -----

  lemma {:induction false} DownSteps(f: State, ss: seq<SC.Event>)
    requires Reach(f) && SC.Legal(f.down, ss) && Schedules.NoDelivery(ss)
    ensures Reach(f.(down := SC.After(f.down, ss)))
    ensures Coupled(f) && SC.Tidy(f.down, ss) ==> Coupled(f.(down := SC.After(f.down, ss)))
    decreases |ss|
  {
    if ss == [] {
      assert f.(down := f.down) == f;
    } else {
      assert ss[0] in ss && forall s :: s in ss[1..] ==> s in ss;
      var f' := Step(f, Down(ss[0])).f;
      ReachStep(f, Down(ss[0]));
      if Coupled(f) && SC.Tidy(f.down, ss) {
        DownKeeps(f, ss[0]);
      }
      DownSteps(f', ss[1..]);
      assert f'.(down := SC.After(f'.down, ss[1..])) == f.(down := SC.After(f.down, ss));
    }
  }

  lemma {:induction false} UpSteps(f: State, cs: seq<CC.Event>)
    requires Reach(f) && Coupled(f) && CC.Legal(f.up, cs) && forall c :: c in cs ==> !c.WriteByte?
    ensures Reach(f.(up := CC.After(f.up, cs))) && Coupled(f.(up := CC.After(f.up, cs)))
    ensures View(f.(up := CC.After(f.up, cs))) == View(f)
    decreases |cs|
  {
    if cs == [] {
      assert f.(up := f.up) == f;
    } else {
      assert cs[0] in cs && forall c :: c in cs[1..] ==> c in cs;
      var f' := f.(up := CC.Step(f.up, cs[0]));
      OneUpStep(f, cs[0]);
      UpSteps(f', cs[1..]);
      assert f'.(up := CC.After(f'.up, cs[1..])) == f.(up := CC.After(f.up, cs));
    }
  }

  lemma OneUpStep(f: State, c: CC.Event)
    requires Reach(f) && Coupled(f) && !c.WriteByte? && CC.Enabled(f.up, c)
    ensures var f' := f.(up := CC.Step(f.up, c));
      Reach(f') && Coupled(f') && View(f') == View(f)
  {
    ReachStep(f, Up(c));
    UpKeeps(f, c);
    UpIs(f.up, c);
  }

  // ----- one frame goes down, one message goes up -----

  /** The last frame is posted and the client has been shown all others. */
  ghost predicate Posted(c: SC.Channel) {
    && |c.frames| == |c.sent| > 0 && SC.OneLeft(c) && !c.broken
    && c.writer.posted == [|c.frames| - 1] && c.writer.deque == [] && |c.writer.inFlight| == |c.frames| - 1
    && c.sent[|c.sent| - 1] == 0
    && c.stream.transit == [] && c.stream.partial == [] && |c.stream.dispatched| == |c.frames| - 1
  }

  /** The client has been shown every frame, and no completion handler has run. */
  ghost predicate Shown(c: SC.Channel) {
    && |c.frames| == |c.sent| && SC.OneLeft(c) && SC.AllSentBefore(c, |c.sent|) && !c.broken
    && c.writer.posted == [] && c.writer.deque == [] && |c.writer.inFlight| == |c.frames|
    && c.stream.transit == [] && c.stream.partial == [] && |c.stream.dispatched| == |c.frames|
  }

  lemma Before(c: SC.Channel, s: SC.Event, ss: seq<SC.Event>)
    requires SC.Enabled(c, s) && SC.Legal(SC.Step(c, s), ss)
    ensures SC.Legal(c, [s] + ss) && SC.After(c, [s] + ss) == SC.After(SC.Step(c, s), ss)
    ensures SC.Tidy(c, [s] + ss) <==> (s.Sends? ==> SC.AllSentBefore(c, s.j)) && SC.Tidy(SC.Step(c, s), ss)
  {
    assert ([s] + ss)[1..] == ss;
  }

  lemma OneFrameDown(c: SC.Channel) returns (ss: seq<SC.Event>)
    requires Posted(c)
    ensures SC.Legal(c, ss) && Schedules.NoDelivery(ss) && SC.Tidy(c, ss)
    ensures Shown(SC.After(c, ss)) && SC.After(c, ss).frames == c.frames
  {
    var m, w := |c.frames| - 1, c.frames[|c.frames| - 1];
    var c1 := SC.Step(c, SC.PostedRuns);
    assert c1.writer.inFlight[m] == m;
    var c2 := SC.Step(c1, SC.Sends(m, 65536));
    assert w[0..65536] == w && c2.stream.transit == w;
    assert w[..65536] == w && [] + w == w;
    var c3 := SC.Step(c2, SC.Receives(65536));
    assert c3.stream.transit == [] && c3.stream.dispatched == c.stream.dispatched + [w];
    Before(c2, SC.Receives(65536), []);
    Before(c1, SC.Sends(m, 65536), [SC.Receives(65536)] + []);
    Before(c, SC.PostedRuns, [SC.Sends(m, 65536)] + ([SC.Receives(65536)] + []));
    ss := [SC.PostedRuns] + ([SC.Sends(m, 65536)] + ([SC.Receives(65536)] + []));
  }

  ghost predicate UpIdle(c: CC.Channel) {
    && c.writer.posted == [] && c.writer.deque == [] && !c.writer.writing && !c.writer.failed && c.offset == 0
    && c.stream.transit == [] && c.stream.partial == [] && c.stream.dispatched == c.writer.passed
  }

  lemma OneMessageUp(c: CC.Channel, w: Wire) returns (cs: seq<CC.Event>)
    requires UpIdle(c)
    ensures var said := CC.Step(c, CC.WriteByte(w));
      && CC.Legal(said, cs) && (forall e :: e in cs ==> !e.WriteByte?)
      && UpIdle(CC.After(said, cs)) && CC.After(said, cs).writer.passed == c.writer.passed + [w]
  {
    var said := CC.Step(c, CC.WriteByte(w));
    cs := [CC.PostedRuns, CC.Sends(65536), CC.WriteCompletes, CC.Receives(65536)];
    var c1 := CC.Step(said, cs[0]);
    assert c1.writer.deque == [w] && c1.writer.writing;
    var c2 := CC.Step(c1, cs[1]);
    assert w[0..65536] == w && c2.stream.transit == w;
    var c3 := CC.Step(c2, cs[2]);
    assert c3.writer.deque == [] && c3.stream.partial + w[..65536] == w;
    var c4 := CC.Step(c3, cs[3]);
    assert c4.stream.transit == [] && c4.stream.dispatched == c.stream.dispatched + [w];
    assert cs[1..][0] == cs[1] && cs[1..][1..][0] == cs[2] && cs[1..][1..][1..][0] == cs[3];
    assert cs[1..][1..][1..][1..] == [];
  }

  // ----- the halves of the handshake -----

  /** A frame waits to go down; all else has been handled. */
  ghost predicate Waiting(f: State) {
    && Reach(f) && Coupled(f) && Posted(f.down) && UpIdle(f.up)
    && f.seen == |f.down.frames| - 1 && f.handled == |f.up.stream.dispatched|
  }

  /** The client has handled every frame, and its reply waits for the server. */
  ghost predicate Replied(f: State) {
    && Reach(f) && Coupled(f) && Shown(f.down) && UpIdle(f.up)
    && f.seen == |f.down.frames| && f.handled == |f.up.stream.dispatched| - 1
  }

  lemma Descends(f: State) returns (g: State)
    requires Waiting(f)
    ensures Reach(g) && Coupled(g) && Shown(g.down) && g == f.(down := g.down) && g.down.frames == f.down.frames
    ensures View(g) == View(f)
  {
    var ss := OneFrameDown(f.down);
    DownSteps(f, ss);
    g := f.(down := SC.After(f.down, ss));
  }

  lemma SpeakOne(c: CC.Channel, w: Wire)
    ensures Speak(c, [w]) == CC.Step(c, CC.WriteByte(w))
  {
    var one: seq<Wire> := [w];
    assert one[1..] == [] && Speak(CC.Step(c, CC.WriteByte(w)), one[1..]) == CC.Step(c, CC.WriteByte(w));
  }

  /** The client has been shown a frame and answers it with one message. */
  lemma Speaks(d: State, timestamp: nat, frame: Frame, w: Wire) returns (h: State)
    requires Reach(d) && Coupled(d) && d.seen < |d.down.stream.dispatched| && IsId(timestamp)
    requires d.seen < |Log(d)| && frame == Log(d)[d.seen] && GoodFrame(frame) && Reply(frame, timestamp) == [w]
    ensures Reach(h) && Coupled(h) && h.room == d.room && h.u == d.u && h.down == d.down && h.seen == d.seen + 1
    ensures h.handled == d.handled && h.up == CC.Step(d.up, CC.WriteByte(w))
    ensures HS.Enabled(View(d), HS.ClientReads(timestamp))
    ensures HS.Step(View(d), HS.ClientReads(timestamp)) == HS.Next(View(h))
  {
    ReachStep(d, ClientReads(timestamp));
    ClientReadsKeeps(d, timestamp);
    ShownFrame(d);
    h := Step(d, ClientReads(timestamp)).f;
    assert h == Say(d.(seen := d.seen + 1), Learn(d.client, frame), [w]);
    SpeakOne(d.up, w);
  }

  /** The client handles a frame it answers with one message. */
  lemma Replies(f: State, timestamp: nat, frame: Frame, w: Wire) returns (g: State)
    requires Waiting(f) && IsId(timestamp) && frame == Log(f)[f.seen] && GoodFrame(frame)
    requires Reply(frame, timestamp) == [w]
    ensures Replied(g) && g.room == f.room && g.u == f.u && g.down.frames == f.down.frames
    ensures HS.Enabled(View(f), HS.ClientReads(timestamp))
    ensures HS.Step(View(f), HS.ClientReads(timestamp)) == HS.Next(View(g))
  {
    var d := Descends(f);
    var h := Speaks(d, timestamp, frame, w);
    var cs := OneMessageUp(d.up, w);
    UpSteps(h, cs);
    g := h.(up := CC.After(h.up, cs));
  }

  lemma HandOne(c: SC.Channel, w: Wire)
    requires Shown(c)
    ensures HandOver(c, [w]) == SC.Step(c, SC.Delivered(w)) && Posted(HandOver(c, [w]))
  {
    var one: seq<Wire> := [w];
    assert one[1..] == [] && HandOver(SC.Step(c, SC.Delivered(w)), one[1..]) == SC.Step(c, SC.Delivered(w));
  }

  /** The server handles the reply and answers with one frame. */
  lemma Answers(f: State, draw: nat, w: Wire) returns (g: State)
    requires Replied(f) && HS.Enabled(View(f), HS.ServerReads(RP.HandshakeLoop, draw))
    requires RP.Step(f.room, RP.ReadDone(f.u, RP.HandshakeLoop, Parse(Pending(f)[0]), draw)).Next?
    requires HS.LogOf(RP.Step(f.room, RP.ReadDone(f.u, RP.HandshakeLoop, Parse(Pending(f)[0]), draw)).room, f.u)
      == Log(f) + [Decode(w)]
    ensures Waiting(g) && g.u == f.u
    ensures HS.Step(View(f), HS.ServerReads(RP.HandshakeLoop, draw)) == HS.Next(View(g))
  {
    NextMessage(f);
    var e := ServerReads(RP.HandshakeLoop, draw, [w]);
    HandsOne(f, RP.HandshakeLoop, draw, w, ReadOf(f, RP.HandshakeLoop, draw));
    ServerReadsKeeps(f, RP.HandshakeLoop, draw, [w]);
    ReachStep(f, e);
    HandOne(f.down, w);
    g := Step(f, e).f;
  }

  // ----- what the handshake leaves alone in the room -----

  ghost predicate OpenMember(r: RP.Room, b: nat) {
    b in r.members && b < |r.sessions| && r.sessions[b].open
  }

  lemma AcceptLeaves(r: RP.Room, service: nat, b: nat)
    requires OpenMember(r, b) && IsId(service)
    ensures var r' := RP.Step(r, RP.Accept(service, 0)).room;
      OpenMember(r', b) && r'.drawn == r.drawn && r'.limit == r.limit && b < |r.sessions|
  {}

  lemma HelloAckLeaves(r: RP.Room, u: nat, m: Received, draw: nat, b: nat)
    requires RP.Enabled(r, RP.ReadDone(u, RP.HandshakeLoop, m, draw)) && m.HelloAck? && m.size <= DESCRIPTOR_SIZE
    requires OpenMember(r, b) && b != u
    ensures var o := RP.Step(r, RP.ReadDone(u, RP.HandshakeLoop, m, draw));
      o.Next? && OpenMember(o.room, b) && o.room.drawn == r.drawn
  {
    RI.HelloAckIs(r, u, m.size, m.configuration, draw);
  }

  lemma AdmissionLeaves(r: RP.Room, u: nat, draw: nat, b: nat)
    requires RI.Inv(r) && RP.Enabled(r, RP.ReadDone(u, RP.HandshakeLoop, CredentialsAck(true), draw))
    requires |r.members| < r.limit && OpenMember(r, b) && b != u
    ensures var o := RP.Step(r, RP.ReadDone(u, RP.HandshakeLoop, CredentialsAck(true), draw));
      o.Next? && OpenMember(o.room, b) && o.room.drawn == r.drawn + {draw}
  {
    var e := RP.ReadDone(u, RP.HandshakeLoop, CredentialsAck(true), draw);
    RT.AdmitsRoster(r, e, u);
    RI.CredentialsAckIs(r, u, true, draw);
  }

  // ----- up to JOIN -----

  ghost predicate Entering(f: State, draw: nat) {
    Waiting(f) && f.u < |f.room.sessions| && HS.AtHello(View(f)) && f.seen == 0 && HS.Admissible(View(f), draw)
  }

  ghost predicate Halfway(f: State, draw: nat) {
    Waiting(f) && f.u < |f.room.sessions| && HS.AtCredentials(View(f)) && f.seen == 1 && HS.Admissible(View(f), draw)
  }

  /** JOIN waits to go down to the client, with the id `draw`. */
  ghost predicate Joined(f: State, draw: nat) {
    && Waiting(f) && f.u < |f.room.sessions| && f.u in f.room.members && f.room.sessions[f.u].id == draw
    && |Log(f)| == 3 && Log(f)[2].Join? && f.seen == 2
  }

  /** Member b is open, and the ids drawn are the given ones. */
  ghost predicate Beside(f: State, b: nat, drawn: set<nat>) {
    OpenMember(f.room, b) && b != f.u && f.room.drawn == drawn
  }

  lemma Begins(r: RP.Room, service: nat, c: Client, draw: nat) returns (f: State)
    requires RT.Reachable(r) && IsId(service) && WellFormed(c) && !c.armed
    requires |r.members| < r.limit && 0 < draw && IsId(draw) && draw !in r.drawn
    ensures Entering(f, draw) && View(f) == HS.Start(r, service, c)
  {
    var hello := HelloMessage(service, 0, 0, []);
    DecodeHello(service, 0, 0, []);
    f := Start(r, service, c, hello);
    StartWaits(r, service, c, hello);
    HS.StartsAdmissible(r, service, c, draw);
  }

  lemma StartWaits(r: RP.Room, service: nat, c: Client, hello: Wire)
    requires RT.Reachable(r) && IsId(service) && WellFormed(c) && !c.armed && Decode(hello) == Hello(service, 0)
    ensures var f := Start(r, service, c, hello);
      Waiting(f) && View(f) == HS.Start(r, service, c) && f.seen == 0
  {
    var f := Start(r, service, c, hello);
    StartReaches(r, service, c, hello);
    StartCoupled(r, service, c, hello);
    FreshChannels(hello);
  }

  lemma StartReaches(r: RP.Room, service: nat, c: Client, hello: Wire)
    requires RT.Reachable(r) && IsId(service) && WellFormed(c) && !c.armed && Decode(hello) == Hello(service, 0)
    ensures Reach(Start(r, service, c, hello))
  {
    var f, none: seq<Event> := Start(r, service, c, hello), [];
    assert Starts(f) && Legal(f, none) && After(f, none) == f;
  }

  lemma BeginsBeside(r: RP.Room, service: nat, c: Client, f: State, b: nat)
    requires IsId(service) && View(f) == HS.Start(r, service, c) && OpenMember(r, b)
    ensures Beside(f, b, r.drawn)
  {
    AcceptLeaves(r, service, b);
  }

  lemma HelloReplied(f: State, timestamp: nat, draw: nat) returns (d: State)
    requires Entering(f, draw) && IsId(timestamp)
    ensures Replied(d) && d.room == f.room && d.u == f.u < |d.room.sessions| && HS.AtHello(View(d)) && d.seen == 1
    ensures HS.Admissible(View(d), draw)
  {
    var frame := Log(f)[0];
    HS.ClientTurn(View(f), timestamp, draw);
    d := Replies(f, timestamp, frame, HelloAckMessage(frame.service, timestamp));
  }

  lemma HelloAnswered(d: State, draw: nat) returns (g: State)
    requires Replied(d) && d.u < |d.room.sessions| && HS.AtHello(View(d)) && d.seen == 1
    requires HS.Admissible(View(d), draw)
    ensures Halfway(g, draw) && g.u == d.u
    ensures forall b, drawn :: Beside(d, b, drawn) ==> Beside(g, b, drawn)
  {
    HS.ServerTurn(View(d), draw);
    HS.HelloAckStep(View(d), RP.HandshakeLoop, draw);
    DecodeCredentials();
    g := Answers(d, draw, CredentialsMessage());
    forall b, drawn | Beside(d, b, drawn)
      ensures Beside(g, b, drawn)
    {
      HelloAckLeaves(d.room, d.u, Parse(Pending(d)[0]), draw, b);
    }
  }

  lemma HelloExchanged(f: State, timestamp: nat, draw: nat) returns (g: State)
    requires Entering(f, draw) && IsId(timestamp)
    ensures Halfway(g, draw) && g.u == f.u
    ensures forall b, drawn :: Beside(f, b, drawn) ==> Beside(g, b, drawn)
  {
    var d := HelloReplied(f, timestamp, draw);
    assert forall b, drawn :: Beside(f, b, drawn) ==> Beside(d, b, drawn);
    g := HelloAnswered(d, draw);
  }

  lemma CredentialsReplied(f: State, timestamp: nat, draw: nat) returns (d: State)
    requires Halfway(f, draw) && IsId(timestamp)
    ensures Replied(d) && d.room == f.room && d.u == f.u < |d.room.sessions| && HS.AtCredentials(View(d)) && d.seen == 2
    ensures HS.Admissible(View(d), draw)
  {
    HS.ClientTurn(View(f), timestamp, draw);
    d := Replies(f, timestamp, Credentials, CredentialsAckMessage(Ascii("login"), Ascii("password")));
  }

  lemma CredentialsAnswered(d: State, draw: nat) returns (g: State)
    requires Replied(d) && d.u < |d.room.sessions| && HS.AtCredentials(View(d)) && d.seen == 2
    requires HS.Admissible(View(d), draw)
    ensures Joined(g, draw)
    ensures forall b, drawn :: Beside(d, b, drawn) ==> Beside(g, b, drawn + {draw})
  {
    HS.AdmittingTurn(View(d), draw);
    HS.CredentialsAckStep(View(d), RP.HandshakeLoop, draw);
    HS.AdmittedUnder(d.room, d.u, draw);
    DecodeJoin(draw);
    g := Answers(d, draw, JoinMessage(draw));
    forall b, drawn | Beside(d, b, drawn)
      ensures Beside(g, b, drawn + {draw})
    {
      AdmissionLeaves(d.room, d.u, draw, b);
    }
  }

  lemma CredentialsExchanged(f: State, timestamp: nat, draw: nat) returns (g: State)
    requires Halfway(f, draw) && IsId(timestamp)
    ensures Joined(g, draw)
    ensures forall b, drawn :: Beside(f, b, drawn) ==> Beside(g, b, drawn + {draw})
  {
    var d := CredentialsReplied(f, timestamp, draw);
    assert forall b, drawn :: Beside(f, b, drawn) ==> Beside(d, b, drawn);
    g := CredentialsAnswered(d, draw);
  }

  lemma JoinHandled(f: State, timestamp: nat, draw: nat) returns (g: State)
    requires Joined(f, draw) && IsId(timestamp)
    ensures Reach(g) && Coupled(g) && g.u == f.u < |g.room.sessions| && g.room == f.room && g.seen == 3
    ensures HS.AtJoin(View(g)) && g.client.participantId == draw && g.client.armed
  {
    var d := Descends(f);
    assert HS.AtJoin(View(d));
    HS.LastTurn(View(d), timestamp);
    ReachStep(d, ClientReads(timestamp));
    ClientReadsKeeps(d, timestamp);
    g := Step(d, ClientReads(timestamp)).f;
  }

  /** Over the wire too a connection to a server with space in its room can complete the handshake: the
      session is a member, the client knows its id and has its timer running. */
  lemma WireCompletes(r: RP.Room, service: nat, c: Client, timestamp: nat, draw: nat) returns (f: State)
    requires RT.Reachable(r) && IsId(service) && WellFormed(c) && !c.armed && IsId(timestamp)
    requires |r.members| < r.limit && 0 < draw && IsId(draw) && draw !in r.drawn
    ensures Reach(f) && f.u in f.room.members && f.u < |f.room.sessions| && f.room.sessions[f.u].id == draw
    ensures f.client.participantId == draw && f.client.armed && f.trace == HS.Script()
  {
    var begun := Begins(r, service, c, draw);
    var halfway := HelloExchanged(begun, timestamp, draw);
    var joined := CredentialsExchanged(halfway, timestamp, draw);
    f := JoinHandled(joined, timestamp, draw);
  }

  /** Two writes of the session can be in flight in the middle of the handshake: the client has answered
      HELLO, and CREDENTIALS is begun before the completion handler of HELLO has run. All the bytes of
      HELLO are sent. */
  lemma HandshakeWritesOverlap(r: RP.Room, service: nat, c: Client, timestamp: nat, draw: nat) returns (f: State)
    requires RT.Reachable(r) && IsId(service) && WellFormed(c) && !c.armed && IsId(timestamp)
    requires |r.members| < r.limit && 0 < draw && IsId(draw) && draw !in r.drawn
    ensures Reach(f) && |Log(f)| == 2 && |f.down.writer.inFlight| == 2
    ensures |f.down.sent| == 2 && f.down.sent[0] == MESSAGE_SIZE
  {
    var begun := Begins(r, service, c, draw);
    var g := HelloExchanged(begun, timestamp, draw);
    ReachStep(g, Down(SC.PostedRuns));
    f := Step(g, Down(SC.PostedRuns)).f;
  }

  // ----- a frame that overtakes JOIN -----

  lemma UpdateHandsOver(f: State, b: nat, w: Wire, draw: nat)
    requires RI.Inv(f.room) && f.u < |f.room.sessions| && f.u in f.room.members && OpenMember(f.room, b) && b != f.u
    requires 0 < draw && IsId(draw) && draw !in f.room.drawn
    ensures var e := RP.ReadDone(b, RP.SessionLoop, UpdateAck(w), draw);
      && RP.Enabled(f.room, e) && RP.Step(f.room, e).Next?
      && HS.Gained(f.room, RP.Step(f.room, e).room, f.u) == [Update(w)]
      && f.u < |RP.Step(f.room, e).room.sessions|
      && RP.Step(f.room, e).room.sessions[f.u].id == f.room.sessions[f.u].id
  {
    var e := RP.ReadDone(b, RP.SessionLoop, UpdateAck(w), draw);
    assert RI.MembersOk(f.room, 0);
    RT.OthersOf(f.room, b);
    var to := RP.Others(f.room, f.room.sessions[b].id);
    assert f.u in to;
    UpdateStep(f.room, b, w, draw, to);
    assert HS.LogOf(RP.Step(f.room, e).room, f.u) == Log(f) + [Update(w)];
  }

  lemma UpdateStep(r: RP.Room, b: nat, w: Wire, draw: nat, to: set<nat>)
    requires RP.Enabled(r, RP.ReadDone(b, RP.SessionLoop, UpdateAck(w), draw)) && to == RP.Others(r, r.sessions[b].id)
    ensures RP.Step(r, RP.ReadDone(b, RP.SessionLoop, UpdateAck(w), draw))
      == RP.Next(RP.Deliver(r, to, Update(w)).(clock := r.clock + 1))
  {}

  lemma UpdateParses(w: Wire)
    requires Head(w) == PARTICIPANT_UPDATE_ACK
    ensures Parse(w) == UpdateAck(w) && Decode(w) == Update(w)
  {}

  /** The header of JOIN, then a whole update but for its end. */
  function Mixture(join: Wire, w: Wire): (m: Wire) {
    join[..8] + w[..65528]
  }

  lemma MixtureDecodes(join: Wire, w: Wire)
    requires Decode(join).Join?
    ensures Decode(Mixture(join, w)) == Frame.Join(Number(w[..8]))
  {
    var m := Mixture(join, w);
    DecodeCases(join, Decode(join));
    DecodeCases(m, Decode(m));
    assert m[0..2] == join[0..2];
    assert Payload(m)[0..8] == w[..8];
  }

  /** JOIN and a frame behind it wait for their posted handlers. */
  ghost predicate Behind(c: SC.Channel) {
    && c.writer.posted == [2, 3] && c.writer.deque == [] && |c.writer.inFlight| == 2 && !c.broken
    && |c.frames| == |c.sent| == 4 && c.sent[2] == 0 && c.sent[3] == 0
    && c.stream.transit == [] && c.stream.partial == []
  }

  lemma Overtakes(c: SC.Channel) returns (ss: seq<SC.Event>)
    requires Behind(c)
    ensures SC.Legal(c, ss) && Schedules.NoDelivery(ss)
    ensures SC.After(c, ss).stream.dispatched == c.stream.dispatched + [Mixture(c.frames[2], c.frames[3])]
  {
    var c1 := SC.Step(c, SC.PostedRuns);
    var c2 := SC.Step(c1, SC.PostedRuns);
    assert c2.writer.inFlight[2] == 2 && c2.writer.inFlight[3] == 3;
    var c3 := SC.Step(c2, SC.Sends(2, 8));
    var c4 := SC.Step(c3, SC.Sends(3, 65528));
    assert c4.stream.transit == Mixture(c.frames[2], c.frames[3]);
    assert [] + c4.stream.transit[..65536] == Mixture(c.frames[2], c.frames[3]);
    Before(c4, SC.Receives(65536), []);
    Before(c3, SC.Sends(3, 65528), [SC.Receives(65536)] + []);
    Before(c2, SC.Sends(2, 8), [SC.Sends(3, 65528)] + ([SC.Receives(65536)] + []));
    var sends := [SC.Sends(2, 8)] + ([SC.Sends(3, 65528)] + ([SC.Receives(65536)] + []));
    Before(c1, SC.PostedRuns, sends);
    Before(c, SC.PostedRuns, [SC.PostedRuns] + sends);
    ss := [SC.PostedRuns] + ([SC.PostedRuns] + sends);
  }

  lemma UpdateEnabled(f: State, b: nat, w: Wire, e: RP.Event, other: nat)
    requires RI.Inv(f.room) && f.u < |f.room.sessions| && f.u in f.room.members && OpenMember(f.room, b) && b != f.u
    requires Head(w) == PARTICIPANT_UPDATE_ACK && 0 < other && IsId(other) && other !in f.room.drawn
    requires e == RP.ReadDone(b, RP.SessionLoop, UpdateAck(w), other)
    ensures Enabled(f, Elsewhere(e, [w])) && Step(f, Elsewhere(e, [w])).Next?
    ensures var g := Step(f, Elsewhere(e, [w])).f;
      && g.u == f.u < |g.room.sessions| && g.room.sessions[g.u].id == f.room.sessions[f.u].id
      && g.seen == f.seen && g.down == HandOver(f.down, [w])
  {
    UpdateParses(w);
    UpdateHandsOver(f, b, w, other);
  }

  lemma HandOnePosted(c: SC.Channel, w: Wire)
    requires Posted(c) && |c.frames| == 3
    ensures HandOver(c, [w]) == SC.Step(c, SC.Delivered(w))
    ensures Behind(HandOver(c, [w])) && HandOver(c, [w]).frames == c.frames + [w]
    ensures |HandOver(c, [w]).stream.dispatched| == 2
  {
    var one: seq<Wire> := [w];
    assert one[1..] == [] && HandOver(SC.Step(c, SC.Delivered(w)), one[1..]) == SC.Step(c, SC.Delivered(w));
  }

  /** An update is handed over behind JOIN. */
  lemma UpdateFollows(f: State, draw: nat, b: nat, drawn: set<nat>, other: nat, w: Wire) returns (g: State)
    requires Joined(f, draw) && Beside(f, b, drawn)
    requires Head(w) == PARTICIPANT_UPDATE_ACK && 0 < other && IsId(other) && other !in drawn
    ensures Reach(g) && g.seen == 2 && g.u < |g.room.sessions| && g.room.sessions[g.u].id == draw
    ensures Behind(g.down) && |g.down.stream.dispatched| == 2 && Decode(g.down.frames[2]).Join? && g.down.frames[3] == w
  {
    var e := RP.ReadDone(b, RP.SessionLoop, UpdateAck(w), other);
    UpdateEnabled(f, b, w, e, other);
    ReachStep(f, Elsewhere(e, [w]));
    HandOnePosted(f.down, w);
    assert Decode(f.down.frames[2]) == Log(f)[2];
    g := Step(f, Elsewhere(e, [w])).f;
  }

  /** The client handles the mixture. */
  lemma MixtureHandled(f: State, join: Wire, w: Wire, timestamp: nat) returns (g: State)
    requires Reach(f) && IsId(timestamp) && f.seen == 2 && |f.down.stream.dispatched| == 3
    requires f.down.stream.dispatched[2] == Mixture(join, w) && Decode(join).Join?
    ensures Reach(g) && g.room == f.room && g.u == f.u && g.seen == 3 && g.down == f.down
    ensures g.client.participantId == Number(w[..8])
  {
    MixtureDecodes(join, w);
    ReachStep(f, ClientReads(timestamp));
    g := Step(f, ClientReads(timestamp)).f;
  }

  lemma Misled(f: State, timestamp: nat) returns (g: State)
    requires Reach(f) && Behind(f.down) && |f.down.stream.dispatched| == f.seen == 2 && IsId(timestamp)
    requires Decode(f.down.frames[2]).Join?
    ensures Reach(g) && g.room == f.room && g.u == f.u
    ensures |g.down.stream.dispatched| == g.seen == 3 && Decode(g.down.stream.dispatched[2]).Join?
    ensures g.client.participantId == Number(f.down.frames[3][..8])
  {
    var ss := Overtakes(f.down);
    DownSteps(f, ss);
    var d := f.(down := SC.After(f.down, ss));
    MixtureDecodes(f.down.frames[2], f.down.frames[3]);
    g := MixtureHandled(d, f.down.frames[2], f.down.frames[3], timestamp);
  }

  /** The session is known by one id, and its client, which has handled a JOIN, believes in another. */
  ghost predicate Misinformed(f: State, draw: nat, id: nat) {
    && Reach(f) && f.u < |f.room.sessions| && f.room.sessions[f.u].id == draw
    && |f.down.stream.dispatched| == f.seen == 3 && Decode(f.down.stream.dispatched[2]).Join?
    && f.client.participantId == id != draw
  }

  /** A run in which the client handles a JOIN no one sent and takes a wrong id: another member's update
      is relayed to the session while JOIN is being written. */
  lemma OvertakenJoinMisleads(
    r: RP.Room, b: nat, service: nat, c: Client, timestamp: nat, draw: nat, other: nat, w: Wire) returns (f: State)
    requires RT.Reachable(r) && OpenMember(r, b) && |r.members| < r.limit
    requires IsId(service) && WellFormed(c) && !c.armed && IsId(timestamp)
    requires 0 < draw && IsId(draw) && draw !in r.drawn
    requires 0 < other && IsId(other) && other !in r.drawn && other != draw
    requires Head(w) == PARTICIPANT_UPDATE_ACK && Number(w[..8]) != draw
    ensures Misinformed(f, draw, Number(w[..8]))
  {
    var joined := JoinPosted(r, b, service, c, timestamp, draw);
    f := JoinOvertaken(joined, draw, b, r.drawn + {draw}, timestamp, other, w);
  }

  lemma JoinPosted(r: RP.Room, b: nat, service: nat, c: Client, timestamp: nat, draw: nat) returns (f: State)
    requires RT.Reachable(r) && OpenMember(r, b) && |r.members| < r.limit
    requires IsId(service) && WellFormed(c) && !c.armed && IsId(timestamp)
    requires 0 < draw && IsId(draw) && draw !in r.drawn
    ensures Joined(f, draw) && Beside(f, b, r.drawn + {draw})
  {
    var begun := Begins(r, service, c, draw);
    BeginsBeside(r, service, c, begun, b);
    var halfway := HelloExchanged(begun, timestamp, draw);
    f := CredentialsExchanged(halfway, timestamp, draw);
  }

  lemma JoinOvertaken(f: State, draw: nat, b: nat, drawn: set<nat>, timestamp: nat, other: nat, w: Wire)
    returns (g: State)
    requires Joined(f, draw) && Beside(f, b, drawn) && IsId(timestamp)
    requires 0 < other && IsId(other) && other !in drawn
    requires Head(w) == PARTICIPANT_UPDATE_ACK && Number(w[..8]) != draw
    ensures Misinformed(g, draw, Number(w[..8]))
  {
    var behind := UpdateFollows(f, draw, b, drawn, other, w);
    g := Misled(behind, timestamp);
  }

  lemma FirstDigit(b: seq<Byte>)
    requires |b| > 0
    ensures Number(b) % 256 == b[0]
  {}

  /** There are such runs: one member is in the room and a second client connects. */
  lemma SomeClientIsMisled() returns (f: State, draw: nat, id: nat)
    ensures Misinformed(f, draw, id)
  {
    var r := RoomFaults.RoomOfOne(2, 0);
    var w: Wire := UpdateAckMessage(0, 0, [], Zeros(12));
    ParseUpdateAck(0, 0, [], Zeros(12));
    assert Head(w) == PARTICIPANT_UPDATE_ACK;
    FirstDigit(w[..2]);
    FirstDigit(w[..8]);
    assert w[0..2] == w[..2] && w[..2][0] == w[..8][0];
    draw, id := 2, Number(w[..8]);
    f := OvertakenJoinMisleads(r, 0, 0, Client(0, 0, false), 0, draw, 3, w);
  }
}
