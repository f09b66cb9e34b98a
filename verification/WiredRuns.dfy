/** What client and server can rely on over the wire, in every run. */
module WiredRuns {
  import opened Bytes
  import opened Messages
  import opened Frames
  import opened ClientDispatch
  import opened Wired
  import RI = RoomInvariant
  import RP = RoomProtocol
  import HS = Handshake
  import SC = SessionChannel
  import SW = SessionWriters
  import Schedules

  // ----- tidy and patient runs -----

  /** No byte of a frame goes down before the frames in front of it are sent whole. */
  ghost predicate Tidy(f: State, es: seq<Event>)
    requires Legal(f, es)
    decreases |es|
  {
    es != [] ==> TidyStep(f, es[0]) && Tidy(Step(f, es[0]).f, es[1..])
  }

  ghost predicate PatientStep(f: State, e: Event)
    requires Enabled(f, e) && Step(f, e).Next?
  {
    var f' := Step(f, e).f;
    |Log(f)| >= 3 && |Log(f')| > |Log(f)| ==>
      |Log(f')| == |Log(f)| + 1 && SC.AllSentBefore(f.down, |f.down.sent|)
  }

  /** After JOIN the session is handed frames one by one, each when those before it are sent whole. */
  ghost predicate Patient(f: State, es: seq<Event>)
    requires Legal(f, es)
    decreases |es|
  {
    es != [] ==> PatientStep(f, es[0]) && Patient(Step(f, es[0]).f, es[1..])
  }

  lemma {:induction false} TidyRunCoupled(f: State, es: seq<Event>)
    requires Coupled(f) && Legal(f, es) && Tidy(f, es)
    ensures Coupled(After(f, es))
    decreases |es|
  {
    if es == [] {
    } else {
      StepKeepsCoupled(f, es[0]);
      TidyRunCoupled(Step(f, es[0]).f, es[1..]);
    }
  }

  lemma OneLeftSends(c: SC.Channel, s: SC.Event)
    requires SC.OneLeft(c) && SC.Enabled(c, s) && !s.Delivered?
    ensures SC.OneLeft(SC.Step(c, s)) && (s.Sends? ==> SC.AllSentBefore(c, s.j))
  {}

  /** Handing over the frames by which the log grows. */
  lemma HandedOneLeft(c: SC.Channel, ws: seq<Wire>)
    requires SC.OneLeft(c) && |ws| <= 1 && (ws != [] ==> SC.AllSentBefore(c, |c.sent|))
    ensures SC.OneLeft(HandOver(c, ws))
  {
    if ws != [] {
      assert ws[1..] == [];
      assert HandOver(c, ws) == SC.Step(c, SC.Delivered(ws[0]));
    }
  }

  lemma AllSeenAllSent(f: State)
    requires Coupled(f) && f.seen == |Log(f)|
    ensures SC.AllSentBefore(f.down, |f.down.sent|)
  {
    InTurnShows(f.down);
    Schedules.ShownMeansSent(f.down);
  }

  lemma GrowthIsHanded(f: State, e: RP.Event, ws: seq<Wire>)
    requires RI.Inv(f.room) && f.u < |f.room.sessions| && Hands(f, e, ws) && RP.Step(f.room, e).Next?
    ensures Log(f) <= HS.LogOf(RP.Step(f.room, e).room, f.u)
    ensures |HS.LogOf(RP.Step(f.room, e).room, f.u)| == |Log(f)| + |ws|
  {
    LogGrows(f.room, e, f.u);
  }

  lemma ElsewherePatient(f: State, e: RP.Event, ws: seq<Wire>)
    requires Coupled(f) && SC.OneLeft(f.down) && Enabled(f, Elsewhere(e, ws))
    requires Step(f, Elsewhere(e, ws)).Next? && PatientStep(f, Elsewhere(e, ws))
    ensures SC.OneLeft(Step(f, Elsewhere(e, ws)).f.down)
  {
    GrowthIsHanded(f, e, ws);
    ElsewhereKeeps(f, e, ws);
    if ws != [] && |Log(f)| < 3 {
      HS.SoundAwaits(View(f), HS.Elsewhere(e));
      AllSeenAllSent(f);
    }
    HandedOneLeft(f.down, ws);
  }

  lemma ServerReadsPatient(f: State, loop: RP.Loop, draw: nat, ws: seq<Wire>)
    requires Coupled(f) && SC.OneLeft(f.down) && Enabled(f, ServerReads(loop, draw, ws))
    requires Step(f, ServerReads(loop, draw, ws)).Next? && PatientStep(f, ServerReads(loop, draw, ws))
    ensures SC.OneLeft(Step(f, ServerReads(loop, draw, ws)).f.down)
  {
    GrowthIsHanded(f, ReadOf(f, loop, draw), ws);
    ServerReadsKeeps(f, loop, draw, ws);
    if ws != [] && |Log(f)| < 3 {
      HS.SoundAwaits(View(f), HS.ServerReads(loop, draw));
      AllSeenAllSent(f);
    }
    HandedOneLeft(f.down, ws);
  }

  lemma PatientStepIsTidy(f: State, e: Event)
    requires Coupled(f) && SC.OneLeft(f.down) && Enabled(f, e) && Step(f, e).Next? && PatientStep(f, e)
    ensures TidyStep(f, e) && SC.OneLeft(Step(f, e).f.down)
  {
    match e
    case Elsewhere(e, ws) => ElsewherePatient(f, e, ws);
    case ServerReads(loop, draw, ws) => ServerReadsPatient(f, loop, draw, ws);
    case Down(s) => OneLeftSends(f.down, s);
    case _ =>
  }

  lemma {:induction false} PatientIsTidy(f: State, es: seq<Event>)
    requires Coupled(f) && SC.OneLeft(f.down) && Legal(f, es) && Patient(f, es)
    ensures Tidy(f, es) && SC.OneLeft(After(f, es).down)
    decreases |es|
  {
    if es == [] {
    } else {
      PatientStepIsTidy(f, es[0]);
      StepKeepsCoupled(f, es[0]);
      PatientIsTidy(Step(f, es[0]).f, es[1..]);
    }
  }

  // ----- until JOIN has been handed over -----

  lemma StepLogGrows(f: State, e: Event)
    requires RI.Inv(f.room) && f.u < |f.room.sessions| && Enabled(f, e) && Step(f, e).Next?
    ensures var f' := Step(f, e).f;
      RI.Inv(f'.room) && f'.u == f.u < |f'.room.sessions| && |Log(f)| <= |Log(f')|
  {
    match e
    case Elsewhere(e, ws) => LogGrows(f.room, e, f.u);
    case ServerReads(loop, draw, ws) => LogGrows(f.room, ReadOf(f, loop, draw), f.u);
    case _ =>
  }

  lemma {:induction false} RunLogGrows(f: State, es: seq<Event>)
    requires RI.Inv(f.room) && f.u < |f.room.sessions| && Legal(f, es)
    ensures |Log(f)| <= |Log(After(f, es))|
    decreases |es|
  {
    if es == [] {
    } else {
      StepLogGrows(f, es[0]);
      RunLogGrows(Step(f, es[0]).f, es[1..]);
    }
  }

  lemma {:induction false} UntilJoinIsPatient(f: State, es: seq<Event>)
    requires RI.Inv(f.room) && f.u < |f.room.sessions| && Legal(f, es) && |Log(After(f, es))| <= 3
    ensures Patient(f, es)
    decreases |es|
  {
    if es == [] {
    } else {
      var f' := Step(f, es[0]).f;
      StepLogGrows(f, es[0]);
      RunLogGrows(f', es[1..]);
      UntilJoinIsPatient(f', es[1..]);
    }
  }

  /** Every run is tidy as long as nothing has been handed over after JOIN; and at every point of it
      at most the last frame has bytes to send. */
  lemma TidyUntilJoin(f: State, es: seq<Event>)
    requires Starts(f) && Legal(f, es) && |Log(After(f, es))| <= 3
    ensures Tidy(f, es) && SC.OneLeft(After(f, es).down)
  {
    StartsCoupled(f);
    UntilJoinIsPatient(f, es);
    PatientIsTidy(f, es);
  }

  /** It stays tidy if the frames after JOIN are handed over patiently. */
  lemma TidyIfPatient(f: State, es: seq<Event>)
    requires Starts(f) && Legal(f, es) && Patient(f, es)
    ensures Tidy(f, es)
  {
    StartsCoupled(f);
    PatientIsTidy(f, es);
  }

  lemma RunCoupled(f: State, es: seq<Event>)
    requires Starts(f) && Legal(f, es) && (Tidy(f, es) || |Log(After(f, es))| <= 3)
    ensures Coupled(After(f, es))
  {
    if |Log(After(f, es))| <= 3 {
      TidyUntilJoin(f, es);
    }
    StartsCoupled(f);
    TidyRunCoupled(f, es);
  }

  // ----- what holds over the wire -----

  /** The handshake frames handed to the two writers and not yet handled. */
  function Outstanding(f: State): seq<HS.Mark> {
    HS.Outstanding(View(f))
  }

  /** Whatever the writers and the network do, until something follows JOIN, and for as long as the run
      is tidy, the five frames are sent in order, each once, and never are two of them under way. */
  lemma WireKeepsOrder(f: State, es: seq<Event>)
    requires Starts(f) && Legal(f, es) && (Tidy(f, es) || |Log(After(f, es))| <= 3)
    ensures After(f, es).trace <= HS.Script() && |Outstanding(After(f, es))| <= 1
    ensures After(f, es).down.stream.dispatched <= After(f, es).down.frames
  {
    RunCoupled(f, es);
    HS.SoundInOrder(View(After(f, es)));
    InTurnShows(After(f, es).down);
  }

  /** Under the same condition a client that has been shown a JOIN and has handled it knows the id of
      its session. */
  lemma WireTellsTheId(f: State, es: seq<Event>, i: nat)
    requires Starts(f) && Legal(f, es) && (Tidy(f, es) || |Log(After(f, es))| <= 3)
    requires i < After(f, es).seen && i < |After(f, es).down.stream.dispatched|
    requires Decode(After(f, es).down.stream.dispatched[i]).Join?
    ensures var g := After(f, es);
      g.u < |g.room.sessions| && g.client.participantId == g.room.sessions[g.u].id
  {
    RunCoupled(f, es);
    var g := After(f, es);
    InTurnShows(g.down);
    assert Log(g)[i] == Decode(g.down.stream.dispatched[i]);
    HS.OnlyThirdIsJoin(View(g), i);
  }

  /** Under the same condition the server takes each message of the client in the loop it is meant for,
      and does not fault on it. */
  lemma WireReadsAreExpected(f: State, es: seq<Event>, loop: RP.Loop, draw: nat, ws: seq<Wire>)
    requires Starts(f) && Legal(f, es) && (Tidy(f, es) || |Log(After(f, es))| <= 3)
    requires Enabled(After(f, es), ServerReads(loop, draw, ws))
    ensures Step(After(f, es), ServerReads(loop, draw, ws)).Next?
    ensures var m := Parse(After(f, es).up.stream.dispatched[After(f, es).handled]);
      && (loop == RP.SessionLoop ==> m.UpdateAck?)
      && (loop == RP.HandshakeLoop ==> m.HelloAck? || m == CredentialsAck(true))
  {
    RunCoupled(f, es);
    var g := After(f, es);
    ServerReadsKeeps(g, loop, draw, ws);
    NextMessage(g);
    HS.SoundReads(View(g), loop, draw);
  }

  // ----- the down link on its own -----

  function Deliveries(ws: seq<Wire>): (ss: seq<SC.Event>)
    ensures |ss| == |ws|
  {
    seq(|ws|, i requires 0 <= i < |ws| => SC.Delivered(ws[i]))
  }

  function DownOf(e: Event): seq<SC.Event> {
    match e
    case Elsewhere(_, ws) => Deliveries(ws)
    case ServerReads(_, _, ws) => Deliveries(ws)
    case Down(s) => [s]
    case _ => []
  }

  /** What a run does to the down link. */
  function DownRun(es: seq<Event>): seq<SC.Event> {
    if es == [] then [] else DownOf(es[0]) + DownRun(es[1..])
  }

  lemma {:induction false} HandOverIsRun(c: SC.Channel, ws: seq<Wire>)
    ensures SC.Legal(c, Deliveries(ws)) && SC.After(c, Deliveries(ws)) == HandOver(c, ws)
    ensures SC.Tidy(c, Deliveries(ws))
    decreases |ws|
  {
    if ws == [] {
    } else {
      assert Deliveries(ws)[1..] == Deliveries(ws[1..]);
      HandOverIsRun(SC.Step(c, SC.Delivered(ws[0])), ws[1..]);
    }
  }

  lemma {:induction false} TidyCompose(c: SC.Channel, es: seq<SC.Event>, fs: seq<SC.Event>)
    requires SC.Legal(c, es) && SC.Legal(SC.After(c, es), fs)
    ensures SC.Legal(c, es + fs) && SC.After(c, es + fs) == SC.After(SC.After(c, es), fs)
    ensures SC.Tidy(c, es + fs) <==> SC.Tidy(c, es) && SC.Tidy(SC.After(c, es), fs)
    decreases |es|
  {
    if es == [] {
      assert es + fs == fs;
    } else {
      assert (es + fs)[1..] == es[1..] + fs;
      TidyCompose(SC.Step(c, es[0]), es[1..], fs);
    }
  }

  lemma StepOfLink(f: State, e: Event)
    requires Enabled(f, e) && Step(f, e).Next?
    ensures SC.Legal(f.down, DownOf(e)) && SC.After(f.down, DownOf(e)) == Step(f, e).f.down
    ensures SC.Tidy(f.down, DownOf(e)) <==> TidyStep(f, e)
  {
    match e
    case Elsewhere(_, ws) => HandOverIsRun(f.down, ws);
    case ServerReads(_, _, ws) => HandOverIsRun(f.down, ws);
    case Down(s) => assert [s][1..] == [];
    case _ =>
  }

  /** A run over the wire is a run of the down link, tidy if and only if that is. */
  lemma {:induction false} RunOfLink(f: State, es: seq<Event>)
    requires Legal(f, es)
    ensures SC.Legal(f.down, DownRun(es)) && SC.After(f.down, DownRun(es)) == After(f, es).down
    ensures Tidy(f, es) <==> SC.Tidy(f.down, DownRun(es))
    decreases |es|
  {
    if es == [] {
    } else {
      var f' := Step(f, es[0]).f;
      StepOfLink(f, es[0]);
      RunOfLink(f', es[1..]);
      TidyCompose(f.down, DownOf(es[0]), DownRun(es[1..]));
    }
  }

  /** The same from the open link on, which is handed HELLO first. */
  lemma WholeRunOfLink(f: State, es: seq<Event>) returns (hello: Wire)
    requires Starts(f) && Legal(f, es)
    ensures var ss := [SC.Delivered(hello)] + DownRun(es);
      && SC.Legal(SC.Open(), ss) && SC.After(SC.Open(), ss) == After(f, es).down
      && (Tidy(f, es) <==> SC.Tidy(SC.Open(), ss))
  {
    hello := HelloOfStart(f);
    RunOfLink(f, es);
    var one: seq<SC.Event> := [SC.Delivered(hello)];
    assert one[1..] == [];
    TidyCompose(SC.Open(), one, DownRun(es));
  }

  lemma HelloOfStart(f: State) returns (hello: Wire)
    requires Starts(f)
    ensures f.down == SC.Step(SC.Open(), SC.Delivered(hello))
  {
    StartsCoupled(f);
    hello := f.down.frames[0];
    var h: Wire :| f.down == HandOver(SC.Open(), [h]);
    FreshChannels(h);
  }

  /** A run over the wire is tidy exactly if it would keep any frames apart. */
  lemma WireTidyIff(f: State, es: seq<Event>) returns (ss: seq<SC.Event>)
    requires Starts(f) && Legal(f, es)
    ensures SC.Legal(SC.Open(), ss) && SC.After(SC.Open(), ss) == After(f, es).down
    ensures Tidy(f, es) <==> Schedules.KeepsFramesApart(ss)
  {
    var hello := WholeRunOfLink(f, es);
    ss := [SC.Delivered(hello)] + DownRun(es);
    Schedules.TidyIff(ss);
  }

  /** At any point of a run over the wire, handing the session a frame is safe exactly if its frames so
      far are sent whole or its socket sends nothing more. */
  lemma WireHandsSafelyIff(f: State, es: seq<Event>, w: Wire)
    requires Starts(f) && Legal(f, es)
    ensures var c := After(f, es).down;
      Schedules.Safe(SC.Step(c, SC.Delivered(w))) <==> c.broken || SC.AllSentBefore(c, |c.sent|)
  {
    var hello := WholeRunOfLink(f, es);
    Schedules.DeliverSafelyIff([SC.Delivered(hello)] + DownRun(es), w);
  }

  /** The session has at most one write in flight throughout a run exactly if the handler of each write
      has run before the posted handler of the next frame. */
  lemma WireSingleFlightIff(f: State, es: seq<Event>)
    requires Starts(f) && Legal(f, es)
    ensures SC.Legal(f.down, DownRun(es))
    ensures SC.NeverOverlaps(f.down, DownRun(es)) <==> Schedules.RunsWhenIdle(f.down, DownRun(es))
  {
    RunOfLink(f, es);
    var hello := HelloOfStart(f);
    assert SW.InOrder(SC.Open().writer);
    SW.DeliverInOrder(SC.Open().writer, 0);
    Schedules.SingleFlightIff(f.down, DownRun(es));
  }

  // ----- JOIN and what follows it -----

  lemma WireNumbered(f: State, es: seq<Event>)
    requires Starts(f) && Legal(f, es)
    ensures SC.Numbered(After(f, es).down)
  {
    var hello := WholeRunOfLink(f, es);
    Schedules.RunNumbered(SC.Open(), [SC.Delivered(hello)] + DownRun(es));
  }

  lemma LastOfThree(c: SC.Channel)
    requires SC.InTurn(c) && SC.OneLeft(c) && SC.Numbered(c) && Schedules.Counted(c) && |c.frames| == 3
    ensures Schedules.LastInTurn(c, 2)
  {}

  lemma ThirdIsJoin(g: State)
    requires Coupled(g) && |Log(g)| == 3
    ensures |g.down.frames| == 3 && Decode(g.down.frames[2]).Join?
  {
    assert HS.AtJoin(View(g));
    assert Decode(g.down.frames[2]) == Log(g)[2];
  }

  lemma JoinInTurn(f: State, es: seq<Event>)
    requires Starts(f) && Legal(f, es) && |Log(After(f, es))| == 3
    ensures Schedules.LastInTurn(After(f, es).down, 2) && Decode(After(f, es).down.frames[2]).Join?
  {
    RunCoupled(f, es);
    TidyUntilJoin(f, es);
    WireNumbered(f, es);
    ThirdIsJoin(After(f, es));
    LastOfThree(After(f, es).down);
  }
}
