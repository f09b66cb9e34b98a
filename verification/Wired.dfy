/** The handshake over the wire: chat_client and one session of the server, with the byte streams
    and the write queues of both between them. */
module Wired {
  import opened Bytes
  import opened Messages
  import opened Frames
  import opened ClientDispatch
  import RI = RoomInvariant
  import RP = RoomProtocol
  import RT = RoomTheorems
  import Bystanders
  import Streams
  import HS = Handshake
  import SC = SessionChannel
  import CC = ClientChannel
  import Schedules

  /** The client talks on session u. `down` carries the frames of that session and `up` the messages
      of the client. The client has handled the first `seen` messages shown to it, the server the
      first `handled`. `trace` is history: the handshake frames both sides have sent. */
  datatype State = State(
    room: RP.Room, u: nat, client: Client, down: SC.Channel, up: CC.Channel,
    seen: nat, handled: nat, trace: seq<HS.Mark>)

  /** `ws` are the messages that a step of the server hands to session u. The writers and the network
      act by Down and Up; what the room makes of a write that is over is a step Elsewhere. */
  datatype Event =
    | Elsewhere(e: RP.Event, ws: seq<Wire>)
    | ServerReads(loop: RP.Loop, draw: nat, ws: seq<Wire>)
    | ClientReads(timestamp: nat)
    | TimerFires(timestamp: nat, json: seq<Byte>, past: seq<Byte>)
    | Down(s: SC.Event)
    | Up(c: CC.Event)

  datatype Outcome = Next(f: State) | Fault

  // ----- steps -----

  function HandOver(c: SC.Channel, ws: seq<Wire>): SC.Channel
    decreases |ws|
  {
    if ws == [] then c else HandOver(SC.Step(c, SC.Delivered(ws[0])), ws[1..])
  }

  function Speak(c: CC.Channel, ws: seq<Wire>): CC.Channel
    decreases |ws|
  {
    if ws == [] then c else Speak(CC.Step(c, CC.WriteByte(ws[0])), ws[1..])
  }

  ghost predicate Encodes(ws: seq<Wire>, fs: seq<Frame>) {
    |ws| == |fs| && forall i :: 0 <= i < |ws| ==> Decode(ws[i]) == fs[i]
  }

  /** The messages spell the frames that the step hands to session u. */
  ghost predicate Hands(f: State, e: RP.Event, ws: seq<Wire>) {
    RP.Enabled(f.room, e) && (RP.Step(f.room, e).Next? ==> Encodes(ws, HS.Gained(f.room, RP.Step(f.room, e).room, f.u)))
  }

  function ReadOf(f: State, loop: RP.Loop, draw: nat): RP.Event
    requires f.handled < |f.up.stream.dispatched|
  {
    RP.ReadDone(f.u, loop, Parse(f.up.stream.dispatched[f.handled]), draw)
  }

  ghost predicate Enabled(f: State, e: Event) {
    match e
    case Elsewhere(e, ws) => !(e.ReadDone? && e.s == f.u) && Hands(f, e, ws)
    case ServerReads(loop, draw, ws) => f.handled < |f.up.stream.dispatched| && Hands(f, ReadOf(f, loop, draw), ws)
    case ClientReads(timestamp) => IsId(timestamp) && f.seen < |f.down.stream.dispatched|
    case TimerFires(timestamp, json, past) =>
      f.client.armed && IsId(f.client.participantId) && IsId(timestamp) && |json| <= 20480 && |past| == 12
    case Down(s) => !s.Delivered? && SC.Enabled(f.down, s)
    case Up(c) => !c.WriteByte? && CC.Enabled(f.up, c)
  }

  function InRoom(f: State, o: RP.Outcome, ws: seq<Wire>): Outcome {
    match o
    case Fault => Fault
    case Next(r) =>
      Next(f.(room := r, down := HandOver(f.down, ws), trace := f.trace + HS.Marks(HS.Gained(f.room, r, f.u))))
  }

  function Say(f: State, c: Client, ws: seq<Wire>): State {
    f.(client := c, up := Speak(f.up, ws), trace := f.trace + HS.AckMarks(ws))
  }

  /** The client acts on the bytes it is shown. */
  function ClientActs(f: State, w: Wire, timestamp: nat): State
    requires IsId(timestamp)
  {
    DecodedFits(w);
    Say(f.(seen := f.seen + 1), Learn(f.client, Decode(w)), Reply(Decode(w), timestamp))
  }

  ghost function Step(f: State, e: Event): Outcome
    requires Enabled(f, e)
  {
    match e
    case Elsewhere(e, ws) => InRoom(f, RP.Step(f.room, e), ws)
    case ServerReads(loop, draw, ws) =>
      InRoom(f.(handled := f.handled + 1), RP.Step(f.room, ReadOf(f, loop, draw)), ws)
    case ClientReads(timestamp) => Next(ClientActs(f, f.down.stream.dispatched[f.seen], timestamp))
    case TimerFires(timestamp, json, past) =>
      Next(Say(f, f.client, [UpdateAckMessage(f.client.participantId, timestamp, json, past)]))
    case Down(s) => Next(f.(down := SC.Step(f.down, s)))
    case Up(c) => Next(f.(up := CC.Step(f.up, c)))
  }

  /** A connection accepted in any state the server can be in, with its HELLO handed over. */
  function Start(r: RP.Room, service: nat, c: Client, hello: Wire): State
    requires IsId(service)
  {
    var p := HS.Start(r, service, c);
    State(p.room, p.u, c, HandOver(SC.Open(), [hello]), CC.Open(), 0, 0, p.trace)
  }

  ghost predicate Starts(f: State) {
    exists r, service: nat, c, hello: Wire ::
      && RT.Reachable(r) && IsId(service) && WellFormed(c) && !c.armed && Decode(hello) == Hello(service, 0)
      && f == Start(r, service, c, hello)
  }

  ghost predicate Legal(f: State, es: seq<Event>)
    decreases |es|
  {
    es == [] || (Enabled(f, es[0]) && Step(f, es[0]).Next? && Legal(Step(f, es[0]).f, es[1..]))
  }

  ghost function After(f: State, es: seq<Event>): State
    requires Legal(f, es)
    decreases |es|
  {
    if es == [] then f else After(Step(f, es[0]).f, es[1..])
  }

  // ----- the two channels as queues -----

  function Log(f: State): seq<Frame> {
    HS.LogOf(f.room, f.u)
  }

  /** What the client has said and the server has not handled. */
  function Pending(f: State): seq<Wire> {
    if f.handled <= |f.up.writer.passed| then f.up.writer.passed[f.handled..] else []
  }

  /** The same state with a queue each way. */
  function View(f: State): HS.Product {
    HS.Product(f.room, f.u, f.seen, Pending(f), f.client, f.trace)
  }

  /** The frames of the session are on their way down in turn, and neither side has handled more than
      it has been shown. */
  ghost predicate Linked(f: State) {
    && Encodes(f.down.frames, Log(f))
    && SC.InTurn(f.down) && Schedules.Counted(f.down) && CC.Sound(f.up)
    && f.seen <= |f.down.stream.dispatched| && f.handled <= |f.up.stream.dispatched|
  }

  ghost predicate Coupled(f: State) {
    HS.Sound(View(f)) && Linked(f)
  }

  lemma {:induction false} HandOverKeeps(c: SC.Channel, ws: seq<Wire>)
    requires SC.InTurn(c) && Schedules.Counted(c)
    ensures var d := HandOver(c, ws);
      SC.InTurn(d) && Schedules.Counted(d) && d.frames == c.frames + ws && d.stream == c.stream
    decreases |ws|
  {
    if ws == [] {
      assert c.frames + ws == c.frames;
    } else {
      var d := SC.Step(c, SC.Delivered(ws[0]));
      SC.DeliveredInTurn(c, ws[0]);
      Schedules.DeliveredCounted(c, ws[0]);
      HandOverKeeps(d, ws[1..]);
      FirstThenRest(c.frames, ws);
      assert d.frames == c.frames + [ws[0]] && d.stream == c.stream;
    }
  }

  lemma FirstThenRest(a: seq<Wire>, ws: seq<Wire>)
    requires ws != []
    ensures a + [ws[0]] + ws[1..] == a + ws
  {}

  lemma {:induction false} SpeakKeeps(c: CC.Channel, ws: seq<Wire>)
    requires CC.Sound(c)
    ensures var d := Speak(c, ws);
      CC.Sound(d) && d.writer.passed == c.writer.passed + ws && d.stream == c.stream
    decreases |ws|
  {
    if ws == [] {
      assert c.writer.passed + ws == c.writer.passed;
    } else {
      CC.StepSound(c, CC.WriteByte(ws[0]));
      SpeakKeeps(CC.Step(c, CC.WriteByte(ws[0])), ws[1..]);
      FirstThenRest(c.writer.passed, ws);
    }
  }

  lemma InTurnShows(c: SC.Channel)
    requires SC.InTurn(c)
    ensures c.stream.dispatched <= c.frames
  {
    var at: nat :| SC.SentUpTo(c, at);
    SC.SentIsPrefix(c, at);
    Streams.ReaderRefinesQueue(c.stream, c.frames);
  }

  // ----- the log of the session only grows -----

  lemma OwnHandshakeReadGrows(r: RP.Room, u: nat, m: Received, draw: nat)
    requires u < |r.sessions| && r.sessions[u].handshakeReads > 0 && RP.HandshakeRead(r, u, m, draw).Next?
    ensures var r' := RP.HandshakeRead(r, u, m, draw).room;
      u < |r'.sessions| && HS.LogOf(r, u) <= HS.LogOf(r', u)
  {
    if m.HelloAck? {
      RI.HelloAckIs(r, u, m.size, m.configuration, draw);
    } else if m.CredentialsAck? {
      RI.CredentialsAckIs(r, u, m.accepted, draw);
    }
  }

  lemma LogGrows(r: RP.Room, e: RP.Event, u: nat)
    requires RI.Inv(r) && RP.Enabled(r, e) && RP.Step(r, e).Next? && u < |r.sessions|
    ensures var r' := RP.Step(r, e).room;
      RI.Inv(r') && u < |r'.sessions| && HS.LogOf(r, u) <= HS.LogOf(r', u)
  {
    RI.StepKeeps(r, e);
    var o := RP.Handle(r, e);
    if e.ReadDone? && e.s == u && e.loop == RP.HandshakeLoop {
      OwnHandshakeReadGrows(r, u, e.m, e.draw);
    } else if e.ReadDone? && e.s == u {
      Bystanders.SessionReadStandsBy(r, u, e.m, u);
    } else {
      Bystanders.StepStandsBy(r, e, u);
    }
  }

  lemma EncodesMore(frames: seq<Wire>, log: seq<Frame>, log': seq<Frame>, ws: seq<Wire>)
    requires Encodes(frames, log) && log <= log' && Encodes(ws, log'[|log|..])
    ensures Encodes(frames + ws, log')
  {
    forall i | 0 <= i < |frames + ws|
      ensures Decode((frames + ws)[i]) == log'[i]
    {
      if i >= |frames| {
        assert log'[i] == log'[|log|..][i - |log|];
      }
    }
  }

  lemma HandedLog(f: State, e: RP.Event, ws: seq<Wire>)
    requires RI.Inv(f.room) && f.u < |f.room.sessions| && Encodes(f.down.frames, Log(f))
    requires Hands(f, e, ws) && RP.Step(f.room, e).Next?
    ensures Encodes(f.down.frames + ws, HS.LogOf(RP.Step(f.room, e).room, f.u))
  {
    LogGrows(f.room, e, f.u);
    EncodesMore(f.down.frames, Log(f), HS.LogOf(RP.Step(f.room, e).room, f.u), ws);
  }

  /** A read of the server that hands over one frame. */
  lemma HandsOne(f: State, loop: RP.Loop, draw: nat, w: Wire, e: RP.Event)
    requires f.handled < |f.up.stream.dispatched| && e == ReadOf(f, loop, draw) && RP.Enabled(f.room, e)
    requires RP.Step(f.room, e).Next? && HS.LogOf(RP.Step(f.room, e).room, f.u) == Log(f) + [Decode(w)]
    ensures Enabled(f, ServerReads(loop, draw, [w]))
  {
    assert HS.Gained(f.room, RP.Step(f.room, e).room, f.u) == [Decode(w)];
  }

  // ----- tidy steps keep the two sides coupled -----

  /** The room has moved on and the messages have been handed over. */
  lemma HandedLinked(f: State, f': State, r: RP.Room, ws: seq<Wire>)
    requires Linked(f) && Encodes(f.down.frames + ws, HS.LogOf(r, f.u))
    requires f'.room == r && f'.u == f.u && f'.down == HandOver(f.down, ws) && f'.up == f.up
    requires f'.seen == f.seen && f'.handled <= |f.up.stream.dispatched|
    ensures Linked(f')
  {
    HandOverKeeps(f.down, ws);
  }

  lemma ElsewhereKeeps(f: State, e: RP.Event, ws: seq<Wire>)
    requires Coupled(f) && Enabled(f, Elsewhere(e, ws)) && Step(f, Elsewhere(e, ws)).Next?
    ensures Coupled(Step(f, Elsewhere(e, ws)).f)
    ensures HS.Enabled(View(f), HS.Elsewhere(e))
    ensures HS.Step(View(f), HS.Elsewhere(e)) == HS.Next(View(Step(f, Elsewhere(e, ws)).f))
  {
    HandedLog(f, e, ws);
    HandedLinked(f, Step(f, Elsewhere(e, ws)).f, RP.Step(f.room, e).room, ws);
    HS.StepKeepsSound(View(f), HS.Elsewhere(e));
  }

  lemma NextMessage(f: State)
    requires Linked(f) && f.handled < |f.up.stream.dispatched|
    ensures Pending(f) != [] && Pending(f)[0] == f.up.stream.dispatched[f.handled]
    ensures Pending(f.(handled := f.handled + 1)) == Pending(f)[1..]
  {
    CC.SoundDelivers(f.up);
  }

  /** The state after a read of the server. */
  function Moved(f: State, r: RP.Room, ws: seq<Wire>): State {
    f.(handled := f.handled + 1, room := r, down := HandOver(f.down, ws),
       trace := f.trace + HS.Marks(HS.Gained(f.room, r, f.u)))
  }

  lemma StepMoves(f: State, loop: RP.Loop, draw: nat, ws: seq<Wire>, r: RP.Room)
    requires Enabled(f, ServerReads(loop, draw, ws))
    requires RP.Step(f.room, ReadOf(f, loop, draw)) == RP.Next(r)
    ensures Step(f, ServerReads(loop, draw, ws)) == Next(Moved(f, r, ws))
  {}

  lemma MovedView(f: State, r: RP.Room, ws: seq<Wire>)
    requires Linked(f) && f.handled < |f.up.stream.dispatched|
    ensures View(f).up != [] && View(Moved(f, r, ws)) == AfterRead(View(f), r)
  {
    NextMessage(f);
  }

  /** The server's read is a read of the product with queues. */
  lemma ReadIsRead(f: State, loop: RP.Loop, draw: nat, ws: seq<Wire>, r: RP.Room)
    requires Linked(f) && Enabled(f, ServerReads(loop, draw, ws))
    requires RP.Step(f.room, ReadOf(f, loop, draw)) == RP.Next(r)
    ensures HS.Enabled(View(f), HS.ServerReads(loop, draw))
    ensures HS.Step(View(f), HS.ServerReads(loop, draw)) == HS.Next(View(Moved(f, r, ws)))
  {
    NextMessage(f);
    ProductReads(View(f), loop, draw, ReadOf(f, loop, draw), r);
    MovedView(f, r, ws);
  }

  function AfterRead(p: HS.Product, r: RP.Room): HS.Product
    requires p.up != []
  {
    p.(up := p.up[1..], room := r, trace := p.trace + HS.Marks(HS.Gained(p.room, r, p.u)))
  }

  lemma ProductReads(p: HS.Product, loop: RP.Loop, draw: nat, e: RP.Event, r: RP.Room)
    requires p.up != [] && e == RP.ReadDone(p.u, loop, Parse(p.up[0]), draw)
    requires RP.Enabled(p.room, e) && RP.Step(p.room, e) == RP.Next(r)
    ensures HS.Enabled(p, HS.ServerReads(loop, draw))
    ensures HS.Step(p, HS.ServerReads(loop, draw)) == HS.Next(AfterRead(p, r))
  {}

  lemma ReadNeverFaults(f: State, loop: RP.Loop, draw: nat, ws: seq<Wire>)
    requires Coupled(f) && Enabled(f, ServerReads(loop, draw, ws))
    ensures RP.Step(f.room, ReadOf(f, loop, draw)).Next?
  {
    NextMessage(f);
    HS.SoundReads(View(f), loop, draw);
  }

  lemma ServerReadsKeeps(f: State, loop: RP.Loop, draw: nat, ws: seq<Wire>)
    requires Coupled(f) && Enabled(f, ServerReads(loop, draw, ws))
    ensures Step(f, ServerReads(loop, draw, ws)).Next? && Coupled(Step(f, ServerReads(loop, draw, ws)).f)
    ensures HS.Enabled(View(f), HS.ServerReads(loop, draw))
    ensures HS.Step(View(f), HS.ServerReads(loop, draw)) == HS.Next(View(Step(f, ServerReads(loop, draw, ws)).f))
  {
    ReadNeverFaults(f, loop, draw, ws);
    var r := RP.Step(f.room, ReadOf(f, loop, draw)).room;
    StepMoves(f, loop, draw, ws, r);
    ReadIsRead(f, loop, draw, ws, r);
    HandedLog(f, ReadOf(f, loop, draw), ws);
    HandedLinked(f, Moved(f, r, ws), r, ws);
    HS.StepKeepsSound(View(f), HS.ServerReads(loop, draw));
  }

  lemma SayIs(f: State, c: Client, ws: seq<Wire>)
    requires Linked(f)
    ensures View(Say(f, c, ws)) == HS.Say(View(f), c, ws) && Linked(Say(f, c, ws))
  {
    SpeakKeeps(f.up, ws);
    CC.SoundDelivers(f.up);
    assert f.up.writer.passed[f.handled..] + ws == (f.up.writer.passed + ws)[f.handled..];
  }

  lemma ShownFrame(f: State)
    requires Coupled(f) && f.seen < |f.down.stream.dispatched|
    ensures f.seen < |Log(f)| && Decode(f.down.stream.dispatched[f.seen]) == Log(f)[f.seen]
    ensures GoodFrame(Log(f)[f.seen])
  {
    InTurnShows(f.down);
    DecodedFits(f.down.stream.dispatched[f.seen]);
  }

  lemma OneMoreSeen(f: State)
    requires Linked(f) && f.seen < |f.down.stream.dispatched|
    ensures var g := f.(seen := f.seen + 1);
      View(g) == View(f).(read := f.seen + 1) && Linked(g)
  {}

  /** The client has acted on the frame. */
  lemma ActsKeeps(f: State, timestamp: nat, f': State)
    requires Coupled(f) && f.seen < |f.down.stream.dispatched| && HS.Enabled(View(f), HS.ClientReads(timestamp))
    requires var frame := Log(f)[f.seen];
      f' == Say(f.(seen := f.seen + 1), Learn(f.client, frame), Reply(frame, timestamp))
    ensures Coupled(f') && HS.Step(View(f), HS.ClientReads(timestamp)) == HS.Next(View(f'))
  {
    var frame, g := Log(f)[f.seen], f.(seen := f.seen + 1);
    OneMoreSeen(f);
    SayIs(g, Learn(f.client, frame), Reply(frame, timestamp));
    ActsIs(View(f), timestamp, frame, View(f'));
    HS.StepKeepsSound(View(f), HS.ClientReads(timestamp));
  }

  lemma ActsIs(p: HS.Product, timestamp: nat, frame: Frame, p': HS.Product)
    requires HS.Enabled(p, HS.ClientReads(timestamp)) && frame == HS.Log(p)[p.read]
    requires p' == HS.Say(p.(read := p.read + 1), Learn(p.client, frame), Reply(frame, timestamp))
    ensures HS.Step(p, HS.ClientReads(timestamp)) == HS.Next(p')
  {}

  lemma ClientReadsKeeps(f: State, timestamp: nat)
    requires Coupled(f) && Enabled(f, ClientReads(timestamp))
    ensures Coupled(Step(f, ClientReads(timestamp)).f)
    ensures HS.Enabled(View(f), HS.ClientReads(timestamp))
    ensures HS.Step(View(f), HS.ClientReads(timestamp)) == HS.Next(View(Step(f, ClientReads(timestamp)).f))
  {
    ShownFrame(f);
    var f' := ClientActs(f, f.down.stream.dispatched[f.seen], timestamp);
    assert Step(f, ClientReads(timestamp)) == Next(f');
    ActsKeeps(f, timestamp, f');
  }

  lemma TimerKeeps(f: State, timestamp: nat, json: seq<Byte>, past: seq<Byte>)
    requires Coupled(f) && Enabled(f, TimerFires(timestamp, json, past))
    ensures Coupled(Step(f, TimerFires(timestamp, json, past)).f)
  {
    SayIs(f, f.client, [UpdateAckMessage(f.client.participantId, timestamp, json, past)]);
    HS.StepKeepsSound(View(f), HS.TimerFires(timestamp, json, past));
  }

  ghost predicate TidyStep(f: State, e: Event) {
    e.Down? && e.s.Sends? ==> SC.AllSentBefore(f.down, e.s.j)
  }

  lemma DownKeeps(f: State, s: SC.Event)
    requires Coupled(f) && Enabled(f, Down(s)) && TidyStep(f, Down(s))
    ensures Coupled(Step(f, Down(s)).f)
  {
    SC.StepInTurn(f.down, s);
    Schedules.StepCounted(f.down, s);
    DownIs(f.down, s);
    assert View(Step(f, Down(s)).f) == View(f);
  }

  lemma DownIs(c: SC.Channel, s: SC.Event)
    requires !s.Delivered? && SC.Enabled(c, s)
    ensures SC.Step(c, s).frames == c.frames && |SC.Step(c, s).stream.dispatched| >= |c.stream.dispatched|
  {}

  lemma UpIs(c: CC.Channel, e: CC.Event)
    requires !e.WriteByte? && CC.Enabled(c, e)
    ensures CC.Step(c, e).writer.passed == c.writer.passed
    ensures |CC.Step(c, e).stream.dispatched| >= |c.stream.dispatched|
  {}

  lemma UpKeeps(f: State, c: CC.Event)
    requires Coupled(f) && Enabled(f, Up(c))
    ensures Coupled(Step(f, Up(c)).f)
  {
    CC.StepSound(f.up, c);
    UpIs(f.up, c);
    assert View(Step(f, Up(c)).f) == View(f);
  }

  lemma StepKeepsCoupled(f: State, e: Event)
    requires Coupled(f) && Enabled(f, e) && Step(f, e).Next? && TidyStep(f, e)
    ensures Coupled(Step(f, e).f)
  {
    match e
    case Elsewhere(e, ws) => ElsewhereKeeps(f, e, ws);
    case ServerReads(loop, draw, ws) => ServerReadsKeeps(f, loop, draw, ws);
    case ClientReads(timestamp) => ClientReadsKeeps(f, timestamp);
    case TimerFires(timestamp, json, past) => TimerKeeps(f, timestamp, json, past);
    case Down(s) => DownKeeps(f, s);
    case Up(c) => UpKeeps(f, c);
  }

  lemma StartCoupled(r: RP.Room, service: nat, c: Client, hello: Wire)
    requires RT.Reachable(r) && IsId(service) && WellFormed(c) && !c.armed && Decode(hello) == Hello(service, 0)
    ensures var f := Start(r, service, c, hello);
      Coupled(f) && SC.OneLeft(f.down) && |Log(f)| == 1
  {
    ProductStarts(r, service, c);
    StartLog(r, service, c);
    FreshCoupled(HS.Start(r, service, c), hello);
  }

  lemma ProductStarts(r: RP.Room, service: nat, c: Client)
    requires RT.Reachable(r) && IsId(service) && WellFormed(c) && !c.armed
    ensures HS.Sound(HS.Start(r, service, c))
  {
    assert HS.Starts(HS.Start(r, service, c));
    HS.StartsSound(HS.Start(r, service, c));
  }

  lemma FreshCoupled(p: HS.Product, hello: Wire)
    requires HS.Sound(p) && p.up == [] && p.read == 0 && HS.LogOf(p.room, p.u) == [Decode(hello)]
    ensures var f := State(p.room, p.u, p.client, HandOver(SC.Open(), [hello]), CC.Open(), 0, 0, p.trace);
      Coupled(f) && SC.OneLeft(f.down) && |Log(f)| == 1
  {
    FreshChannels(hello);
  }

  lemma StartLog(r: RP.Room, service: nat, c: Client)
    requires IsId(service)
    ensures var p := HS.Start(r, service, c);
      HS.LogOf(p.room, p.u) == [Hello(service, 0)] && p.up == [] && p.read == 0 && p.client == c
  {}

  lemma FreshChannels(hello: Wire)
    ensures var down := HandOver(SC.Open(), [hello]);
      && SC.InTurn(down) && Schedules.Counted(down) && SC.OneLeft(down) && down.frames == [hello]
      && down == SC.Step(SC.Open(), SC.Delivered(hello))
    ensures CC.Sound(CC.Open())
  {
    Schedules.OpenInTurn();
    HandOverKeeps(SC.Open(), [hello]);
    assert [] + [hello] == [hello];
    assert Streams.Flatten([]) + [] + [] == [];
  }

  lemma StartsCoupled(f: State)
    requires Starts(f)
    ensures Coupled(f) && SC.OneLeft(f.down) && |Log(f)| == 1
  {
    var r, service: nat, c, hello: Wire :|
      && RT.Reachable(r) && IsId(service) && WellFormed(c) && !c.armed && Decode(hello) == Hello(service, 0)
      && f == Start(r, service, c, hello);
    StartCoupled(r, service, c, hello);
  }
}
