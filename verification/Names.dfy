/** By which names the client goes: the service it is told in HELLO, the id it puts into its updates. */
module HandshakeNames {
  import opened Bytes
  import opened Messages
  import opened Frames
  import opened ClientDispatch
  import opened Handshake
  import opened WireFormat
  import RI = RoomInvariant
  import RP = RoomProtocol
  import Bystanders

  /** The id a message of the client carries. */
  function NameIn(w: Wire): nat {
    NumberAt(Payload(w), 0, 8)
  }

  ghost predicate KnowsService(p: Product) {
    p.read > 0 ==>
      && |Log(p)| > 0 && Log(p)[0].Hello? && p.client.serviceId == Log(p)[0].service
      && (p.read <= 2 ==> p.client.participantId == p.client.serviceId)
  }

  ghost predicate NamesItself(p: Product)
    requires p.u < |p.room.sessions|
  {
    && (forall i :: 0 <= i < |p.up| && Parse(p.up[i]).UpdateAck? ==> NameIn(p.up[i]) == Peer(p).id)
    && (forall i :: 0 <= i < |p.up| && Parse(p.up[i]).HelloAck? ==> NameIn(p.up[i]) == p.client.serviceId)
    && (forall i :: 0 <= i < |p.up| && Parse(p.up[i]).CredentialsAck? ==> NameIn(p.up[i]) == 0)
  }

  ghost predicate Named(p: Product) {
    Sound(p) && KnowsService(p) && NamesItself(p)
  }

  lemma ElsewhereNamed(p: Product, e: RP.Event)
    requires Named(p) && Enabled(p, Elsewhere(e)) && Step(p, Elsewhere(e)).Next?
    ensures Named(Step(p, Elsewhere(e)).p)
  {
    StepKeepsSound(p, Elsewhere(e));
    Bystanders.StepStandsBy(p.room, e, p.u);
  }

  lemma AfterRead(p: Product, loop: RP.Loop, draw: nat)
    requires Sound(p) && Enabled(p, ServerReads(loop, draw))
    ensures Step(p, ServerReads(loop, draw)).Next?
    ensures var p' := Step(p, ServerReads(loop, draw)).p;
      && p'.u == p.u < |p'.room.sessions| && p'.client == p.client && p'.read == p.read
      && p'.up == p.up[1..] && |Log(p)| > 0 && |Log(p')| > 0 && Log(p')[0] == Log(p)[0]
      && (p'.up == [] || Peer(p').id == Peer(p).id)
  {
    if AtHello(p) {
      HelloAckStep(p, loop, draw);
    } else if AtCredentials(p) {
      CredentialsAckStep(p, loop, draw);
    } else {
      UpdateStep(p, loop, draw);
    }
  }

  lemma ServerReadsNamed(p: Product, loop: RP.Loop, draw: nat)
    requires Named(p) && Enabled(p, ServerReads(loop, draw)) && Step(p, ServerReads(loop, draw)).Next?
    ensures Named(Step(p, ServerReads(loop, draw)).p)
  {
    StepKeepsSound(p, ServerReads(loop, draw));
    AfterRead(p, loop, draw);
  }

  /** The client handles a frame and says ws. */
  lemma Acts(p: Product, timestamp: nat, f: Frame, ws: seq<Wire>)
    requires Enabled(p, ClientReads(timestamp)) && f == Log(p)[p.read] && ws == Reply(f, timestamp)
    ensures var p' := Step(p, ClientReads(timestamp)).p;
      && p'.room == p.room && p'.u == p.u && p'.read == p.read + 1
      && p'.up == p.up + ws && p'.client == Learn(p.client, f)
  {}

  lemma HelloNamed(p: Product, timestamp: nat)
    requires Named(p) && AtHello(p) && Enabled(p, ClientReads(timestamp))
    ensures Named(Step(p, ClientReads(timestamp)).p)
  {
    var f := Log(p)[0];
    var w: Wire := HelloAckMessage(f.service, timestamp);
    StepKeepsSound(p, ClientReads(timestamp));
    ParseHelloAck(f.service, timestamp);
    HelloAckBytes(f.service, timestamp);
    Acts(p, timestamp, f, [w]);
    assert p.up + [w] == [w];
  }

  lemma LoginBytes(w: Wire)
    requires w == CredentialsAckMessage(Ascii("login"), Ascii("password"))
    ensures Parse(w) == CredentialsAck(true) && NameIn(w) == 0
  {
    LoginIsAccepted();
    CredentialsAckBytes(Ascii("login"), Ascii("password"));
  }

  lemma LoginNamed(p: Product, p': Product, w: Wire)
    requires Named(p) && AtCredentials(p) && p.read == 1 && Sound(p')
    requires Parse(w) == CredentialsAck(true) && NameIn(w) == 0
    requires p'.room == p.room && p'.u == p.u && p'.read == 2 && p'.client == p.client && p'.up == [w]
    ensures Named(p')
  {}

  lemma SaysLogin(p: Product, timestamp: nat, w: Wire)
    requires AwaitsLogin(p) && p.read == 1 && Enabled(p, ClientReads(timestamp))
    requires Reply(Credentials, timestamp) == [w]
    ensures var p' := Step(p, ClientReads(timestamp)).p;
      p'.room == p.room && p'.u == p.u && p'.read == 2 && p'.client == p.client && p'.up == [w]
  {
    Acts(p, timestamp, Credentials, [w]);
    assert p.up + [w] == [w];
  }

  /** CREDENTIALS is the next frame and nothing is on its way up. */
  ghost predicate AwaitsLogin(p: Product) {
    |Log(p)| == 2 && Log(p)[1] == Credentials && p.up == []
  }

  lemma CredentialsNamed(p: Product, timestamp: nat)
    requires Named(p) && AtCredentials(p) && Enabled(p, ClientReads(timestamp))
    ensures Named(Step(p, ClientReads(timestamp)).p)
  {
    var w: Wire := CredentialsAckMessage(Ascii("login"), Ascii("password"));
    StepKeepsSound(p, ClientReads(timestamp));
    LoginBytes(w);
    SaysLogin(p, timestamp, w);
    LoginNamed(p, Step(p, ClientReads(timestamp)).p, w);
  }

  lemma HeardNamed(p: Product, p': Product, f: Frame)
    requires Named(p) && AtJoin(p) && Sound(p') && p.read >= 2 && !f.Hello?
    requires p'.room == p.room && p'.u == p.u && p'.read == p.read + 1 && p'.client == Learn(p.client, f)
    requires p'.up == p.up
    ensures Named(p')
  {}

  lemma NewsIsNoGreeting(p: Product)
    requires p.u < |p.room.sessions| && AtJoin(p) && p.read < |Log(p)|
    ensures !Log(p)[p.read].Hello? && !Log(p)[p.read].Credentials?
  {
    assert p.read == 2 || RI.Tells(Log(p)[p.read]);
  }

  lemma SaysNothing(p: Product, timestamp: nat, f: Frame)
    requires Enabled(p, ClientReads(timestamp)) && f == Log(p)[p.read] && !f.Hello? && !f.Credentials?
    ensures var p' := Step(p, ClientReads(timestamp)).p;
      && p'.room == p.room && p'.u == p.u && p'.read == p.read + 1
      && p'.up == p.up && p'.client == Learn(p.client, f)
  {
    Acts(p, timestamp, f, []);
    assert p.up + [] == p.up;
  }

  lemma NewsNamed(p: Product, timestamp: nat)
    requires Named(p) && AtJoin(p) && Enabled(p, ClientReads(timestamp))
    ensures Named(Step(p, ClientReads(timestamp)).p)
  {
    var f := Log(p)[p.read];
    NewsIsNoGreeting(p);
    StepKeepsSound(p, ClientReads(timestamp));
    SaysNothing(p, timestamp, f);
    HeardNamed(p, Step(p, ClientReads(timestamp)).p, f);
  }

  lemma TimerNamed(p: Product, timestamp: nat, json: seq<Byte>, past: seq<Byte>)
    requires Named(p) && Enabled(p, TimerFires(timestamp, json, past))
    ensures Named(Step(p, TimerFires(timestamp, json, past)).p)
  {
    var w: Wire := UpdateAckMessage(p.client.participantId, timestamp, json, past);
    StepKeepsSound(p, TimerFires(timestamp, json, past));
    ParseUpdateAck(p.client.participantId, timestamp, json, past);
    UpdateAckBytes(p.client.participantId, timestamp, json, past);
    OneMoreNamed(p, Step(p, TimerFires(timestamp, json, past)).p, w);
  }

  lemma OneMoreNamed(p: Product, p': Product, w: Wire)
    requires Named(p) && AtJoin(p) && p.read > 2 && Sound(p') && Parse(w).UpdateAck? && NameIn(w) == Peer(p).id
    requires p'.room == p.room && p'.u == p.u && p'.read == p.read && p'.client == p.client && p'.up == p.up + [w]
    ensures Named(p')
  {}

  lemma StepKeepsNamed(p: Product, e: Event)
    requires Named(p) && Enabled(p, e) && Step(p, e).Next?
    ensures Named(Step(p, e).p)
  {
    match e
    case Elsewhere(e) => ElsewhereNamed(p, e);
    case ServerReads(loop, draw) => ServerReadsNamed(p, loop, draw);
    case TimerFires(timestamp, json, past) => TimerNamed(p, timestamp, json, past);
    case ClientReads(timestamp) =>
      if AtHello(p) {
        HelloNamed(p, timestamp);
      } else if AtCredentials(p) {
        CredentialsNamed(p, timestamp);
      } else {
        NewsNamed(p, timestamp);
      }
  }

  lemma {:induction false} RunKeepsNamed(p: Product, es: seq<Event>)
    requires Named(p) && Legal(p, es)
    ensures Named(After(p, es))
    decreases |es|
  {
    if es == [] {
    } else {
      StepKeepsNamed(p, es[0]);
      RunKeepsNamed(Step(p, es[0]).p, es[1..]);
    }
  }

  lemma ReachableNamed(p: Product)
    requires Reachable(p)
    ensures Named(p)
  {
    var start, es :| Starts(start) && Legal(start, es) && p == After(start, es);
    StartsSound(start);
    assert AtHello(start);
    RunKeepsNamed(start, es);
  }

  /** A client that has handled HELLO knows the service of that frame, and until it has handled JOIN it
      takes it for its own id, which its HELLO_ACK carries; every update on its way to the server
      carries the id of its session, and its login no id. */
  lemma ClientGoesByItsNames(p: Product)
    requires Reachable(p)
    ensures p.u < |p.room.sessions|
    ensures p.read > 0 ==>
      && |Log(p)| > 0 && Log(p)[0].Hello? && p.client.serviceId == Log(p)[0].service
      && (p.read <= 2 ==> p.client.participantId == p.client.serviceId)
    ensures forall i :: 0 <= i < |p.up| && Parse(p.up[i]).UpdateAck? ==>
      NumberAt(Payload(p.up[i]), 0, 8) == p.room.sessions[p.u].id
    ensures forall i :: 0 <= i < |p.up| && Parse(p.up[i]).HelloAck? ==>
      NumberAt(Payload(p.up[i]), 0, 8) == p.client.serviceId
    ensures forall i :: 0 <= i < |p.up| && Parse(p.up[i]).CredentialsAck? ==>
      NumberAt(Payload(p.up[i]), 0, 8) == 0
  {
    ReachableNamed(p);
  }
}
