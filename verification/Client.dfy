/** What chat_client does with a frame of the server and with its timer (nr_client.cpp). */
module ClientDispatch {
  import opened Bytes
  import Layout
  import opened Protocol
  import opened Messages
  import opened Frames

  /** `armed` says whether the update timer runs. */
  datatype Client = Client(participantId: nat, serviceId: nat, armed: bool)

  /** Every 8-byte field of a message is one. */
  predicate GoodFrame(f: Frame) {
    (f.Hello? ==> IsId(f.service)) && (f.Join? ==> IsId(f.id))
  }

  ghost predicate WellFormed(c: Client) {
    IsId(c.participantId) && IsId(c.serviceId)
  }

  /** The client takes the service id of HELLO for its own id, until JOIN. */
  function Learn(c: Client, f: Frame): Client {
    match f
    case Hello(service, _) => c.(participantId := service, serviceId := service)
    case Join(id) => c.(participantId := id, armed := true)
    case _ => c
  }

  function Reply(f: Frame, timestamp: nat): (ws: seq<Wire>)
    requires GoodFrame(f) && IsId(timestamp)
  {
    match f
    case Hello(service, _) => [HelloAckMessage(service, timestamp)]
    case Credentials => [CredentialsAckMessage(Ascii("login"), Ascii("password"))]
    case _ => []
  }

  lemma DecodedFits(w: Wire)
    ensures GoodFrame(Decode(w))
  {
    IdField(w);
  }

  /** The switch on the head and the fields it reads. */
  lemma DecodeCases(w: Wire, f: Frame)
    requires f == Decode(w)
    ensures f.Hello? <==> Head(w) == HANDSHAKE_HELLO
    ensures f.Hello? ==> f.service == Number(Payload(w)[0..8])
    ensures f.Credentials? <==> Head(w) == HANDSHAKE_CREDENTIALS
    ensures f.Join? <==> Head(w) == PARTICIPANT_JOIN
    ensures f.Join? ==> f == Join(Number(Payload(w)[0..8]))
  {}

  lemma IdField(w: Wire)
    ensures IsId(Layout.Read(ST_HANDSHAKE_HELLO, Payload(w), 0).n)
    ensures IsId(Layout.Read(ST_PARTICIPANT_JOIN, Payload(w), 0).n)
  {
    var image := Payload(w)[0..8];
    ImageOfNumber(image);
    assert Pow256(8) == 0x1_0000_0000_0000_0000;
  }
}

/** chat_client as the object it is. */
module ChatClients {
  import opened Bytes
  import opened Layout
  import opened Protocol
  import opened Messages
  import opened Frames
  import opened ClientDispatch
  import CW = ClientWriters

  /** write_byte of several messages in turn. */
  function WriteAll(w: CW.Writer<Wire>, ws: seq<Wire>): CW.Writer<Wire> {
    w.(posted := w.posted + ws, passed := w.passed + ws)
  }

  class ChatClient {
    var participantId: nat
    var serviceId: nat
    var armed: bool
    var isOpen: bool
    var reading: bool
    var posted: seq<Wire>
    var deque: seq<Wire>
    var writing: bool
    var failed: bool
    ghost var passed: seq<Wire>
    ghost var completed: seq<Wire>

    /** The ids are whatever the memory holds. */
    constructor (someId: nat, otherId: nat)
      requires IsId(someId) && IsId(otherId)
      ensures Valid() && Writer() == CW.Idle() && !armed && isOpen && reading
    {
      participantId, serviceId, armed := someId, otherId, false;
      isOpen, reading := true, true;
      posted, deque, writing, failed := [], [], false, false;
      passed, completed := [], [];
    }

    ghost function Abs(): Client
      reads this
    {
      Client(participantId, serviceId, armed)
    }

    ghost function Writer(): CW.Writer<Wire>
      reads this
    {
      CW.Writer(posted, deque, writing, failed, passed, completed)
    }

    /** At most one write is in progress, that of the front of the queue, and nothing given to
        write_byte is lost, doubled or out of order. */
    ghost predicate Valid()
      reads this
    {
      WellFormed(Abs()) && CW.Orderly(Writer())
    }

    method WriteByte(w: Wire)
      requires Valid()
      modifies this`posted, this`passed
      ensures Valid() && Abs() == old(Abs())
      ensures Writer() == WriteAll(old(Writer()), [w])
    {
      CW.WriteByteOrderly(Writer(), w);
      posted := posted + [w];
      passed := passed + [w];
    }

    /** do_write_byte: the write of the front begins; the front stays in the queue. */
    method DoWriteByte()
      requires deque != [] && !writing
      modifies this`writing
      ensures Writer() == old(Writer()).(writing := true)
    {
      writing := true;
    }

    /** The handler write_byte posts. */
    method RunPosted()
      requires Valid() && posted != []
      modifies this`posted, this`deque, this`writing
      ensures Valid() && Abs() == old(Abs())
      ensures Writer() == CW.RunPosted(old(Writer()))
    {
      CW.RunPostedOrderly(Writer());
      var inProgress := deque != [];
      deque := deque + [posted[0]];
      posted := posted[1..];
      if !inProgress {
        DoWriteByte();
      }
    }

    /** The completion handler of the write in progress. */
    method OnWrite(ok: bool)
      requires Valid() && writing
      modifies this`deque, this`writing, this`failed, this`completed, this`isOpen
      ensures Valid() && Abs() == old(Abs())
      ensures Writer() == CW.Complete(old(Writer()), ok)
      ensures isOpen == (old(isOpen) && ok)
    {
      CW.CompleteOrderly(Writer(), ok);
      writing := false;
      if ok {
        completed := completed + [deque[0]];
        deque := deque[1..];
        if deque != [] {
          DoWriteByte();
        }
      } else {
        failed := true;
        isOpen := false;
      }
    }

    method SendHelloAck(timestamp: nat)
      requires Valid() && IsId(timestamp)
      modifies this`posted, this`passed
      ensures Valid() && Abs() == old(Abs())
      ensures Writer() == WriteAll(old(Writer()), [HelloAckMessage(participantId, timestamp)])
    {
      var body := Pack(ST_HANDSHAKE_HELLO_ACK, HelloAckValues(participantId, timestamp));
      var msg := new XRMessage.FromBuffer(HANDSHAKE_HELLO_ACK, body, |body|);
      assert body[..|body|] == body;
      WriteByte(msg.data[..]);
    }

    /** The reply is filled as one structure and sent with the size of another. */
    method SendCredentials()
      requires Valid()
      modifies this`posted, this`passed
      ensures Valid() && Abs() == old(Abs())
      ensures Writer() == WriteAll(old(Writer()), [CredentialsAckMessage(Ascii("login"), Ascii("password"))])
    {
      var body := Pack(ST_HANDSHAKE_CREDENTIALS_ACK, CredentialsAckValues(Ascii("login"), Ascii("password")));
      var msg := new XRMessage.FromBuffer(HANDSHAKE_CREDENTIALS_ACK, body, SizeOf(ST_HANDSHAKE_CREDENTIALS));
      WriteByte(msg.data[..]);
    }

    method BeginParticipantUpdate()
      modifies this`armed
      ensures Abs() == old(Abs()).(armed := true) && Writer() == old(Writer())
    {
      armed := true;
    }

    /** The timer's handler; an error means that the wait was cancelled. `past` stands for the
        bytes behind the structure, which is sent with the size of a larger one. */
    method OnTimer(ok: bool, timestamp: nat, json: seq<Byte>, past: seq<Byte>)
      requires Valid() && armed && IsId(timestamp) && |json| <= 20480 && |past| == 12
      modifies this`posted, this`passed, this`armed
      ensures Valid() && Abs() == old(Abs()).(armed := ok)
      ensures Writer() == WriteAll(old(Writer()),
                                   if ok then [UpdateAckMessage(participantId, timestamp, json, past)] else [])
    {
      armed := false;
      if ok {
        var body := Pack(ST_PARTICIPANT_UPDATE_ACK, UpdateAckValues(participantId, timestamp, json)) + past;
        var msg := new XRMessage.FromBuffer(PARTICIPANT_UPDATE_ACK, body, |body|);
        assert body[..|body|] == body;
        WriteByte(msg.data[..]);
        BeginParticipantUpdate();
      } else {
        assert Writer() == WriteAll(old(Writer()), []);
      }
    }

    method HandleHello(service: nat, timestamp: nat, ghost f: Frame)
      requires Valid() && IsId(service) && IsId(timestamp) && f.Hello? && f.service == service
      modifies this`participantId, this`serviceId, this`posted, this`passed
      ensures Valid() && Abs() == Learn(old(Abs()), f)
      ensures Writer() == WriteAll(old(Writer()), Reply(f, timestamp))
    {
      participantId := service;
      serviceId := service;
      SendHelloAck(timestamp);
    }

    method HandleJoin(id: nat)
      requires Valid() && IsId(id)
      modifies this`participantId, this`armed
      ensures Valid() && Abs() == Learn(old(Abs()), Join(id)) && Writer() == old(Writer())
    {
      participantId := id;
      BeginParticipantUpdate();
    }

    /** The switch of do_read_byte. */
    method Dispatch(w: Wire, timestamp: nat, ghost f: Frame)
      requires Valid() && IsId(timestamp) && f == Decode(w) && GoodFrame(f)
      modifies this`participantId, this`serviceId, this`armed, this`posted, this`passed
      ensures Valid() && Abs() == Learn(old(Abs()), f)
      ensures Writer() == WriteAll(old(Writer()), Reply(f, timestamp))
    {
      DecodeCases(w, f);
      var msg := new XRMessage.FromBytes(w, |w|);
      assert msg.data[..] == w;
      var head := msg.GetHead();
      var payload := msg.GetPayload();
      if head == HANDSHAKE_HELLO {
        HandleHello(Number(payload[0..8]), timestamp, f);
      } else if head == HANDSHAKE_CREDENTIALS {
        SendCredentials();
      } else {
        if head == PARTICIPANT_JOIN {
          HandleJoin(Number(payload[0..8]));
        }
        assert WriteAll(Writer(), []) == Writer();
      }
    }

    /** The handler of do_read_byte: dispatch and ask for the next message, or close. */
    method OnRead(ok: bool, w: Wire, timestamp: nat)
      requires Valid() && reading && IsId(timestamp)
      modifies this`participantId, this`serviceId, this`armed, this`posted, this`passed, this`reading, this`isOpen
      ensures Valid() && GoodFrame(Decode(w)) && reading == ok && isOpen == (old(isOpen) && ok)
      ensures Abs() == if ok then Learn(old(Abs()), Decode(w)) else old(Abs())
      ensures Writer() == if ok then WriteAll(old(Writer()), Reply(Decode(w), timestamp)) else old(Writer())
    {
      DecodedFits(w);
      reading := false;
      if ok {
        Dispatch(w, timestamp, Decode(w));
        reading := true;
      } else {
        isOpen := false;
      }
    }
  }
}
