/** The message heads and packed structures of protocol.hpp. */
module Protocol {
  import opened Bytes
  import opened Layout

  const HANDSHAKE_HELLO := 1
  const HANDSHAKE_HELLO_ACK := 2
  const HANDSHAKE_CREDENTIALS := 3
  const HANDSHAKE_CREDENTIALS_ACK := 4
  const PARTICIPANT_JOIN := 9
  const PARTICIPANT_JOIN_ACK := 10
  const PARTICIPANT_NEW := 13
  const PARTICIPANT_NEW_ACK := 14
  const PARTICIPANT_LEAVE := 15
  const PARTICIPANT_LEAVE_ACK := 16
  const PARTICIPANT_UPDATE_ACK := 20

  const DESCRIPTOR_SIZE := 20480
  const NAME_SIZE := 1024

  const XR_MESSAGE_HEADER := [Int(2), Int(4), Int(2)]
  const ST_PARTICIPANT_LEAVE := [Int(8)]
  const ST_PARTICIPANT_NEW := [Int(8), Int(4), Raw(20480)]
  const ST_PARTICIPANT_JOIN := [Int(8), Int(2), Int(2), Int(4), Raw(10240)]
  const ST_PARTICIPANT_JOIN_ACK := [Int(8), Int(4), Raw(20480)]
  const ST_PARTICIPANT_UPDATE_ACK := [Int(8), Int(8), Int(4), Raw(20480)]
  const ST_HANDSHAKE_HELLO := [Int(8), Int(8), Int(8), Int(4), Raw(1024)]
  const ST_HANDSHAKE_HELLO_ACK := [Int(8), Int(8), Int(4), Raw(20480)]
  const ST_HANDSHAKE_CREDENTIALS := [Int(4), Raw(20480)]
  const ST_HANDSHAKE_CREDENTIALS_ACK := [Int(8), Int(2), Raw(1024), Int(2), Raw(1024), Int(2), Raw(20480)]
}

/** The 65536-byte message of XRMessage.hpp: an 8-byte header, the buffer, zero padding. */
module Messages {
  import opened Bytes
  import opened Layout
  import opened Protocol

  const MESSAGE_SIZE := 65536
  const HEADER_SIZE := 8

  predicate IsMessage(w: seq<Byte>) {
    |w| == MESSAGE_SIZE
  }

  type Wire = w: seq<Byte> | IsMessage(w) witness Zeros(65536)

  predicate ValidHead(head: nat, size: nat) {
    head < 0x1_0000 && size <= MESSAGE_SIZE - HEADER_SIZE
  }

  function Header(head: nat, size: nat): (h: seq<Byte>)
    requires ValidHead(head, size)
    ensures |h| == HEADER_SIZE
  {
    Pack(XR_MESSAGE_HEADER, [Num(head), Num(size), Num(0xFFFF)])
  }

  function Message(head: nat, body: seq<Byte>): (w: seq<Byte>)
    requires ValidHead(head, |body|)
    ensures IsMessage(w)
  {
    Header(head, |body|) + body + Zeros(MESSAGE_SIZE - HEADER_SIZE - |body|)
  }

  function Head(w: seq<Byte>): nat
    requires IsMessage(w)
  {
    Read(XR_MESSAGE_HEADER, w, 0).n
  }

  function PayloadSize(w: seq<Byte>): nat
    requires IsMessage(w)
  {
    Read(XR_MESSAGE_HEADER, w, 1).n
  }

  function Payload(w: seq<Byte>): (p: seq<Byte>)
    requires IsMessage(w)
    ensures |p| == MESSAGE_SIZE - HEADER_SIZE
  {
    w[HEADER_SIZE..]
  }

  /** Parsing a built message returns its head, its size and its buffer, zero padded. */
  lemma ParseOfMessage(head: nat, body: seq<Byte>)
    requires ValidHead(head, |body|)
    ensures Head(Message(head, body)) == head
    ensures PayloadSize(Message(head, body)) == |body|
    ensures Payload(Message(head, body)) == body + Zeros(MESSAGE_SIZE - HEADER_SIZE - |body|)
  {
    var vs := [Num(head), Num(|body|), Num(0xFFFF)];
    var w, rest := Message(head, body), body + Zeros(MESSAGE_SIZE - HEADER_SIZE - |body|);
    assert w == Pack(XR_MESSAGE_HEADER, vs)[..HEADER_SIZE] + rest;
    ReadOfCutPack(XR_MESSAGE_HEADER, vs, HEADER_SIZE, rest, 0);
    ReadOfCutPack(XR_MESSAGE_HEADER, vs, HEADER_SIZE, rest, 1);
  }

  /** The class of the same name, a vector fixed at 65536 bytes by both constructors. */
  class XRMessage {
    const data: array<Byte>

    ghost predicate Valid()
    {
      data.Length == MESSAGE_SIZE
    }

    /** XRMessage(head, buffer, size): size bytes of the buffer behind a fresh header. */
    constructor FromBuffer(head: nat, buffer: seq<Byte>, size: nat)
      requires size <= |buffer| && ValidHead(head, size)
      ensures Valid() && fresh(data)
      ensures data[..] == Message(head, buffer[..size])
    {
      data := new Byte[MESSAGE_SIZE](_ => 0);
      new;
      var header := Header(head, size);
      forall i | 0 <= i < HEADER_SIZE {
        data[i] := header[i];
      }
      forall i | 0 <= i < size {
        data[HEADER_SIZE + i] := buffer[i];
      }
      assert data[..] == Message(head, buffer[..size]);
    }

    /** XRMessage(buffer, size, check_endianess): the bytes of a read, zero padded. */
    constructor FromBytes(buffer: seq<Byte>, size: nat)
      requires size <= |buffer| && size <= MESSAGE_SIZE
      ensures Valid() && fresh(data)
      ensures data[..] == buffer[..size] + Zeros(MESSAGE_SIZE - size)
    {
      data := new Byte[MESSAGE_SIZE](_ => 0);
      new;
      forall i | 0 <= i < size {
        data[i] := buffer[i];
      }
      assert data[..] == buffer[..size] + Zeros(MESSAGE_SIZE - size);
    }

    method GetHead() returns (head: nat)
      requires Valid()
      ensures head == Head(data[..])
    {
      head := Number(data[..2]);
      assert data[..][0..2] == data[..2];
    }

    method GetPayloadSize() returns (size: nat)
      requires Valid()
      ensures size == PayloadSize(data[..])
    {
      size := Number(data[2..6]);
      assert data[..][2..6] == data[2..6];
    }

    method GetPayload() returns (payload: seq<Byte>)
      requires Valid()
      ensures payload == Payload(data[..])
    {
      payload := data[HEADER_SIZE..];
    }
  }
}

/** What a message means to the two ends of a session. */
module Frames {
  import opened Bytes
  import opened Layout
  import opened Protocol
  import opened Messages

  datatype Frame =
    | Hello(service: nat, id: nat)
    | Credentials
    | Join(id: nat)
    | New(id: nat, descriptor: seq<Byte>)
    | Leave(id: nat)
    | Update(bytes: seq<Byte>)
    | Unused

  function Min(a: nat, b: nat): nat {
    if a < b then a else b
  }

  function HelloOf(w: seq<Byte>): Frame
    requires IsMessage(w)
  {
    Hello(Read(ST_HANDSHAKE_HELLO, Payload(w), 0).n, Read(ST_HANDSHAKE_HELLO, Payload(w), 1).n)
  }

  function JoinOf(w: seq<Byte>): Frame
    requires IsMessage(w)
  {
    Join(Read(ST_PARTICIPANT_JOIN, Payload(w), 0).n)
  }

  function NewOf(w: seq<Byte>): Frame
    requires IsMessage(w)
  {
    var buffer := Read(ST_PARTICIPANT_NEW, Payload(w), 2).bytes;
    New(Read(ST_PARTICIPANT_NEW, Payload(w), 0).n,
        buffer[..Min(Read(ST_PARTICIPANT_NEW, Payload(w), 1).n, |buffer|)])
  }

  function LeaveOf(w: seq<Byte>): Frame
    requires IsMessage(w)
  {
    Leave(Read(ST_PARTICIPANT_LEAVE, Payload(w), 0).n)
  }

  /** The frame a client sees in a message of the server. */
  function Decode(w: seq<Byte>): Frame
    requires IsMessage(w)
  {
    if Head(w) == HANDSHAKE_HELLO then HelloOf(w)
    else if Head(w) == HANDSHAKE_CREDENTIALS then Credentials
    else if Head(w) == PARTICIPANT_JOIN then JoinOf(w)
    else if Head(w) == PARTICIPANT_NEW then NewOf(w)
    else if Head(w) == PARTICIPANT_LEAVE then LeaveOf(w)
    else if Head(w) == PARTICIPANT_UPDATE_ACK then Update(w)
    else Unused
  }

  predicate IsId(id: nat) {
    id < 0x1_0000_0000_0000_0000
  }

  /** The bytes of an ASCII text. */
  function Ascii(s: string): (b: seq<Byte>)
    ensures |b| == |s|
    ensures forall i :: 0 <= i < |s| && s[i] as int < 128 ==> b[i] == s[i] as int
  {
    seq(|s|, i requires 0 <= i < |s| => s[i] as int % 128)
  }

  /** A fixed-size character array holding b and then zeros. */
  function Padded(b: seq<Byte>, size: nat): (p: seq<Byte>)
    requires |b| <= size
    ensures |p| == size
  {
    b + Zeros(size - |b|)
  }

  // Messages built by the server.

  function HelloValues(service: nat, id: nat, timestamp: nat, name: seq<Byte>): (vs: seq<Value>)
    requires IsId(service) && IsId(id) && IsId(timestamp) && |name| <= 1024
    ensures FitsAll(ST_HANDSHAKE_HELLO, vs)
  {
    assert Pow256(8) == 0x1_0000_0000_0000_0000;
    [Num(service), Num(id), Num(timestamp), Num(|name|), Block(Padded(name, 1024))]
  }

  function JoinValues(id: nat): (vs: seq<Value>)
    requires IsId(id)
    ensures FitsAll(ST_PARTICIPANT_JOIN, vs)
  {
    assert Pow256(8) == 0x1_0000_0000_0000_0000;
    var welcome := Ascii("accepted in room");
    [Num(id), Num(1), Num(0xFFFF), Num(|welcome|), Block(Padded(welcome, 10240))]
  }

  function NewValues(id: nat, size: nat, buffer: seq<Byte>): (vs: seq<Value>)
    requires IsId(id) && size <= |buffer| == DESCRIPTOR_SIZE
    ensures FitsAll(ST_PARTICIPANT_NEW, vs)
  {
    assert Pow256(8) == 0x1_0000_0000_0000_0000;
    [Num(id), Num(size), Block(buffer)]
  }

  function HelloMessage(service: nat, id: nat, timestamp: nat, name: seq<Byte>): (w: seq<Byte>)
    requires IsId(service) && IsId(id) && IsId(timestamp) && |name| <= 1024
    ensures IsMessage(w)
  {
    Message(HANDSHAKE_HELLO, Pack(ST_HANDSHAKE_HELLO, HelloValues(service, id, timestamp, name)))
  }

  function CredentialsMessage(): (w: seq<Byte>)
    ensures IsMessage(w)
  {
    Message(HANDSHAKE_CREDENTIALS, Pack(ST_HANDSHAKE_CREDENTIALS, [Num(0), Block(Zeros(20480))]))
  }

  function JoinMessage(id: nat): (w: seq<Byte>)
    requires IsId(id)
    ensures IsMessage(w)
  {
    Message(PARTICIPANT_JOIN, Pack(ST_PARTICIPANT_JOIN, JoinValues(id)))
  }

  function NewMessage(id: nat, size: nat, buffer: seq<Byte>): (w: seq<Byte>)
    requires IsId(id) && size <= |buffer| == DESCRIPTOR_SIZE
    ensures IsMessage(w)
  {
    Message(PARTICIPANT_NEW, Pack(ST_PARTICIPANT_NEW, NewValues(id, size, buffer)))
  }

  function LeaveMessage(id: nat): (w: seq<Byte>)
    requires IsId(id)
    ensures IsMessage(w)
  {
    Message(PARTICIPANT_LEAVE, Pack(ST_PARTICIPANT_LEAVE, [Num(id)]))
  }

  /** Every field of a structure sent whole is read back by the receiver. */
  lemma FieldOfMessage(head: nat, fs: seq<Field>, vs: seq<Value>, k: nat)
    requires FitsAll(fs, vs) && ValidHead(head, SizeOf(fs)) && k < |fs|
    ensures Head(Message(head, Pack(fs, vs))) == head
    ensures Read(fs, Payload(Message(head, Pack(fs, vs))), k) == vs[k]
  {
    var body := Pack(fs, vs);
    ParseOfMessage(head, body);
    assert body[..SizeOf(fs)] == body;
    ReadOfCutPack(fs, vs, SizeOf(fs), Zeros(MESSAGE_SIZE - HEADER_SIZE - |body|), k);
  }

  lemma DecodeHello(service: nat, id: nat, timestamp: nat, name: seq<Byte>)
    requires IsId(service) && IsId(id) && IsId(timestamp) && |name| <= 1024
    ensures Decode(HelloMessage(service, id, timestamp, name)) == Hello(service, id)
  {
    var vs := HelloValues(service, id, timestamp, name);
    FieldOfMessage(HANDSHAKE_HELLO, ST_HANDSHAKE_HELLO, vs, 0);
    FieldOfMessage(HANDSHAKE_HELLO, ST_HANDSHAKE_HELLO, vs, 1);
  }

  lemma DecodeCredentials()
    ensures Decode(CredentialsMessage()) == Credentials
  {
    FieldOfMessage(HANDSHAKE_CREDENTIALS, ST_HANDSHAKE_CREDENTIALS,
                 [Num(0), Block(Zeros(20480))], 0);
  }

  lemma DecodeJoin(id: nat)
    requires IsId(id)
    ensures Decode(JoinMessage(id)) == Join(id)
  {
    var vs := JoinValues(id);
    FieldOfMessage(PARTICIPANT_JOIN, ST_PARTICIPANT_JOIN, vs, 0);
  }

  /** Whatever fills the buffer past the descriptor, the frame decodes to the id and the descriptor. */
  lemma DecodeNew(id: nat, size: nat, buffer: seq<Byte>)
    requires IsId(id) && size <= |buffer| == DESCRIPTOR_SIZE
    ensures Decode(NewMessage(id, size, buffer)) == New(id, buffer[..size])
  {
    var vs := NewValues(id, size, buffer);
    FieldOfMessage(PARTICIPANT_NEW, ST_PARTICIPANT_NEW, vs, 0);
    FieldOfMessage(PARTICIPANT_NEW, ST_PARTICIPANT_NEW, vs, 1);
    FieldOfMessage(PARTICIPANT_NEW, ST_PARTICIPANT_NEW, vs, 2);
  }

  lemma DecodeLeave(id: nat)
    requires IsId(id)
    ensures Decode(LeaveMessage(id)) == Leave(id)
  {
    var w, vs := LeaveMessage(id), [Num(id)];
    FieldOfMessage(PARTICIPANT_LEAVE, ST_PARTICIPANT_LEAVE, vs, 0);
  }

  // What the server reads out of the messages of a client.

  function ConfigurationSize(w: seq<Byte>): nat
    requires IsMessage(w)
  {
    Read(ST_HANDSHAKE_HELLO_ACK, Payload(w), 2).n
  }

  function Configuration(w: seq<Byte>): (c: seq<Byte>)
    requires IsMessage(w)
    ensures |c| == Min(ConfigurationSize(w), DESCRIPTOR_SIZE)
  {
    Read(ST_HANDSHAKE_HELLO_ACK, Payload(w), 3).bytes[..Min(ConfigurationSize(w), DESCRIPTOR_SIZE)]
  }

  function JsonSize(w: seq<Byte>): nat
    requires IsMessage(w)
  {
    Read(ST_PARTICIPANT_JOIN_ACK, Payload(w), 1).n
  }

  function Json(w: seq<Byte>): (j: seq<Byte>)
    requires IsMessage(w)
    ensures |j| == Min(JsonSize(w), DESCRIPTOR_SIZE)
  {
    Read(ST_PARTICIPANT_JOIN_ACK, Payload(w), 2).bytes[..Min(JsonSize(w), DESCRIPTOR_SIZE)]
  }

  /** strcmp(buffer, text) == 0, comparing byte by byte up to the terminator. */
  predicate CStringEqual(buffer: seq<Byte>, text: seq<Byte>)
    requires |text| < |buffer|
  {
    if text == [] then buffer[0] == 0
    else buffer[0] == text[0] && CStringEqual(buffer[1..], text[1..])
  }

  lemma {:induction false} CStringEqualIff(buffer: seq<Byte>, text: seq<Byte>)
    requires |text| < |buffer|
    ensures CStringEqual(buffer, text) <==> buffer[..|text| + 1] == text + [0]
  {
    if text == [] {
    } else {
      CStringEqualIff(buffer[1..], text[1..]);
      assert buffer[..|text| + 1] == [buffer[0]] + buffer[1..][..|text|];
      assert text + [0] == [text[0]] + (text[1..] + [0]);
    }
  }

  predicate AcceptsLogin(w: seq<Byte>)
    requires IsMessage(w)
  {
    && CStringEqual(Read(ST_HANDSHAKE_CREDENTIALS_ACK, Payload(w), 2).bytes, Ascii("login"))
    && CStringEqual(Read(ST_HANDSHAKE_CREDENTIALS_ACK, Payload(w), 4).bytes, Ascii("password"))
  }

  /** What the server takes a message of a client for. The two copied buffers carry the size
      declared in the message, which nothing checks. */
  datatype Received =
    | HelloAck(size: nat, configuration: seq<Byte>)
    | CredentialsAck(accepted: bool)
    | JoinAck(id: nat, size: nat, json: seq<Byte>)
    | NewAck
    | UpdateAck(bytes: seq<Byte>)
    | LeaveAck
    | Unknown

  function HelloAckOf(w: seq<Byte>): Received
    requires IsMessage(w)
  {
    HelloAck(ConfigurationSize(w), Configuration(w))
  }

  function JoinAckOf(w: seq<Byte>): Received
    requires IsMessage(w)
  {
    JoinAck(Read(ST_PARTICIPANT_JOIN_ACK, Payload(w), 0).n, JsonSize(w), Json(w))
  }

  function Parse(w: seq<Byte>): Received
    requires IsMessage(w)
  {
    if Head(w) == HANDSHAKE_HELLO_ACK then HelloAckOf(w)
    else if Head(w) == HANDSHAKE_CREDENTIALS_ACK then CredentialsAck(AcceptsLogin(w))
    else if Head(w) == PARTICIPANT_JOIN_ACK then JoinAckOf(w)
    else if Head(w) == PARTICIPANT_NEW_ACK then NewAck
    else if Head(w) == PARTICIPANT_UPDATE_ACK then UpdateAck(w)
    else if Head(w) == PARTICIPANT_LEAVE_ACK then LeaveAck
    else Unknown
  }

  // Messages built by chat_client.

  function HelloAckValues(id: nat, timestamp: nat): (vs: seq<Value>)
    requires IsId(id) && IsId(timestamp)
    ensures FitsAll(ST_HANDSHAKE_HELLO_ACK, vs)
  {
    assert Pow256(8) == 0x1_0000_0000_0000_0000;
    var text := Ascii("ABCDEFGHIJKLMNOPQRST");
    [Num(id), Num(timestamp), Num(|text|), Block(Padded(text, 20480))]
  }

  function UpdateAckValues(id: nat, timestamp: nat, json: seq<Byte>): (vs: seq<Value>)
    requires IsId(id) && IsId(timestamp) && |json| <= 20480
    ensures FitsAll(ST_PARTICIPANT_UPDATE_ACK, vs)
  {
    assert Pow256(8) == 0x1_0000_0000_0000_0000;
    [Num(id), Num(timestamp), Num(|json|), Block(Padded(json, 20480))]
  }

  function HelloAckMessage(id: nat, timestamp: nat): (w: seq<Byte>)
    requires IsId(id) && IsId(timestamp)
    ensures IsMessage(w)
  {
    Message(HANDSHAKE_HELLO_ACK, Pack(ST_HANDSHAKE_HELLO_ACK, HelloAckValues(id, timestamp)))
  }

  function CredentialsAckValues(login: seq<Byte>, password: seq<Byte>): (vs: seq<Value>)
    requires |login| <= 1024 && |password| <= 1024
    ensures FitsAll(ST_HANDSHAKE_CREDENTIALS_ACK, vs)
  {
    [Num(0), Num(|login|), Block(Padded(login, 1024)), Num(|password|), Block(Padded(password, 1024)),
     Num(0), Block(Zeros(20480))]
  }

  /** The reply is declared with the size of the smaller ST_HANDSHAKE_CREDENTIALS. */
  function CredentialsAckMessage(login: seq<Byte>, password: seq<Byte>): (w: seq<Byte>)
    requires |login| <= 1024 && |password| <= 1024
    ensures IsMessage(w)
  {
    var whole := Pack(ST_HANDSHAKE_CREDENTIALS_ACK, CredentialsAckValues(login, password));
    Message(HANDSHAKE_CREDENTIALS_ACK, whole[..SizeOf(ST_HANDSHAKE_CREDENTIALS)])
  }

  /** The update is declared with the size of ST_PARTICIPANT_UPDATE; the bytes past the
      packed structure are whatever follows it in memory. */
  function UpdateAckMessage(id: nat, timestamp: nat, json: seq<Byte>, past: seq<Byte>): (w: seq<Byte>)
    requires IsId(id) && IsId(timestamp) && |json| <= 20480 && |past| == 12
    ensures IsMessage(w)
  {
    Message(PARTICIPANT_UPDATE_ACK, Pack(ST_PARTICIPANT_UPDATE_ACK, UpdateAckValues(id, timestamp, json)) + past)
  }

  lemma ParseHelloAck(id: nat, timestamp: nat)
    requires IsId(id) && IsId(timestamp)
    ensures Parse(HelloAckMessage(id, timestamp)) == HelloAck(20, Ascii("ABCDEFGHIJKLMNOPQRST"))
  {
    var vs := HelloAckValues(id, timestamp);
    FieldOfMessage(HANDSHAKE_HELLO_ACK, ST_HANDSHAKE_HELLO_ACK, vs, 2);
    FieldOfMessage(HANDSHAKE_HELLO_ACK, ST_HANDSHAKE_HELLO_ACK, vs, 3);
  }

  lemma ParseUpdateAck(id: nat, timestamp: nat, json: seq<Byte>, past: seq<Byte>)
    requires IsId(id) && IsId(timestamp) && |json| <= 20480 && |past| == 12
    ensures var w := UpdateAckMessage(id, timestamp, json, past);
      Parse(w) == UpdateAck(w) && Decode(w) == Update(w)
  {
    var vs := UpdateAckValues(id, timestamp, json);
    ParseOfMessage(PARTICIPANT_UPDATE_ACK, Pack(ST_PARTICIPANT_UPDATE_ACK, vs) + past);
  }

  lemma CutCredentialsShow(login: seq<Byte>, password: seq<Byte>)
    requires |login| <= 1024 && |password| <= 1024
    ensures var w := CredentialsAckMessage(login, password);
      && Head(w) == HANDSHAKE_CREDENTIALS_ACK
      && PayloadSize(w) == SizeOf(ST_HANDSHAKE_CREDENTIALS)
      && Read(ST_HANDSHAKE_CREDENTIALS_ACK, Payload(w), 2) == Block(Padded(login, 1024))
      && Read(ST_HANDSHAKE_CREDENTIALS_ACK, Payload(w), 4) == Block(Padded(password, 1024))
  {
    var vs, n := CredentialsAckValues(login, password), SizeOf(ST_HANDSHAKE_CREDENTIALS);
    ParseOfMessage(HANDSHAKE_CREDENTIALS_ACK, Pack(ST_HANDSHAKE_CREDENTIALS_ACK, vs)[..n]);
    var rest := Zeros(MESSAGE_SIZE - HEADER_SIZE - n);
    ReadOfCutPack(ST_HANDSHAKE_CREDENTIALS_ACK, vs, n, rest, 2);
    ReadOfCutPack(ST_HANDSHAKE_CREDENTIALS_ACK, vs, n, rest, 4);
  }

  /** The cut reply still shows its login and password whole, and the server accepts it
      exactly when they are the two words it expects. */
  lemma CutCredentialsAreChecked(login: seq<Byte>, password: seq<Byte>)
    requires |login| < 1024 && |password| < 1024
    requires 0 !in login && 0 !in password
    ensures var w := CredentialsAckMessage(login, password);
      && Head(w) == HANDSHAKE_CREDENTIALS_ACK
      && PayloadSize(w) == SizeOf(ST_HANDSHAKE_CREDENTIALS)
      && Read(ST_HANDSHAKE_CREDENTIALS_ACK, Payload(w), 2) == Block(Padded(login, 1024))
      && Read(ST_HANDSHAKE_CREDENTIALS_ACK, Payload(w), 4) == Block(Padded(password, 1024))
      && (AcceptsLogin(w) <==> login == Ascii("login") && password == Ascii("password"))
  {
    CutCredentialsShow(login, password);
    PaddedComparesWhole(login, Ascii("login"));
    PaddedComparesWhole(password, Ascii("password"));
  }

  lemma PaddedComparesWhole(b: seq<Byte>, text: seq<Byte>)
    requires |b| < 1024 && |text| < 1024 && 0 !in b && 0 !in text
    ensures CStringEqual(Padded(b, 1024), text) <==> b == text
  {
    var p, q := Padded(b, 1024), text + [0];
    CStringEqualIff(p, text);
    assert forall i :: 0 <= i < |b| ==> b[i] in b && p[i] == b[i];
    assert forall i :: 0 <= i < |text| ==> text[i] in text && q[i] == text[i];
    if p[..|q|] == q {
      assert forall i :: 0 <= i < |q| ==> p[..|q|][i] == p[i];
      assert p[|text|] == 0 && p[|b|] == 0;
      assert |b| == |text|;
    }
    if b == text {
      assert p[..|q|] == q;
    }
  }
}
