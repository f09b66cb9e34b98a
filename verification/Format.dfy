/** The messages byte by byte: what stands at which offset, whoever builds or reads it. */
module WireFormat {
  import opened Bytes
  import opened Layout
  import opened Protocol
  import opened Messages
  import opened Frames

  /** The number at offset o, in w bytes. */
  function NumberAt(p: seq<Byte>, o: nat, w: nat): nat
    requires o + w <= |p|
  {
    Number(p[o..o + w])
  }

  /** The first n bytes of the buffer at offset o, at most as many as it holds. */
  function BytesAt(p: seq<Byte>, o: nat, n: nat, size: nat): seq<Byte>
    requires o + size <= |p|
  {
    p[o..o + Min(n, size)]
  }

  // ----- what the server takes a message for -----

  /** The two words, terminator included. */
  const LOGIN: seq<Byte> := [108, 111, 103, 105, 110, 0]
  const PASSWORD: seq<Byte> := [112, 97, 115, 115, 119, 111, 114, 100, 0]

  lemma WordsAreAscii()
    ensures Ascii("login") + [0] == LOGIN && Ascii("password") + [0] == PASSWORD
  {}

  /** The login is accepted exactly if these bytes stand in its two buffers. */
  lemma LoginIsOfBytes(w: Wire)
    ensures AcceptsLogin(w) <==> Payload(w)[10..16] == LOGIN && Payload(w)[1036..1045] == PASSWORD
  {
    var login := Read(ST_HANDSHAKE_CREDENTIALS_ACK, Payload(w), 2).bytes;
    var password := Read(ST_HANDSHAKE_CREDENTIALS_ACK, Payload(w), 4).bytes;
    assert login == Payload(w)[10..1034] && password == Payload(w)[1036..2060];
    CStringEqualIff(login, Ascii("login"));
    CStringEqualIff(password, Ascii("password"));
    WordsAreAscii();
    assert login[..6] == Payload(w)[10..16] && password[..9] == Payload(w)[1036..1045];
  }

  lemma HelloAckIsOfBytes(w: Wire)
    ensures HelloAckOf(w) == HelloAck(NumberAt(Payload(w), 16, 4),
                                      BytesAt(Payload(w), 20, NumberAt(Payload(w), 16, 4), 20480))
  {
    var p, n := Payload(w), ConfigurationSize(w);
    assert n == NumberAt(p, 16, 4);
    var buffer := Read(ST_HANDSHAKE_HELLO_ACK, p, 3).bytes;
    assert buffer == p[20..20500];
    assert buffer[..Min(n, 20480)] == BytesAt(p, 20, n, 20480);
  }

  lemma JoinAckIsOfBytes(w: Wire)
    ensures JoinAckOf(w) == JoinAck(NumberAt(Payload(w), 0, 8), NumberAt(Payload(w), 8, 4),
                                    BytesAt(Payload(w), 12, NumberAt(Payload(w), 8, 4), 20480))
  {
    var p, n := Payload(w), JsonSize(w);
    assert n == NumberAt(p, 8, 4);
    var buffer := Read(ST_PARTICIPANT_JOIN_ACK, p, 2).bytes;
    assert buffer == p[12..20492];
    assert buffer[..Min(n, 20480)] == BytesAt(p, 12, n, 20480);
  }

  /** The head of a message is its first two bytes, and it alone decides what the server takes it for. */
  lemma ParseIsOfBytes(w: Wire)
    ensures var head, p := NumberAt(w, 0, 2), Payload(w);
      && p == w[8..]
      && (head == 2 ==> Parse(w) == HelloAck(NumberAt(p, 16, 4), BytesAt(p, 20, NumberAt(p, 16, 4), 20480)))
      && (head == 4 ==> Parse(w) == CredentialsAck(p[10..16] == LOGIN && p[1036..1045] == PASSWORD))
      && (head == 10 ==>
            Parse(w) == JoinAck(NumberAt(p, 0, 8), NumberAt(p, 8, 4), BytesAt(p, 12, NumberAt(p, 8, 4), 20480)))
      && (head == 14 ==> Parse(w) == NewAck)
      && (head == 16 ==> Parse(w) == LeaveAck)
      && (head == 20 ==> Parse(w) == UpdateAck(w))
      && (head !in {2, 4, 10, 14, 16, 20} ==> Parse(w) == Unknown)
  {
    HeadIsOfBytes(w);
    HelloAckIsOfBytes(w);
    LoginIsOfBytes(w);
    JoinAckIsOfBytes(w);
  }

  lemma HeadIsOfBytes(w: Wire)
    ensures Head(w) == NumberAt(w, 0, 2) && PayloadSize(w) == NumberAt(w, 2, 4)
  {}

  // ----- what a client takes a message for -----

  lemma NewIsOfBytes(w: Wire)
    ensures NewOf(w) == New(NumberAt(Payload(w), 0, 8), BytesAt(Payload(w), 12, NumberAt(Payload(w), 8, 4), 20480))
  {
    var p := Payload(w);
    var buffer := Read(ST_PARTICIPANT_NEW, p, 2).bytes;
    assert buffer == p[12..20492];
    assert buffer[..Min(NumberAt(p, 8, 4), 20480)] == BytesAt(p, 12, NumberAt(p, 8, 4), 20480);
  }

  lemma DecodeIsOfBytes(w: Wire)
    ensures var head, p := NumberAt(w, 0, 2), Payload(w);
      && (head == 1 ==> Decode(w) == Hello(NumberAt(p, 0, 8), NumberAt(p, 8, 8)))
      && (head == 3 ==> Decode(w) == Credentials)
      && (head == 9 ==> Decode(w) == Join(NumberAt(p, 0, 8)))
      && (head == 13 ==> Decode(w) == New(NumberAt(p, 0, 8), BytesAt(p, 12, NumberAt(p, 8, 4), 20480)))
      && (head == 15 ==> Decode(w) == Leave(NumberAt(p, 0, 8)))
      && (head == 20 ==> Decode(w) == Update(w))
      && (head !in {1, 3, 9, 13, 15, 20} ==> Decode(w) == Unused)
  {
    HeadIsOfBytes(w);
    NewIsOfBytes(w);
  }

  // ----- what the builders put where -----

  /** The header of a built message, its buffer, and zeros behind it. */
  lemma MessageIsOfBytes(head: nat, body: seq<Byte>)
    requires ValidHead(head, |body|)
    ensures var w := Message(head, body);
      && NumberAt(w, 0, 2) == head && NumberAt(w, 2, 4) == |body| && NumberAt(w, 6, 2) == 0xFFFF
      && w[8..8 + |body|] == body && w[8 + |body|..] == Zeros(65528 - |body|)
  {
    var vs := [Num(head), Num(|body|), Num(0xFFFF)];
    var w, rest := Message(head, body), body + Zeros(MESSAGE_SIZE - HEADER_SIZE - |body|);
    ParseOfMessage(head, body);
    HeadIsOfBytes(w);
    assert w == Pack(XR_MESSAGE_HEADER, vs)[..HEADER_SIZE] + rest;
    ReadOfCutPack(XR_MESSAGE_HEADER, vs, HEADER_SIZE, rest, 2);
    assert Read(XR_MESSAGE_HEADER, w, 2).n == NumberAt(w, 6, 2);
  }

  /** Field k of a structure that a message starts with stands at its offset. */
  lemma FieldAt(head: nat, fs: seq<Field>, vs: seq<Value>, past: seq<Byte>, k: nat, o: nat)
    requires FitsAll(fs, vs) && ValidHead(head, SizeOf(fs) + |past|) && k < |fs| && o == Offset(fs, k)
    ensures var p := Payload(Message(head, Pack(fs, vs) + past));
      && (fs[k].Int? ==> vs[k].Num? && NumberAt(p, o, Width(fs[k])) == vs[k].n)
      && (fs[k].Raw? ==> vs[k].Block? && p[o..o + Width(fs[k])] == vs[k].bytes)
  {
    var body := Pack(fs, vs);
    var rest := past + Zeros(MESSAGE_SIZE - HEADER_SIZE - |body + past|);
    var p := Payload(Message(head, body + past));
    StartsWith(head, body, past);
    ReadOfCutPack(fs, vs, SizeOf(fs), rest, k);
    ReadAt(fs, p, k, o, vs[k]);
  }

  lemma StartsWith(head: nat, body: seq<Byte>, past: seq<Byte>)
    requires ValidHead(head, |body| + |past|)
    ensures Payload(Message(head, body + past))
      == body[..|body|] + (past + Zeros(MESSAGE_SIZE - HEADER_SIZE - |body + past|))
  {
    ParseOfMessage(head, body + past);
  }

  lemma ReadAt(fs: seq<Field>, p: seq<Byte>, k: nat, o: nat, v: Value)
    requires k < |fs| && o == Offset(fs, k) && o + Width(fs[k]) <= |p| && Read(fs, p, k) == v
    ensures fs[k].Int? ==> v.Num? && NumberAt(p, o, Width(fs[k])) == v.n
    ensures fs[k].Raw? ==> v.Block? && p[o..o + Width(fs[k])] == v.bytes
  {}

  lemma WholeField(head: nat, fs: seq<Field>, vs: seq<Value>, k: nat, o: nat)
    requires FitsAll(fs, vs) && ValidHead(head, SizeOf(fs)) && k < |fs| && o == Offset(fs, k)
    ensures var p := Payload(Message(head, Pack(fs, vs)));
      && (fs[k].Int? ==> vs[k].Num? && NumberAt(p, o, Width(fs[k])) == vs[k].n)
      && (fs[k].Raw? ==> vs[k].Block? && p[o..o + Width(fs[k])] == vs[k].bytes)
  {
    FieldAt(head, fs, vs, [], k, o);
    assert Pack(fs, vs) + [] == Pack(fs, vs);
  }

  /** A text in a fixed-size buffer: its bytes, then zeros. */
  lemma PaddedIs(p: seq<Byte>, o: nat, b: seq<Byte>, size: nat)
    requires |b| <= size && o + size <= |p| && p[o..o + size] == Padded(b, size)
    ensures p[o..o + |b|] == b && p[o + |b|..o + size] == Zeros(size - |b|)
  {
    assert p[o..o + |b|] == p[o..o + size][..|b|];
    assert p[o + |b|..o + size] == p[o..o + size][|b|..];
  }

  /** HELLO: the service, the participant, the time and the name of the server. */
  lemma HelloBytes(service: nat, id: nat, timestamp: nat, name: seq<Byte>)
    requires IsId(service) && IsId(id) && IsId(timestamp) && |name| <= 1024
    ensures var w := HelloMessage(service, id, timestamp, name);
      var p := Payload(w);
      && NumberAt(w, 0, 2) == 1 && NumberAt(w, 2, 4) == 1052
      && NumberAt(p, 0, 8) == service && NumberAt(p, 8, 8) == id && NumberAt(p, 16, 8) == timestamp
      && NumberAt(p, 24, 4) == |name| && p[28..28 + |name|] == name && p[28 + |name|..1052] == Zeros(1024 - |name|)
  {
    var vs := HelloValues(service, id, timestamp, name);
    MessageIsOfBytes(HANDSHAKE_HELLO, Pack(ST_HANDSHAKE_HELLO, vs));
    WholeField(HANDSHAKE_HELLO, ST_HANDSHAKE_HELLO, vs, 0, 0);
    WholeField(HANDSHAKE_HELLO, ST_HANDSHAKE_HELLO, vs, 1, 8);
    WholeField(HANDSHAKE_HELLO, ST_HANDSHAKE_HELLO, vs, 2, 16);
    WholeField(HANDSHAKE_HELLO, ST_HANDSHAKE_HELLO, vs, 3, 24);
    WholeField(HANDSHAKE_HELLO, ST_HANDSHAKE_HELLO, vs, 4, 28);
    PaddedIs(Payload(HelloMessage(service, id, timestamp, name)), 28, name, 1024);
  }

  /** CREDENTIALS: a size and a certificate, both zero. */
  lemma CredentialsBytes()
    ensures var w := CredentialsMessage();
      NumberAt(w, 0, 2) == 3 && NumberAt(w, 2, 4) == 20484 && Payload(w)[..20484] == Zeros(20484)
  {
    var vs := [Num(0), Block(Zeros(20480))];
    var p := Payload(CredentialsMessage());
    MessageIsOfBytes(HANDSHAKE_CREDENTIALS, Pack(ST_HANDSHAKE_CREDENTIALS, vs));
    WholeField(HANDSHAKE_CREDENTIALS, ST_HANDSHAKE_CREDENTIALS, vs, 0, 0);
    WholeField(HANDSHAKE_CREDENTIALS, ST_HANDSHAKE_CREDENTIALS, vs, 1, 4);
    ZeroNumber(p, 0, 4);
    ZerosJoin(p, 4, 20480);
  }

  lemma ZeroNumber(p: seq<Byte>, o: nat, w: nat)
    requires o + w <= |p| && NumberAt(p, o, w) == 0
    ensures p[o..o + w] == Zeros(w)
  {
    ImageOfNumber(p[o..o + w]);
    ImageOfZero(w);
  }

  lemma ZerosJoin(p: seq<Byte>, m: nat, n: nat)
    requires m + n <= |p| && p[0..m] == Zeros(m) && p[m..m + n] == Zeros(n)
    ensures p[..m + n] == Zeros(m + n)
  {
    assert p[..m + n] == p[0..m] + p[m..m + n];
  }

  /** "accepted in room" */
  const WELCOME: seq<Byte> := [97, 99, 99, 101, 112, 116, 101, 100, 32, 105, 110, 32, 114, 111, 111, 109]

  lemma WelcomeIsAscii()
    ensures Ascii("accepted in room") == WELCOME
  {}

  lemma ConfigurationIsAscii()
    ensures Ascii("ABCDEFGHIJKLMNOPQRST") == CONFIGURATION
  {}

  /** JOIN: the id, one transaction per second, asynchronous messages allowed, and the welcome. */
  lemma JoinBytes(id: nat)
    requires IsId(id)
    ensures var w := JoinMessage(id);
      var p := Payload(w);
      && NumberAt(w, 0, 2) == 9 && NumberAt(w, 2, 4) == 10256
      && NumberAt(p, 0, 8) == id && NumberAt(p, 8, 2) == 1 && NumberAt(p, 10, 2) == 0xFFFF
      && NumberAt(p, 12, 4) == 16 && p[16..32] == WELCOME
  {
    var vs := JoinValues(id);
    MessageIsOfBytes(PARTICIPANT_JOIN, Pack(ST_PARTICIPANT_JOIN, vs));
    WholeField(PARTICIPANT_JOIN, ST_PARTICIPANT_JOIN, vs, 0, 0);
    WholeField(PARTICIPANT_JOIN, ST_PARTICIPANT_JOIN, vs, 1, 8);
    WholeField(PARTICIPANT_JOIN, ST_PARTICIPANT_JOIN, vs, 2, 10);
    WholeField(PARTICIPANT_JOIN, ST_PARTICIPANT_JOIN, vs, 3, 12);
    WholeField(PARTICIPANT_JOIN, ST_PARTICIPANT_JOIN, vs, 4, 16);
    WelcomeIsAscii();
    PaddedIs(Payload(JoinMessage(id)), 16, WELCOME, 10240);
  }

  /** NEW: the id, the size of the descriptor and the buffer it stands in. */
  lemma NewBytes(id: nat, size: nat, buffer: seq<Byte>)
    requires IsId(id) && size <= |buffer| == DESCRIPTOR_SIZE
    ensures var w := NewMessage(id, size, buffer);
      var p := Payload(w);
      && NumberAt(w, 0, 2) == 13 && NumberAt(w, 2, 4) == 20492
      && NumberAt(p, 0, 8) == id && NumberAt(p, 8, 4) == size && p[12..20492] == buffer
      && PayloadSize(w) == 20492
  {
    HeadIsOfBytes(NewMessage(id, size, buffer));
    var vs := NewValues(id, size, buffer);
    MessageIsOfBytes(PARTICIPANT_NEW, Pack(ST_PARTICIPANT_NEW, vs));
    WholeField(PARTICIPANT_NEW, ST_PARTICIPANT_NEW, vs, 0, 0);
    WholeField(PARTICIPANT_NEW, ST_PARTICIPANT_NEW, vs, 1, 8);
    WholeField(PARTICIPANT_NEW, ST_PARTICIPANT_NEW, vs, 2, 12);
  }

  lemma LeaveBytes(id: nat)
    requires IsId(id)
    ensures var w := LeaveMessage(id);
      NumberAt(w, 0, 2) == 15 && NumberAt(w, 2, 4) == 8 && NumberAt(Payload(w), 0, 8) == id
  {
    MessageIsOfBytes(PARTICIPANT_LEAVE, Pack(ST_PARTICIPANT_LEAVE, [Num(id)]));
    WholeField(PARTICIPANT_LEAVE, ST_PARTICIPANT_LEAVE, [Num(id)], 0, 0);
  }

  /** "ABCDEFGHIJKLMNOPQRST" */
  const CONFIGURATION: seq<Byte> :=
    [65, 66, 67, 68, 69, 70, 71, 72, 73, 74, 75, 76, 77, 78, 79, 80, 81, 82, 83, 84]

  /** The client's HELLO_ACK: the id, the time and the configuration, zero padded. */
  lemma HelloAckBytes(id: nat, timestamp: nat)
    requires IsId(id) && IsId(timestamp)
    ensures var w := HelloAckMessage(id, timestamp);
      var p := Payload(w);
      && NumberAt(w, 0, 2) == 2 && NumberAt(w, 2, 4) == 20500
      && NumberAt(p, 0, 8) == id && NumberAt(p, 8, 8) == timestamp && NumberAt(p, 16, 4) == 20
      && p[20..40] == CONFIGURATION && p[40..20500] == Zeros(20460)
  {
    var vs := HelloAckValues(id, timestamp);
    MessageIsOfBytes(HANDSHAKE_HELLO_ACK, Pack(ST_HANDSHAKE_HELLO_ACK, vs));
    WholeField(HANDSHAKE_HELLO_ACK, ST_HANDSHAKE_HELLO_ACK, vs, 0, 0);
    WholeField(HANDSHAKE_HELLO_ACK, ST_HANDSHAKE_HELLO_ACK, vs, 1, 8);
    WholeField(HANDSHAKE_HELLO_ACK, ST_HANDSHAKE_HELLO_ACK, vs, 2, 16);
    WholeField(HANDSHAKE_HELLO_ACK, ST_HANDSHAKE_HELLO_ACK, vs, 3, 20);
    ConfigurationIsAscii();
    PaddedIs(Payload(HelloAckMessage(id, timestamp)), 20, CONFIGURATION, 20480);
  }

  /** The client's UPDATE_ACK: its id, the time and the json, and the bytes behind the structure. */
  lemma UpdateAckBytes(id: nat, timestamp: nat, json: seq<Byte>, past: seq<Byte>)
    requires IsId(id) && IsId(timestamp) && |json| <= 20480 && |past| == 12
    ensures var w := UpdateAckMessage(id, timestamp, json, past);
      var p := Payload(w);
      && NumberAt(w, 0, 2) == 20 && NumberAt(w, 2, 4) == 20512
      && NumberAt(p, 0, 8) == id && NumberAt(p, 8, 8) == timestamp
      && NumberAt(p, 16, 4) == |json| && p[20..20 + |json|] == json
  {
    var vs := UpdateAckValues(id, timestamp, json);
    MessageIsOfBytes(PARTICIPANT_UPDATE_ACK, Pack(ST_PARTICIPANT_UPDATE_ACK, vs) + past);
    FieldAt(PARTICIPANT_UPDATE_ACK, ST_PARTICIPANT_UPDATE_ACK, vs, past, 0, 0);
    FieldAt(PARTICIPANT_UPDATE_ACK, ST_PARTICIPANT_UPDATE_ACK, vs, past, 1, 8);
    FieldAt(PARTICIPANT_UPDATE_ACK, ST_PARTICIPANT_UPDATE_ACK, vs, past, 2, 16);
    FieldAt(PARTICIPANT_UPDATE_ACK, ST_PARTICIPANT_UPDATE_ACK, vs, past, 3, 20);
    PaddedIs(Payload(UpdateAckMessage(id, timestamp, json, past)), 20, json, 20480);
  }

  lemma CutField(login: seq<Byte>, password: seq<Byte>, k: nat, o: nat)
    requires |login| <= 1024 && |password| <= 1024 && k < 6 && o == Offset(ST_HANDSHAKE_CREDENTIALS_ACK, k)
    ensures var p, vs := Payload(CredentialsAckMessage(login, password)), CredentialsAckValues(login, password);
      var f := ST_HANDSHAKE_CREDENTIALS_ACK[k];
      && o + Width(f) <= |p|
      && (f.Int? ==> vs[k].Num? && NumberAt(p, o, Width(f)) == vs[k].n)
      && (f.Raw? ==> vs[k].Block? && p[o..o + Width(f)] == vs[k].bytes)
  {
    var vs, n := CredentialsAckValues(login, password), SizeOf(ST_HANDSHAKE_CREDENTIALS);
    ParseOfMessage(HANDSHAKE_CREDENTIALS_ACK, Pack(ST_HANDSHAKE_CREDENTIALS_ACK, vs)[..n]);
    ReadOfCutPack(ST_HANDSHAKE_CREDENTIALS_ACK, vs, n, Zeros(MESSAGE_SIZE - HEADER_SIZE - n), k);
  }

  /** The client's CREDENTIALS_ACK: no id, and the two words with their lengths, zero padded. */
  lemma CredentialsAckBytes(login: seq<Byte>, password: seq<Byte>)
    requires |login| <= 1024 && |password| <= 1024
    ensures var w := CredentialsAckMessage(login, password);
      var p := Payload(w);
      && NumberAt(w, 0, 2) == 4 && NumberAt(w, 2, 4) == 20484 && NumberAt(p, 0, 8) == 0
      && NumberAt(p, 8, 2) == |login| && p[10..10 + |login|] == login && p[10 + |login|..1034] == Zeros(1024 - |login|)
      && NumberAt(p, 1034, 2) == |password| && p[1036..1036 + |password|] == password
      && p[1036 + |password|..2060] == Zeros(1024 - |password|)
  {
    var vs := CredentialsAckValues(login, password);
    var cut := Pack(ST_HANDSHAKE_CREDENTIALS_ACK, vs)[..SizeOf(ST_HANDSHAKE_CREDENTIALS)];
    MessageIsOfBytes(HANDSHAKE_CREDENTIALS_ACK, cut);
    CutField(login, password, 0, 0);
    CutField(login, password, 1, 8);
    CutField(login, password, 2, 10);
    CutField(login, password, 3, 1034);
    CutField(login, password, 4, 1036);
    PaddedIs(Payload(CredentialsAckMessage(login, password)), 10, login, 1024);
    PaddedIs(Payload(CredentialsAckMessage(login, password)), 1036, password, 1024);
  }

  /** What chat_client says in answer to CREDENTIALS passes. */
  lemma ClientLoginPasses()
    ensures var p := Payload(CredentialsAckMessage(Ascii("login"), Ascii("password")));
      p[10..16] == LOGIN && p[1036..1045] == PASSWORD
  {
    CutCredentialsAreChecked(Ascii("login"), Ascii("password"));
    LoginIsOfBytes(CredentialsAckMessage(Ascii("login"), Ascii("password")));
  }

  // ----- JOIN_ACK, which the game clients send -----

  function JoinAckMessage(id: nat, size: nat, buffer: seq<Byte>, past: seq<Byte>): (w: Wire)
    requires IsId(id) && size <= |buffer| == 20480 && |past| <= 45036
  {
    assert Pow256(8) == 0x1_0000_0000_0000_0000;
    Message(PARTICIPANT_JOIN_ACK, Pack(ST_PARTICIPANT_JOIN_ACK, [Num(id), Num(size), Block(buffer)]) + past)
  }

  /** The server reads out of it the id and exactly the declared first bytes of the buffer, whatever
      stands in the rest of the buffer and behind it. */
  lemma ParseJoinAck(id: nat, size: nat, buffer: seq<Byte>, past: seq<Byte>)
    requires IsId(id) && size <= |buffer| == 20480 && |past| <= 45036
    ensures Parse(JoinAckMessage(id, size, buffer, past)) == JoinAck(id, size, buffer[..size])
  {
    var w, vs := JoinAckMessage(id, size, buffer, past), [Num(id), Num(size), Block(buffer)];
    assert Pow256(8) == 0x1_0000_0000_0000_0000;
    ParseIsOfBytes(w);
    MessageIsOfBytes(PARTICIPANT_JOIN_ACK, Pack(ST_PARTICIPANT_JOIN_ACK, vs) + past);
    FieldAt(PARTICIPANT_JOIN_ACK, ST_PARTICIPANT_JOIN_ACK, vs, past, 0, 0);
    FieldAt(PARTICIPANT_JOIN_ACK, ST_PARTICIPANT_JOIN_ACK, vs, past, 1, 8);
    FieldAt(PARTICIPANT_JOIN_ACK, ST_PARTICIPANT_JOIN_ACK, vs, past, 2, 12);
    assert Payload(w)[12..12 + size] == Payload(w)[12..20492][..size];
  }

  /** The same of any HELLO_ACK and its configuration. */
  lemma ParseAnyHelloAck(id: nat, timestamp: nat, size: nat, buffer: seq<Byte>)
    requires IsId(id) && IsId(timestamp) && size <= |buffer| == 20480
    ensures FitsAll(ST_HANDSHAKE_HELLO_ACK, [Num(id), Num(timestamp), Num(size), Block(buffer)])
    ensures var body := Pack(ST_HANDSHAKE_HELLO_ACK, [Num(id), Num(timestamp), Num(size), Block(buffer)]);
      Parse(Message(HANDSHAKE_HELLO_ACK, body)) == HelloAck(size, buffer[..size])
  {
    var vs := [Num(id), Num(timestamp), Num(size), Block(buffer)];
    assert Pow256(8) == 0x1_0000_0000_0000_0000;
    var body := Pack(ST_HANDSHAKE_HELLO_ACK, vs);
    var w := Message(HANDSHAKE_HELLO_ACK, body);
    ParseIsOfBytes(w);
    MessageIsOfBytes(HANDSHAKE_HELLO_ACK, body);
    WholeField(HANDSHAKE_HELLO_ACK, ST_HANDSHAKE_HELLO_ACK, vs, 2, 16);
    WholeField(HANDSHAKE_HELLO_ACK, ST_HANDSHAKE_HELLO_ACK, vs, 3, 20);
    assert Payload(w)[20..20 + size] == Payload(w)[20..20500][..size];
  }
}
