/** TCP as a byte stream that is cut anywhere, and the reader that always asks for one message. */
module Streams {
  import opened Bytes
  import opened Messages

  /** `pushed` is history: every byte a sender has got rid of. */
  datatype Stream = Stream(pushed: seq<Byte>, transit: seq<Byte>, partial: seq<Byte>, dispatched: seq<Wire>)

  function Fresh(): Stream {
    Stream([], [], [], [])
  }

  function Push(s: Stream, bytes: seq<Byte>): Stream {
    s.(pushed := s.pushed + bytes, transit := s.transit + bytes)
  }

  predicate CanTake(s: Stream, n: nat) {
    0 < n <= |s.transit| && |s.partial| + n <= MESSAGE_SIZE
  }

  /** async_read of 65536 bytes receives n of them; its handler runs when all are there. */
  function Take(s: Stream, n: nat): Stream
    requires CanTake(s, n)
  {
    var got := s.partial + s.transit[..n];
    if |got| == MESSAGE_SIZE then
      s.(transit := s.transit[n..], partial := [], dispatched := s.dispatched + [got])
    else s.(transit := s.transit[n..], partial := got)
  }

  function Flatten(ms: seq<Wire>): seq<Byte> {
    if ms == [] then [] else Flatten(ms[..|ms| - 1]) + ms[|ms| - 1]
  }

  ghost predicate Conserved(s: Stream) {
    Flatten(s.dispatched) + s.partial + s.transit == s.pushed && |s.partial| < MESSAGE_SIZE
  }

  lemma PushConserves(s: Stream, bytes: seq<Byte>)
    requires Conserved(s)
    ensures Conserved(Push(s, bytes))
  {
    assert Flatten(s.dispatched) + s.partial + (s.transit + bytes) == s.pushed + bytes;
  }

  lemma TakeConserves(s: Stream, n: nat)
    requires Conserved(s) && CanTake(s, n)
    ensures Conserved(Take(s, n))
  {
    var got := s.partial + s.transit[..n];
    assert s.transit == s.transit[..n] + s.transit[n..];
    assert Flatten(s.dispatched) + got + s.transit[n..] == s.pushed;
    if |got| == MESSAGE_SIZE {
      var w: Wire := got;
      FlattenSnoc(s.dispatched, w);
    }
  }

  lemma FlattenSnoc(ms: seq<Wire>, w: Wire)
    ensures Flatten(ms + [w]) == Flatten(ms) + w
  {
    assert (ms + [w])[..|ms|] == ms;
  }

  lemma {:induction false} FlattenConcat(a: seq<Wire>, b: seq<Wire>)
    ensures Flatten(a + b) == Flatten(a) + Flatten(b)
    decreases |b|
  {
    if b == [] {
      assert a + b == a;
    } else {
      var init, last := b[..|b| - 1], b[|b| - 1];
      FlattenConcat(a, init);
      assert a + b == (a + init) + [last];
      FlattenSnoc(a + init, last);
    }
  }

  lemma {:induction false} FlattenSize(ms: seq<Wire>)
    ensures |Flatten(ms)| == MESSAGE_SIZE * |ms|
  {
    if ms == [] {
    } else {
      FlattenSize(ms[..|ms| - 1]);
    }
  }

  lemma FlattenFirst(w: Wire, rest: seq<Wire>)
    ensures Flatten([w] + rest) == w + Flatten(rest)
  {
    FlattenConcat([w], rest);
    FlattenSnoc([], w);
    assert [] + [w] == [w] && Flatten([]) + w == w;
  }

  /** Whole messages that spell a prefix of some messages' bytes are a prefix of those messages. */
  lemma {:induction false} SameBytesSameMessages(a: seq<Wire>, b: seq<Wire>)
    requires Flatten(a) <= Flatten(b)
    ensures a <= b
    decreases |a|
  {
    FlattenSize(a);
    FlattenSize(b);
    if a == [] {
    } else {
      assert b != [];
      assert a == [a[0]] + a[1..] && b == [b[0]] + b[1..];
      FlattenFirst(a[0], a[1..]);
      FlattenFirst(b[0], b[1..]);
      PrefixSplits(a[0], Flatten(a[1..]), b[0], Flatten(b[1..]));
      SameBytesSameMessages(a[1..], b[1..]);
    }
  }

  lemma PrefixSplits(x: seq<Byte>, s: seq<Byte>, y: seq<Byte>, t: seq<Byte>)
    requires |x| == |y| && x + s <= y + t
    ensures x == y && s <= t
  {
    assert x == (x + s)[..|x|] == (y + t)[..|x|] == y;
    assert s == (x + s)[|x|..] && t == (y + t)[|x|..];
  }

  /** If what a sender pushes is a prefix of some messages, so is what the reader dispatches; and a
      drained stream has dispatched all that was pushed. */
  lemma ReaderRefinesQueue(s: Stream, ms: seq<Wire>)
    requires Conserved(s) && s.pushed <= Flatten(ms)
    ensures s.dispatched <= ms
    ensures s.transit == [] && s.partial == [] && s.pushed == Flatten(ms) ==> s.dispatched == ms
  {
    assert Flatten(s.dispatched) <= s.pushed;
    SameBytesSameMessages(s.dispatched, ms);
    if s.transit == [] && s.partial == [] && s.pushed == Flatten(ms) {
      FlattenSize(s.dispatched);
      FlattenSize(ms);
    }
  }
}

/** The write queue of chat_client, which keeps the front until its write has completed. */
module ClientWriters {

  /** `passed` and `completed` are history: the messages given to write_byte and those whose write
      has completed. */
  datatype Writer<T> = Writer(
    posted: seq<T>, deque: seq<T>, writing: bool, failed: bool, passed: seq<T>, completed: seq<T>)

  function Idle<T>(): Writer<T> {
    Writer([], [], false, false, [], [])
  }

  function WriteByte<T>(w: Writer<T>, x: T): Writer<T> {
    w.(posted := w.posted + [x], passed := w.passed + [x])
  }

  /** The handler write_byte posts. */
  function RunPosted<T>(w: Writer<T>): Writer<T>
    requires w.posted != []
  {
    var pushed := w.(posted := w.posted[1..], deque := w.deque + [w.posted[0]]);
    if w.deque == [] then pushed.(writing := true) else pushed
  }

  /** The completion handler of the write in progress. */
  function Complete<T>(w: Writer<T>, ok: bool): Writer<T>
    requires w.writing && w.deque != []
  {
    if ok then
      w.(completed := w.completed + [w.deque[0]], deque := w.deque[1..], writing := w.deque[1..] != [])
    else w.(writing := false, failed := true)
  }

  /** Until an error a write is in progress exactly when the queue holds something, and it is the
      write of the front; after an error none ever is. Nothing is lost, doubled or reordered. */
  ghost predicate Orderly<T>(w: Writer<T>) {
    && w.passed == w.completed + w.deque + w.posted
    && (if w.failed then !w.writing && w.deque != [] else w.writing <==> w.deque != [])
  }

  lemma WriteByteOrderly<T>(w: Writer<T>, x: T)
    requires Orderly(w)
    ensures Orderly(WriteByte(w, x))
  {
    assert w.completed + w.deque + w.posted + [x] == w.completed + w.deque + (w.posted + [x]);
  }

  lemma RunPostedOrderly<T>(w: Writer<T>)
    requires Orderly(w) && w.posted != []
    ensures Orderly(RunPosted(w))
  {
    assert w.posted == [w.posted[0]] + w.posted[1..];
    assert w.completed + w.deque + w.posted == w.completed + (w.deque + [w.posted[0]]) + w.posted[1..];
  }

  lemma CompleteOrderly<T>(w: Writer<T>, ok: bool)
    requires Orderly(w) && w.writing
    ensures Orderly(Complete(w, ok))
  {
    assert w.deque == [w.deque[0]] + w.deque[1..];
    assert w.completed + w.deque + w.posted == (w.completed + [w.deque[0]]) + w.deque[1..] + w.posted;
  }
}

/** chat_client's writer, the stream and the server's reader together. */
module ClientChannel {
  import opened Bytes
  import opened Messages
  import opened Streams
  import CW = ClientWriters

  /** `offset` counts the bytes of the front that the write in progress has got rid of. */
  datatype Channel = Channel(writer: CW.Writer<Wire>, offset: nat, stream: Stream)

  datatype Event =
    | WriteByte(w: Wire)
    | PostedRuns
    | Sends(n: nat)
    | WriteCompletes
    | WriteFails
    | Receives(n: nat)

  function Open(): Channel {
    Channel(CW.Idle(), 0, Fresh())
  }

  predicate Enabled(c: Channel, e: Event) {
    match e
    case WriteByte(_) => true
    case PostedRuns => c.writer.posted != []
    case Sends(n) => c.writer.writing && c.writer.deque != [] && 0 < n && c.offset + n <= MESSAGE_SIZE
    case WriteCompletes => c.writer.writing && c.writer.deque != [] && c.offset == MESSAGE_SIZE
    case WriteFails => c.writer.writing && c.writer.deque != []
    case Receives(n) => CanTake(c.stream, n)
  }

  function Step(c: Channel, e: Event): Channel
    requires Enabled(c, e)
  {
    match e
    case WriteByte(w) => c.(writer := CW.WriteByte(c.writer, w))
    case PostedRuns => c.(writer := CW.RunPosted(c.writer))
    case Sends(n) =>
      c.(offset := c.offset + n, stream := Push(c.stream, c.writer.deque[0][c.offset..c.offset + n]))
    case WriteCompletes => c.(writer := CW.Complete(c.writer, true), offset := 0)
    case WriteFails => c.(writer := CW.Complete(c.writer, false))
    case Receives(n) => c.(stream := Take(c.stream, n))
  }

  ghost predicate Legal(c: Channel, es: seq<Event>)
    decreases |es|
  {
    es == [] || (Enabled(c, es[0]) && Legal(Step(c, es[0]), es[1..]))
  }

  ghost function After(c: Channel, es: seq<Event>): Channel
    requires Legal(c, es)
    decreases |es|
  {
    if es == [] then c else After(Step(c, es[0]), es[1..])
  }

  ghost predicate Sound(c: Channel) {
    && CW.Orderly(c.writer) && Conserved(c.stream) && c.offset <= MESSAGE_SIZE
    && (c.writer.deque == [] ==> c.offset == 0)
    && c.stream.pushed == Flatten(c.writer.completed)
         + if c.writer.deque == [] then [] else c.writer.deque[0][..c.offset]
  }

  lemma SendsSound(c: Channel, n: nat)
    requires Sound(c) && Enabled(c, Sends(n))
    ensures Sound(Step(c, Sends(n)))
  {
    var front, o := c.writer.deque[0], c.offset;
    PushConserves(c.stream, front[o..o + n]);
    assert front[..o] + front[o..o + n] == front[..o + n];
    assert Flatten(c.writer.completed) + front[..o] + front[o..o + n] == Flatten(c.writer.completed) + front[..o + n];
  }

  lemma CompletesSound(c: Channel)
    requires Sound(c) && Enabled(c, WriteCompletes)
    ensures Sound(Step(c, WriteCompletes))
  {
    CW.CompleteOrderly(c.writer, true);
    CompletedBytes(c.writer.completed, c.writer.deque);
  }

  /** All of the front and nothing of what follows it. */
  lemma CompletedBytes(completed: seq<Wire>, deque: seq<Wire>)
    requires deque != []
    ensures Flatten(completed) + deque[0][..MESSAGE_SIZE]
      == Flatten(completed + [deque[0]]) + if deque[1..] == [] then [] else deque[1..][0][..0]
  {
    FlattenSnoc(completed, deque[0]);
    assert deque[0][..MESSAGE_SIZE] == deque[0];
    assert deque[1..] != [] ==> deque[1..][0][..0] == [];
  }

  lemma PostedSound(c: Channel)
    requires Sound(c) && Enabled(c, PostedRuns)
    ensures Sound(Step(c, PostedRuns))
  {
    CW.RunPostedOrderly(c.writer);
    if c.writer.deque == [] {
      assert c.writer.posted[0][..0] == [];
    }
  }

  lemma StepSound(c: Channel, e: Event)
    requires Sound(c) && Enabled(c, e)
    ensures Sound(Step(c, e))
  {
    match e
    case WriteByte(w) => CW.WriteByteOrderly(c.writer, w);
    case PostedRuns => PostedSound(c);
    case Sends(n) => SendsSound(c, n);
    case WriteCompletes => CompletesSound(c);
    case WriteFails => CW.CompleteOrderly(c.writer, false);
    case Receives(n) => TakeConserves(c.stream, n);
  }

  lemma {:induction false} RunSound(c: Channel, es: seq<Event>)
    requires Sound(c) && Legal(c, es)
    ensures Sound(After(c, es))
    decreases |es|
  {
    if es == [] {
    } else {
      StepSound(c, es[0]);
      RunSound(Step(c, es[0]), es[1..]);
    }
  }

  lemma SoundDelivers(c: Channel)
    requires Sound(c)
    ensures c.stream.dispatched <= c.writer.passed
    ensures c.writer.posted == [] && c.writer.deque == [] && c.stream.transit == [] && c.stream.partial == []
      ==> c.stream.dispatched == c.writer.passed
  {
    var w := c.writer;
    var queued := w.completed + w.deque;
    FlattenConcat(w.completed, w.deque);
    if w.deque == [] {
      assert queued == w.completed;
      assert c.stream.pushed == Flatten(queued);
    } else {
      var front := w.deque[0];
      assert w.deque == [front] + w.deque[1..];
      FlattenFirst(front, w.deque[1..]);
      assert front[..c.offset] + (front[c.offset..] + Flatten(w.deque[1..])) == front + Flatten(w.deque[1..]);
      assert c.stream.pushed + (front[c.offset..] + Flatten(w.deque[1..])) == Flatten(queued);
    }
    ReaderRefinesQueue(c.stream, queued);
    assert queued <= w.passed;
  }

  /** However the writes and reads are cut, the messages the server dispatches are a prefix of those
      given to write_byte, each of them whole; once everything is drained they are all of them. */
  lemma ChannelRefinesQueue(es: seq<Event>)
    requires Legal(Open(), es)
    ensures var c := After(Open(), es);
      && c.stream.dispatched <= c.writer.passed
      && (c.writer.posted == [] && c.writer.deque == [] && c.stream.transit == [] && c.stream.partial == []
          ==> c.stream.dispatched == c.writer.passed)
  {
    assert Flatten([]) + [] + [] == [];
    assert Sound(Open());
    RunSound(Open(), es);
    SoundDelivers(After(Open(), es));
  }

  /** In every interleaving of posts, partial writes and completions the client's queue is orderly. */
  lemma WriterStaysOrderly(es: seq<Event>)
    requires Legal(Open(), es)
    ensures CW.Orderly(After(Open(), es).writer)
  {
    assert Flatten([]) + [] + [] == [];
    assert Sound(Open());
    RunSound(Open(), es);
  }
}

/** nr_session's writer, the stream and the client's reader together. */
module SessionChannel {
  import opened Bytes
  import opened Messages
  import opened Streams
  import SW = SessionWriters

  /** The writer handles the frames by number: `frames` are those given to deliver_byte and
      `sent[j]` counts the bytes of frame j that its write has got rid of. After a write has
      failed the socket sends nothing more. */
  datatype Channel = Channel(writer: SW.Writer<nat>, frames: seq<Wire>, sent: seq<nat>, broken: bool, stream: Stream)

  datatype Event =
    | Delivered(w: Wire)
    | PostedRuns
    | Sends(j: nat, n: nat)
    | WriteCompletes(i: nat)
    | WriteFails(i: nat)
    | Receives(n: nat)

  function Open(): Channel {
    Channel(SW.Idle(), [], [], false, Fresh())
  }

  function SentOf(c: Channel, j: nat): nat {
    if j < |c.sent| then c.sent[j] else 0
  }

  predicate Enabled(c: Channel, e: Event) {
    match e
    case Delivered(_) => true
    case PostedRuns => c.writer.posted != []
    case Sends(j, n) =>
      && !c.broken && j in c.writer.inFlight && j < |c.frames| == |c.sent|
      && 0 < n && c.sent[j] + n <= MESSAGE_SIZE
    case WriteCompletes(i) =>
      i < |c.writer.inFlight| && SentOf(c, c.writer.inFlight[i]) == MESSAGE_SIZE
    case WriteFails(i) => i < |c.writer.inFlight|
    case Receives(n) => CanTake(c.stream, n)
  }

  function Step(c: Channel, e: Event): Channel
    requires Enabled(c, e)
  {
    match e
    case Delivered(w) =>
      c.(writer := SW.Deliver(c.writer, |c.frames|), frames := c.frames + [w], sent := c.sent + [0])
    case PostedRuns => c.(writer := SW.RunPosted(c.writer))
    case Sends(j, n) =>
      c.(sent := c.sent[j := c.sent[j] + n], stream := Push(c.stream, c.frames[j][c.sent[j]..c.sent[j] + n]))
    case WriteCompletes(i) => c.(writer := SW.Complete(c.writer, i, true))
    case WriteFails(i) => c.(writer := SW.Complete(c.writer, i, false), broken := true)
    case Receives(n) => c.(stream := Take(c.stream, n))
  }

  ghost predicate Legal(c: Channel, es: seq<Event>)
    decreases |es|
  {
    es == [] || (Enabled(c, es[0]) && Legal(Step(c, es[0]), es[1..]))
  }

  ghost function After(c: Channel, es: seq<Event>): Channel
    requires Legal(c, es)
    decreases |es|
  {
    if es == [] then c else After(Step(c, es[0]), es[1..])
  }

  // ----- when frames arrive whole -----

  ghost predicate AllSentBefore(c: Channel, j: nat) {
    forall i :: 0 <= i < j && i < |c.sent| ==> c.sent[i] == MESSAGE_SIZE
  }

  /** No byte of a frame is sent before the frames delivered before it are sent whole. */
  ghost predicate Tidy(c: Channel, es: seq<Event>)
    requires Legal(c, es)
    decreases |es|
  {
    es != [] ==> (es[0].Sends? ==> AllSentBefore(c, es[0].j)) && Tidy(Step(c, es[0]), es[1..])
  }

  /** No state of the run has two writes in flight. */
  ghost predicate NeverOverlaps(c: Channel, es: seq<Event>)
    requires Legal(c, es)
    decreases |es|
  {
    |c.writer.inFlight| <= 1 && (es != [] ==> NeverOverlaps(Step(c, es[0]), es[1..]))
  }

  /** Every frame is delivered when the frames before it are sent whole, as when each answers a
      reply to the one before. */
  ghost predicate OneAtATime(c: Channel, es: seq<Event>)
    requires Legal(c, es)
    decreases |es|
  {
    es != [] ==> (es[0].Delivered? ==> AllSentBefore(c, |c.sent|)) && OneAtATime(Step(c, es[0]), es[1..])
  }

  /** The bytes sent are whole frames in order, then a part of the one at `at`. */
  ghost predicate SentUpTo(c: Channel, at: nat) {
    && at <= |c.frames| == |c.sent|
    && AllSentBefore(c, at)
    && (forall j :: at < j < |c.sent| ==> c.sent[j] == 0)
    && (at < |c.sent| ==> c.sent[at] < MESSAGE_SIZE)
    && c.stream.pushed == Flatten(c.frames[..at]) + if at < |c.sent| then c.frames[at][..c.sent[at]] else []
  }

  ghost predicate InTurn(c: Channel) {
    Conserved(c.stream) && exists at :: SentUpTo(c, at)
  }

  lemma DeliveredInTurn(c: Channel, w: Wire)
    requires InTurn(c)
    ensures InTurn(Step(c, Delivered(w)))
  {
    var at: nat :| SentUpTo(c, at);
    var c' := Step(c, Delivered(w));
    assert c'.frames[..at] == c.frames[..at];
    if at == |c.frames| {
      assert c'.frames[at][..0] == [];
    }
    assert SentUpTo(c', at);
  }

  lemma SendsBytes(c: Channel, j: nat, n: nat)
    requires SentUpTo(c, j) && Enabled(c, Sends(j, n))
    ensures Step(c, Sends(j, n)).stream.pushed == Flatten(c.frames[..j]) + c.frames[j][..c.sent[j] + n]
  {
    var f, o := c.frames[j], c.sent[j];
    assert f[..o] + f[o..o + n] == f[..o + n];
  }

  lemma FrameEnds(frames: seq<Wire>, j: nat)
    requires j < |frames|
    ensures Flatten(frames[..j]) + frames[j][..MESSAGE_SIZE] == Flatten(frames[..j + 1])
  {
    assert frames[..j + 1] == frames[..j] + [frames[j]];
    assert frames[j][..MESSAGE_SIZE] == frames[j];
    FlattenSnoc(frames[..j], frames[j]);
  }

  lemma SendsInTurn(c: Channel, j: nat, n: nat)
    requires InTurn(c) && Enabled(c, Sends(j, n)) && AllSentBefore(c, j)
    ensures InTurn(Step(c, Sends(j, n)))
  {
    var at: nat :| SentUpTo(c, at);
    assert at == j;
    PushConserves(c.stream, c.frames[j][c.sent[j]..c.sent[j] + n]);
    SendsBytes(c, j, n);
    FrameEnds(c.frames, j);
    var next := if c.sent[j] + n < MESSAGE_SIZE then j else j + 1;
    assert SentUpTo(Step(c, Sends(j, n)), next);
  }

  lemma OtherInTurn(c: Channel, e: Event)
    requires InTurn(c) && Enabled(c, e) && (e.PostedRuns? || e.WriteCompletes? || e.WriteFails? || e.Receives?)
    ensures InTurn(Step(c, e))
  {
    var at: nat :| SentUpTo(c, at);
    if e.Receives? {
      TakeConserves(c.stream, e.n);
    }
    assert SentUpTo(Step(c, e), at);
  }

  lemma StepInTurn(c: Channel, e: Event)
    requires InTurn(c) && Enabled(c, e) && (e.Sends? ==> AllSentBefore(c, e.j))
    ensures InTurn(Step(c, e))
  {
    match e
    case Delivered(w) => DeliveredInTurn(c, w);
    case Sends(j, n) => SendsInTurn(c, j, n);
    case _ => OtherInTurn(c, e);
  }

  lemma {:induction false} TidyInTurn(c: Channel, es: seq<Event>)
    requires InTurn(c) && Legal(c, es) && Tidy(c, es)
    ensures InTurn(After(c, es))
    decreases |es|
  {
    if es == [] {
    } else {
      StepInTurn(c, es[0]);
      TidyInTurn(Step(c, es[0]), es[1..]);
    }
  }

  lemma SentIsPrefix(c: Channel, at: nat)
    requires SentUpTo(c, at)
    ensures c.stream.pushed <= Flatten(c.frames)
  {
    var sent, left := c.frames[..at], c.frames[at..];
    assert c.frames == sent + left;
    FlattenConcat(sent, left);
    if at < |c.frames| {
      var f, rest := c.frames[at], c.frames[at + 1..];
      assert left == [f] + rest;
      FlattenFirst(f, rest);
      CutInside(Flatten(sent), f, c.sent[at], Flatten(rest));
    }
  }

  lemma CutInside(a: seq<Byte>, f: seq<Byte>, n: nat, b: seq<Byte>)
    requires n <= |f|
    ensures a + f[..n] <= a + (f + b)
  {
    assert a + (f + b) == (a + f[..n]) + (f[n..] + b);
  }

  /** In a tidy run the client sees the delivered frames, each whole and in order. */
  lemma TidyRefinesQueue(es: seq<Event>)
    requires Legal(Open(), es) && Tidy(Open(), es)
    ensures After(Open(), es).stream.dispatched <= After(Open(), es).frames
  {
    assert Flatten([]) + [] + [] == [];
    assert SentUpTo(Open(), 0);
    TidyInTurn(Open(), es);
    var c := After(Open(), es);
    var at: nat :| SentUpTo(c, at);
    SentIsPrefix(c, at);
    ReaderRefinesQueue(c.stream, c.frames);
  }

  // ----- which runs are tidy -----

  /** Writes start in delivery order, and until one fails every write that is over was sent whole. */
  ghost predicate Numbered(c: Channel) {
    && |c.frames| == |c.sent| && SW.InOrder(c.writer)
    && |c.writer.delivered| == |c.frames|
    && (forall i :: 0 <= i < |c.frames| ==> c.writer.delivered[i] == i)
    && (forall j :: j in c.writer.inFlight ==> j < |c.writer.started|)
    && (!c.broken ==> forall j :: 0 <= j < |c.writer.started| && j !in c.writer.inFlight ==> c.sent[j] == MESSAGE_SIZE)
  }

  lemma CompletesNumbered(c: Channel, i: nat, ok: bool)
    requires Numbered(c) && i < |c.writer.inFlight| && (ok ==> SentOf(c, c.writer.inFlight[i]) == MESSAGE_SIZE)
    ensures Numbered(Step(c, if ok then WriteCompletes(i) else WriteFails(i)))
  {
    var c' := Step(c, if ok then WriteCompletes(i) else WriteFails(i));
    SW.StepInOrder(c.writer, SW.Completes(i, ok));
    var fl, fl' := c.writer.inFlight, c'.writer.inFlight;
    forall j | j in fl && j != fl[i]
      ensures j in fl'
    {
      var k: nat :| k < |fl| && fl[k] == j;
      assert k != i && fl'[if k < i then k else k - 1] == j;
    }
    forall j | j in fl'
      ensures j in fl
    {
      var k :| 0 <= k < |fl'| && fl'[k] == j;
    }
  }

  lemma PostedNumbered(c: Channel)
    requires Numbered(c) && c.writer.posted != []
    ensures Numbered(Step(c, PostedRuns))
  {
    var c' := Step(c, PostedRuns);
    SW.RunPostedInOrder(c.writer);
    var s := |c.writer.started|;
    assert c.writer.delivered[s] == c.writer.posted[0];
    assert c'.writer.inFlight[|c.writer.inFlight|] == s;
  }

  lemma StepNumbered(c: Channel, e: Event)
    requires Numbered(c) && Enabled(c, e)
    ensures Numbered(Step(c, e))
  {
    match e
    case Delivered(w) => SW.DeliverInOrder(c.writer, |c.frames|);
    case PostedRuns => PostedNumbered(c);
    case Sends(j, n) =>
    case WriteCompletes(i) => CompletesNumbered(c, i, true);
    case WriteFails(i) => CompletesNumbered(c, i, false);
    case Receives(n) =>
  }

  lemma {:induction false} NeverOverlapsIsTidy(c: Channel, es: seq<Event>)
    requires Numbered(c) && Legal(c, es) && NeverOverlaps(c, es)
    ensures Tidy(c, es)
    decreases |es|
  {
    if es == [] {
    } else {
      StepNumbered(c, es[0]);
      NeverOverlapsIsTidy(Step(c, es[0]), es[1..]);
      if es[0].Sends? {
        OnlyWriteIsLast(c, es[0].j);
      }
    }
  }

  lemma OnlyWriteIsLast(c: Channel, j: nat)
    requires Numbered(c) && |c.writer.inFlight| <= 1 && j in c.writer.inFlight && !c.broken
    ensures AllSentBefore(c, j)
  {
    assert c.writer.inFlight == [j];
  }

  /** Only the last frame can still have bytes to send. */
  ghost predicate OneLeft(c: Channel) {
    |c.frames| == |c.sent| && AllSentBefore(c, if c.sent == [] then 0 else |c.sent| - 1)
  }

  lemma {:induction false} OneAtATimeIsTidy(c: Channel, es: seq<Event>)
    requires OneLeft(c) && Legal(c, es) && OneAtATime(c, es)
    ensures Tidy(c, es)
    decreases |es|
  {
    if es == [] {
    } else {
      assert OneLeft(Step(c, es[0]));
      OneAtATimeIsTidy(Step(c, es[0]), es[1..]);
    }
  }

  /** Frames arrive whole and in order if no two writes overlap, and also if each frame waits for
      the bytes of those before it. */
  lemma SessionChannelRefinesQueue(es: seq<Event>)
    requires Legal(Open(), es)
    ensures NeverOverlaps(Open(), es) || OneAtATime(Open(), es) ==>
      After(Open(), es).stream.dispatched <= After(Open(), es).frames
  {
    if NeverOverlaps(Open(), es) || OneAtATime(Open(), es) {
      if NeverOverlaps(Open(), es) {
        NeverOverlapsIsTidy(Open(), es);
      } else {
        OneAtATimeIsTidy(Open(), es);
      }
      TidyRefinesQueue(es);
    }
  }

  function Filled(b: Byte): (w: Wire) {
    seq(65536, _ => b)
  }

  /** Two frames delivered in one handler: one byte of the first is sent, then the whole second. */
  function Mixing(): (es: seq<Event>) {
    [Delivered(Filled(0)), Delivered(Filled(1)), PostedRuns, PostedRuns]
    + [Sends(0, 1), Sends(1, 65536), Receives(65536)]
  }

  lemma {:induction false} RunsCompose(c: Channel, es: seq<Event>, fs: seq<Event>)
    requires Legal(c, es) && Legal(After(c, es), fs)
    ensures Legal(c, es + fs) && After(c, es + fs) == After(After(c, es), fs)
    decreases |es|
  {
    if es == [] {
      assert es + fs == fs;
    } else {
      assert (es + fs)[1..] == es[1..] + fs;
      RunsCompose(Step(c, es[0]), es[1..], fs);
    }
  }

  /** The state in which both writes are in flight. */
  function Both(): Channel {
    Channel(SW.Writer([], [], [0, 1], [0, 1], [0, 1]), [Filled(0), Filled(1)], [0, 0], false, Fresh())
  }

  lemma MixingStarts()
    ensures var es := [Delivered(Filled(0)), Delivered(Filled(1)), PostedRuns, PostedRuns];
      Legal(Open(), es) && After(Open(), es) == Both()
  {
    var es := [Delivered(Filled(0)), Delivered(Filled(1)), PostedRuns, PostedRuns];
    var c1 := Step(Open(), es[0]);
    var c2 := Step(c1, es[1]);
    var c3 := Step(c2, PostedRuns);
    assert c3.writer == SW.Writer([1], [], [0], [0, 1], [0]);
    assert Step(c3, PostedRuns) == Both();
    assert es[1..][1..][1..][1..] == [] && es[1..][1..][1..][0] == es[1..][1..][0] == PostedRuns;
  }

  lemma MixingEnds()
    ensures var es := [Sends(0, 1), Sends(1, 65536), Receives(65536)];
      Legal(Both(), es) && After(Both(), es).frames == Both().frames
      && After(Both(), es).stream.dispatched == [([0] + Filled(1))[..65536]]
  {
    var es := [Sends(0, 1), Sends(1, 65536), Receives(65536)];
    var c1 := Step(Both(), es[0]);
    var c2 := Step(c1, es[1]);
    assert c1.stream.transit == [0];
    assert Filled(1)[0..65536] == Filled(1);
    assert c2.stream.transit == [0] + Filled(1);
    assert c2.stream.partial + ([0] + Filled(1))[..65536] == ([0] + Filled(1))[..65536];
    assert es[1..][1..][1..] == [];
  }

  /** Two writes at once can mix their frames: here the client is shown a message no one sent. */
  lemma OverlapMixesFrames()
    ensures Legal(Open(), Mixing())
    ensures var c := After(Open(), Mixing());
      |c.stream.dispatched| == 1 && c.stream.dispatched[0] !in c.frames
  {
    MixingStarts();
    MixingEnds();
    RunsCompose(Open(), [Delivered(Filled(0)), Delivered(Filled(1)), PostedRuns, PostedRuns],
                [Sends(0, 1), Sends(1, 65536), Receives(65536)]);
    var mixed := ([0] + Filled(1))[..65536];
    assert mixed[0] == 0 && mixed[1] == 1 && Filled(1)[0] == 1 && Filled(0)[1] == 0;
  }
}
