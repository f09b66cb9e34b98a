/** The reassembly of messages in XRNetworkParticipant.OnReceive. */
module Reassembly {
  import opened Bytes
  import opened Layout
  import opened Protocol
  import opened Messages
  import opened Streams

  /** What ProcessMessage is called with. */
  datatype Call = Call(head: nat, size: nat, payload: seq<Byte>)

  /** `calls` is history. `threw` says that the last OnReceive ended in an exception, after which
      the receive loop calls it no more. */
  datatype Assembler = Assembler(buffer: seq<Byte>, header: nat, size: nat, threw: bool, calls: seq<Call>)

  /** The longest byte array of .NET. A longer one cannot be made: the sum of two int lengths that
      exceeds it is refused, and one that exceeds an int is negative, which is refused too. */
  const MAX_ARRAY := 0x7FFF_FFC7

  function Empty(): Assembler {
    Assembler([], 0, 0, false, [])
  }

  function HeadOf(b: seq<Byte>): nat
    requires |b| >= 2
  {
    Number(b[..2])
  }

  function BodySizeOf(b: seq<Byte>): nat
    requires |b| >= 6
  {
    Number(b[2..6])
  }

  predicate Whole(b: seq<Byte>) {
    |b| >= HEADER_SIZE && |b| >= BodySizeOf(b) + HEADER_SIZE
  }

  /** The fields of the header are read one by one and each read checks the length. */
  function ReadHeader(a: Assembler): Assembler {
    var b := a.buffer;
    if |b| < 2 then a.(threw := true)
    else if |b| < 6 then a.(header := HeadOf(b), threw := true)
    else a.(header := HeadOf(b), size := BodySizeOf(b), threw := |b| < HEADER_SIZE)
  }

  function CallFor(b: seq<Byte>): Call
    requires Whole(b)
  {
    Call(HeadOf(b), BodySizeOf(b), b[HEADER_SIZE..HEADER_SIZE + BodySizeOf(b)])
  }

  /** What OnReceive does with its buffer; `fails` says whether ProcessMessage throws. */
  function Examine(a: Assembler, fails: bool): Assembler {
    var h := ReadHeader(a);
    if h.threw || !Whole(h.buffer) || h.header == 0 then h
    else if fails then h.(threw := true, calls := h.calls + [CallFor(h.buffer)])
    else h.(buffer := [], calls := h.calls + [CallFor(h.buffer)])
  }

  /** OnReceive of one chunk. */
  function Receive(a: Assembler, chunk: seq<Byte>, fails: bool): Assembler {
    if |a.buffer| + |chunk| > MAX_ARRAY then a.(threw := true)
    else Examine(a.(buffer := a.buffer + chunk), fails)
  }

  /** The calls of OnReceive in turn, until one throws, when ProcessMessage never does. */
  function Feed(a: Assembler, chunks: seq<seq<Byte>>): Assembler
    decreases |chunks|
  {
    if chunks == [] || a.threw then a else Feed(Receive(a, chunks[0], false), chunks[1..])
  }

  function Concat(chunks: seq<seq<Byte>>): seq<Byte> {
    if chunks == [] then [] else Concat(chunks[..|chunks| - 1]) + chunks[|chunks| - 1]
  }

  lemma ConcatSnoc(chunks: seq<seq<Byte>>, c: seq<Byte>)
    ensures Concat(chunks + [c]) == Concat(chunks) + c
  {
    assert (chunks + [c])[..|chunks|] == chunks;
  }

  lemma {:induction false} ConcatFirst(c: seq<Byte>, chunks: seq<seq<Byte>>)
    ensures Concat([c] + chunks) == c + Concat(chunks)
    decreases |chunks|
  {
    if chunks == [] {
      assert [c] + chunks == [] + [c];
      ConcatSnoc([], c);
    } else {
      var init, last := chunks[..|chunks| - 1], chunks[|chunks| - 1];
      ConcatFirst(c, init);
      assert [c] + chunks == ([c] + init) + [last];
      ConcatSnoc([c] + init, last);
    }
  }

  lemma ConcatCons(chunks: seq<seq<Byte>>)
    requires chunks != []
    ensures Concat(chunks) == chunks[0] + Concat(chunks[1..])
  {
    assert chunks == [chunks[0]] + chunks[1..];
    ConcatFirst(chunks[0], chunks[1..]);
  }

  // ----- the buffer that never gets out -----

  /** The header in the buffer is of no message: its head is 0, which is never removed, or it declares
      more than an array can hold. */
  predicate Hopeless(b: seq<Byte>)
    requires |b| >= HEADER_SIZE
  {
    HeadOf(b) == 0 || HEADER_SIZE + BodySizeOf(b) > MAX_ARRAY
  }

  /** The loop has stopped, or the buffer is hopeless. */
  predicate Deaf(a: Assembler) {
    a.threw || (|a.buffer| >= HEADER_SIZE && Hopeless(a.buffer))
  }

  lemma DeafStays(a: Assembler, chunk: seq<Byte>)
    requires Deaf(a) && !a.threw
    ensures Deaf(Receive(a, chunk, false)) && Receive(a, chunk, false).calls == a.calls
  {
    HeaderStays(a.buffer, chunk);
  }

  lemma {:induction false} DeafForever(a: Assembler, chunks: seq<seq<Byte>>)
    requires Deaf(a)
    ensures Deaf(Feed(a, chunks)) && Feed(a, chunks).calls == a.calls
    decreases |chunks|
  {
    if chunks == [] || a.threw {
    } else {
      DeafStays(a, chunks[0]);
      DeafForever(Receive(a, chunks[0], false), chunks[1..]);
    }
  }

  ghost predicate NeverProcesses(a: Assembler) {
    forall chunks :: Feed(a, chunks).calls == a.calls
  }

  /** With a whole header in the buffer, no input makes the client process a message again exactly
      if the head is 0 or the declared size exceeds every array. */
  lemma StuckIff(a: Assembler)
    requires !a.threw && HEADER_SIZE <= |a.buffer| <= MAX_ARRAY
    ensures HeadOf(a.buffer) == 0 || HEADER_SIZE + BodySizeOf(a.buffer) > MAX_ARRAY <==> NeverProcesses(a)
  {
    if Hopeless(a.buffer) {
      forall chunks
        ensures Feed(a, chunks).calls == a.calls
      {
        DeafForever(a, chunks);
      }
    } else {
      var n := HEADER_SIZE + BodySizeOf(a.buffer);
      var chunk := Zeros(if n > |a.buffer| then n - |a.buffer| else 0);
      HeaderStays(a.buffer, chunk);
      var next := Receive(a, chunk, false);
      assert next.calls == a.calls + [CallFor(a.buffer + chunk)];
      var one: seq<seq<Byte>> := [chunk];
      assert one[1..] == [] && Feed(next, one[1..]) == next;
      assert Feed(a, one) == next && Feed(a, one).calls != a.calls;
    }
  }

  lemma HeaderStays(b: seq<Byte>, rest: seq<Byte>)
    requires |b| >= HEADER_SIZE
    ensures HeadOf(b + rest) == HeadOf(b) && BodySizeOf(b + rest) == BodySizeOf(b)
  {
    assert (b + rest)[..2] == b[..2] && (b + rest)[2..6] == b[2..6];
  }

  // ----- one message in several chunks -----

  predicate Ready(a: Assembler) {
    !a.threw && a.buffer == []
  }

  function Last(chunks: seq<seq<Byte>>): seq<Byte>
    requires chunks != []
  {
    chunks[|chunks| - 1]
  }

  /** A message reached only by its last chunk is processed once, with its exact payload, and the
      buffer is empty again; if it and what came with it exceed every array, the loop stops instead. */
  lemma {:induction false} Reassembles(a: Assembler, chunks: seq<seq<Byte>>)
    requires !a.threw && chunks != [] && |a.buffer + chunks[0]| >= HEADER_SIZE
    requires HeadOf(a.buffer + chunks[0]) != 0
    requires var n, total := HEADER_SIZE + BodySizeOf(a.buffer + chunks[0]), |a.buffer| + |Concat(chunks)|;
      total - |Last(chunks)| < n <= total
    ensures var all, f := a.buffer + Concat(chunks), Feed(a, chunks);
      && Whole(all)
      && (if |all| <= MAX_ARRAY then Ready(f) && f.calls == a.calls + [CallFor(all)] else f.threw && f.calls == a.calls)
    decreases |chunks|
  {
    var b, rest := a.buffer + chunks[0], chunks[1..];
    var next := Receive(a, chunks[0], false);
    ConcatCons(chunks);
    var all := a.buffer + Concat(chunks);
    assert all == b + Concat(rest);
    HeaderStays(b, Concat(rest));
    OneChunk(a, chunks[0]);
    if rest == [] {
      assert all == b && Feed(next, rest) == next;
    } else if |b| > MAX_ARRAY {
      assert Feed(next, rest) == next;
    } else {
      assert Last(chunks) == Last(rest);
      ConcatLast(rest);
      HeaderStays(b, rest[0]);
      assert !Whole(b);
      Reassembles(next, rest);
    }
  }

  /** One chunk that leaves a whole header of a message in the buffer. */
  lemma OneChunk(a: Assembler, c: seq<Byte>)
    requires !a.threw && |a.buffer + c| >= HEADER_SIZE && HeadOf(a.buffer + c) != 0
    ensures var b, next := a.buffer + c, Receive(a, c, false);
      if |b| > MAX_ARRAY then next.threw && next.calls == a.calls
      else if Whole(b) then Ready(next) && next.calls == a.calls + [CallFor(b)]
      else !next.threw && next.buffer == b && next.calls == a.calls
  {}

  lemma ConcatLast(chunks: seq<seq<Byte>>)
    requires chunks != []
    ensures |Concat(chunks)| >= |Last(chunks)|
  {}

  lemma ZeroHead(b: seq<Byte>)
    requires |b| >= 2 && b[0] == 0 && b[1] == 0
    ensures HeadOf(b) == 0
  {
    NumberOfZerosThen(2, []);
    assert b[..2] == Zeros(2) + [];
  }

  ghost predicate AllZero(b: seq<Byte>) {
    forall i :: 0 <= i < |b| ==> b[i] == 0
  }

  lemma ZeroTail(b: seq<Byte>, n: nat, m: nat)
    requires n <= m <= |b| && AllZero(b[n..])
    ensures AllZero(b[m..])
  {
    assert b[m..] == b[n..][m - n..];
  }

  /** The padding of a message that was processed before its last chunk. */
  lemma PaddingDeafens(a: Assembler, chunks: seq<seq<Byte>>)
    requires Ready(a) && chunks != [] && AllZero(Concat(chunks))
    ensures Deaf(Feed(a, chunks)) && Feed(a, chunks).calls == a.calls
  {
    var c, rest := chunks[0], chunks[1..];
    ConcatCons(chunks);
    assert AllZero(c) by {
      assert forall i :: 0 <= i < |c| ==> c[i] == Concat(chunks)[i];
    }
    var next := Receive(a, c, false);
    assert a.buffer + c == c;
    if |c| >= HEADER_SIZE {
      ZeroHead(c);
    }
    assert Deaf(next) && next.calls == a.calls;
    DeafForever(next, rest);
  }

  /** A message that the chunks before the last already complete is processed, and then its padding
      is taken for the next one. */
  lemma {:induction false} CompletesEarly(a: Assembler, chunks: seq<seq<Byte>>, n: nat)
    requires !a.threw && chunks != [] && |a.buffer + chunks[0]| >= HEADER_SIZE
    requires HeadOf(a.buffer + chunks[0]) != 0 && n == HEADER_SIZE + BodySizeOf(a.buffer + chunks[0])
    requires |a.buffer| < n <= |a.buffer| + |Concat(chunks)| - |Last(chunks)|
    requires |a.buffer| + |Concat(chunks)| <= MAX_ARRAY
    requires AllZero((a.buffer + Concat(chunks))[n..])
    ensures var all, f := a.buffer + Concat(chunks), Feed(a, chunks);
      Whole(all) && Deaf(f) && f.calls == a.calls + [CallFor(all)]
    decreases |chunks|
  {
    var b, rest := a.buffer + chunks[0], chunks[1..];
    var next := Receive(a, chunks[0], false);
    ConcatCons(chunks);
    var all := a.buffer + Concat(chunks);
    assert all == b + Concat(rest);
    HeaderStays(b, Concat(rest));
    assert rest != [] && Last(chunks) == Last(rest);
    if |b| < n {
      HeaderStays(b, rest[0]);
      assert next.buffer == b && !next.threw && next.calls == a.calls;
      CompletesEarly(next, rest, n);
    } else {
      assert CallFor(b) == CallFor(all);
      ZeroTail(all, n, |b|);
      assert Concat(rest) == all[|b|..];
      PaddingDeafens(next, rest);
    }
  }

  // ----- the frames of the server -----

  lemma MessageHeader(head: nat, body: seq<Byte>)
    requires ValidHead(head, |body|)
    ensures var w := Message(head, body);
      && HeadOf(w) == head && BodySizeOf(w) == |body| && Whole(w)
      && CallFor(w) == Call(head, |body|, body) && AllZero(w[HEADER_SIZE + |body|..])
  {
    ParseOfMessage(head, body);
    var w := Message(head, body);
    assert w[0..2] == w[..2];
    assert w[HEADER_SIZE..HEADER_SIZE + |body|] == body;
  }

  /** A frame of the server leaves the client ready for the next one exactly if the first chunk
      holds the header and the padding arrives with the end of the body, in the last chunk; if not,
      the client never processes another message. */
  lemma FrameDecides(a: Assembler, head: nat, body: seq<Byte>, chunks: seq<seq<Byte>>)
    requires Ready(a) && head != 0 && ValidHead(head, |body|)
    requires chunks != [] && Concat(chunks) == Message(head, body)
    ensures var f := Feed(a, chunks);
      && (Ready(f) <==> |chunks[0]| >= HEADER_SIZE && MESSAGE_SIZE - |Last(chunks)| < HEADER_SIZE + |body|)
      && (!Ready(f) ==> NeverProcesses(f))
      && f.calls == a.calls + if |chunks[0]| >= HEADER_SIZE then [Call(head, |body|, body)] else []
  {
    var c, rest := chunks[0], chunks[1..];
    var f, n := Feed(a, chunks), HEADER_SIZE + |body|;
    ConcatCons(chunks);
    MessageHeader(head, body);
    assert a.buffer + c == c && a.buffer + Concat(chunks) == Concat(chunks);
    if |c| >= HEADER_SIZE {
      HeaderStays(c, Concat(rest));
      if MESSAGE_SIZE - |Last(chunks)| < n {
        Reassembles(a, chunks);
      } else {
        CompletesEarly(a, chunks, n);
      }
    } else {
      var next := Receive(a, c, false);
      assert next.threw && Feed(next, rest) == next;
    }
    if Deaf(f) {
      forall more
        ensures Feed(f, more).calls == f.calls
      {
        DeafForever(f, more);
      }
    }
  }

  lemma ConcatTwo(b: seq<Byte>, c: seq<Byte>)
    ensures Concat([b, c]) == b + c
  {
    var none: seq<seq<Byte>>, one: seq<seq<Byte>> := [], [b];
    ConcatSnoc(none, b);
    ConcatSnoc(one, c);
    assert none + [b] == one && one + [c] == [b, c];
    assert Concat(none) + b == b;
  }

  /** Any cut of a server frame in its padding deafens the client, once it has processed that frame. */
  lemma CutInPaddingDeafens(a: Assembler, head: nat, body: seq<Byte>, k: nat)
    requires Ready(a) && head != 0 && ValidHead(head, |body|)
    requires HEADER_SIZE + |body| <= k < MESSAGE_SIZE
    ensures var w := Message(head, body);
      var f := Feed(a, [w[..k], w[k..]]);
      f.calls == a.calls + [Call(head, |body|, body)] && !Ready(f) && NeverProcesses(f)
  {
    var w := Message(head, body);
    var chunks := [w[..k], w[k..]];
    ConcatTwo(w[..k], w[k..]);
    assert w[..k] + w[k..] == w;
    FrameDecides(a, head, body, chunks);
  }

  /** A message whose processing throws is still in the buffer when the loop stops. */
  lemma FailedMessageStays(a: Assembler, chunk: seq<Byte>)
    requires |a.buffer + chunk| <= MAX_ARRAY && Whole(a.buffer + chunk) && HeadOf(a.buffer + chunk) != 0
    ensures var f := Receive(a, chunk, true);
      f.threw && f.buffer == a.buffer + chunk && f.calls == a.calls + [CallFor(a.buffer + chunk)]
  {}

  // ----- several frames in one buffer -----

  function FirstCalls(groups: seq<seq<Wire>>): (calls: seq<Call>)
    requires forall i :: 0 <= i < |groups| ==> groups[i] != [] && Whole(groups[i][0])
    ensures |calls| == |groups|
  {
    seq(|groups|, i requires 0 <= i < |groups| => CallFor(groups[i][0]))
  }

  lemma FirstOfBuffer(a: Assembler, frames: seq<Wire>)
    requires Ready(a) && frames != [] && Whole(frames[0]) && HeadOf(frames[0]) != 0
    requires |Flatten(frames)| <= MAX_ARRAY
    ensures var f := Receive(a, Flatten(frames), false);
      Ready(f) && f.calls == a.calls + [CallFor(frames[0])]
  {
    var w, rest := frames[0], Flatten(frames[1..]);
    assert frames == [w] + frames[1..];
    FlattenFirst(w, frames[1..]);
    FirstOfBytes(a, w, rest);
  }

  lemma FirstOfBytes(a: Assembler, w: seq<Byte>, rest: seq<Byte>)
    requires Ready(a) && Whole(w) && HeadOf(w) != 0 && |w + rest| <= MAX_ARRAY
    ensures var f := Receive(a, w + rest, false);
      Ready(f) && f.calls == a.calls + [CallFor(w)]
  {
    HeaderStays(w, rest);
    assert a.buffer + (w + rest) == w + rest;
    assert CallFor(w + rest) == CallFor(w);
  }

  /** When every buffer passed on holds whole frames, exactly the first frame of each buffer is
      processed; the others are lost, and the client stays ready. */
  lemma {:induction false} OnlyFirstFrames(a: Assembler, groups: seq<seq<Wire>>, chunks: seq<seq<Byte>>)
    requires Ready(a) && |chunks| == |groups|
    requires forall i :: 0 <= i < |groups| ==>
      && groups[i] != [] && Whole(groups[i][0]) && HeadOf(groups[i][0]) != 0
      && chunks[i] == Flatten(groups[i]) && |chunks[i]| <= MAX_ARRAY
    ensures Ready(Feed(a, chunks)) && Feed(a, chunks).calls == a.calls + FirstCalls(groups)
    decreases |chunks|
  {
    if chunks == [] {
      assert a.calls + [] == a.calls;
    } else {
      FirstOfBuffer(a, groups[0]);
      var next := Receive(a, chunks[0], false);
      OnlyFirstFrames(next, groups[1..], chunks[1..]);
      assert FirstCalls(groups) == [CallFor(groups[0][0])] + FirstCalls(groups[1..]);
    }
  }

  lemma OneBuffer(a: Assembler, q: seq<Byte>)
    requires Ready(a) && |q| <= MAX_ARRAY
    ensures var f := Receive(a, q, false);
      if |q| < HEADER_SIZE then f.threw && f.calls == a.calls
      else if HeadOf(q) != 0 && Whole(q) then Ready(f) && f.calls == a.calls + [CallFor(q)]
      else !f.threw && f.buffer == q && f.calls == a.calls
  {
    assert a.buffer + q == q;
  }

  /** When a buffer ends inside the frame behind its first, the beginning of that frame is discarded
      with it, and the next buffer is read as if it began a message. Then the client stops, or it
      processes a message that was never sent, or it waits for one; and in that last case it never
      processes anything again exactly if what it takes for the header is of no message. */
  lemma CutInLaterFrame(a: Assembler, w: Wire, v: Wire, k: nat)
    requires Ready(a) && Whole(w) && HeadOf(w) != 0 && 0 < k < MESSAGE_SIZE
    ensures var q, first := v[k..], a.calls + [CallFor(w)];
      var f := Feed(a, [w + v[..k], q]);
      if |q| < HEADER_SIZE then f.threw && f.calls == first
      else if HeadOf(q) != 0 && Whole(q) then Ready(f) && f.calls == first + [CallFor(q)]
      else f.buffer == q && f.calls == first && (NeverProcesses(f) <==> Hopeless(q))
  {
    var q := v[k..];
    var chunks: seq<seq<Byte>>, one: seq<seq<Byte>> := [w + v[..k], q], [q];
    var b := Receive(a, chunks[0], false);
    FirstOfBytes(a, w, v[..k]);
    OneBuffer(b, q);
    var f := Receive(b, q, false);
    assert chunks[1..] == one && one[1..] == [];
    assert Feed(f, one[1..]) == f && Feed(b, one) == f;
    if |q| >= HEADER_SIZE && !(HeadOf(q) != 0 && Whole(q)) {
      StuckIff(f);
    }
  }
}

/** The receive loop of XRAsyncTCPClient, which collects what it reads until nothing more is
    available and then hands it to OnReceive. */
module ReceiveLoop {
  import opened Bytes
  import opened Reassembly
  import Streams

  /** `received`, `passed` and `lost` are history: all bytes read, all buffers given to the callback,
      and the bytes of a read for which the buffer could not be made longer. */
  datatype Loop = Loop(
    rx: seq<Byte>, running: bool, assembler: Assembler,
    received: seq<Byte>, passed: seq<seq<Byte>>, lost: seq<Byte>)

  /** A read of `data`; `more` says whether the socket has more, `fails` whether ProcessMessage throws. */
  datatype Event = Read(data: seq<Byte>, more: bool, fails: bool)

  function Pass(l: Loop, fails: bool): Loop {
    var a := Receive(l.assembler, l.rx, fails);
    l.(assembler := a, passed := l.passed + [l.rx], running := !a.threw, rx := if a.threw then l.rx else [])
  }

  function Collect(l: Loop, data: seq<Byte>): Loop {
    if data == [] then l
    else if |l.rx| + |data| > MAX_ARRAY then l.(running := false, received := l.received + data, lost := data)
    else l.(rx := l.rx + data, received := l.received + data)
  }

  function Callback(l: Loop, e: Event): Loop {
    var read := Collect(l, e.data);
    if read.running && (e.data == [] || !e.more) then Pass(read, e.fails) else read
  }

  function Begin(): Loop {
    Loop([], true, Empty(), [], [], [])
  }

  /** An exception in the callback ends the loop. */
  ghost predicate Legal(l: Loop, es: seq<Event>)
    decreases |es|
  {
    es == [] || (l.running && Legal(Callback(l, es[0]), es[1..]))
  }

  ghost function After(l: Loop, es: seq<Event>): Loop
    requires Legal(l, es)
    decreases |es|
  {
    if es == [] then l else After(Callback(l, es[0]), es[1..])
  }

  /** While the loop runs, the buffers passed on and the one being filled are all the bytes read. When
      the callback has stopped it, the last buffer has been passed on and is still there; when the
      buffer would have become too long, only the last read is missing from it. */
  ghost predicate Conserved(l: Loop) {
    if l.running then l.lost == [] && Concat(l.passed) + l.rx == l.received
    else if l.lost == [] then l.passed != [] && Concat(l.passed) == l.received && l.rx == Last(l.passed)
    else Concat(l.passed) + l.rx + l.lost == l.received && |l.rx| + |l.lost| > MAX_ARRAY
  }

  lemma CollectConserves(l: Loop, data: seq<Byte>)
    requires Conserved(l) && l.running
    ensures Conserved(Collect(l, data))
  {
    assert Concat(l.passed) + l.rx + data == Concat(l.passed) + (l.rx + data);
  }

  lemma PassConserves(l: Loop, fails: bool)
    requires Conserved(l) && l.running
    ensures Conserved(Pass(l, fails))
  {
    ConcatSnoc(l.passed, l.rx);
    assert Concat(l.passed) + l.rx + [] == Concat(l.passed) + l.rx;
  }

  lemma CallbackConserves(l: Loop, e: Event)
    requires Conserved(l) && l.running
    ensures Conserved(Callback(l, e))
  {
    CollectConserves(l, e.data);
    var read := Collect(l, e.data);
    if read.running {
      PassConserves(read, e.fails);
    }
  }

  lemma {:induction false} RunConserves(l: Loop, es: seq<Event>)
    requires Conserved(l) && Legal(l, es)
    ensures Conserved(After(l, es))
    decreases |es|
  {
    if es == [] {
    } else {
      CallbackConserves(l, es[0]);
      RunConserves(Callback(l, es[0]), es[1..]);
    }
  }

  /** Nothing read is lost, doubled or reordered, whatever the chunks and whenever more is available. */
  lemma ReceiveConserves(es: seq<Event>)
    requires Legal(Begin(), es)
    ensures Conserved(After(Begin(), es))
  {
    assert Concat([]) + [] == [];
    RunConserves(Begin(), es);
  }

  // ----- the two parts together -----

  lemma {:induction false} FeedSnoc(a: Assembler, chunks: seq<seq<Byte>>, c: seq<Byte>)
    requires !Feed(a, chunks).threw
    ensures Feed(a, chunks + [c]) == Receive(Feed(a, chunks), c, false)
    decreases |chunks|
  {
    if chunks == [] {
      var one, next := [] + [c], Receive(a, c, false);
      assert one[1..] == [] && Feed(next, one[1..]) == next;
    } else {
      assert (chunks + [c])[1..] == chunks[1..] + [c];
      FeedSnoc(Receive(a, chunks[0], false), chunks[1..], c);
    }
  }

  ghost predicate Fed(l: Loop) {
    l.assembler == Feed(Empty(), l.passed) && (l.running ==> !l.assembler.threw)
  }

  ghost predicate NeverFails(es: seq<Event>) {
    forall i :: 0 <= i < |es| ==> !es[i].fails
  }

  lemma {:induction false} RunFeeds(l: Loop, es: seq<Event>)
    requires Fed(l) && Legal(l, es) && NeverFails(es)
    ensures Fed(After(l, es))
    decreases |es|
  {
    if es == [] {
    } else {
      FeedSnoc(Empty(), l.passed, Collect(l, es[0].data).rx);
      RunFeeds(Callback(l, es[0]), es[1..]);
    }
  }

  /** When the loop has read one frame of the server and nothing else, and has just passed on its
      end, the frame was processed exactly if the first buffer passed on held its header, and the
      client can take another frame exactly if the body ended in the last buffer. */
  lemma LoopReceivesFrame(es: seq<Event>, head: nat, body: seq<Byte>)
    requires Legal(Begin(), es) && NeverFails(es)
    requires head != 0 && Messages.ValidHead(head, |body|)
    requires After(Begin(), es).received == Messages.Message(head, body)
    requires After(Begin(), es).running ==> After(Begin(), es).rx == []
    ensures var l := After(Begin(), es);
      && l.passed != []
      && l.assembler.calls == (if |l.passed[0]| >= Messages.HEADER_SIZE then [Call(head, |body|, body)] else [])
      && (Ready(l.assembler) <==>
          && |l.passed[0]| >= Messages.HEADER_SIZE
          && Messages.MESSAGE_SIZE - |Last(l.passed)| < Messages.HEADER_SIZE + |body|)
      && (!Ready(l.assembler) ==> NeverProcesses(l.assembler))
  {
    ReceiveConserves(es);
    var l := After(Begin(), es);
    RunFeeds(Begin(), es);
    assert Concat(l.passed) + [] == Concat(l.passed);
    assert l.passed != [];
    FrameDecides(Empty(), head, body, l.passed);
  }

  /** When every buffer the loop has passed on held whole frames of the server, exactly the first frame
      of each was processed. */
  lemma LoopReceivesFirstFrames(es: seq<Event>, groups: seq<seq<Messages.Wire>>)
    requires Legal(Begin(), es) && NeverFails(es) && |After(Begin(), es).passed| == |groups|
    requires forall i :: 0 <= i < |groups| ==>
      && groups[i] != [] && Whole(groups[i][0]) && HeadOf(groups[i][0]) != 0
      && After(Begin(), es).passed[i] == Streams.Flatten(groups[i]) && |After(Begin(), es).passed[i]| <= MAX_ARRAY
    ensures var l := After(Begin(), es);
      Ready(l.assembler) && l.assembler.calls == FirstCalls(groups)
  {
    RunFeeds(Begin(), es);
    OnlyFirstFrames(Empty(), groups, After(Begin(), es).passed);
    assert [] + FirstCalls(groups) == FirstCalls(groups);
  }

  // ----- when the buffer is passed on -----

  /** The reads at which nothing more is available. */
  predicate Ends(e: Event) {
    e.data == [] || !e.more
  }

  function Datas(es: seq<Event>): (ds: seq<seq<Byte>>)
    ensures |ds| == |es|
  {
    seq(|es|, i requires 0 <= i < |es| => es[i].data)
  }

  function Endings(es: seq<Event>): nat {
    if es == [] then 0 else (if Ends(es[0]) then 1 else 0) + Endings(es[1..])
  }

  /** What has been read up to each read that ends, since the one before; `have` was read before. */
  function Bursts(es: seq<Event>, have: seq<Byte>): (bs: seq<seq<Byte>>)
    decreases |es|
  {
    if es == [] then []
    else if Ends(es[0]) then [have + es[0].data] + Bursts(es[1..], [])
    else Bursts(es[1..], have + es[0].data)
  }

  function LeftOver(es: seq<Event>, have: seq<Byte>): seq<Byte>
    decreases |es|
  {
    if es == [] then have else LeftOver(es[1..], if Ends(es[0]) then [] else have + es[0].data)
  }

  lemma {:induction false} BurstsAreEndings(es: seq<Event>, have: seq<Byte>)
    ensures |Bursts(es, have)| == Endings(es)
    decreases |es|
  {
    if es == [] {
    } else {
      BurstsAreEndings(es[1..], if Ends(es[0]) then [] else have + es[0].data);
    }
  }

  /** Reads that leave more available, then one that does not: one buffer, of all their data. */
  lemma {:induction false} OneBurst(parts: seq<Event>, last: Event, rest: seq<Event>, have: seq<Byte>)
    requires (forall e :: e in parts ==> !Ends(e)) && Ends(last)
    ensures Bursts(parts + [last] + rest, have)
      == [have + Concat(Datas(parts)) + last.data] + Bursts(rest, [])
    decreases |parts|
  {
    var es := parts + [last] + rest;
    if parts == [] {
      assert es[0] == last && es[1..] == rest;
      assert have + Concat(Datas(parts)) == have;
    } else {
      assert es[0] == parts[0] && es[1..] == parts[1..] + [last] + rest;
      assert parts[0] in parts && forall e :: e in parts[1..] ==> e in parts;
      OneBurst(parts[1..], last, rest, have + parts[0].data);
      DatasOfFirst(parts);
      assert have + (parts[0].data + Concat(Datas(parts[1..]))) == have + parts[0].data + Concat(Datas(parts[1..]));
    }
  }

  lemma DatasOfFirst(es: seq<Event>)
    requires es != []
    ensures Concat(Datas(es)) == es[0].data + Concat(Datas(es[1..]))
  {
    assert Datas(es)[1..] == Datas(es[1..]);
    ConcatCons(Datas(es));
  }

  lemma {:induction false} RunPasses(l: Loop, es: seq<Event>)
    requires l.running && Legal(l, es) && After(l, es).lost == []
    ensures After(l, es).passed == l.passed + Bursts(es, l.rx)
    ensures After(l, es).running ==> After(l, es).rx == LeftOver(es, l.rx)
    decreases |es|
  {
    if es == [] {
      assert l.passed + [] == l.passed;
    } else {
      var next := Callback(l, es[0]);
      assert l.rx + [] == l.rx;
      if next.running {
        RunPasses(next, es[1..]);
        var first, others := [l.rx + es[0].data], Bursts(es[1..], []);
        assert l.passed + first + others == l.passed + (first + others);
      } else {
        assert es[1..] == [];
        assert l.passed + ([l.rx + es[0].data] + []) == l.passed + [l.rx + es[0].data];
      }
    }
  }

  /** As long as the buffer fits an array, the loop passes on one buffer for each read that is empty or
      leaves nothing available, and that buffer is all the data since the one before. */
  lemma PassesAtTheEnds(es: seq<Event>)
    requires Legal(Begin(), es) && After(Begin(), es).lost == []
    ensures After(Begin(), es).passed == Bursts(es, []) && |After(Begin(), es).passed| == Endings(es)
    ensures After(Begin(), es).running ==> After(Begin(), es).rx == LeftOver(es, [])
  {
    RunPasses(Begin(), es);
    BurstsAreEndings(es, []);
    assert [] + Bursts(es, []) == Bursts(es, []);
  }

  /** The loop stops exactly when the callback has thrown or the buffer could grow no longer. */
  lemma {:induction false} StopsIff(l: Loop, es: seq<Event>)
    requires l.running <==> !l.assembler.threw && l.lost == []
    requires Legal(l, es)
    ensures After(l, es).running <==> !After(l, es).assembler.threw && After(l, es).lost == []
    decreases |es|
  {
    if es == [] {
    } else {
      StopsIff(Callback(l, es[0]), es[1..]);
    }
  }

  lemma {:induction false} RunsCompose(l: Loop, es: seq<Event>, fs: seq<Event>)
    requires Legal(l, es) && Legal(After(l, es), fs)
    ensures Legal(l, es + fs) && After(l, es + fs) == After(After(l, es), fs)
    decreases |es|
  {
    if es == [] {
      assert es + fs == fs;
    } else {
      assert (es + fs)[1..] == es[1..] + fs;
      RunsCompose(Callback(l, es[0]), es[1..], fs);
    }
  }

  lemma {:induction false} Gathers(l: Loop, parts: seq<Event>)
    requires l.running && (forall e :: e in parts ==> !Ends(e)) && |l.rx| + |Concat(Datas(parts))| <= MAX_ARRAY
    ensures Legal(l, parts)
    ensures var all := Concat(Datas(parts));
      After(l, parts) == l.(rx := l.rx + all, received := l.received + all)
    decreases |parts|
  {
    if parts == [] {
      assert l.rx + [] == l.rx && l.received + [] == l.received;
    } else {
      assert parts[0] in parts && forall e :: e in parts[1..] ==> e in parts;
      DatasOfFirst(parts);
      var d, all := parts[0].data, Concat(Datas(parts[1..]));
      Gathers(Callback(l, parts[0]), parts[1..]);
      assert l.rx + d + all == l.rx + (d + all) && l.received + d + all == l.received + (d + all);
    }
  }

  lemma PassedWhole(l: Loop, head: nat, body: seq<Byte>)
    requires l.running && Ready(l.assembler) && head != 0 && Messages.ValidHead(head, |body|)
    requires l.rx == Messages.Message(head, body)
    ensures var l' := Pass(l, false);
      && l'.running && l'.rx == [] && Ready(l'.assembler) && l'.passed == l.passed + [l.rx]
      && l'.assembler.calls == l.assembler.calls + [Call(head, |body|, body)]
  {
    var one: seq<seq<Byte>> := [l.rx];
    ConcatSnoc([], l.rx);
    assert [] + [l.rx] == one && Concat([]) + l.rx == l.rx;
    FrameDecides(l.assembler, head, body, one);
    var next := Receive(l.assembler, l.rx, false);
    assert one[1..] == [] && Feed(next, one[1..]) == next;
  }

  /** If of the reads of a server frame only the last leaves nothing more available, the loop passes on
      the whole frame at once, it is processed once, and the client is ready for the next, however
      the reads cut it. */
  lemma FrameInOneBurst(l: Loop, parts: seq<Event>, last: Event, head: nat, body: seq<Byte>)
    requires l.running && l.rx == [] && Ready(l.assembler) && head != 0 && Messages.ValidHead(head, |body|)
    requires (forall e :: e in parts ==> !Ends(e)) && Ends(last) && !last.fails
    requires Concat(Datas(parts)) + last.data == Messages.Message(head, body)
    ensures Legal(l, parts + [last])
    ensures var l' := After(l, parts + [last]);
      && l'.running && l'.rx == [] && Ready(l'.assembler)
      && l'.passed == l.passed + [Messages.Message(head, body)]
      && l'.assembler.calls == l.assembler.calls + [Call(head, |body|, body)]
  {
    var all, w := Concat(Datas(parts)), Messages.Message(head, body);
    Gathers(l, parts);
    var g := After(l, parts);
    assert g.rx == all && all + last.data == w;
    var read := Collect(g, last.data);
    assert read.running && read.rx == w by {
      assert all + [] == all;
    }
    PassedWhole(read, head, body);
    var one: seq<Event> := [last];
    var l' := Callback(g, last);
    assert one[1..] == [] && Legal(l', one[1..]) && After(g, one) == l';
    RunsCompose(l, parts, one);
  }
}

/** XRNetworkParticipant and XRAsyncTCPClient as objects, with arrays that are shared as in the source. */
module UnityClient {
  import opened Bytes
  import opened Messages
  import opened Reassembly
  import RL = ReceiveLoop

  const BUFFER_SIZE := 65536

  method SplitByteArray(buffer: array<Byte>, index: nat, count: nat) returns (ret: array<Byte>)
    requires index + count <= buffer.Length
    ensures fresh(ret) && ret[..] == buffer[index..index + count]
  {
    ret := new Byte[count](_ => 0);
    forall i | 0 <= i < count {
      ret[i] := buffer[index + i];
    }
  }

  /** An array longer than any is refused by an exception. */
  method Combine(first: array<Byte>, second: array<Byte>) returns (ok: bool, ret: array<Byte>)
    ensures ok == (first.Length + second.Length <= MAX_ARRAY)
    ensures ok ==> fresh(ret) && ret[..] == first[..] + second[..]
  {
    ok, ret := first.Length + second.Length <= MAX_ARRAY, first;
    if !ok {
      return;
    }
    ret := new Byte[first.Length + second.Length](_ => 0);
    forall i | 0 <= i < first.Length {
      ret[i] := first[i];
    }
    forall i | 0 <= i < second.Length {
      ret[first.Length + i] := second[i];
    }
  }

  method ConcatByteArrays(arr1: array<Byte>, arr2: array<Byte>) returns (ok: bool, tmp: array<Byte>)
    ensures ok == (arr1.Length + arr2.Length <= MAX_ARRAY)
    ensures ok ==> fresh(tmp) && tmp[..] == arr1[..] + arr2[..]
  {
    ok, tmp := arr1.Length + arr2.Length <= MAX_ARRAY, arr1;
    if !ok {
      return;
    }
    if arr1.Length + arr2.Length == 0 {
      tmp := new Byte[0];
      return;
    }
    tmp := new Byte[arr1.Length + arr2.Length](_ => 0);
    forall i | 0 <= i < arr1.Length {
      tmp[i] := arr1[i];
    }
    forall i | 0 <= i < arr2.Length {
      tmp[arr1.Length + i] := arr2[i];
    }
  }

  method Clear(buffer: array<Byte>)
    modifies buffer
    ensures forall i :: 0 <= i < buffer.Length ==> buffer[i] == 0
  {
    forall i | 0 <= i < buffer.Length {
      buffer[i] := 0;
    }
  }

  class XRNetworkParticipant {
    var tcpBuffer: array<Byte>
    var tcpHeader: nat
    var tcpBufferSize: nat
    ghost var threw: bool
    ghost var calls: seq<Call>

    constructor ()
      ensures Abs() == Empty() && fresh(tcpBuffer)
    {
      tcpBuffer := new Byte[0];
      tcpHeader, tcpBufferSize, threw, calls := 0, 0, false, [];
    }

    ghost function Abs(): Assembler
      reads this, tcpBuffer
    {
      Assembler(tcpBuffer[..], tcpHeader, tcpBufferSize, threw, calls)
    }

    /** The header fields, each read with a bounds check that throws. */
    method ReadHeader() returns (ok: bool)
      modifies this`tcpHeader, this`tcpBufferSize, this`threw
      ensures Abs() == Reassembly.ReadHeader(old(Abs())) && ok == !threw
      ensures ok ==> tcpBuffer.Length >= HEADER_SIZE
    {
      ghost var b := tcpBuffer[..];
      threw := tcpBuffer.Length < HEADER_SIZE;
      if tcpBuffer.Length < 2 {
        return false;
      }
      tcpHeader := Number(tcpBuffer[..2]);
      assert b[..2] == tcpBuffer[..2];
      if tcpBuffer.Length < 6 {
        return false;
      }
      tcpBufferSize := Number(tcpBuffer[2..6]);
      assert b[2..6] == tcpBuffer[2..6];
      ok := tcpBuffer.Length >= HEADER_SIZE;
    }

    /** ProcessMessage belongs to the game; all that matters here is what it is called with and
        whether it throws. */
    method ProcessMessage(head: nat, size: nat, payload: array<Byte>, fails: bool) returns (ok: bool)
      modifies this`calls, this`threw
      ensures ok == !fails
      ensures Abs() == old(Abs()).(calls := old(calls) + [Call(head, size, payload[..])], threw := fails)
    {
      calls := calls + [Call(head, size, payload[..])];
      threw := fails;
      ok := !fails;
    }

    method ProcessBuffer(fails: bool) returns (ok: bool)
      requires tcpBuffer.Length >= HEADER_SIZE + tcpBufferSize && tcpBufferSize == BodySizeOf(tcpBuffer[..])
      requires tcpHeader == HeadOf(tcpBuffer[..])
      modifies this
      ensures ok == !fails && (tcpBuffer == old(tcpBuffer) || fresh(tcpBuffer))
      ensures Abs() == old(Abs()).(calls := old(calls) + [CallFor(old(tcpBuffer[..]))], threw := fails,
                                   buffer := if fails then old(tcpBuffer[..]) else [])
    {
      var payload := SplitByteArray(tcpBuffer, HEADER_SIZE, tcpBufferSize);
      assert payload[..] == tcpBuffer[..][HEADER_SIZE..HEADER_SIZE + tcpBufferSize];
      ok := ProcessMessage(tcpHeader, tcpBufferSize, payload, fails);
      if ok {
        tcpBuffer := new Byte[0];
      }
    }

    /** The first buffer of a message is kept, not copied. */
    method Take(buffer: array<Byte>) returns (ok: bool)
      requires tcpBuffer.Length <= MAX_ARRAY && buffer.Length <= MAX_ARRAY
      modifies this`tcpBuffer, this`threw
      ensures ok == (old(tcpBuffer.Length) + buffer.Length <= MAX_ARRAY)
      ensures ok ==> Abs() == old(Abs()).(buffer := old(tcpBuffer[..]) + buffer[..])
      ensures ok ==> tcpBuffer == buffer || fresh(tcpBuffer)
      ensures !ok ==> Abs() == old(Abs()).(threw := true) && tcpBuffer == old(tcpBuffer)
    {
      ok := true;
      if tcpBuffer.Length != 0 {
        var tmp;
        ok, tmp := ConcatByteArrays(tcpBuffer, buffer);
        if ok {
          tcpBuffer := tmp;
        } else {
          threw := true;
        }
      } else {
        assert tcpBuffer[..] == [] && [] + buffer[..] == buffer[..];
        tcpBuffer := buffer;
      }
    }

    method OnReceive(buffer: array<Byte>, fails: bool) returns (ok: bool)
      requires tcpBuffer.Length <= MAX_ARRAY && buffer.Length <= MAX_ARRAY
      modifies this
      ensures Abs() == Receive(old(Abs()), old(buffer[..]), fails) && ok == !threw
      ensures tcpBuffer == buffer || tcpBuffer == old(tcpBuffer) || fresh(tcpBuffer)
      ensures tcpBuffer.Length <= MAX_ARRAY
    {
      ok := Take(buffer);
      if ok {
        ok := Examine(fails);
      }
    }

    method Examine(fails: bool) returns (ok: bool)
      requires tcpBuffer.Length <= MAX_ARRAY
      modifies this
      ensures Abs() == Reassembly.Examine(old(Abs()), fails) && ok == !threw
      ensures (tcpBuffer == old(tcpBuffer) || fresh(tcpBuffer)) && tcpBuffer.Length <= MAX_ARRAY
    {
      ok := ReadHeader();
      if ok && tcpBuffer.Length >= tcpBufferSize + HEADER_SIZE {
        if tcpHeader == 0 {
          return;
        }
        ok := ProcessBuffer(fails);
      }
    }
  }

  class XRAsyncTCPClient {
    const buffer: array<Byte>
    const participant: XRNetworkParticipant
    var rxBuffer: array<Byte>
    var running: bool
    ghost var received: seq<Byte>
    ghost var passed: seq<seq<Byte>>
    ghost var lost: seq<Byte>

    constructor ()
      ensures Valid() && Abs() == RL.Begin() && fresh(buffer) && fresh(participant)
    {
      buffer := new Byte[BUFFER_SIZE](_ => 0);
      participant := new XRNetworkParticipant();
      rxBuffer := new Byte[0];
      running, received, passed, lost := true, [], [], [];
    }

    /** The buffer of the socket is never one of those that are kept. */
    ghost predicate Valid()
      reads this, participant
    {
      && buffer.Length == BUFFER_SIZE && rxBuffer != buffer && participant.tcpBuffer != buffer
      && rxBuffer.Length <= MAX_ARRAY && participant.tcpBuffer.Length <= MAX_ARRAY
    }

    ghost function Abs(): RL.Loop
      reads this, participant, participant.tcpBuffer, rxBuffer
    {
      RL.Loop(rxBuffer[..], running, participant.Abs(), received, passed, lost)
    }

    method Collect(bytesRead: nat)
      requires Valid() && running && bytesRead <= BUFFER_SIZE
      modifies this`rxBuffer, this`received, this`lost, this`running, buffer
      ensures Valid() && Abs() == RL.Collect(old(Abs()), old(buffer[..bytesRead]))
    {
      if bytesRead > 0 {
        var tmp := SplitByteArray(buffer, 0, bytesRead);
        ghost var data := tmp[..];
        received := received + data;
        var longer;
        running, longer := ConcatByteArrays(rxBuffer, tmp);
        if running {
          rxBuffer := longer;
          Clear(buffer);
        } else {
          lost := data;
        }
      }
    }

    method Reset()
      requires Valid()
      modifies this`rxBuffer, buffer
      ensures Valid() && Abs() == old(Abs()).(rx := [])
    {
      Clear(buffer);
      rxBuffer := new Byte[0];
    }

    method PassOn(fails: bool)
      requires Valid() && running
      modifies this`rxBuffer, this`passed, this`running, participant, buffer
      ensures Valid() && Abs() == RL.Pass(old(Abs()), fails)
    {
      ghost var rx := rxBuffer[..];
      ghost var a := Receive(participant.Abs(), rx, fails);
      passed := passed + [rx];
      running := participant.OnReceive(rxBuffer, fails);
      assert participant.Abs() == a;
      if running {
        Reset();
      }
    }

    /** The completion handler of a read: `bytesRead` bytes lie in the buffer. */
    method AsyncReceiveCallback(bytesRead: nat, available: nat, fails: bool)
      requires Valid() && running && bytesRead <= BUFFER_SIZE
      modifies this, participant, buffer
      ensures Valid() && Abs() == RL.Callback(old(Abs()), RL.Read(old(buffer[..bytesRead]), available > 0, fails))
    {
      Collect(bytesRead);
      if running && (bytesRead == 0 || available == 0) {
        PassOn(fails);
      }
    }
  }
}
