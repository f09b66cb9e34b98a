/** Exactly when the frames of nr_session arrive whole: which schedules of deliveries, writes and
    completions keep them apart, and when deliver_byte may be called. */
module Schedules {
  import opened Bytes
  import opened Messages
  import opened Streams
  import opened SessionChannel
  import SW = SessionWriters

  // ----- a frame that answers a reply -----

  function Sum(ns: seq<nat>): nat {
    if ns == [] then 0 else Sum(ns[..|ns| - 1]) + ns[|ns| - 1]
  }

  lemma {:induction false} SumOfUpdate(ns: seq<nat>, j: nat, v: nat)
    requires j < |ns|
    ensures Sum(ns[j := v]) + ns[j] == Sum(ns) + v
    decreases |ns|
  {
    var init := ns[..|ns| - 1];
    if j == |ns| - 1 {
      assert ns[j := v][..|ns| - 1] == init;
    } else {
      assert ns[j := v][..|ns| - 1] == init[j := v];
      SumOfUpdate(init, j, v);
    }
  }

  lemma {:induction false} SumIsFull(ns: seq<nat>, k: nat)
    requires forall i :: 0 <= i < |ns| ==> ns[i] <= k
    ensures Sum(ns) <= k * |ns|
    ensures Sum(ns) == k * |ns| ==> forall i :: 0 <= i < |ns| ==> ns[i] == k
    decreases |ns|
  {
    if ns == [] {
      assert Sum(ns) == 0;
    } else {
      SumIsFull(ns[..|ns| - 1], k);
      assert k * |ns| == k * (|ns| - 1) + k;
    }
  }

  /** Every byte pushed is a byte sent of some frame. */
  ghost predicate Counted(c: Channel) {
    && Conserved(c.stream) && |c.frames| == |c.sent| && |c.stream.pushed| == Sum(c.sent)
    && forall i :: 0 <= i < |c.sent| ==> c.sent[i] <= MESSAGE_SIZE
  }

  lemma DeliveredCounted(c: Channel, w: Wire)
    requires Counted(c)
    ensures Counted(Step(c, Delivered(w)))
  {
    assert (c.sent + [0])[..|c.sent|] == c.sent;
  }

  lemma StepCounted(c: Channel, e: Event)
    requires Counted(c) && Enabled(c, e)
    ensures Counted(Step(c, e))
  {
    match e
    case Delivered(w) => DeliveredCounted(c, w);
    case Sends(j, n) =>
      PushConserves(c.stream, c.frames[j][c.sent[j]..c.sent[j] + n]);
      SumOfUpdate(c.sent, j, c.sent[j] + n);
    case Receives(n) => TakeConserves(c.stream, n);
    case _ =>
  }

  /** When the client has been shown as many messages as there are frames, every frame is sent. */
  lemma ShownMeansSent(c: Channel)
    requires Counted(c) && |c.stream.dispatched| == |c.frames|
    ensures AllSentBefore(c, |c.sent|)
  {
    FlattenSize(c.stream.dispatched);
    SumIsFull(c.sent, MESSAGE_SIZE);
    assert |Flatten(c.stream.dispatched)| <= |c.stream.pushed|;
  }

  /** Every frame is delivered when the client has been shown all frames before it. */
  ghost predicate Answering(c: Channel, es: seq<Event>)
    requires Legal(c, es)
    decreases |es|
  {
    es != [] ==>
      && (es[0].Delivered? ==> |c.stream.dispatched| == |c.frames|)
      && Answering(Step(c, es[0]), es[1..])
  }

  lemma {:induction false} AnsweringIsOneAtATime(c: Channel, es: seq<Event>)
    requires Counted(c) && Legal(c, es) && Answering(c, es)
    ensures OneAtATime(c, es)
    decreases |es|
  {
    if es == [] {
    } else {
      StepCounted(c, es[0]);
      if es[0].Delivered? {
        ShownMeansSent(c);
      }
      AnsweringIsOneAtATime(Step(c, es[0]), es[1..]);
    }
  }

  /** If every frame waits until the client has been shown those before it, as in the handshake, the
      client sees the frames whole and in order. */
  lemma AnswersArriveWhole(es: seq<Event>)
    requires Legal(Open(), es) && Answering(Open(), es)
    ensures OneAtATime(Open(), es) && Tidy(Open(), es)
    ensures After(Open(), es).stream.dispatched <= After(Open(), es).frames
  {
    assert Flatten([]) + [] + [] == [];
    AnsweringIsOneAtATime(Open(), es);
    OneAtATimeIsTidy(Open(), es);
    TidyRefinesQueue(es);
  }

  // ----- writes in flight -----

  /** Every posted handler runs when the handlers of the writes before it have run. */
  ghost predicate RunsWhenIdle(c: Channel, es: seq<Event>)
    requires Legal(c, es)
    decreases |es|
  {
    es != [] ==> (es[0].PostedRuns? ==> c.writer.inFlight == []) && RunsWhenIdle(Step(c, es[0]), es[1..])
  }

  lemma WriterInOrder(c: Channel, e: Event)
    requires SW.InOrder(c.writer) && Enabled(c, e)
    ensures SW.InOrder(Step(c, e).writer)
  {
    match e
    case Delivered(_) => SW.DeliverInOrder(c.writer, |c.frames|);
    case PostedRuns => SW.RunPostedInOrder(c.writer);
    case _ =>
  }

  /** At most one write is in flight exactly in the runs in which the completion handler of each write
      has run before the posted handler of the next frame. */
  lemma {:induction false} SingleFlightIff(c: Channel, es: seq<Event>)
    requires SW.InOrder(c.writer) && |c.writer.inFlight| <= 1 && Legal(c, es)
    ensures NeverOverlaps(c, es) <==> RunsWhenIdle(c, es)
    decreases |es|
  {
    if es == [] {
    } else {
      WriterInOrder(c, es[0]);
      if |Step(c, es[0]).writer.inFlight| <= 1 {
        SingleFlightIff(Step(c, es[0]), es[1..]);
      }
    }
  }

  // ----- the same schedule with other frames -----

  ghost predicate SameEvent(e: Event, f: Event) {
    e == f || (e.Delivered? && f.Delivered?)
  }

  /** The same deliveries, sends and completions, of other frames. */
  ghost predicate SameSchedule(es: seq<Event>, fs: seq<Event>) {
    |es| == |fs| && forall i :: 0 <= i < |es| ==> SameEvent(es[i], fs[i])
  }

  ghost predicate Alike(c: Channel, d: Channel) {
    && c.writer == d.writer && c.sent == d.sent && c.broken == d.broken && |c.frames| == |d.frames|
    && |c.stream.pushed| == |d.stream.pushed| && |c.stream.transit| == |d.stream.transit|
    && |c.stream.partial| == |d.stream.partial| && |c.stream.dispatched| == |d.stream.dispatched|
  }

  lemma AlikeStep(c: Channel, d: Channel, e: Event, f: Event)
    requires Alike(c, d) && SameEvent(e, f) && Enabled(c, e)
    ensures Enabled(d, f) && Alike(Step(c, e), Step(d, f))
  {}

  lemma {:induction false} AlikeRun(c: Channel, d: Channel, es: seq<Event>, fs: seq<Event>)
    requires Alike(c, d) && SameSchedule(es, fs) && Legal(c, es)
    ensures Legal(d, fs) && Alike(After(c, es), After(d, fs))
    ensures Tidy(c, es) <==> Tidy(d, fs)
    decreases |es|
  {
    if es == [] {
    } else {
      assert SameEvent(es[0], fs[0]);
      AlikeStep(c, d, es[0], fs[0]);
      assert SameSchedule(es[1..], fs[1..]) by {
        assert forall i :: 0 <= i < |es[1..]| ==> es[1..][i] == es[i + 1] && fs[1..][i] == fs[i + 1];
      }
      AlikeRun(Step(c, es[0]), Step(d, fs[0]), es[1..], fs[1..]);
    }
  }

  // ----- an untidy schedule mixes some frames -----

  /** Byte o of frame `at` is not the byte sent in its place. */
  ghost predicate Mixed(c: Channel, at: nat, o: nat) {
    && at < |c.frames| && o < MESSAGE_SIZE && MESSAGE_SIZE * at + o < |c.stream.pushed|
    && c.stream.pushed[MESSAGE_SIZE * at + o] != c.frames[at][o]
  }

  lemma FlattenAt(ms: seq<Wire>, i: nat, o: nat)
    requires i < |ms| && o < MESSAGE_SIZE
    ensures MESSAGE_SIZE * i + o < |Flatten(ms)| && Flatten(ms)[MESSAGE_SIZE * i + o] == ms[i][o]
  {
    var a, b := ms[..i], ms[i + 1..];
    assert ms == a + ([ms[i]] + b);
    FlattenConcat(a, [ms[i]] + b);
    FlattenFirst(ms[i], b);
    FlattenSize(a);
  }

  lemma MixedIsNoPrefix(c: Channel, at: nat, o: nat)
    requires Mixed(c, at, o)
    ensures !(c.stream.pushed <= Flatten(c.frames))
  {
    FlattenAt(c.frames, at, o);
  }

  lemma {:induction false} StaysMixed(c: Channel, es: seq<Event>, at: nat, o: nat)
    requires Mixed(c, at, o) && Legal(c, es)
    ensures Mixed(After(c, es), at, o)
    decreases |es|
  {
    if es == [] {
    } else {
      assert Mixed(Step(c, es[0]), at, o);
      StaysMixed(Step(c, es[0]), es[1..], at, o);
    }
  }

  /** The frame whose bytes are the first to overtake an earlier frame. */
  ghost function Culprit(c: Channel, es: seq<Event>): nat
    requires Legal(c, es) && !Tidy(c, es)
    decreases |es|
  {
    if es[0].Sends? && !AllSentBefore(c, es[0].j) then es[0].j else Culprit(Step(c, es[0]), es[1..])
  }

  function Colour(k: nat, j: nat): (w: Wire) {
    Filled(if k == j then 1 else 0)
  }

  /** The schedule with frame j all ones and every other frame all zeros; k frames came before. */
  function Paint(es: seq<Event>, k: nat, j: nat): (fs: seq<Event>)
    ensures |fs| == |es|
  {
    if es == [] then []
    else if es[0].Delivered? then [Delivered(Colour(k, j))] + Paint(es[1..], k + 1, j)
    else [es[0]] + Paint(es[1..], k, j)
  }

  lemma {:induction false} PaintIsSameSchedule(es: seq<Event>, k: nat, j: nat)
    ensures SameSchedule(es, Paint(es, k, j))
    decreases |es|
  {
    if es == [] {
    } else {
      var k', rest := if es[0].Delivered? then k + 1 else k, es[1..];
      PaintIsSameSchedule(rest, k', j);
      forall i | 0 <= i < |es|
        ensures SameEvent(es[i], Paint(es, k, j)[i])
      {
        if i > 0 {
          assert SameEvent(rest[i - 1], Paint(rest, k', j)[i - 1]);
        }
      }
    }
  }

  ghost predicate Painted(d: Channel, j: nat) {
    forall k :: 0 <= k < |d.frames| ==> d.frames[k] == Colour(k, j)
  }

  lemma UntidySendMixes(d: Channel, j: nat, n: nat) returns (at: nat)
    requires InTurn(d) && Enabled(d, Sends(j, n)) && !AllSentBefore(d, j) && Painted(d, j)
    ensures at < |d.sent| && Mixed(Step(d, Sends(j, n)), at, d.sent[at])
  {
    at :| SentUpTo(d, at);
    assert at < j;
    FlattenSize(d.frames[..at]);
    var o, m := d.sent[at], d.sent[j];
    var d' := Step(d, Sends(j, n));
    assert |d.stream.pushed| == MESSAGE_SIZE * at + o;
    assert d'.stream.pushed[|d.stream.pushed|] == d.frames[j][m..m + n][0] == Colour(j, j)[m] == 1;
    assert d'.frames[at][o] == Colour(at, j)[o] == 0;
  }

  lemma PaintOfFirst(es: seq<Event>, k: nat, j: nat)
    requires es != []
    ensures var fs := Paint(es, k, j);
      && SameEvent(es[0], fs[0])
      && fs[0] == (if es[0].Delivered? then Delivered(Colour(k, j)) else es[0])
      && fs[1..] == Paint(es[1..], if es[0].Delivered? then k + 1 else k, j)
  {}

  lemma StaysPainted(d: Channel, f: Event, j: nat)
    requires Painted(d, j) && Enabled(d, f) && (f.Delivered? ==> f.w == Colour(|d.frames|, j))
    ensures Painted(Step(d, f), j)
    ensures |Step(d, f).frames| == if f.Delivered? then |d.frames| + 1 else |d.frames|
  {}

  lemma {:induction false} UntidyMixes(c: Channel, es: seq<Event>, d: Channel, fs: seq<Event>, j: nat)
    returns (at: nat, o: nat)
    requires Alike(c, d) && Legal(c, es) && !Tidy(c, es) && j == Culprit(c, es)
    requires fs == Paint(es, |d.frames|, j) && Legal(d, fs) && InTurn(d) && Painted(d, j)
    ensures Mixed(After(d, fs), at, o)
    decreases |es|
  {
    PaintOfFirst(es, |d.frames|, j);
    var d' := Step(d, fs[0]);
    if es[0].Sends? && !AllSentBefore(c, es[0].j) {
      at := UntidySendMixes(d, j, es[0].n);
      o := d.sent[at];
      StaysMixed(d', fs[1..], at, o);
    } else {
      AlikeStep(c, d, es[0], fs[0]);
      StepInTurn(d, fs[0]);
      StaysPainted(d, fs[0], j);
      at, o := UntidyMixes(Step(c, es[0]), es[1..], d', fs[1..], j);
    }
  }

  /** Whatever the frames are, the bytes sent are theirs, in order. */
  ghost predicate KeepsFramesApart(es: seq<Event>) {
    forall fs :: SameSchedule(es, fs) && Legal(Open(), fs) ==>
      After(Open(), fs).stream.pushed <= Flatten(After(Open(), fs).frames)
  }

  lemma OpenInTurn()
    ensures InTurn(Open()) && Counted(Open())
  {
    assert Flatten([]) + [] + [] == [];
    assert SentUpTo(Open(), 0);
  }

  lemma TidyKeepsFramesApart(es: seq<Event>)
    requires Legal(Open(), es) && Tidy(Open(), es)
    ensures KeepsFramesApart(es)
  {
    forall fs | SameSchedule(es, fs) && Legal(Open(), fs)
      ensures After(Open(), fs).stream.pushed <= Flatten(After(Open(), fs).frames)
    {
      AlikeRun(Open(), Open(), es, fs);
      OpenInTurn();
      TidyInTurn(Open(), fs);
      var at: nat :| SentUpTo(After(Open(), fs), at);
      SentIsPrefix(After(Open(), fs), at);
    }
  }

  /** A schedule keeps all frames apart if and only if it is tidy. */
  lemma TidyIff(es: seq<Event>)
    requires Legal(Open(), es)
    ensures Tidy(Open(), es) <==> KeepsFramesApart(es)
  {
    if Tidy(Open(), es) {
      TidyKeepsFramesApart(es);
    } else {
      OpenInTurn();
      var j := Culprit(Open(), es);
      var fs := Paint(es, 0, j);
      PaintIsSameSchedule(es, 0, j);
      AlikeRun(Open(), Open(), es, fs);
      var at, o := UntidyMixes(Open(), es, Open(), fs, j);
      MixedIsNoPrefix(After(Open(), fs), at, o);
    }
  }

  /** Whatever the frames are, the client is shown them, whole and in order. */
  ghost predicate ShowsFrames(es: seq<Event>) {
    forall fs :: SameSchedule(es, fs) && Legal(Open(), fs) ==>
      After(Open(), fs).stream.dispatched <= After(Open(), fs).frames
  }

  lemma {:induction false} RunConserves(c: Channel, es: seq<Event>)
    requires Counted(c) && Legal(c, es)
    ensures Counted(After(c, es))
    decreases |es|
  {
    if es == [] {
    } else {
      StepCounted(c, es[0]);
      RunConserves(Step(c, es[0]), es[1..]);
    }
  }

  lemma DrainedShows(fs: seq<Event>)
    requires Legal(Open(), fs)
    requires After(Open(), fs).stream.transit == [] && After(Open(), fs).stream.partial == []
    ensures var c := After(Open(), fs);
      c.stream.dispatched <= c.frames <==> c.stream.pushed <= Flatten(c.frames)
  {
    OpenInTurn();
    RunConserves(Open(), fs);
    var c := After(Open(), fs);
    assert c.stream.pushed == Flatten(c.stream.dispatched);
    PrefixIff(c.stream.dispatched, c.frames);
  }

  lemma PrefixIff(a: seq<Wire>, b: seq<Wire>)
    ensures a <= b <==> Flatten(a) <= Flatten(b)
  {
    if a <= b {
      assert b == a + b[|a|..];
      FlattenConcat(a, b[|a|..]);
    } else if Flatten(a) <= Flatten(b) {
      SameBytesSameMessages(a, b);
    }
  }

  /** When everything sent has arrived, the client has been shown the frames as they were delivered,
      whatever they are, if and only if the schedule was tidy. */
  lemma DrainedTidyIff(es: seq<Event>)
    requires Legal(Open(), es)
    requires After(Open(), es).stream.transit == [] && After(Open(), es).stream.partial == []
    ensures Tidy(Open(), es) <==> ShowsFrames(es)
  {
    forall fs | SameSchedule(es, fs) && Legal(Open(), fs)
      ensures var c := After(Open(), fs);
        c.stream.dispatched <= c.frames <==> c.stream.pushed <= Flatten(c.frames)
    {
      AlikeRun(Open(), Open(), es, fs);
      DrainedShows(fs);
    }
    TidyIff(es);
  }

  // ----- when deliver_byte may be called -----

  ghost predicate NoDelivery(es: seq<Event>) {
    forall e :: e in es ==> !e.Delivered?
  }

  /** Whatever the writes and the network do next, no frame is overtaken. */
  ghost predicate Safe(c: Channel) {
    forall es :: NoDelivery(es) && Legal(c, es) ==> Tidy(c, es)
  }

  lemma {:induction false} BrokenIsTidy(c: Channel, es: seq<Event>)
    requires c.broken && Legal(c, es)
    ensures Tidy(c, es)
    decreases |es|
  {
    if es == [] {
    } else {
      BrokenIsTidy(Step(c, es[0]), es[1..]);
    }
  }

  lemma {:induction false} QuietIsOneAtATime(c: Channel, es: seq<Event>)
    requires NoDelivery(es) && Legal(c, es)
    ensures OneAtATime(c, es)
    decreases |es|
  {
    if es == [] {
    } else {
      assert es[0] in es && forall e :: e in es[1..] ==> e in es;
      QuietIsOneAtATime(Step(c, es[0]), es[1..]);
    }
  }

  lemma {:induction false} TidySuffix(c: Channel, es: seq<Event>, fs: seq<Event>)
    requires Legal(c, es) && Legal(After(c, es), fs) && Legal(c, es + fs) && Tidy(c, es + fs)
    ensures Tidy(After(c, es), fs)
    decreases |es|
  {
    if es == [] {
      assert es + fs == fs;
    } else {
      assert (es + fs)[1..] == es[1..] + fs;
      TidySuffix(Step(c, es[0]), es[1..], fs);
    }
  }

  /** The posted handlers run, one after the other. */
  lemma {:induction false} AllStart(c: Channel) returns (es: seq<Event>)
    requires Numbered(c)
    ensures NoDelivery(es) && Legal(c, es)
    ensures var c' := After(c, es);
      && Numbered(c') && c'.writer.posted == []
      && c'.frames == c.frames && c'.sent == c.sent && c'.broken == c.broken && c'.stream == c.stream
    decreases |c.writer.posted|
  {
    if c.writer.posted == [] {
      es := [];
    } else {
      StepNumbered(c, PostedRuns);
      var rest := AllStart(Step(c, PostedRuns));
      es := [PostedRuns] + rest;
      assert es[1..] == rest;
    }
  }

  lemma {:induction false} RunNumbered(c: Channel, es: seq<Event>)
    requires Numbered(c) && Legal(c, es)
    ensures Numbered(After(c, es))
    decreases |es|
  {
    if es == [] {
    } else {
      StepNumbered(c, es[0]);
      RunNumbered(Step(c, es[0]), es[1..]);
    }
  }

  /** The last frame can overtake one that is not sent. */
  lemma CanOvertake(c: Channel) returns (es: seq<Event>)
    requires Numbered(c) && !c.broken && |c.sent| > 0 && c.sent[|c.sent| - 1] == 0
    requires !AllSentBefore(c, |c.sent| - 1)
    ensures NoDelivery(es) && Legal(c, es) && !Tidy(c, es)
  {
    var j := |c.sent| - 1;
    var starts := AllStart(c);
    var c' := After(c, starts);
    assert j in c'.writer.inFlight;
    var send := Sends(j, 1);
    var one: seq<Event> := [send];
    assert one[1..] == [] && Legal(Step(c', send), one[1..]) && !Tidy(c', one);
    RunsCompose(c, starts, one);
    es := starts + one;
    if Tidy(c, es) {
      TidySuffix(c, starts, one);
    }
  }

  /** After any run, calling deliver_byte is safe if and only if every frame delivered before has been
      sent whole, or the socket sends nothing more. */
  lemma DeliverSafelyIff(es: seq<Event>, w: Wire)
    requires Legal(Open(), es)
    ensures var c := After(Open(), es);
      Safe(Step(c, Delivered(w))) <==> c.broken || AllSentBefore(c, |c.sent|)
  {
    RunNumbered(Open(), es);
    var c := After(Open(), es);
    var c' := Step(c, Delivered(w));
    StepNumbered(c, Delivered(w));
    if c.broken || AllSentBefore(c, |c.sent|) {
      forall fs | NoDelivery(fs) && Legal(c', fs)
        ensures Tidy(c', fs)
      {
        if c.broken {
          BrokenIsTidy(c', fs);
        } else {
          QuietIsOneAtATime(c', fs);
          OneAtATimeIsTidy(c', fs);
        }
      }
    } else {
      var i: nat :| i < |c.sent| && c.sent[i] != MESSAGE_SIZE;
      assert c'.sent[i] == c.sent[i];
      var fs := CanOvertake(c');
      assert !Safe(c');
    }
  }

  // ----- the first bytes of a frame -----

  /** Whatever is delivered next, and whatever the writes and the network do, the first n bytes of
      frame j, when they are sent, are sent in their place. */
  ghost predicate StaysInPlace(c: Channel, j: nat, n: nat) {
    forall es, i: nat :: Legal(c, es) && i < n ==> !Mixed(After(c, es), j, i)
  }

  ghost predicate InPlace(c: Channel, j: nat, n: nat) {
    && j < |c.frames| && n <= MESSAGE_SIZE && MESSAGE_SIZE * j + n <= |c.stream.pushed|
    && forall i :: 0 <= i < n ==> c.stream.pushed[MESSAGE_SIZE * j + i] == c.frames[j][i]
  }

  lemma {:induction false} RunStaysInPlace(c: Channel, es: seq<Event>, j: nat, n: nat)
    requires InPlace(c, j, n) && Legal(c, es)
    ensures InPlace(After(c, es), j, n)
    decreases |es|
  {
    if es == [] {
    } else {
      assert InPlace(Step(c, es[0]), j, n);
      RunStaysInPlace(Step(c, es[0]), es[1..], j, n);
    }
  }

  lemma RunBegins(c: Channel, e: Event, es: seq<Event>)
    requires Enabled(c, e) && Legal(Step(c, e), es)
    ensures Legal(c, [e] + es) && After(c, [e] + es) == After(Step(c, e), es)
  {
    assert ([e] + es)[1..] == es;
  }

  lemma RunEnds(c: Channel, es: seq<Event>, e: Event)
    requires Legal(c, es) && Enabled(After(c, es), e)
    ensures Legal(c, es + [e]) && After(c, es + [e]) == Step(After(c, es), e)
  {
    var c' := Step(After(c, es), e);
    assert Legal(c', []) && After(c', []) == c';
    RunBegins(After(c, es), e, []);
    assert [e] + [] == [e];
    RunsCompose(c, es, [e]);
  }

  lemma {:induction false} BrokenSendsNothing(c: Channel, es: seq<Event>)
    requires c.broken && Legal(c, es)
    ensures After(c, es).stream.pushed == c.stream.pushed && c.frames <= After(c, es).frames
    decreases |es|
  {
    if es == [] {
    } else {
      BrokenSendsNothing(Step(c, es[0]), es[1..]);
    }
  }

  /** The last frame is on its way in its turn. */
  ghost predicate LastInTurn(c: Channel, j: nat) {
    InTurn(c) && Numbered(c) && |c.frames| == j + 1 && AllSentBefore(c, j) && c.sent[j] <= MESSAGE_SIZE
  }

  lemma SentInPlace(c: Channel, j: nat)
    requires LastInTurn(c, j)
    ensures InPlace(c, j, c.sent[j]) && |c.stream.pushed| == MESSAGE_SIZE * j + c.sent[j]
  {
    var at: nat :| SentUpTo(c, at);
    assert at == if c.sent[j] < MESSAGE_SIZE then j else j + 1;
    FlattenSize(c.frames[..at]);
    SentIsPrefix(c, at);
    forall i | 0 <= i < c.sent[j]
      ensures c.stream.pushed[MESSAGE_SIZE * j + i] == c.frames[j][i]
    {
      FlattenAt(c.frames, j, i);
    }
  }

  lemma SentStaysInPlace(c: Channel, j: nat, n: nat)
    requires LastInTurn(c, j) && n <= c.sent[j]
    ensures StaysInPlace(c, j, n)
  {
    SentInPlace(c, j);
    forall es, i: nat | Legal(c, es) && i < n
      ensures !Mixed(After(c, es), j, i)
    {
      RunStaysInPlace(c, es, j, n);
    }
  }

  lemma BrokenStaysInPlace(c: Channel, j: nat, n: nat)
    requires LastInTurn(c, j) && c.broken
    ensures StaysInPlace(c, j, n)
  {
    SentInPlace(c, j);
    forall es, i: nat | Legal(c, es) && i < n
      ensures !Mixed(After(c, es), j, i)
    {
      BrokenSendsNothing(c, es);
    }
  }

  /** A frame handed over behind one that is not sent that far can take the place of its next byte. */
  lemma NextByteCanBeTaken(c: Channel, j: nat, n: nat)
    requires LastInTurn(c, j) && !c.broken && c.sent[j] < n <= MESSAGE_SIZE
    ensures !StaysInPlace(c, j, n)
  {
    var o := c.sent[j];
    var w := Filled(if c.frames[j][o] == 0 then 1 else 0);
    var c' := Step(c, Delivered(w));
    SentInPlace(c, j);
    StepNumbered(c, Delivered(w));
    var starts := AllStart(c');
    var c'' := After(c', starts);
    assert j + 1 in c''.writer.inFlight;
    RunEnds(c', starts, Sends(j + 1, 1));
    RunBegins(c, Delivered(w), starts + [Sends(j + 1, 1)]);
    var end := Step(c'', Sends(j + 1, 1));
    assert w[0..1][0] == w[0] && end.stream.pushed[MESSAGE_SIZE * j + o] == w[0];
    assert Mixed(After(c, [Delivered(w)] + (starts + [Sends(j + 1, 1)])), j, o);
  }

  /** While frame j is on its way in its turn, its first n bytes are safe from all frames that may be
      delivered behind it if and only if they have been sent, or the socket sends nothing more. */
  lemma FirstBytesSafeIff(c: Channel, j: nat, n: nat)
    requires LastInTurn(c, j) && n <= MESSAGE_SIZE
    ensures StaysInPlace(c, j, n) <==> c.broken || c.sent[j] >= n
  {
    if c.broken {
      BrokenStaysInPlace(c, j, n);
    } else if c.sent[j] >= n {
      SentStaysInPlace(c, j, n);
    } else {
      NextByteCanBeTaken(c, j, n);
    }
  }
}
