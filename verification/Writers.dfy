/** The write queue of nr_session, which takes a buffer off its queue before writing it. */
module SessionWriters {
  import opened OrderedSet

  /** `delivered` and `started` are history: the buffers given to deliver_byte and those whose
      write has begun. `inFlight` holds the writes that have begun and not completed. */
  datatype Writer<T> = Writer(
    posted: seq<T>, deque: seq<T>, inFlight: seq<T>, delivered: seq<T>, started: seq<T>)

  datatype Event<T> = Delivered(x: T) | PostedRuns | Completes(i: nat, ok: bool)

  function Idle<T>(): Writer<T> {
    Writer([], [], [], [], [])
  }

  /** do_write_byte: front, pop_front, async_write. */
  function StartFront<T>(w: Writer<T>): Writer<T>
    requires w.deque != []
  {
    w.(deque := w.deque[1..], inFlight := w.inFlight + [w.deque[0]], started := w.started + [w.deque[0]])
  }

  function Deliver<T>(w: Writer<T>, x: T): Writer<T> {
    w.(posted := w.posted + [x], delivered := w.delivered + [x])
  }

  /** The handler deliver_byte posts. */
  function RunPosted<T>(w: Writer<T>): Writer<T>
    requires w.posted != []
  {
    var pushed := w.(posted := w.posted[1..], deque := w.deque + [w.posted[0]]);
    if w.deque == [] then StartFront(pushed) else pushed
  }

  /** The completion handler of a write; on an error it starts nothing. */
  function Complete<T>(w: Writer<T>, i: nat, ok: bool): Writer<T>
    requires i < |w.inFlight|
  {
    var done := w.(inFlight := RemoveAt(w.inFlight, i));
    if ok && done.deque != [] then StartFront(done) else done
  }

  predicate Enabled<T>(w: Writer<T>, e: Event<T>) {
    match e
    case Delivered(_) => true
    case PostedRuns => w.posted != []
    case Completes(i, _) => i < |w.inFlight|
  }

  function Step<T>(w: Writer<T>, e: Event<T>): Writer<T>
    requires Enabled(w, e)
  {
    match e
    case Delivered(x) => Deliver(w, x)
    case PostedRuns => RunPosted(w)
    case Completes(i, ok) => Complete(w, i, ok)
  }

  ghost predicate Legal<T>(w: Writer<T>, es: seq<Event<T>>)
    decreases |es|
  {
    es == [] || (Enabled(w, es[0]) && Legal(Step(w, es[0]), es[1..]))
  }

  ghost function After<T>(w: Writer<T>, es: seq<Event<T>>): Writer<T>
    requires Legal(w, es)
    decreases |es|
  {
    if es == [] then w else After(Step(w, es[0]), es[1..])
  }

  /** Between handlers nothing waits in the queue, and what has been started is what was
      delivered, in order, up to the handlers that have not run. */
  ghost predicate InOrder<T>(w: Writer<T>) {
    w.deque == [] && w.delivered == w.started + w.posted && |w.inFlight| <= |w.started|
  }

  lemma DeliverInOrder<T>(w: Writer<T>, x: T)
    ensures InOrder(w) ==> InOrder(Deliver(w, x))
  {
    assert w.started + w.posted + [x] == w.started + (w.posted + [x]);
  }

  lemma RunPostedInOrder<T>(w: Writer<T>)
    requires w.posted != []
    ensures InOrder(w) ==> InOrder(RunPosted(w))
  {
    assert w.started + w.posted == (w.started + [w.posted[0]]) + w.posted[1..];
  }

  lemma StepInOrder<T>(w: Writer<T>, e: Event<T>)
    requires InOrder(w) && Enabled(w, e)
    ensures InOrder(Step(w, e))
  {
    match e
    case Delivered(x) => DeliverInOrder(w, x);
    case PostedRuns => RunPostedInOrder(w);
    case Completes(_, _) =>
  }

  /** In every run, at every handler boundary, the queue is empty and every delivered buffer has
      been started exactly once, in delivery order, or still waits for its posted handler. */
  lemma {:induction false} StartedInDeliveryOrder<T>(w: Writer<T>, es: seq<Event<T>>)
    requires InOrder(w) && Legal(w, es)
    ensures InOrder(After(w, es))
    decreases |es|
  {
    if es == [] {
    } else {
      StepInOrder(w, es[0]);
      StartedInDeliveryOrder(Step(w, es[0]), es[1..]);
    }
  }

  /** No state of the run has two writes in flight. */
  ghost predicate NeverOverlaps<T>(w: Writer<T>, es: seq<Event<T>>)
    requires Legal(w, es)
    decreases |es|
  {
    |w.inFlight| <= 1 && (es != [] ==> NeverOverlaps(Step(w, es[0]), es[1..]))
  }

  /** Every posted handler runs when the writes before it have completed. */
  ghost predicate RunsWhenIdle<T>(w: Writer<T>, es: seq<Event<T>>)
    requires Legal(w, es)
    decreases |es|
  {
    es != [] ==> (es[0].PostedRuns? ==> w.inFlight == []) && RunsWhenIdle(Step(w, es[0]), es[1..])
  }

  /** At most one write is outstanding exactly in the runs whose posted handlers all find the
      socket idle. */
  lemma {:induction false} SingleWriteIff<T>(w: Writer<T>, es: seq<Event<T>>)
    requires InOrder(w) && |w.inFlight| <= 1 && Legal(w, es)
    ensures NeverOverlaps(w, es) <==> RunsWhenIdle(w, es)
    decreases |es|
  {
    if es == [] {
    } else {
      var w' := Step(w, es[0]);
      StepInOrder(w, es[0]);
      if |w'.inFlight| <= 1 {
        SingleWriteIff(w', es[1..]);
      }
    }
  }

  /** Two deliveries in one handler put two writes in flight at once. */
  lemma OverlapIsReachable<T>(a: T, b: T)
    ensures var es := [Delivered(a), Delivered(b), PostedRuns, PostedRuns];
      Legal(Idle(), es) && After(Idle(), es).inFlight == [a, b]
  {
    var es := [Delivered(a), Delivered(b), PostedRuns, PostedRuns];
    var w1 := Deliver(Idle(), a);
    var w2 := Deliver(w1, b);
    var w3 := RunPosted(w2);
    var w4 := RunPosted(w3);
    var last: seq<Event<T>> := [PostedRuns];
    var both: seq<Event<T>> := [PostedRuns, PostedRuns];
    assert both[1..] == last && last[1..] == [] && es[1..][1..] == both;
    assert Legal(w3, last) && After(w3, last) == After(w4, []) == w4;
    assert Legal(w2, both) && After(w2, both) == w4;
    assert Legal(w1, es[1..]) && After(w1, es[1..]) == w4;
  }
}
