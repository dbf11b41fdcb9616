/** The loops of src/pipeline.cpp around the queue and the engine, without clocks and thread affinity. */
module MatchingLoops {
  import opened Types
  import opened Book
  import opened MatchSpec
  import opened SpscQueues
  import opened OrderBooks
  import opened Matchers

  /** kBoundedSpinAttempts, src/pipeline.cpp:22. */
  const SPIN_ATTEMPTS := 1000

  /** What the engine reports for each event of a stream. */
  function Reports(b: Book, events: seq<Event>): (reports: seq<(seq<FillEvent>, MatchStats)>)
    ensures |reports| == |events|
  {
    if events == [] then []
    else
      var front, last := events[..|events| - 1], events[|events| - 1];
      var outcome := MatchSpec.Dispatch(last.mode, Run(b, front), last.order);
      Reports(b, front) + [(outcome.fills, outcome.stats)]
  }

  lemma RunSnoc(b: Book, events: seq<Event>, e: Event)
    ensures Run(b, events + [e]) == MatchSpec.Dispatch(e.mode, Run(b, events), e.order).book
    ensures var outcome := MatchSpec.Dispatch(e.mode, Run(b, events), e.order);
            Reports(b, events + [e]) == Reports(b, events) + [(outcome.fills, outcome.stats)]
  {
    var all := events + [e];
    assert all[..|all| - 1] == events;
  }

  lemma RunsNothing(b: Book)
    ensures Run(b, []) == b && Reports(b, []) == []
  {
  }

  /** The part of matching_thread_fn that acts on a popped order. */
  method Dispatch(matcher: Matcher, o: Order) returns (fills: seq<FillEvent>, stats: MatchStats)
    requires matcher.book.Valid()
    modifies matcher.book.Memory
    ensures matcher.book.Valid()
    ensures MatchOutcome(matcher.book.Contents(), fills, stats) ==
            MatchSpec.Dispatch(matcher.mode, old(matcher.book.Contents()), o)
  {
    hide MatchSpec.Match, MatchSpec.Replace, Cancel;
    if o.eventTag.NEW_OR_CANCEL? && o.qty == 0 {
      var cancelled := matcher.book.CancelOrder(o.orderId);
      return [], NO_STATS;
    }
    if o.eventTag.REPLACE? {
      fills, stats := matcher.Replace(o.orderId, o.price, o.qty);
    } else {
      fills, stats := matcher.Match(o);
    }
  }

  /** A stream of events, the mode being set before each. */
  method Replay(matcher: Matcher, events: seq<Event>) returns (reports: seq<(seq<FillEvent>, MatchStats)>)
    requires matcher.book.Valid()
    modifies matcher`mode, matcher.book.Memory
    ensures matcher.book.Valid()
    ensures matcher.book.Contents() == Run(old(matcher.book.Contents()), events)
    ensures reports == Reports(old(matcher.book.Contents()), events)
  {
    hide MatchSpec.Dispatch, Run, Reports, OrderBook.Valid, OrderBook.Contents;
    RunsNothing(matcher.book.Contents());
    ghost var b := matcher.book.Contents();
    reports := [];
    var i := 0;
    while i < |events|
      invariant i <= |events| && matcher.book.Valid()
      invariant matcher.book.Contents() == Run(b, events[..i]) && reports == Reports(b, events[..i])
    {
      matcher.SetMode(events[i].mode);
      var fills, stats := Dispatch(matcher, events[i].order);
      RunSnoc(b, events[..i], events[i]);
      assert events[..i + 1] == events[..i] + [events[i]];
      reports := reports + [(fills, stats)];
      i := i + 1;
    }
    assert events[..i] == events;
  }

  /** One benchmark trial: reset book and pools, then replay. Whatever the book and the pools held before, and wherever
      the free lists start, the trial sees what a new book sees. */
  method Trial(matcher: Matcher, events: seq<Event>) returns (reports: seq<(seq<FillEvent>, MatchStats)>)
    requires matcher.book.orderPool.slab.Length == ORDER_POOL_SIZE && matcher.book.levelPool.slab.Length == LEVEL_POOL_SIZE
    requires matcher.book.orderPool as object != matcher.book.levelPool as object
    requires matcher.book.orderPool.slab as object != matcher.book.levelPool.slab as object
    modifies matcher`mode, matcher.book.Memory
    ensures matcher.book.Valid()
    ensures matcher.book.Contents() == Run(EMPTY_BOOK, events) && reports == Reports(EMPTY_BOOK, events)
  {
    ResetTrial(matcher.book);
    reports := Replay(matcher, events);
  }

  /** How many elements the consumer asks for before the first k attempts. */
  function Asked(takes: seq<nat>, k: nat): nat
    requires k <= |takes|
  {
    if k == 0 then 0 else Asked(takes, k - 1) + takes[k - 1]
  }

  /** Attempt a is made, no stop having been requested, and by then the consumer, who can get at the first `visible` of
      the `waiting` elements, has left room. */
  ghost predicate RoomFound(takes: seq<nat>, stops: seq<bool>, waiting: nat, visible: nat, capacity: nat, a: nat)
    requires |takes| == |stops|
  {
    && a < |stops|
    && (forall b :: 0 <= b <= a ==> !stops[b])
    && waiting - Min(visible, Asked(takes, a + 1)) < capacity
  }

  ghost predicate SomeRoom(takes: seq<nat>, stops: seq<bool>, waiting: nat, visible: nat, capacity: nat)
    requires |takes| == |stops|
  {
    exists a :: 0 <= a < |stops| && RoomFound(takes, stops, waiting, visible, capacity, a)
  }

  lemma OneTaken<T>(s: seq<T>, reach: nat, i: nat)
    requires reach <= |s|
    ensures var left := s[Min(i, reach)..];
            s[Min(i + 1, reach)..] == (if i < reach then left[1..] else left) && (i < reach ==> left != [])
  {
  }

  lemma VisibleFits(queue: SpscQueue<Order>)
    requires queue.Valid()
    ensures |queue.Visible()| == if |queue.pushed| < U64_LIMIT then |queue.Contents()| else 0
  {
  }

  /** What is left of s when k of its first `reach` elements were asked for. */
  function Left<T>(s: seq<T>, reach: nat, k: nat): seq<T>
    requires reach <= |s|
  {
    s[Min(k, reach)..]
  }

  /** The consumer's pops between two attempts of the producer. */
  method ConsumerTakes(queue: SpscQueue<Order>, k: nat)
    requires queue.Valid()
    modifies queue`head
    ensures queue.Valid() && |old(queue.Visible())| <= |old(queue.Contents())|
    ensures queue.Contents() == old(queue.Contents())[Min(k, |old(queue.Visible())|)..]
    ensures queue.Visible() == old(queue.Visible())[Min(k, |old(queue.Visible())|)..]
  {
    VisibleFits(queue);
    hide SpscQueue.Valid, SpscQueue.Visible, SpscQueue.Contents;
    ghost var waiting, visible := queue.Contents(), queue.Visible();
    var i := 0;
    while i < k
      invariant 0 <= i <= k && queue.Valid()
      invariant queue.Contents() == waiting[Min(i, |visible|)..] && queue.Visible() == visible[Min(i, |visible|)..]
    {
      OneTaken(waiting, |visible|, i);
      OneTaken(visible, |visible|, i);
      var out := queue.Pop();
      i := i + 1;
    }
  }

  /** The push loop of rx_thread_fn, while the consumer takes takes[i] elements before attempt i and a stop is requested
      where stops[i] says so: the order is accepted exactly when some attempt finds room before a stop, and otherwise
      dropped with the queue as the consumer left it. */
  method Offer(queue: SpscQueue<Order>, o: Order, takes: seq<nat>, stops: seq<bool>)
    returns (accepted: bool, attempts: nat)
    requires queue.Valid() && |takes| == |stops| == SPIN_ATTEMPTS
    modifies queue, queue.buffer
    ensures queue.Valid() && attempts <= SPIN_ATTEMPTS
    ensures var waiting, visible := |old(queue.Contents())|, |old(queue.Visible())|;
            accepted <==> SomeRoom(takes, stops, waiting, visible, queue.buffer.Length)
    ensures var waiting, visible := old(queue.Contents()), |old(queue.Visible())|;
            && visible <= |waiting|
            && queue.Contents() == Left(waiting, visible, Asked(takes, attempts)) + if accepted then [o] else []
  {
    VisibleFits(queue);
    hide SpscQueue.Valid, SpscQueue.Contents, SpscQueue.Visible, Offered, SomeRoom, Asked, Left, Min;
    ghost var waiting, visible, capacity := queue.Contents(), queue.Visible(), queue.buffer.Length;
    accepted, attempts := OfferAll(queue, o, takes, stops);
    OfferEnds(takes, stops, waiting, visible, capacity, o, attempts, accepted, queue.Contents(), queue.Visible());
  }

  /** The loop itself. */
  method OfferAll(queue: SpscQueue<Order>, o: Order, takes: seq<nat>, stops: seq<bool>)
    returns (accepted: bool, attempts: nat)
    requires queue.Valid() && |takes| == |stops| == SPIN_ATTEMPTS
    requires |queue.Visible()| <= |queue.Contents()|
    modifies queue, queue.buffer
    ensures queue.Valid() && attempts <= SPIN_ATTEMPTS
    ensures accepted || attempts == SPIN_ATTEMPTS || stops[attempts]
    ensures Offered(takes, stops, old(queue.Contents()), old(queue.Visible()), queue.buffer.Length, o,
                    attempts, accepted, queue.Contents(), queue.Visible())
  {
    hide SpscQueue.Valid, SpscQueue.Contents, SpscQueue.Visible, Offered;
    ghost var waiting, visible := queue.Contents(), queue.Visible();
    attempts, accepted := 0, false;
    OfferStarts(takes, stops, waiting, visible, queue.buffer.Length, o);
    while attempts < SPIN_ATTEMPTS && !stops[attempts] && !accepted
      invariant 0 <= attempts <= SPIN_ATTEMPTS && queue.Valid()
      invariant Offered(takes, stops, waiting, visible, queue.buffer.Length, o,
                        attempts, accepted, queue.Contents(), queue.Visible())
    {
      accepted := OfferOnce(queue, o, takes, stops, attempts, waiting, visible);
      attempts := attempts + 1;
    }
  }

  /** No stop yet, and no room at the first k attempts. */
  ghost predicate NoRoomYet(takes: seq<nat>, stops: seq<bool>, waiting: nat, visible: nat, capacity: nat, k: nat)
    requires |takes| == |stops|
  {
    && k <= |stops|
    && (forall b :: 0 <= b < k ==> !stops[b])
    && forall a :: 0 <= a < k ==> !RoomFound(takes, stops, waiting, visible, capacity, a)
  }

  /** After k attempts at a queue that held `waiting`: it now holds `contents`, of which pop() can find `seen`. */
  ghost predicate Offered(takes: seq<nat>, stops: seq<bool>, waiting: seq<Order>, visible: seq<Order>, capacity: nat,
                          o: Order, k: nat, accepted: bool, contents: seq<Order>, seen: seq<Order>)
    requires |takes| == |stops|
  {
    && |visible| <= |waiting| && k <= |takes|
    && var left := Left(waiting, |visible|, Asked(takes, k));
    && (if accepted
        then contents == left + [o] && k > 0 && RoomFound(takes, stops, |waiting|, |visible|, capacity, k - 1)
        else && contents == left && seen == Left(visible, |visible|, Asked(takes, k))
             && NoRoomYet(takes, stops, |waiting|, |visible|, capacity, k))
  }

  lemma OfferStarts(takes: seq<nat>, stops: seq<bool>, waiting: seq<Order>, visible: seq<Order>, capacity: nat, o: Order)
    requires |takes| == |stops| && |visible| <= |waiting|
    ensures Offered(takes, stops, waiting, visible, capacity, o, 0, false, waiting, visible)
  {
  }

  lemma OfferEnds(takes: seq<nat>, stops: seq<bool>, waiting: seq<Order>, visible: seq<Order>, capacity: nat,
                  o: Order, k: nat, accepted: bool, contents: seq<Order>, seen: seq<Order>)
    requires |takes| == |stops| && Offered(takes, stops, waiting, visible, capacity, o, k, accepted, contents, seen)
    requires accepted || k == |stops| || stops[k]
    ensures |visible| <= |waiting| && k <= |takes|
    ensures contents == Left(waiting, |visible|, Asked(takes, k)) + if accepted then [o] else []
    ensures accepted <==> SomeRoom(takes, stops, |waiting|, |visible|, capacity)
  {
    hide Asked;
    if !accepted {
      NoMoreRoom(takes, stops, |waiting|, |visible|, capacity, k);
    }
  }

  /** One attempt, with what the consumer takes before it. */
  method OfferOnce(queue: SpscQueue<Order>, o: Order, takes: seq<nat>, stops: seq<bool>, k: nat,
                   ghost waiting: seq<Order>, ghost visible: seq<Order>)
    returns (accepted: bool)
    requires queue.Valid() && k < |takes| == |stops| && !stops[k]
    requires Offered(takes, stops, waiting, visible, queue.buffer.Length, o, k, false, queue.Contents(), queue.Visible())
    modifies queue, queue.buffer
    ensures queue.Valid()
    ensures Offered(takes, stops, waiting, visible, queue.buffer.Length, o, k + 1, accepted,
                    queue.Contents(), queue.Visible())
  {
    hide SpscQueue.Valid, SpscQueue.Contents, SpscQueue.Visible, Offered, Min;
    ghost var contents, seen := queue.Contents(), queue.Visible();
    ConsumerTakes(queue, takes[k]);
    ghost var left := queue.Contents();
    accepted := queue.Push(o);
    OfferedStep(takes, stops, waiting, visible, queue.buffer.Length, o, k, contents, seen, left, queue.Visible());
  }

  lemma OfferedStep(takes: seq<nat>, stops: seq<bool>, waiting: seq<Order>, visible: seq<Order>, capacity: nat,
                    o: Order, k: nat, contents: seq<Order>, seen: seq<Order>, left: seq<Order>, seen2: seq<Order>)
    requires k < |takes| == |stops| && !stops[k]
    requires Offered(takes, stops, waiting, visible, capacity, o, k, false, contents, seen)
    requires |seen| <= |contents| && left == contents[Min(takes[k], |seen|)..]
    requires |left| < capacity || seen2 == seen[Min(takes[k], |seen|)..]
    ensures if |left| < capacity
            then Offered(takes, stops, waiting, visible, capacity, o, k + 1, true, left + [o], seen2)
            else Offered(takes, stops, waiting, visible, capacity, o, k + 1, false, left, seen2)
  {
    hide NoRoomYet, RoomFound, Asked, Left, Min;
    LeftTwice(waiting, |visible|, Asked(takes, k), takes[k]);
    LeftTwice(visible, |visible|, Asked(takes, k), takes[k]);
    RoomNow(takes, stops, |waiting|, |visible|, capacity, k);
  }

  lemma RoomNow(takes: seq<nat>, stops: seq<bool>, waiting: nat, visible: nat, capacity: nat, a: nat)
    requires a < |takes| == |stops| && !stops[a] && NoRoomYet(takes, stops, waiting, visible, capacity, a)
    ensures Asked(takes, a + 1) == Asked(takes, a) + takes[a]
    ensures var left := waiting - Min(visible, Asked(takes, a) + takes[a]);
            if left < capacity then RoomFound(takes, stops, waiting, visible, capacity, a)
            else NoRoomYet(takes, stops, waiting, visible, capacity, a + 1)
  {
  }

  lemma NoMoreRoom(takes: seq<nat>, stops: seq<bool>, waiting: nat, visible: nat, capacity: nat, end: nat)
    requires |takes| == |stops| && NoRoomYet(takes, stops, waiting, visible, capacity, end)
    requires end < |stops| ==> stops[end]
    ensures forall a :: 0 <= a < |stops| ==> !RoomFound(takes, stops, waiting, visible, capacity, a)
  {
  }

  lemma LeftTwice<T>(s: seq<T>, reach: nat, i: nat, j: nat)
    requires reach <= |s|
    ensures |Left(s, reach, i)| == |s| - Min(i, reach)
    ensures Left(s, reach, i)[Min(j, reach - Min(i, reach))..] == Left(s, reach, i + j)
    ensures |Left(s, reach, i + j)| == |s| - Min(reach, i + j)
  {
  }

  function InMode(mode: MatchingMode, orders: seq<Order>): (events: seq<Event>)
    ensures |events| == |orders|
    ensures forall i :: 0 <= i < |orders| ==> events[i] == Event(mode, orders[i])
  {
    seq(|orders|, i requires 0 <= i < |orders| => Event(mode, orders[i]))
  }

  lemma RunNothing(b: Book, mode: MatchingMode)
    ensures Run(b, InMode(mode, [])) == b
  {
  }

  lemma RunOneMore(b: Book, mode: MatchingMode, done: seq<Order>, o: Order)
    ensures Run(b, InMode(mode, done + [o])) == MatchSpec.Dispatch(mode, Run(b, InMode(mode, done)), o).book
  {
    hide MatchSpec.Dispatch;
    assert InMode(mode, done + [o]) == InMode(mode, done) + [Event(mode, o)];
    RunSnoc(b, InMode(mode, done), Event(mode, o));
  }

  /** The orders seen so far, the one in hand, and those still queued are everything that was waiting. */
  ghost predicate InHand(waiting: seq<Order>, done: seq<Order>, next: Option<Order>, rest: seq<Order>) {
    && waiting == done + (if next.Some? then [next.value] else []) + rest
    && (next.None? ==> rest == [])
  }

  lemma NextInHand(waiting: seq<Order>, done: seq<Order>, o: Order, rest: seq<Order>)
    requires waiting == done + [o] + rest
    ensures InHand(waiting, done + [o], if rest == [] then None else Some(rest[0]), if rest == [] then rest else rest[1..])
  {
  }

  lemma FirstInHand(waiting: seq<Order>, next: Option<Order>, rest: seq<Order>)
    requires next == if waiting == [] then None else Some(waiting[0])
    requires rest == if waiting == [] then waiting else waiting[1..]
    ensures InHand(waiting, [], next, rest)
  {
  }

  lemma HeldInHand(waiting: seq<Order>, done: seq<Order>, o: Order, rest: seq<Order>)
    requires InHand(waiting, done, Some(o), rest)
    ensures waiting == done + [o] + rest && |done| < |waiting|
  {
  }

  lemma LastInHand(waiting: seq<Order>, done: seq<Order>, rest: seq<Order>)
    requires InHand(waiting, done, None, rest)
    ensures waiting == done && rest == []
  {
  }

  /** One turn of matching_thread_fn: act on the order popped last, then pop again. */
  method Turn(queue: SpscQueue<Order>, matcher: Matcher, o: Order) returns (next: Option<Order>)
    requires queue.Valid() && matcher.book.Valid() && {queue, queue.buffer} !! matcher.book.Memory
    modifies queue`head, matcher.book.Memory
    ensures queue.Valid() && matcher.book.Valid()
    ensures matcher.book.Contents() == MatchSpec.Dispatch(matcher.mode, old(matcher.book.Contents()), o).book
    ensures next == if old(queue.Visible()) == [] then None else Some(old(queue.Visible())[0])
    ensures queue.Visible() == if next.Some? then old(queue.Visible())[1..] else old(queue.Visible())
  {
    hide MatchSpec.Dispatch, OrderBook.Valid, OrderBook.Contents;
    var fills, stats := Dispatch(matcher, o);
    next := queue.Pop();
  }

  /** matching_thread_fn until the queue looks empty: the book becomes the fold of the dispatch over what was waiting. */
  method DrainQueue(queue: SpscQueue<Order>, matcher: Matcher)
    requires queue.Valid() && matcher.book.Valid() && {queue, queue.buffer} !! matcher.book.Memory
    modifies queue`head, matcher.book.Memory
    ensures queue.Valid() && matcher.book.Valid()
    ensures queue.Visible() == [] && (|queue.pushed| < U64_LIMIT ==> queue.Contents() == [])
    ensures matcher.book.Contents() == Run(old(matcher.book.Contents()), InMode(matcher.mode, old(queue.Visible())))
  {
    hide MatchSpec.Dispatch, Run, InMode, InHand, OrderBook.Valid, OrderBook.Contents;
    hide SpscQueue.Valid, SpscQueue.Contents, SpscQueue.Visible;
    ghost var b, waiting, done := matcher.book.Contents(), queue.Visible(), [];
    RunNothing(b, matcher.mode);
    var next := queue.Pop();
    FirstInHand(waiting, next, queue.Visible());
    while next.Some?
      invariant queue.Valid() && matcher.book.Valid()
      invariant InHand(waiting, done, next, queue.Visible())
      invariant matcher.book.Contents() == Run(b, InMode(matcher.mode, done))
      decreases |waiting| - |done|
    {
      var o := next.value;
      HeldInHand(waiting, done, o, queue.Visible());
      RunOneMore(b, matcher.mode, done, o);
      NextInHand(waiting, done, o, queue.Visible());
      next := Turn(queue, matcher, o);
      done := done + [o];
    }
    LastInHand(waiting, done, queue.Visible());
    VisibleFits(queue);
  }
}
