/** The two threads of src/pipeline.cpp over the ring, interleaved step by step: the receiving thread offers orders and
    may give up on one, the matching thread pops and dispatches. */
module Pipeline {
  import opened Types
  import opened Book
  import opened MatchSpec
  import opened Masks
  import opened SpscRing
  import opened SpscRuns
  import opened Runs
  import opened MatchingLoops

  /** What became of one order that the receiving thread generated. */
  datatype Offer = Offer(order: Order, accepted: bool)

  /** The receiving thread between orders, or busy with one. */
  datatype Receiver = Generating | Offering(order: Order, failures: nat)

  datatype System = System(
    ring: Ring<Order>,
    receiver: Receiver,
    offers: seq<Offer>,
    inHand: Option<Order>,
    book: Book,
    log: seq<Event>)

  datatype Move =
    | Generate(order: Order)
    | ReceiverStep(action: Action<Order>)
    | GiveUp(stopRequested: bool)
    | MatcherStep(action: Action<Order>)
    | DispatchInHand(mode: MatchingMode)

  predicate ReceiverMay(s: System, a: Action<Order>) {
    && s.receiver.Offering?
    && match a
       case LoadTail(item) => item == s.receiver.order && s.receiver.failures < SPIN_ATTEMPTS
       case LoadHeadAcquire(_) => true
       case WriteSlot => true
       case PublishTail => true
       case LoadHead => false
       case LoadTailAcquire(_) => false
       case ReadSlot => false
       case PublishHead => false
  }

  predicate MatcherMay(s: System, a: Action<Order>) {
    && s.inHand.None?
    && (a.LoadHead? || a.LoadTailAcquire? || a.ReadSlot? || a.PublishHead?)
  }

  predicate CanMove(n: nat, s: System, m: Move) {
    match m
    case Generate(_) => s.receiver.Generating?
    case ReceiverStep(a) => n > 0 && |s.ring.buffer| == n && ReceiverMay(s, a) && Enabled(n, s.ring, a)
    case GiveUp(stop) => s.receiver.Offering? && s.ring.producer.Ready? && (stop || s.receiver.failures == SPIN_ATTEMPTS)
    case MatcherStep(a) => n > 0 && |s.ring.buffer| == n && MatcherMay(s, a) && Enabled(n, s.ring, a)
    case DispatchInHand(_) => s.inHand.Some?
  }

  function Moved(n: nat, s: System, m: Move): System
    requires CanMove(n, s, m)
  {
    match m
    case Generate(order) => s.(receiver := Offering(order, 0))
    case ReceiverStep(a) =>
      var ring := Next(n, s.ring, a);
      if a.PublishTail? then
        s.(ring := ring, receiver := Generating, offers := s.offers + [Offer(s.receiver.order, true)])
      else if a.WriteSlot? && ring.producer.Ready? then
        s.(ring := ring, receiver := Offering(s.receiver.order, s.receiver.failures + 1))
      else s.(ring := ring)
    case GiveUp(_) => s.(receiver := Generating, offers := s.offers + [Offer(s.receiver.order, false)])
    case MatcherStep(a) =>
      var ring := Next(n, s.ring, a);
      if a.PublishHead? then s.(ring := ring, inHand := Some(s.ring.consumer.value)) else s.(ring := ring)
    case DispatchInHand(mode) =>
      s.(inHand := None,
         book := MatchSpec.Dispatch(mode, s.book, s.inHand.value).book,
         log := s.log + [Event(mode, s.inHand.value)])
  }

  function Play(n: nat, s: System, moves: seq<Move>): Option<System> {
    if moves == [] then Some(s)
    else
      var before, last := Play(n, s, moves[..|moves| - 1]), moves[|moves| - 1];
      if before.Some? && CanMove(n, before.value, last) then Some(Moved(n, before.value, last)) else None
  }

  ghost predicate IsStart(n: nat, s: System) {
    IsNew(n, s.ring) && s.receiver == Generating && s.offers == [] && s.inHand == None && s.book == EMPTY_BOOK && s.log == []
  }

  function Accepted(offers: seq<Offer>): seq<Order> {
    if offers == [] then []
    else
      var front, last := offers[..|offers| - 1], offers[|offers| - 1];
      Accepted(front) + if last.accepted then [last.order] else []
  }

  function Dispatched(log: seq<Event>): (orders: seq<Order>)
    ensures |orders| == |log|
    ensures forall i :: 0 <= i < |log| ==> orders[i] == log[i].order
  {
    seq(|log|, i requires 0 <= i < |log| => log[i].order)
  }

  // ---------- The invariant ----------

  ghost predicate ReceiverOk(s: System) {
    && Accepted(s.offers) == s.ring.pushed
    && (s.receiver.Offering? ==> s.receiver.failures <= SPIN_ATTEMPTS)
    && match s.ring.producer
       case Ready => true
       case OwnTail(item, _) => s.receiver.Offering? && item == s.receiver.order && s.receiver.failures < SPIN_ATTEMPTS
       case BothLoaded(item, _, _) => s.receiver.Offering? && item == s.receiver.order && s.receiver.failures < SPIN_ATTEMPTS
       case Written(item, _) => s.receiver.Offering? && item == s.receiver.order
  }

  ghost predicate MatcherOk(s: System) {
    && s.book == Run(EMPTY_BOOK, s.log)
    && s.ring.popped == Dispatched(s.log) + (if s.inHand.Some? then [s.inHand.value] else [])
    && (s.inHand.Some? ==> s.ring.consumer.Waiting?)
  }

  ghost predicate SystemOk(n: nat, s: System) {
    Inv(n, s.ring) && ReceiverOk(s) && MatcherOk(s)
  }

  lemma AcceptedSnoc(offers: seq<Offer>, o: Offer)
    ensures Accepted(offers + [o]) == Accepted(offers) + if o.accepted then [o.order] else []
  {
    assert (offers + [o])[..|offers|] == offers;
  }

  lemma GenerateOk(n: nat, s: System, order: Order)
    requires SystemOk(n, s) && CanMove(n, s, Generate(order))
    ensures SystemOk(n, Moved(n, s, Generate(order)))
  {
    hide Inv, Run, Dispatched, Accepted;
  }

  lemma GiveUpOk(n: nat, s: System, stop: bool)
    requires SystemOk(n, s) && CanMove(n, s, GiveUp(stop))
    ensures SystemOk(n, Moved(n, s, GiveUp(stop)))
  {
    AcceptedSnoc(s.offers, Offer(s.receiver.order, false));
    hide Inv, Run, Dispatched, Accepted;
  }

  lemma ReceiverStepOk(n: nat, s: System, a: Action<Order>)
    requires CapacityOk(n) && SystemOk(n, s) && CanMove(n, s, ReceiverStep(a))
    ensures SystemOk(n, Moved(n, s, ReceiverStep(a)))
  {
    hide Inv, Slot, Room, Run, Dispatched, Accepted;
    StepInv(n, s.ring, a);
    if a.PublishTail? {
      AcceptedSnoc(s.offers, Offer(s.receiver.order, true));
    }
  }

  lemma MatcherStepOk(n: nat, s: System, a: Action<Order>)
    requires CapacityOk(n) && SystemOk(n, s) && CanMove(n, s, MatcherStep(a))
    ensures SystemOk(n, Moved(n, s, MatcherStep(a)))
  {
    hide Inv, Slot, Room, Run, Dispatched, Accepted;
    StepInv(n, s.ring, a);
  }

  lemma DispatchInHandOk(n: nat, s: System, mode: MatchingMode)
    requires SystemOk(n, s) && CanMove(n, s, DispatchInHand(mode))
    ensures SystemOk(n, Moved(n, s, DispatchInHand(mode)))
  {
    hide MatchSpec.Dispatch, Run, Dispatched, Inv, Accepted;
    RunSnoc(EMPTY_BOOK, s.log, Event(mode, s.inHand.value));
    DispatchedSnoc(s.log, Event(mode, s.inHand.value));
  }

  lemma DispatchedSnoc(log: seq<Event>, e: Event)
    ensures Dispatched(log + [e]) == Dispatched(log) + [e.order]
  {
  }

  lemma MoveOk(n: nat, s: System, m: Move)
    requires CapacityOk(n) && SystemOk(n, s) && CanMove(n, s, m)
    ensures SystemOk(n, Moved(n, s, m))
  {
    hide SystemOk, Moved, CanMove;
    match m
    case Generate(order) => GenerateOk(n, s, order);
    case ReceiverStep(a) => ReceiverStepOk(n, s, a);
    case GiveUp(stop) => GiveUpOk(n, s, stop);
    case MatcherStep(a) => MatcherStepOk(n, s, a);
    case DispatchInHand(mode) => DispatchInHandOk(n, s, mode);
  }

  // ---------- Main results ----------

  lemma {:induction false} PlayOk(n: nat, s0: System, moves: seq<Move>)
    requires CapacityOk(n) && IsStart(n, s0) && Play(n, s0, moves).Some?
    ensures SystemOk(n, Play(n, s0, moves).value)
  {
    hide CanMove, Moved, SystemOk;
    if moves == [] {
      StartOk(n, s0);
    } else {
      var front, last := moves[..|moves| - 1], moves[|moves| - 1];
      PlayOk(n, s0, front);
      MoveOk(n, Play(n, s0, front).value, last);
    }
  }

  lemma StartOk(n: nat, s: System)
    requires CapacityOk(n) && IsStart(n, s)
    ensures SystemOk(n, s)
  {
    NewInv(n, s.ring);
  }

  /** In every interleaving: the accepted orders are the generated ones that were not given up, in order; what the
      matching thread has dispatched, and the order it may have in hand, are the oldest of them; the book is the fold of
      the dispatch over exactly those, and so it is sound. */
  lemma PipelineIsAFold(n: nat, s0: System, moves: seq<Move>)
    requires CapacityOk(n) && IsStart(n, s0) && Play(n, s0, moves).Some?
    ensures var s := Play(n, s0, moves).value;
            && s.book == Run(EMPTY_BOOK, s.log)
            && Sound(s.book)
            && Dispatched(s.log) <= Accepted(s.offers)
            && |Accepted(s.offers)| - |s.log| <= n + 1
            && (s.inHand.Some? ==> |s.log| < |Accepted(s.offers)| && s.inHand.value == Accepted(s.offers)[|s.log|])
  {
    hide Play, SystemOk, Sound, Run, Dispatched, Accepted;
    var s := Play(n, s0, moves).value;
    PlayOk(n, s0, moves);
    OldestDispatched(n, s);
    RunIsSound(s.log);
  }

  lemma OldestDispatched(n: nat, s: System)
    requires SystemOk(n, s)
    ensures s.book == Run(EMPTY_BOOK, s.log)
    ensures Dispatched(s.log) <= Accepted(s.offers) && |Accepted(s.offers)| - |s.log| <= n + 1
    ensures s.inHand.Some? ==> |s.log| < |Accepted(s.offers)| && s.inHand.value == Accepted(s.offers)[|s.log|]
  {
    hide Run, ProducerOk, ConsumerOk;
    var popped := s.ring.popped;
    assert popped == s.ring.pushed[..|popped|];
    assert s.inHand.Some? ==> popped[|s.log|] == s.inHand.value;
  }

  // ---------- What a drop says about the queue ----------

  /** A push attempt that will fail: the head it loads shows a full queue. */
  predicate SawFull(n: nat, s: System, m: Move)
    requires CanMove(n, s, m)
  {
    m.ReceiverStep? && Effect(n, s.ring, m.action) == PushFull
  }

  /** The position of the latest Generate. */
  function Generated(moves: seq<Move>): (i: nat)
    ensures i <= |moves|
  {
    if moves == [] then 0
    else if moves[|moves| - 1].Generate? then |moves| - 1
    else Generated(moves[..|moves| - 1])
  }

  /** The positions, since the latest Generate, of the attempts that found the queue full. */
  function FullLoads(n: nat, s0: System, moves: seq<Move>): seq<nat>
    requires Play(n, s0, moves).Some?
  {
    if moves == [] then []
    else
      var front, last := moves[..|moves| - 1], moves[|moves| - 1];
      if last.Generate? then []
      else FullLoads(n, s0, front) + if SawFull(n, Play(n, s0, front).value, last) then [|front|] else []
  }

  predicate Increasing(positions: seq<nat>) {
    forall i, j :: 0 <= i < j < |positions| ==> positions[i] < positions[j]
  }

  /** Step i loaded a head from which n elements were in flight, and with a fresh load the queue was full. */
  ghost predicate FullAt(n: nat, s0: System, moves: seq<Move>, i: nat) {
    && i < |moves| && moves[i].ReceiverStep? && moves[i].action.LoadHeadAcquire?
    && Play(n, s0, moves[..i]).Some?
    && var r, seen := Play(n, s0, moves[..i]).value.ring, moves[i].action.seen;
       && seen <= |r.popped| <= |r.pushed| && |r.pushed| - seen >= n
       && (seen == |r.popped| ==> |Queued(r)| == n)
  }

  /** The counter of failed attempts lags behind the full loads by the attempt that is under way. */
  ghost predicate Counted(n: nat, s: System, fullLoads: nat) {
    s.receiver.Offering? ==>
      && fullLoads == s.receiver.failures +
         (if s.ring.producer.BothLoaded? && !Room(n, s.ring.producer.tail, s.ring.producer.head) then 1 else 0)
      && (s.ring.producer.Written? ==> s.receiver.failures < SPIN_ATTEMPTS)
  }

  lemma CountedStep(n: nat, s: System, m: Move, fullLoads: nat)
    requires ReceiverOk(s) && CanMove(n, s, m) && Counted(n, s, fullLoads)
    ensures Counted(n, Moved(n, s, m),
                    if m.Generate? then 0 else fullLoads + if SawFull(n, s, m) then 1 else 0)
  {
    hide Room, Slot, Accepted, MatchSpec.Dispatch;
  }

  lemma OrderStep(n: nat, s: System, m: Move)
    requires CanMove(n, s, m) && !m.Generate? && Moved(n, s, m).receiver.Offering?
    ensures s.receiver.Offering? && Moved(n, s, m).receiver.order == s.receiver.order
  {
    hide Room, Slot, Accepted, MatchSpec.Dispatch;
  }

  lemma SawFullMeans(n: nat, s: System, m: Move)
    requires CapacityOk(n) && SystemOk(n, s) && CanMove(n, s, m) && SawFull(n, s, m)
    ensures m.ReceiverStep? && m.action.LoadHeadAcquire? && m.action.seen <= |s.ring.popped| <= |s.ring.pushed|
    ensures |s.ring.pushed| - m.action.seen >= n
    ensures m.action.seen == |s.ring.popped| ==> |Queued(s.ring)| == n
  {
    hide Room, Run, Accepted, Dispatched;
    FailureMeans(n, s.ring, m.action.seen);
  }

  lemma {:induction false} FullLoadsCounted(n: nat, s0: System, moves: seq<Move>)
    requires CapacityOk(n) && IsStart(n, s0) && Play(n, s0, moves).Some?
    ensures Counted(n, Play(n, s0, moves).value, |FullLoads(n, s0, moves)|)
  {
    hide CanMove, Moved, Inv, MatcherOk, ReceiverOk, SawFull;
    if moves != [] {
      hide Counted;
      var front, last := moves[..|moves| - 1], moves[|moves| - 1];
      var mid := Play(n, s0, front).value;
      PlayOk(n, s0, front);
      FullLoadsCounted(n, s0, front);
      CountedStep(n, mid, last, |FullLoads(n, s0, front)|);
    }
  }

  lemma {:induction false} OrderGenerated(n: nat, s0: System, moves: seq<Move>)
    requires IsStart(n, s0) && Play(n, s0, moves).Some? && Play(n, s0, moves).value.receiver.Offering?
    ensures Generated(moves) < |moves| && moves[Generated(moves)] == Generate(Play(n, s0, moves).value.receiver.order)
  {
    if moves != [] {
      hide CanMove, Moved;
      var front, last := moves[..|moves| - 1], moves[|moves| - 1];
      var mid := Play(n, s0, front).value;
      if last.Generate? {
        GenerateStarts(n, mid, last);
      } else {
        OrderStep(n, mid, last);
        OrderGenerated(n, s0, front);
      }
    }
  }

  lemma GenerateStarts(n: nat, s: System, m: Move)
    requires CanMove(n, s, m) && m.Generate?
    ensures Moved(n, s, m).receiver == Offering(m.order, 0)
  {
  }

  lemma {:induction false} FullLoadsAreFull(n: nat, s0: System, moves: seq<Move>)
    requires CapacityOk(n) && IsStart(n, s0) && Play(n, s0, moves).Some?
    ensures forall i :: i in FullLoads(n, s0, moves) ==> Generated(moves) <= i && FullAt(n, s0, moves, i)
    ensures Increasing(FullLoads(n, s0, moves))
  {
    assert Increasing([]);
    if moves != [] {
      hide CanMove, Moved, SystemOk, SawFull, FullAt, Increasing;
      var front, last := moves[..|moves| - 1], moves[|moves| - 1];
      var mid := Play(n, s0, front).value;
      FullLoadsAreFull(n, s0, front);
      forall i | i in FullLoads(n, s0, front) ensures i < |front| && FullAt(n, s0, moves, i) {
        FullAtLater(n, s0, moves, i);
      }
      if SawFull(n, mid, last) {
        SawFullLast(n, s0, moves);
      }
      IncreasingSnoc(FullLoads(n, s0, front), |front|);
    }
  }

  lemma IncreasingSnoc(positions: seq<nat>, next: nat)
    requires Increasing(positions) && forall i :: i in positions ==> i < next
    ensures Increasing(positions + [next])
  {
    forall i, j | 0 <= i < j < |positions| + 1
      ensures (positions + [next])[i] < (positions + [next])[j]
    {
      assert positions[i] in positions;
    }
  }

  lemma FullAtLater(n: nat, s0: System, moves: seq<Move>, i: nat)
    requires moves != [] && FullAt(n, s0, moves[..|moves| - 1], i)
    ensures i < |moves| - 1 && FullAt(n, s0, moves, i)
  {
    hide Play;
    assert moves[..|moves| - 1][..i] == moves[..i];
  }

  lemma SawFullLast(n: nat, s0: System, moves: seq<Move>)
    requires CapacityOk(n) && IsStart(n, s0) && moves != [] && Play(n, s0, moves).Some?
    requires SawFull(n, Play(n, s0, moves[..|moves| - 1]).value, moves[|moves| - 1])
    ensures FullAt(n, s0, moves, |moves| - 1)
  {
    hide CanMove, Moved, SystemOk, SawFull;
    var front, last := moves[..|moves| - 1], moves[|moves| - 1];
    PlayOk(n, s0, front);
    SawFullMeans(n, Play(n, s0, front).value, last);
  }

  /** What becomes of an order. The move that settles it settles the one generated last. Without a stop request it is
      accepted or given up according to the number of its attempts that found the queue full: fewer than SPIN_ATTEMPTS,
      or exactly that many. Each of those attempts is a step after it was generated, at which n elements were in flight
      counted from the head that was loaded, so a fresh load saw a full queue. Giving up changes no accepted order and
      nothing in the ring. */
  lemma DropsFollowFullQueues(n: nat, s0: System, moves: seq<Move>, end: Move)
    requires CapacityOk(n) && IsStart(n, s0) && Play(n, s0, moves).Some?
    requires CanMove(n, Play(n, s0, moves).value, end)
    requires |Play(n, s0, moves).value.offers| < |Moved(n, Play(n, s0, moves).value, end).offers|
    ensures Generated(moves) < |moves| && moves[Generated(moves)].Generate?
    ensures var s, s2 := Play(n, s0, moves).value, Moved(n, Play(n, s0, moves).value, end);
            var accepted := s2.offers[|s.offers|].accepted;
            && s2.offers == s.offers + [Offer(moves[Generated(moves)].order, accepted)]
            && (end == GiveUp(true) || (accepted <==> |FullLoads(n, s0, moves)| < SPIN_ATTEMPTS))
            && (!accepted ==> s2.ring == s.ring && Accepted(s2.offers) == Accepted(s.offers))
    ensures |FullLoads(n, s0, moves)| <= SPIN_ATTEMPTS
    ensures forall i :: i in FullLoads(n, s0, moves) ==> Generated(moves) <= i && FullAt(n, s0, moves, i)
    ensures Increasing(FullLoads(n, s0, moves))
  {
    hide Play, Inv, MatcherOk, FullLoads, FullAt, Generated, Room, Slot, Accepted;
    var s := Play(n, s0, moves).value;
    PlayOk(n, s0, moves);
    FullLoadsCounted(n, s0, moves);
    OrderGenerated(n, s0, moves);
    FullLoadsAreFull(n, s0, moves);
    AcceptedSnoc(s.offers, Offer(s.receiver.order, false));
  }
}
