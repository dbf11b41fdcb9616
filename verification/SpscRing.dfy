/** include/hydra/spsc_queue.hpp as two threads whose atomic steps interleave freely: each call loads its own counter,
    loads the other side's counter (possibly an old value, but never older than one it loaded before), touches a slot,
    and publishes. The mutex queue of ablation/mutex_queue is the specification. */
module SpscRing {
  import opened Types
  import opened Masks

  /** Where the producing thread is within push(). */
  datatype Producer<T> =
    | Ready
    | OwnTail(item: T, tail: uint64)
    | BothLoaded(item: T, tail: uint64, head: uint64)
    | Written(item: T, tail: uint64)

  /** Where the consuming thread is within pop(). */
  datatype Consumer<T> =
    | Waiting
    | OwnHead(head: uint64)
    | BothKnown(head: uint64, tail: uint64)
    | Copied(head: uint64, value: T)

  /** The shared memory and both threads, with the history of accepted pushes and completed pops and how much of the
      other side's history each thread has already seen. */
  datatype Ring<T> = Ring(
    buffer: seq<T>,
    tail: uint64,
    head: uint64,
    producer: Producer<T>,
    consumer: Consumer<T>,
    pushed: seq<T>,
    popped: seq<T>,
    seenHead: nat,
    seenTail: nat)

  datatype Action<T> =
    | LoadTail(item: T)
    | LoadHeadAcquire(seen: nat)
    | WriteSlot
    | PublishTail
    | LoadHead
    | LoadTailAcquire(seen: nat)
    | ReadSlot
    | PublishHead

  function Wrap(x: int): (w: uint64) {
    x % 0x1_0000_0000_0000_0000
  }

  /** push()'s test, in uint64 arithmetic. */
  predicate Room(n: nat, tail: uint64, head: uint64) {
    Wrap(tail - head) < n
  }

  function Slot(n: nat, counter: uint64): (i: nat)
    requires n > 0
    ensures i < n
  {
    And(counter, n - 1)
  }

  predicate Enabled<T>(n: nat, r: Ring<T>, a: Action<T>) {
    match a
    case LoadTail(_) => r.producer.Ready?
    case LoadHeadAcquire(seen) => r.producer.OwnTail? && r.seenHead <= seen <= |r.popped|
    case WriteSlot => r.producer.BothLoaded?
    case PublishTail => r.producer.Written?
    case LoadHead => r.consumer.Waiting?
    case LoadTailAcquire(seen) => r.consumer.OwnHead? && r.seenTail <= seen <= |r.pushed|
    case ReadSlot => r.consumer.BothKnown?
    case PublishHead => r.consumer.Copied?
  }

  /** One atomic step. A push that finds no room, or a pop that finds nothing, returns false and is done. */
  function Next<T>(n: nat, r: Ring<T>, a: Action<T>): Ring<T>
    requires n > 0 && |r.buffer| == n && Enabled(n, r, a)
  {
    match a
    case LoadTail(item) => r.(producer := OwnTail(item, r.tail))
    case LoadHeadAcquire(seen) =>
      r.(producer := BothLoaded(r.producer.item, r.producer.tail, Wrap(seen)), seenHead := seen)
    case WriteSlot =>
      var p := r.producer;
      if Room(n, p.tail, p.head)
      then r.(buffer := r.buffer[Slot(n, p.tail) := p.item], producer := Written(p.item, p.tail))
      else r.(producer := Ready)
    case PublishTail =>
      r.(tail := Wrap(r.producer.tail + 1), pushed := r.pushed + [r.producer.item], producer := Ready)
    case LoadHead => r.(consumer := OwnHead(r.head))
    case LoadTailAcquire(seen) => r.(consumer := BothKnown(r.consumer.head, Wrap(seen)), seenTail := seen)
    case ReadSlot =>
      var c := r.consumer;
      if c.head < c.tail then r.(consumer := Copied(c.head, r.buffer[Slot(n, c.head)])) else r.(consumer := Waiting)
    case PublishHead =>
      r.(head := Wrap(r.consumer.head + 1), popped := r.popped + [r.consumer.value], consumer := Waiting)
  }

  /** What is in flight between the two threads. */
  function Queued<T>(r: Ring<T>): seq<T>
    requires |r.popped| <= |r.pushed|
  {
    r.pushed[|r.popped|..]
  }

  // ---------- The invariant ----------

  /** The counters are the histories' lengths modulo 2^64. The producer never got more than n ahead of the head it saw
      last, and the consumer never got to 2^64. */
  ghost predicate Histories<T>(n: nat, r: Ring<T>) {
    && |r.buffer| == n
    && r.tail == Wrap(|r.pushed|) && r.head == |r.popped| < U64_LIMIT
    && r.seenHead <= |r.popped| <= |r.pushed| <= r.seenHead + n
    && r.popped == r.pushed[..|r.popped|]
    && r.seenTail <= |r.pushed|
    && forall i :: |r.popped| <= i < |r.pushed| ==> r.buffer[i % n] == r.pushed[i]
  }

  ghost predicate ProducerOk<T>(n: nat, r: Ring<T>)
    requires n > 0 && |r.buffer| == n
  {
    match r.producer
    case Ready => true
    case OwnTail(_, tail) => tail == r.tail
    case BothLoaded(_, tail, head) => tail == r.tail && head == Wrap(r.seenHead)
    case Written(item, tail) => tail == r.tail && |r.pushed| < r.seenHead + n && r.buffer[|r.pushed| % n] == item
  }

  ghost predicate ConsumerOk<T>(n: nat, r: Ring<T>) {
    match r.consumer
    case Waiting => true
    case OwnHead(head) => head == r.head
    case BothKnown(head, tail) => head == r.head && tail == Wrap(r.seenTail)
    case Copied(head, value) =>
      head == r.head && |r.popped| < |r.pushed| && |r.popped| + 1 < U64_LIMIT && value == r.pushed[|r.popped|]
  }

  /** n is a power of two below 2^64, as the template's static_assert and its size_t demand. */
  ghost predicate CapacityOk(n: nat) {
    && 0 < n < U64_LIMIT
    && And(n, n - 1) == 0
  }

  ghost predicate Inv<T>(n: nat, r: Ring<T>) {
    n > 0 && Histories(n, r) && ProducerOk(n, r) && ConsumerOk(n, r)
  }

  lemma SlotIsMod(n: nat, c: nat)
    requires CapacityOk(n)
    ensures Slot(n, Wrap(c)) == c % n
  {
    hide And;
    WrappedMask(c, n);
  }

  lemma WrapSmall(x: int)
    requires 0 <= x < U64_LIMIT
    ensures Wrap(x) == x
  {
  }

  /** push() measures the distance of two wrapped counters correctly as long as it fits. */
  lemma WrapDistance(a: nat, b: nat)
    requires b <= a < b + U64_LIMIT
    ensures Wrap(Wrap(a) - Wrap(b)) == a - b
  {
    var qa, qb := a / U64_LIMIT, b / U64_LIMIT;
    assert Wrap(a) - Wrap(b) == (a - b) - (qa - qb) * U64_LIMIT;
    assert 0 <= qa - qb <= 1;
  }

  /** push() finds room exactly when the producer is less than n ahead of the head it saw, however old that is. */
  lemma RoomTest(n: nat, pushed: nat, seen: nat)
    requires n < U64_LIMIT && seen <= pushed <= seen + n
    ensures Room(n, Wrap(pushed), Wrap(seen)) <==> pushed - seen < n
  {
    WrapDistance(pushed, seen);
  }

  /** pop() compares its counters as numbers: it finds an element exactly when there is one and the tail it saw has not
      wrapped. */
  lemma ElementTest(n: nat, popped: nat, seen: nat)
    requires n < U64_LIMIT && popped < U64_LIMIT && seen <= popped + n
    ensures popped < Wrap(seen) <==> popped < seen < U64_LIMIT
  {
    if seen < U64_LIMIT {
      WrapSmall(seen);
    } else {
      assert Wrap(seen) == seen - U64_LIMIT;
    }
  }

  /** Writing the slot behind the newest element touches none that is still unread. */
  lemma NoUnreadSlotIsOverwritten(n: nat, head: nat, tail: nat, i: nat)
    requires n > 0 && head <= i < tail < head + n
    ensures i % n != tail % n
  {
    WindowDistinct(i, tail, n);
  }

  lemma WriteSlotInv<T>(n: nat, r: Ring<T>)
    requires CapacityOk(n) && Inv(n, r) && r.producer.BothLoaded?
    ensures Inv(n, Next(n, r, WriteSlot))
  {
    hide Wrap, Room, Slot, CapacityOk;
    RoomTest(n, |r.pushed|, r.seenHead) by {
      CapacityFits(n);
    }
    SlotIsMod(n, |r.pushed|);
    forall i | |r.popped| <= i < |r.pushed| && |r.pushed| < |r.popped| + n
      ensures i % n != |r.pushed| % n
    {
      NoUnreadSlotIsOverwritten(n, |r.popped|, |r.pushed|, i);
    }
  }

  lemma CapacityFits(n: nat)
    requires CapacityOk(n)
    ensures 0 < n < U64_LIMIT
  {
  }

  lemma ReadSlotInv<T>(n: nat, r: Ring<T>)
    requires CapacityOk(n) && Inv(n, r) && r.consumer.BothKnown?
    ensures Inv(n, Next(n, r, ReadSlot))
  {
    CapacityFits(n);
    WrapSmall(|r.popped|);
    hide Wrap, Slot, CapacityOk;
    ElementTest(n, |r.popped|, r.seenTail);
    SlotIsMod(n, |r.popped|);
  }

  lemma PublishTailInv<T>(n: nat, r: Ring<T>)
    requires CapacityOk(n) && Inv(n, r) && r.producer.Written?
    ensures Inv(n, Next(n, r, PublishTail))
  {
    WrapNext(|r.pushed|);
  }

  lemma WrapNext(m: nat)
    ensures Wrap(Wrap(m) + 1) == Wrap(m + 1)
  {
  }

  lemma PublishHeadInv<T>(n: nat, r: Ring<T>)
    requires CapacityOk(n) && Inv(n, r) && r.consumer.Copied?
    ensures Inv(n, Next(n, r, PublishHead))
  {
    WrapSmall(|r.popped| + 1);
    var r2 := Next(n, r, PublishHead);
    assert r2.popped == r.pushed[..|r.popped| + 1];
  }

  /** Every step of either thread keeps the invariant, however often the counters have wrapped. */
  lemma StepInv<T>(n: nat, r: Ring<T>, a: Action<T>)
    requires CapacityOk(n) && Inv(n, r) && Enabled(n, r, a)
    ensures Inv(n, Next(n, r, a))
  {
    match a
    case LoadTail(_) =>
    case LoadHeadAcquire(_) =>
    case WriteSlot => WriteSlotInv(n, r);
    case PublishTail => PublishTailInv(n, r);
    case LoadHead =>
    case LoadTailAcquire(_) =>
    case ReadSlot => ReadSlotInv(n, r);
    case PublishHead => PublishHeadInv(n, r);
  }

  // ---------- Refinement of the mutex queue ----------

  /** What a call to the mutex queue does under its lock. */
  datatype QueueCall<T> = Nothing | PushOk(item: T) | PushFull | PopOk(item: T) | PopEmpty

  ghost predicate FifoStep<T>(n: nat, q: seq<T>, e: QueueCall<T>, q2: seq<T>) {
    match e
    case Nothing => q2 == q
    case PushOk(item) => |q| < n && q2 == q + [item]
    case PushFull => |q| >= n && q2 == q
    case PopOk(item) => q != [] && item == q[0] && q2 == q[1..]
    case PopEmpty => q == [] && q2 == q
  }

  /** Where a call takes effect: a success when it publishes, a failure when it loads the other side's counter. What a
      call loaded decides what it returns (WriteSlot and ReadSlot), so each failing call has exactly one such point. */
  function Effect<T>(n: nat, r: Ring<T>, a: Action<T>): QueueCall<T>
    requires Enabled(n, r, a)
  {
    match a
    case PublishTail => PushOk(r.producer.item)
    case PublishHead => PopOk(r.consumer.value)
    case LoadHeadAcquire(seen) => if Room(n, r.producer.tail, Wrap(seen)) then Nothing else PushFull
    case LoadTailAcquire(seen) => if r.consumer.head < Wrap(seen) then Nothing else PopEmpty
    case LoadTail(_) => Nothing
    case WriteSlot => Nothing
    case LoadHead => Nothing
    case ReadSlot => Nothing
  }

  /** The load returned the newest value of the other side's counter. */
  predicate Fresh<T>(r: Ring<T>, a: Action<T>) {
    && (a.LoadHeadAcquire? ==> a.seen == |r.popped|)
    && (a.LoadTailAcquire? ==> a.seen == |r.pushed|)
  }

  /** What e does to the contents, its failures not being taken at their word. */
  ghost predicate LooseStep<T>(n: nat, q: seq<T>, e: QueueCall<T>, q2: seq<T>) {
    if e.PushFull? || e.PopEmpty? then q2 == q else FifoStep(n, q, e, q2)
  }

  /** Successful calls are calls of the bounded FIFO, always. So is a push that fails after a fresh load, and a pop that
      does before the 2^64-th push. */
  lemma StepRefines<T>(n: nat, r: Ring<T>, a: Action<T>)
    requires CapacityOk(n) && Inv(n, r) && Enabled(n, r, a)
    ensures |Next(n, r, a).popped| <= |Next(n, r, a).pushed|
    ensures LooseStep(n, Queued(r), Effect(n, r, a), Queued(Next(n, r, a)))
    ensures Fresh(r, a) && (|r.pushed| < U64_LIMIT || !Effect(n, r, a).PopEmpty?) ==>
              FifoStep(n, Queued(r), Effect(n, r, a), Queued(Next(n, r, a)))
  {
    CapacityFits(n);
    match a
    case LoadTail(_) =>
    case LoadHeadAcquire(seen) => RoomTest(n, |r.pushed|, seen);
    case WriteSlot =>
    case PublishTail => assert Queued(Next(n, r, a)) == Queued(r) + [r.producer.item];
    case LoadHead =>
    case LoadTailAcquire(seen) => ElementTest(n, |r.popped|, seen);
    case ReadSlot =>
    case PublishHead => assert Queued(Next(n, r, a)) == Queued(r)[1..];
  }

  /** A failing push is right about the queue exactly when as much is in flight, counted from the head it loaded. With
      an old head the queue may have room by now; with a fresh one it is full. */
  lemma FailureMeans<T>(n: nat, r: Ring<T>, seen: nat)
    requires CapacityOk(n) && Inv(n, r) && Enabled(n, r, LoadHeadAcquire(seen))
    ensures Effect(n, r, LoadHeadAcquire(seen)) == PushFull <==> |r.pushed| - seen >= n
    ensures Effect(n, r, LoadHeadAcquire(seen)) == PushFull && |Queued(r)| < n ==> seen < |r.popped|
  {
    CapacityFits(n);
    RoomTest(n, |r.pushed|, seen);
  }

  /** A pop fails exactly when everything was popped up to the tail it loaded, or that tail is past 2^64. With an old
      tail there may be an element by now; with a fresh one below 2^64 the queue is empty. */
  lemma PopFailureMeans<T>(n: nat, r: Ring<T>, seen: nat)
    requires CapacityOk(n) && Inv(n, r) && Enabled(n, r, LoadTailAcquire(seen))
    ensures Effect(n, r, LoadTailAcquire(seen)) == PopEmpty <==> seen <= |r.popped| || seen >= U64_LIMIT
    ensures Effect(n, r, LoadTailAcquire(seen)) == PopEmpty && Queued(r) != [] ==> seen < |r.pushed| || |r.pushed| >= U64_LIMIT
  {
    CapacityFits(n);
    ElementTest(n, |r.popped|, seen);
  }

  /** While the producer is about to write and the consumer about to read, they are at different slots. */
  lemma NoSlotRace<T>(n: nat, r: Ring<T>)
    requires CapacityOk(n) && Inv(n, r)
    requires r.producer.BothLoaded? && Room(n, r.producer.tail, r.producer.head)
    requires r.consumer.BothKnown? && r.consumer.head < r.consumer.tail
    ensures Slot(n, r.producer.tail) != Slot(n, r.consumer.head)
  {
    CapacityFits(n);
    WrapSmall(|r.popped|);
    hide Wrap, Slot, Room, CapacityOk;
    RoomTest(n, |r.pushed|, r.seenHead);
    ElementTest(n, |r.popped|, r.seenTail);
    SlotIsMod(n, |r.pushed|);
    SlotIsMod(n, |r.popped|);
    NoUnreadSlotIsOverwritten(n, |r.popped|, |r.pushed|, |r.popped|);
  }
}
