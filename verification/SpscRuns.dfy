/** Whole interleavings of the two threads of the ring. However long, they deliver what was pushed, in order; and with
    fresh loads they are histories of the bounded FIFO for as long as fewer than 2^64 elements have been pushed. */
module SpscRuns {
  import opened Types
  import opened Masks
  import opened SpscRing

  ghost predicate IsNew<T>(n: nat, r: Ring<T>) {
    r == Ring(r.buffer, 0, 0, Ready, Waiting, [], [], 0, 0) && |r.buffer| == n
  }

  /** The state after a sequence of steps, if each was possible when it was taken. */
  function Exec<T>(n: nat, r: Ring<T>, actions: seq<Action<T>>): Option<Ring<T>> {
    if actions == [] then Some(r)
    else
      var before, last := Exec(n, r, actions[..|actions| - 1]), actions[|actions| - 1];
      if before.Some? && n > 0 && |before.value.buffer| == n && Enabled(n, before.value, last)
      then Some(Next(n, before.value, last))
      else None
  }

  /** The calls of the bounded FIFO that those steps stand for, in the order in which they take effect. */
  function Effects<T>(n: nat, r: Ring<T>, actions: seq<Action<T>>): seq<QueueCall<T>>
    requires Exec(n, r, actions).Some?
  {
    if actions == [] then []
    else
      var front, last := actions[..|actions| - 1], actions[|actions| - 1];
      Effects(n, r, front) + [Effect(n, Exec(n, r, front).value, last)]
  }

  /** Every load of the other side's counter returned its newest value. */
  ghost predicate AllFresh<T>(n: nat, r: Ring<T>, actions: seq<Action<T>>)
    requires Exec(n, r, actions).Some?
  {
    actions == []
    || (&& AllFresh(n, r, actions[..|actions| - 1])
        && Fresh(Exec(n, r, actions[..|actions| - 1]).value, actions[|actions| - 1]))
  }

  /** The calls lead the bounded FIFO from contents q to contents q2; unless `strict`, a failing call need not be right
      about the contents. */
  ghost predicate FifoHistory<T(!new)>(strict: bool, n: nat, q: seq<T>, events: seq<QueueCall<T>>, q2: seq<T>) {
    if events == [] then q2 == q
    else
      var front, last := events[..|events| - 1], events[|events| - 1];
      exists mid :: FifoHistory(strict, n, q, front, mid)
                    && if strict then FifoStep(n, mid, last, q2) else LooseStep(n, mid, last, q2)
  }

  // ---------- Main results ----------

  /** In every interleaving, with loads as old as they like and counters that have wrapped: what was popped is a prefix
      of what was pushed, no more than n elements are in flight, and each waits untouched in its own slot. */
  lemma {:induction false} RunInv<T>(n: nat, r0: Ring<T>, actions: seq<Action<T>>)
    requires CapacityOk(n) && IsNew(n, r0) && Exec(n, r0, actions).Some?
    ensures Inv(n, Exec(n, r0, actions).value)
  {
    hide Inv, Enabled;
    if actions == [] {
      NewInv(n, r0);
    } else {
      var front, last := actions[..|actions| - 1], actions[|actions| - 1];
      RunInv(n, r0, front);
      StepInv(n, Exec(n, r0, front).value, last);
    }
  }

  lemma NewInv<T>(n: nat, r: Ring<T>)
    requires CapacityOk(n) && IsNew(n, r)
    ensures Inv(n, r) && Queued(r) == []
  {
  }

  /** Nothing is lost, repeated, reordered or made up, ever; and fewer than 2^64 elements are popped, ever. */
  lemma PoppedIsPrefix<T>(n: nat, r0: Ring<T>, actions: seq<Action<T>>)
    requires CapacityOk(n) && IsNew(n, r0) && Exec(n, r0, actions).Some?
    ensures var r := Exec(n, r0, actions).value;
            r.popped <= r.pushed && |r.pushed| - |r.popped| <= n && |r.popped| < U64_LIMIT
  {
    RunInv(n, r0, actions);
  }

  lemma PushedGrows<T>(n: nat, r: Ring<T>, a: Action<T>)
    requires n > 0 && |r.buffer| == n && Enabled(n, r, a)
    ensures |r.pushed| <= |Next(n, r, a).pushed|
  {
  }

  lemma {:induction false} RunHistory<T(!new)>(strict: bool, n: nat, r0: Ring<T>, actions: seq<Action<T>>)
    requires CapacityOk(n) && IsNew(n, r0) && Exec(n, r0, actions).Some?
    requires strict ==> AllFresh(n, r0, actions) && |Exec(n, r0, actions).value.pushed| < U64_LIMIT
    ensures var r := Exec(n, r0, actions).value;
            |r.popped| <= |r.pushed| && FifoHistory(strict, n, [], Effects(n, r0, actions), Queued(r))
  {
    hide Inv, Enabled, Effect, FifoStep, LooseStep;
    if actions == [] {
      NewInv(n, r0);
    } else {
      var front, last := actions[..|actions| - 1], actions[|actions| - 1];
      var mid := Exec(n, r0, front).value;
      PushedGrows(n, mid, last);
      RunInv(n, r0, front);
      RunHistory(strict, n, r0, front);
      StepRefines(n, mid, last);
      var events := Effects(n, r0, actions);
      assert events[..|events| - 1] == Effects(n, r0, front);
    }
  }

  /** With fresh loads every interleaving is, call by call, a history of the bounded FIFO: pushes that return true
      append, pops that return true take the front, pushes fail on a full queue only and pops on an empty one only. */
  lemma RunRefines<T(!new)>(n: nat, r0: Ring<T>, actions: seq<Action<T>>)
    requires CapacityOk(n) && IsNew(n, r0) && Exec(n, r0, actions).Some? && AllFresh(n, r0, actions)
    requires |Exec(n, r0, actions).value.pushed| < U64_LIMIT
    ensures var r := Exec(n, r0, actions).value;
            |r.popped| <= |r.pushed| && FifoHistory(true, n, [], Effects(n, r0, actions), Queued(r))
  {
    RunHistory(true, n, r0, actions);
  }

  /** With loads of any age, and without end, every interleaving is a history of the bounded FIFO in all its successful
      calls; only a failing call may be wrong about the queue. */
  lemma RunRefinesLoosely<T(!new)>(n: nat, r0: Ring<T>, actions: seq<Action<T>>)
    requires CapacityOk(n) && IsNew(n, r0) && Exec(n, r0, actions).Some?
    ensures var r := Exec(n, r0, actions).value;
            |r.popped| <= |r.pushed| && FifoHistory(false, n, [], Effects(n, r0, actions), Queued(r))
  {
    RunHistory(false, n, r0, actions);
  }

  // ---------- The counters wrap ----------

  ghost predicate Reachable<T(!new)>(n: nat, r0: Ring<T>, r: Ring<T>) {
    exists actions :: Exec(n, r0, actions) == Some(r)
  }

  lemma ReachStart<T(!new)>(n: nat, r0: Ring<T>)
    ensures Reachable(n, r0, r0)
  {
    assert Exec(n, r0, []) == Some(r0);
  }

  lemma ReachNext<T(!new)>(n: nat, r0: Ring<T>, r: Ring<T>, a: Action<T>)
    requires Reachable(n, r0, r) && n > 0 && |r.buffer| == n && Enabled(n, r, a)
    ensures Reachable(n, r0, Next(n, r, a))
  {
    var actions :| Exec(n, r0, actions) == Some(r);
    var all := actions + [a];
    assert all[..|all| - 1] == actions;
    assert Exec(n, r0, all) == Some(Next(n, r, a));
  }

  /** No call is in progress and the queue is empty after m pushes and m pops. */
  ghost predicate Idle<T>(n: nat, r: Ring<T>, m: nat) {
    && |r.buffer| == n && |r.pushed| == |r.popped| == m
    && r.producer.Ready? && r.consumer.Waiting?
    && r.tail == r.head == Wrap(m)
    && r.seenHead <= m && r.seenTail <= m
  }

  /** The whole of a push with fresh loads into an empty queue. */
  lemma PushReach<T(!new)>(n: nat, r0: Ring<T>, r: Ring<T>, m: nat, item: T) returns (r2: Ring<T>)
    requires CapacityOk(n) && Reachable(n, r0, r) && Idle(n, r, m)
    ensures Reachable(n, r0, r2) && |r2.buffer| == n
    ensures |r2.pushed| == m + 1 && |r2.popped| == m && r2.producer.Ready? && r2.consumer.Waiting?
    ensures r2.tail == Wrap(m + 1) && r2.head == Wrap(m) && r2.seenHead <= m && r2.seenTail <= m
  {
    hide Reachable;
    ReachNext(n, r0, r, LoadTail(item));
    var a := Next(n, r, LoadTail(item));
    ReachNext(n, r0, a, LoadHeadAcquire(m));
    var b := Next(n, a, LoadHeadAcquire(m));
    assert Room(n, b.producer.tail, b.producer.head);
    ReachNext(n, r0, b, WriteSlot);
    var c := Next(n, b, WriteSlot);
    ReachNext(n, r0, c, PublishTail);
    r2 := Next(n, c, PublishTail);
    WrapNext(m);
  }

  lemma PopReach<T(!new)>(n: nat, r0: Ring<T>, r: Ring<T>, m: nat) returns (r2: Ring<T>)
    requires CapacityOk(n) && Reachable(n, r0, r) && |r.buffer| == n
    requires |r.pushed| == m + 1 && |r.popped| == m && r.producer.Ready? && r.consumer.Waiting?
    requires r.tail == Wrap(m + 1) && r.head == Wrap(m) && r.seenHead <= m && r.seenTail <= m && m + 1 < U64_LIMIT
    ensures Reachable(n, r0, r2) && Idle(n, r2, m + 1)
  {
    hide Reachable;
    WrapSmall(m);
    WrapSmall(m + 1);
    ReachNext(n, r0, r, LoadHead);
    var a := Next(n, r, LoadHead);
    ReachNext(n, r0, a, LoadTailAcquire(m + 1));
    var b := Next(n, a, LoadTailAcquire(m + 1));
    ReachNext(n, r0, b, ReadSlot);
    var c := Next(n, b, ReadSlot);
    ReachNext(n, r0, c, PublishHead);
    r2 := Next(n, c, PublishHead);
  }

  lemma {:induction false} IdleReach<T(!new)>(n: nat, r0: Ring<T>, m: nat, item: T) returns (r: Ring<T>)
    requires CapacityOk(n) && IsNew(n, r0) && m < U64_LIMIT
    ensures Reachable(n, r0, r) && Idle(n, r, m)
  {
    if m == 0 {
      ReachStart(n, r0);
      r := r0;
    } else {
      var before := IdleReach(n, r0, m - 1, item);
      var pushed := PushReach(n, r0, before, m - 1, item);
      r := PopReach(n, r0, pushed, m - 1);
    }
  }

  /** The head counter is at its largest value and the consumer has not got past its comparison. */
  ghost predicate Stuck<T>(r: Ring<T>) {
    && r.head == U64_LIMIT - 1
    && match r.consumer
       case Waiting => true
       case OwnHead(head) => head == r.head
       case BothKnown(head, _) => head == r.head
       case Copied(_, _) => false
  }

  /** No tail counter is larger than the largest value, so no pop ever succeeds again. */
  lemma {:induction false} StuckForever<T>(n: nat, r: Ring<T>, actions: seq<Action<T>>)
    requires Stuck(r) && Exec(n, r, actions).Some?
    ensures Stuck(Exec(n, r, actions).value) && Exec(n, r, actions).value.popped == r.popped
  {
    if actions != [] {
      StuckForever(n, r, actions[..|actions| - 1]);
    }
  }

  /** The bound of 2^64 pushes on RunRefines is exact. The push that makes the tail counter wrap is accepted, but pop() compares
      `head < tail` and then finds nothing: a fresh load says "empty" while an element is in flight. And it stays that
      way: whatever the two threads do from there, nothing is ever popped again. */
  lemma WrappedTailHidesElements<T(!new)>(n: nat, r0: Ring<T>, item: T) returns (r: Ring<T>)
    requires CapacityOk(n) && IsNew(n, r0)
    ensures Reachable(n, r0, r) && |r.pushed| == U64_LIMIT && |r.popped| == U64_LIMIT - 1 && |Queued(r)| == 1
    ensures Enabled(n, r, LoadTailAcquire(|r.pushed|)) && Effect(n, r, LoadTailAcquire(|r.pushed|)) == PopEmpty
    ensures forall actions :: Exec(n, r, actions).Some? ==> Exec(n, r, actions).value.popped == r.popped
  {
    hide Reachable;
    var m := U64_LIMIT - 1;
    var idle := IdleReach(n, r0, m, item);
    var full := PushReach(n, r0, idle, m, item);
    ReachNext(n, r0, full, LoadHead);
    r := Next(n, full, LoadHead);
    WrapSmall(m);
    forall actions | Exec(n, r, actions).Some?
      ensures Exec(n, r, actions).value.popped == r.popped
    {
      StuckForever(n, r, actions);
    }
  }
}
