/** include/hydra/spsc_queue.hpp used by one thread at a time: an array, two running counters, and a mask. */
module SpscQueues {
  import opened Types
  import opened Masks
  import opened SpscRing

  /** Each waiting element is in the slot of its number. */
  ghost predicate Holds<T>(cells: seq<T>, pushed: seq<T>, head: nat) {
    && |cells| > 0 && head <= |pushed| <= head + |cells|
    && forall i :: head <= i < |pushed| ==> cells[i % |cells|] == pushed[i]
  }

  lemma HoldsMore<T>(cells: seq<T>, pushed: seq<T>, head: nat, item: T)
    requires Holds(cells, pushed, head) && |pushed| < head + |cells|
    ensures Holds(cells[|pushed| % |cells| := item], pushed + [item], head)
  {
    forall i | head <= i < |pushed|
      ensures i % |cells| != |pushed| % |cells|
    {
      NoUnreadSlotIsOverwritten(|cells|, head, |pushed|, i);
    }
  }

  class SpscQueue<T(0)> {
    const buffer: array<T>
    var tail: uint64
    var head: uint64

    /** Everything ever accepted. */
    ghost var pushed: seq<T>

    /** The tail counter wraps; the head counter cannot, see Pop. */
    ghost predicate Valid()
      reads this, buffer
    {
      CapacityOk(buffer.Length) && Holds(buffer[..], pushed, head) && tail == Wrap(|pushed|)
    }

    /** The elements waiting, oldest first. */
    ghost function Contents(): (waiting: seq<T>)
      reads this, buffer
      requires Valid()
      ensures |waiting| <= buffer.Length
    {
      pushed[head..]
    }

    /** Those of them that pop() will ever find: none, once 2^64 elements were pushed. */
    ghost function Visible(): (waiting: seq<T>)
      reads this, buffer
      requires Valid()
    {
      if |pushed| < U64_LIMIT then Contents() else []
    }

    constructor (n: nat)
      requires CapacityOk(n)
      ensures Valid() && fresh(buffer) && buffer.Length == n && Contents() == Visible() == [] && pushed == []
    {
      buffer := new T[n];
      tail, head, pushed := 0, 0, [];
    }

    /** push(). */
    method Push(item: T) returns (ok: bool)
      requires Valid()
      modifies `tail, `pushed, buffer
      ensures Valid()
      ensures ok <==> |old(Contents())| < buffer.Length
      ensures Contents() == if ok then old(Contents()) + [item] else old(Contents())
      ensures pushed == if ok then old(pushed) + [item] else old(pushed)
      ensures !ok ==> Visible() == old(Visible())
    {
      hide And, Wrap, Slot, Room;
      CapacityFits(buffer.Length);
      WrapSmall(head);
      RoomTest(buffer.Length, |pushed|, head);
      if !Room(buffer.Length, tail, head) {
        return false;
      }
      SlotIsMod(buffer.Length, |pushed|);
      HoldsMore(buffer[..], pushed, head, item);
      WrapNext(|pushed|);
      ghost var cells := buffer[..];
      buffer[Slot(buffer.Length, tail)] := item;
      assert buffer[..] == cells[|pushed| % buffer.Length := item];
      tail := Wrap(tail + 1);
      pushed := pushed + [item];
      ok := true;
    }

    /** pop(). */
    method Pop() returns (out: Option<T>)
      requires Valid()
      modifies `head
      ensures Valid()
      ensures out == if old(Visible()) == [] then None else Some(old(Visible())[0])
      ensures Contents() == if out.Some? then old(Contents())[1..] else old(Contents())
      ensures Visible() == if out.Some? then old(Visible())[1..] else old(Visible())
    {
      hide And, Wrap, Slot;
      CapacityFits(buffer.Length);
      ElementTest(buffer.Length, head, |pushed|);
      if head >= tail {
        return None;
      }
      WrapSmall(head);
      WrapSmall(head + 1);
      SlotIsMod(buffer.Length, head);
      out := Some(buffer[Slot(buffer.Length, head)]);
      head := Wrap(head + 1);
    }
  }
}
