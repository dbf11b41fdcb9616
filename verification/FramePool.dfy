/** The UMEM frames of net/xdp_socket_user.cpp: a stack of free frames, the two rings shared with the kernel, and the
    frames that the kernel and the caller hold. The kernel is any sequence of the two moves it is allowed. */
module FramePools {
  import opened Types
  import opened Frames
  import opened OrderParsers

  const FRAME_SIZE := 4096
  const RX_BATCH_SIZE := 64

  datatype Descriptor = Descriptor(addr: nat, len: uint32)

  function Addresses(descs: seq<Descriptor>): (addrs: seq<nat>)
    ensures |addrs| == |descs|
    ensures forall i :: 0 <= i < |descs| ==> addrs[i] == descs[i].addr
  {
    seq(|descs|, i requires 0 <= i < |descs| => descs[i].addr)
  }

  /** The address of every frame, once each. */
  function AllFrames(n: nat): (all: multiset<nat>)
    ensures |all| == n
  {
    if n == 0 then multiset{} else AllFrames(n - 1) + multiset{(n - 1) * FRAME_SIZE}
  }

  lemma {:induction false} FramesAreDistinct(n: nat, a: nat)
    ensures AllFrames(n)[a] == if a % FRAME_SIZE == 0 && a < n * FRAME_SIZE then 1 else 0
  {
    if n > 0 {
      FramesAreDistinct(n - 1, a);
      LastFrame(n, a);
    }
  }

  lemma LastFrame(n: nat, a: nat)
    requires n > 0
    ensures a == (n - 1) * FRAME_SIZE <==>
              a % FRAME_SIZE == 0 && a < n * FRAME_SIZE && !(a < (n - 1) * FRAME_SIZE)
  {
  }

  /** The five places a frame can be in, taken together. */
  function Places(stack: seq<nat>, fill: seq<nat>, kernel: multiset<nat>, rx: seq<nat>, caller: multiset<nat>): multiset<nat> {
    multiset(stack) + multiset(fill) + kernel + multiset(rx) + caller
  }

  lemma PlacesSize(stack: seq<nat>, fill: seq<nat>, kernel: multiset<nat>, rx: seq<nat>, caller: multiset<nat>)
    ensures |Places(stack, fill, kernel, rx, caller)| == |stack| + |fill| + |kernel| + |rx| + |caller|
  {
  }

  lemma StackToFill(stack: seq<nat>, a: nat, fill: seq<nat>, kernel: multiset<nat>, rx: seq<nat>, caller: multiset<nat>)
    ensures Places(stack, fill + [a], kernel, rx, caller) == Places(stack + [a], fill, kernel, rx, caller)
  {
  }

  lemma FillToKernel(stack: seq<nat>, a: nat, fill: seq<nat>, kernel: multiset<nat>, rx: seq<nat>, caller: multiset<nat>)
    ensures Places(stack, fill, kernel + multiset{a}, rx, caller) == Places(stack, [a] + fill, kernel, rx, caller)
  {
  }

  lemma KernelToRx(stack: seq<nat>, fill: seq<nat>, kernel: multiset<nat>, a: nat, rx: seq<nat>, caller: multiset<nat>)
    requires a in kernel
    ensures Places(stack, fill, kernel - multiset{a}, rx + [a], caller) == Places(stack, fill, kernel, rx, caller)
  {
    assert kernel == kernel - multiset{a} + multiset{a};
  }

  lemma RxToCaller(stack: seq<nat>, fill: seq<nat>, kernel: multiset<nat>, front: seq<nat>, rx: seq<nat>, caller: multiset<nat>)
    ensures Places(stack, fill, kernel, rx, caller + multiset(front)) == Places(stack, fill, kernel, front + rx, caller)
  {
  }

  lemma CallerToStack(stack: seq<nat>, fill: seq<nat>, kernel: multiset<nat>, rx: seq<nat>, caller: multiset<nat>, a: nat)
    requires a in caller
    ensures Places(stack + [a], fill, kernel, rx, caller - multiset{a}) == Places(stack, fill, kernel, rx, caller)
  {
    assert caller == caller - multiset{a} + multiset{a};
  }

  lemma StrangerToStack(stack: seq<nat>, fill: seq<nat>, kernel: multiset<nat>, rx: seq<nat>, caller: multiset<nat>, a: nat)
    requires a !in caller
    ensures Places(stack + [a], fill, kernel, rx, caller - multiset{a}) != Places(stack, fill, kernel, rx, caller)
  {
    assert caller - multiset{a} == caller;
    PlacesSize(stack, fill, kernel, rx, caller);
    PlacesSize(stack + [a], fill, kernel, rx, caller);
  }

  /** The frames in order of address. */
  function FirstAddresses(n: nat): (stack: seq<nat>)
    ensures |stack| == n
  {
    seq(n, i requires 0 <= i < n => i * FRAME_SIZE)
  }

  lemma {:induction false} FirstFrames(n: nat)
    ensures multiset(FirstAddresses(n)) == AllFrames(n)
  {
    if n > 0 {
      FirstFrames(n - 1);
      hide FirstAddresses;
      OneMoreFrame(n - 1);
    }
  }

  lemma OneMoreFrame(n: nat)
    ensures FirstAddresses(n + 1) == FirstAddresses(n) + [n * FRAME_SIZE]
  {
  }

  lemma AllOnStack(n: nat)
    ensures Places(FirstAddresses(n), [], multiset{}, [], multiset{}) == AllFrames(n)
  {
    FirstFrames(n);
  }

  /** The k topmost entries of a stack, top first. */
  function TopDown(stack: seq<nat>, k: nat): (top: seq<nat>)
    requires k <= |stack|
    ensures |top| == k
  {
    seq(k, i requires 0 <= i < k => stack[|stack| - 1 - i])
  }

  /** A refill of a ring with room for `capacity`: as many frames as fit, or as there are, move over from the top. */
  ghost predicate IsRefill(stack: seq<nat>, ring: seq<nat>, capacity: nat, stack2: seq<nat>, ring2: seq<nat>)
    requires |ring| <= capacity
  {
    var k := Min(|stack|, capacity - |ring|);
    stack2 == stack[..|stack| - k] && ring2 == ring + TopDown(stack, k)
  }

  lemma TopNone(stack: seq<nat>)
    ensures TopDown(stack, 0) == [] && stack[..|stack|] == stack
  {
  }

  lemma OneDown(stack: seq<nat>, k: nat)
    requires k < |stack|
    ensures TopDown(stack, k + 1) == TopDown(stack, k) + [stack[|stack| - 1 - k]]
    ensures stack[..|stack| - k] == stack[..|stack| - k - 1] + [stack[|stack| - 1 - k]]
  {
  }

  class XdpSocket {
    /** free_frames_, used as a stack of free_frame_count_ entries, and num_frames_. */
    const freeFrames: array<nat>
    const numFrames: nat
    var freeCount: nat
    var doubleReleases: nat

    /** The rings, oldest entry first, and the room the fill ring has. */
    var fillRing: seq<nat>
    var rxRing: seq<Descriptor>
    const fillCapacity: nat

    /** Frames that the kernel is filling, and frames that recv_batch has handed out. */
    ghost var kernel: multiset<nat>
    ghost var caller: multiset<nat>

    ghost predicate Shape()
      reads this, freeFrames
    {
      freeCount <= numFrames <= freeFrames.Length && |fillRing| <= fillCapacity
    }

    /** The free frames, the next one to be used last. */
    ghost function Stack(): (stack: seq<nat>)
      reads this, freeFrames
      requires Shape()
      ensures |stack| == freeCount
    {
      freeFrames[..freeCount]
    }

    /** Where the frames are, all together. */
    ghost function Everywhere(): multiset<nat>
      reads this, freeFrames
      requires Shape()
    {
      Places(Stack(), fillRing, kernel, Addresses(rxRing), caller)
    }

    /** Every frame is in exactly one place. */
    ghost predicate Conserved()
      reads this, freeFrames
    {
      Shape() && Everywhere() == AllFrames(numFrames)
    }

    /** Under conservation each frame address is in exactly one place, once, and nothing else is in any. */
    lemma EachFrameIsInOnePlace(a: nat)
      requires Conserved()
      ensures multiset(freeFrames[..freeCount])[a] + multiset(fillRing)[a] + kernel[a]
              + multiset(Addresses(rxRing))[a] + caller[a] == if a % FRAME_SIZE == 0 && a < numFrames * FRAME_SIZE then 1 else 0
    {
      hide AllFrames;
      FramesAreDistinct(numFrames, a);
    }

    lemma CountsAddUp()
      requires Conserved()
      ensures freeCount + |fillRing| + |kernel| + |rxRing| + |caller| == numFrames
    {
      PlacesSize(freeFrames[..freeCount], fillRing, kernel, Addresses(rxRing), caller);
    }

    /** The end of the constructor: every frame on the stack, then as many as fit into the fill ring. */
    constructor (n: nat, fillCapacity: nat)
      ensures Conserved() && fresh(freeFrames) && numFrames == n && doubleReleases == 0
      ensures caller == multiset{} && kernel == multiset{} && rxRing == [] && this.fillCapacity == fillCapacity
      ensures IsRefill(FirstAddresses(n), [], fillCapacity, Stack(), fillRing)
    {
      freeFrames := new nat[n];
      numFrames := n;
      this.fillCapacity := fillCapacity;
      freeCount, doubleReleases := 0, 0;
      fillRing, rxRing := [], [];
      kernel, caller := multiset{}, multiset{};
      new;
      hide XdpSocket.Conserved, XdpSocket.Stack, FirstAddresses, IsRefill;
      SeedFreeFrames();
      RefillFillRing();
    }

    /** The loop of the constructor that puts every frame on the stack. */
    method SeedFreeFrames()
      requires freeCount == 0 && numFrames == freeFrames.Length && fillRing == [] && rxRing == []
      requires kernel == multiset{} && caller == multiset{}
      modifies `freeCount, freeFrames
      ensures Conserved() && freeCount == numFrames && Stack() == FirstAddresses(numFrames)
    {
      hide Places, AllFrames;
      var i := 0;
      while i < numFrames
        invariant 0 <= i <= numFrames && freeCount == i
        invariant forall j :: 0 <= j < i ==> freeFrames[j] == j * FRAME_SIZE
      {
        freeFrames[freeCount] := i * FRAME_SIZE;
        freeCount := freeCount + 1;
        i := i + 1;
      }
      assert freeFrames[..freeCount] == FirstAddresses(numFrames);
      AllOnStack(numFrames);
      assert Addresses(rxRing) == [];
    }

    /** refill_fill_ring: moves frames from the top of the stack into the fill ring while it has room. */
    method RefillFillRing()
      requires Conserved()
      modifies `freeCount, `fillRing
      ensures Conserved()
      ensures IsRefill(old(Stack()), old(fillRing), fillCapacity, Stack(), fillRing)
    {
      hide Places, AllFrames, TopDown, Addresses;
      TopNone(freeFrames[..freeCount]);
      ghost var stack := freeFrames[..freeCount];
      var room := fillCapacity - |fillRing|;
      var stock := if room < freeCount then room else freeCount;
      var i := 0;
      while i < stock
        invariant 0 <= i <= stock && freeCount == |stack| - i && freeFrames[..freeCount] == stack[..freeCount]
        invariant Conserved() && fillRing == old(fillRing) + TopDown(stack, i)
      {
        OneDown(stack, i);
        assert freeFrames[..freeCount] == freeFrames[..freeCount - 1] + [freeFrames[freeCount - 1]];
        StackToFill(freeFrames[..freeCount - 1], freeFrames[freeCount - 1], fillRing, kernel, Addresses(rxRing), caller);
        freeCount := freeCount - 1;
        fillRing := fillRing + [freeFrames[freeCount]];
        i := i + 1;
      }
    }

    /** recv_batch: hands out up to `max` received frames, oldest first, and no more than a batch. */
    method RecvBatch(max: nat) returns (out: seq<Descriptor>)
      requires Conserved()
      modifies `freeCount, `fillRing, `rxRing, `caller
      ensures Conserved()
      ensures |out| == Min(Min(max, RX_BATCH_SIZE), |old(rxRing)|) && old(rxRing) == out + rxRing
      ensures IsRefill(old(Stack()), old(fillRing), fillCapacity, Stack(), fillRing)
      ensures caller == old(caller) + multiset(Addresses(out))
    {
      hide Places, AllFrames, XdpSocket.Conserved, IsRefill;
      RefillFillRing();
      var want := if max < RX_BATCH_SIZE then max else RX_BATCH_SIZE;
      var received := if want < |rxRing| then want else |rxRing|;
      out := [];
      var i := 0;
      while i < received
        invariant 0 <= i <= received && out == rxRing[..i]
      {
        out := out + [rxRing[i]];
        i := i + 1;
      }
      ReleaseReceived(received);
    }

    /** xsk_ring_cons__release: the oldest entries leave the ring, and their frames are the caller's. */
    method ReleaseReceived(received: nat)
      requires Conserved() && received <= |rxRing|
      modifies `rxRing, `caller
      ensures Conserved() && rxRing == old(rxRing)[received..]
      ensures caller == old(caller) + multiset(Addresses(old(rxRing)[..received]))
    {
      hide Places, AllFrames;
      var front, rest := rxRing[..received], rxRing[received..];
      assert Addresses(rxRing) == Addresses(front) + Addresses(rest);
      RxToCaller(freeFrames[..freeCount], fillRing, kernel, Addresses(front), Addresses(rest), caller);
      rxRing := rest;
      caller := caller + multiset(Addresses(front));
    }

    /** release_frame. A caller that holds the frame gets it back on the stack, never counted as a double release. From
        anyone else the address corrupts the pool, unless every frame is on the stack: only then it is counted. */
    method ReleaseFrame(addr: nat)
      requires Shape()
      modifies `freeCount, `doubleReleases, `caller, freeFrames
      ensures Shape()
      ensures old(Conserved()) && addr in old(caller) ==>
                Conserved() && caller == old(caller) - multiset{addr} && doubleReleases == old(doubleReleases)
      ensures old(Conserved()) ==> (Conserved() <==> addr in old(caller) || old(freeCount) == numFrames)
      ensures old(Conserved()) && old(freeCount) == numFrames ==> addr !in old(caller)
      ensures if old(freeCount) < numFrames
              then Stack() == old(Stack()) + [addr] && doubleReleases == old(doubleReleases)
              else Stack() == old(Stack()) && doubleReleases == old(doubleReleases) + 1
    {
      hide Places, AllFrames;
      if addr in caller {
        CallerToStack(freeFrames[..freeCount], fillRing, kernel, Addresses(rxRing), caller, addr);
        PlacesSize(freeFrames[..freeCount], fillRing, kernel, Addresses(rxRing), caller);
      } else {
        StrangerToStack(freeFrames[..freeCount], fillRing, kernel, Addresses(rxRing), caller, addr);
      }
      if freeCount < numFrames {
        freeFrames[freeCount] := addr;
        freeCount := freeCount + 1;
        caller := caller - multiset{addr};
        assert freeFrames[..freeCount] == old(freeFrames[..freeCount]) + [addr];
      } else {
        doubleReleases := doubleReleases + 1;
      }
    }

    /** The kernel takes the oldest frame offered to it. */
    method KernelTakes()
      requires Conserved() && fillRing != []
      modifies `fillRing, `kernel
      ensures Conserved() && fillRing == old(fillRing)[1..] && kernel == old(kernel) + multiset{old(fillRing)[0]}
    {
      hide Places, AllFrames;
      assert fillRing == [fillRing[0]] + fillRing[1..];
      FillToKernel(freeFrames[..freeCount], fillRing[0], fillRing[1..], kernel, Addresses(rxRing), caller);
      kernel := kernel + multiset{fillRing[0]};
      fillRing := fillRing[1..];
    }

    /** The kernel delivers a packet in one of the frames it took. */
    method KernelDelivers(addr: nat, len: uint32)
      requires Conserved() && addr in kernel
      modifies `rxRing, `kernel
      ensures Conserved() && rxRing == old(rxRing) + [Descriptor(addr, len)] && kernel == old(kernel) - multiset{addr}
    {
      hide Places, AllFrames;
      var d := Descriptor(addr, len);
      KernelToRx(freeFrames[..freeCount], fillRing, kernel, addr, Addresses(rxRing), caller);
      assert Addresses(rxRing + [d]) == Addresses(rxRing) + [addr];
      kernel := kernel - multiset{addr};
      rxRing := rxRing + [d];
    }
  }

  /** A socket whose first packet has just been received. */
  method FirstPacket(n: nat, fillCapacity: nat, len: uint32) returns (socket: XdpSocket, frame: nat)
    requires n >= 2 && fillCapacity >= 2
    ensures fresh(socket) && fresh(socket.freeFrames) && socket.Conserved() && socket.numFrames == n
    ensures socket.caller == multiset{frame} && socket.freeCount + 2 <= n && socket.doubleReleases == 0
  {
    hide Places, AllFrames, XdpSocket.Conserved;
    socket := new XdpSocket(n, fillCapacity);
    frame := socket.fillRing[0];
    socket.KernelTakes();
    socket.KernelDelivers(frame, len);
    var received := socket.RecvBatch(1);
    OneOf(received, socket.rxRing, Descriptor(frame, len));
    socket.CountsAddUp();
  }

  lemma OneOf(received: seq<Descriptor>, rest: seq<Descriptor>, d: Descriptor)
    requires received + rest == [d] && |received| == 1
    ensures multiset(Addresses(received)) == multiset{d.addr}
  {
    assert received[0] == (received + rest)[0];
    assert Addresses(received) == [d.addr];
  }

  /** A double release that nobody counts: a packet arrives, and its frame is released twice. From then on the stack
      offers one frame to two owners. */
  method MissedDoubleRelease(n: nat, fillCapacity: nat, len: uint32) returns (socket: XdpSocket, frame: nat)
    requires n >= 2 && fillCapacity >= 2
    ensures fresh(socket) && socket.Shape() && !socket.Conserved() && socket.doubleReleases == 0
    ensures exists rest :: socket.freeFrames[..socket.freeCount] == rest + [frame] + [frame]
  {
    hide Places, AllFrames;
    socket, frame := FirstPacket(n, fillCapacity, len);
    ghost var rest := socket.freeFrames[..socket.freeCount];
    socket.ReleaseFrame(frame);
    assert socket.caller == multiset{};
    socket.ReleaseFrame(frame);
    assert socket.freeFrames[..socket.freeCount] == rest + [frame] + [frame];
  }

  /** parse_and_release: whatever the parser says, the frame goes back to the pool. */
  method ParseAndRelease(socket: XdpSocket, umem: array<uint8>, desc: Descriptor, out: Target) returns (ok: bool)
    requires socket.Conserved() && desc.addr in socket.caller && desc.addr + desc.len <= umem.Length
    requires umem as object != socket.freeFrames as object
    modifies socket, socket.freeFrames, out
    ensures socket.Conserved() && socket.caller == old(socket.caller) - multiset{desc.addr}
    ensures socket.Stack() == old(socket.Stack()) + [desc.addr] && socket.doubleReleases == old(socket.doubleReleases)
    ensures socket.fillRing == old(socket.fillRing) && socket.rxRing == old(socket.rxRing) && socket.kernel == old(socket.kernel)
    ensures ok <==> IsOrder(umem[desc.addr..desc.addr + desc.len])
    ensures ok ==>
              var frame := umem[desc.addr..desc.addr + desc.len];
              var m := MessageAt(frame, WireAt(frame));
              && out.order.orderId == m.orderId && out.order.price == m.price && out.order.qty == m.qty
              && out.order.side == m.side && out.order.tif == m.tif && out.order.clientId == m.clientId
              && out.order.timestampNs == old(out.order.timestampNs)
              && out.order.eventTag == old(out.order.eventTag) && out.order.clientTag == old(out.order.clientTag)
    ensures !ok ==> out.order == old(out.order)
  {
    ok := ParseOrderZeroCopy(umem, desc.addr, desc.len, out);
    socket.ReleaseFrame(desc.addr);
  }
}
