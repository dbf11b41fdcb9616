/** The intrusive doubly linked FIFO of one price level (append_to_level and unlink_from_level of
    include/hydra/order_book.hpp), on the memory of the order pool. */
module LinkedFifo {
  import opened Types
  import opened Pools

  /** An Order in its pool slot, with its prev_ and next_ links. */
  datatype OrderNode = OrderNode(order: Order, prev: Ptr, next: Ptr)

  type Nodes = map<Ptr, OrderNode>

  ghost predicate Distinct(f: seq<Ptr>) {
    forall i, j :: 0 <= i < j < |f| ==> f[i] != f[j]
  }

  ghost predicate LinkedAt(nodes: Nodes, f: seq<Ptr>, i: int)
    requires 0 <= i < |f|
  {
    && f[i] in nodes
    && nodes[f[i]].prev == At(f, i - 1)
    && nodes[f[i]].next == At(f, i + 1)
  }

  /** The slots of f are live, distinct, and chained in both directions. */
  ghost predicate Linked(nodes: Nodes, f: seq<Ptr>) {
    && Distinct(f)
    && NULL !in f
    && forall i {:trigger LinkedAt(nodes, f, i)} :: 0 <= i < |f| ==> LinkedAt(nodes, f, i)
  }

  function OrderAt(nodes: Nodes, p: Ptr): Order {
    if p in nodes then nodes[p].order else NO_ORDER
  }

  /** The orders that a chain of slots holds. */
  function OrdersAt(nodes: Nodes, f: seq<Ptr>): (orders: seq<Order>)
    ensures |orders| == |f|
    ensures forall i :: 0 <= i < |f| ==> orders[i] == OrderAt(nodes, f[i])
  {
    seq(|f|, i requires 0 <= i < |f| => OrderAt(nodes, f[i]))
  }

  /** The writes append_to_level makes to the order nodes. */
  function AppendNode(nodes: Nodes, tail: Ptr, p: Ptr, o: Order): Nodes
    requires tail == NULL || tail in nodes
  {
    var linked := if tail == NULL then nodes else nodes[tail := nodes[tail].(next := p)];
    linked[p := OrderNode(o, tail, NULL)]
  }

  /** The writes unlink_from_level makes to the order nodes, p being left as it was. */
  function UnlinkNode(nodes: Nodes, p: Ptr): Nodes
    requires p in nodes
    requires nodes[p].prev == NULL || nodes[p].prev in nodes
    requires nodes[p].next == NULL || nodes[p].next in nodes
  {
    var n := nodes[p];
    var left := if n.prev == NULL then nodes else nodes[n.prev := nodes[n.prev].(next := n.next)];
    if n.next == NULL then left else left[n.next := left[n.next].(prev := n.prev)]
  }

  /** The links of a chained slot are NULL or chained slots. */
  lemma Neighbours(nodes: Nodes, f: seq<Ptr>, k: nat)
    requires Linked(nodes, f) && k < |f|
    ensures f[k] in nodes
    ensures var n := nodes[f[k]]; (n.prev == NULL || n.prev in nodes) && (n.next == NULL || n.next in nodes)
    ensures nodes[f[k]].prev == NULL <==> k == 0
    ensures nodes[f[k]].next == NULL <==> k == |f| - 1
  {
    assert LinkedAt(nodes, f, k);
    if k > 0 {
      assert LinkedAt(nodes, f, k - 1);
    }
    if k + 1 < |f| {
      assert LinkedAt(nodes, f, k + 1);
    }
  }

  /** Appending touches no other order and no node outside the chain. */
  lemma AppendFrame(nodes: Nodes, f: seq<Ptr>, p: Ptr, o: Order)
    requires Linked(nodes, f) && p != NULL && p !in nodes
    ensures At(f, |f| - 1) == NULL || At(f, |f| - 1) in nodes
    ensures var after := AppendNode(nodes, At(f, |f| - 1), p, o);
            && after.Keys == nodes.Keys + {p}
            && after[p] == OrderNode(o, At(f, |f| - 1), NULL)
            && (forall q :: q in nodes ==> after[q].order == nodes[q].order)
            && (forall q :: q in nodes && q !in f ==> after[q] == nodes[q])
  {
    if f != [] {
      assert LinkedAt(nodes, f, |f| - 1);
    }
  }

  lemma AppendLinkedAt(nodes: Nodes, f: seq<Ptr>, p: Ptr, o: Order, i: nat)
    requires Linked(nodes, f) && p != NULL && p !in nodes && i < |f|
    requires At(f, |f| - 1) == NULL || At(f, |f| - 1) in nodes
    ensures f[i] != p
    ensures LinkedAt(AppendNode(nodes, At(f, |f| - 1), p, o), f + [p], i)
  {
    assert LinkedAt(nodes, f, i);
    assert i < |f| - 1 ==> f[i] != f[|f| - 1];
  }

  lemma AppendLinked(nodes: Nodes, f: seq<Ptr>, p: Ptr, o: Order)
    requires Linked(nodes, f) && p != NULL && p !in nodes
    ensures At(f, |f| - 1) == NULL || At(f, |f| - 1) in nodes
    ensures Linked(AppendNode(nodes, At(f, |f| - 1), p, o), f + [p])
  {
    AppendFrame(nodes, f, p, o);
    var after, g := AppendNode(nodes, At(f, |f| - 1), p, o), f + [p];
    forall i | 0 <= i < |g|
      ensures LinkedAt(after, g, i)
      ensures i < |f| ==> f[i] != p
    {
      if i < |f| {
        AppendLinkedAt(nodes, f, p, o, i);
      }
    }
  }

  lemma UnlinkLinked(nodes: Nodes, f: seq<Ptr>, k: nat)
    requires Linked(nodes, f) && k < |f|
    ensures f[k] in nodes
    ensures var n := nodes[f[k]]; (n.prev == NULL || n.prev in nodes) && (n.next == NULL || n.next in nodes)
    ensures Linked(UnlinkNode(nodes, f[k]) - {f[k]}, RemoveAt(f, k))
  {
    Neighbours(nodes, f, k);
    var after, g := UnlinkNode(nodes, f[k]) - {f[k]}, RemoveAt(f, k);
    assert LinkedAt(nodes, f, k);
    forall i | 0 <= i < |g|
      ensures LinkedAt(after, g, i)
    {
      var j := if i < k then i else i + 1;
      assert LinkedAt(nodes, f, j);
    }
  }

  /** Unlinking touches no order and no node outside the chain. */
  lemma UnlinkFrame(nodes: Nodes, f: seq<Ptr>, k: nat)
    requires Linked(nodes, f) && k < |f|
    ensures f[k] in nodes
    ensures var n := nodes[f[k]]; (n.prev == NULL || n.prev in nodes) && (n.next == NULL || n.next in nodes)
    ensures var after := UnlinkNode(nodes, f[k]);
            && after.Keys == nodes.Keys
            && (forall q :: q in nodes ==> after[q].order == nodes[q].order)
            && (forall q :: q in nodes && q !in f ==> after[q] == nodes[q])
  {
    Neighbours(nodes, f, k);
    assert LinkedAt(nodes, f, k);
  }
}
