/** parse_order_zero_copy of include/hydra/xdp/zero_copy_parser.hpp: the user-space reader of the same frames. */
module OrderParsers {
  import opened Types
  import opened Masks
  import opened Frames

  /** The headers: where the order message starts, if they pass every check. */
  method ParseHeaders(f: Bytes) returns (wireAt: Option<nat>)
    ensures wireAt.Some? ==> IsOrderTraffic(f) && wireAt.value == WireAt(f) && |f| >= WireAt(f) + WIRE_BYTES
    ensures wireAt.Some? <==> IsOrderTraffic(f) && f[IpAt(f)] / 16 == 4
                              && Net16(f, IpAt(f) + 2) >= IpBytes(f) + UDP_BYTES + WIRE_BYTES
                              && IpAt(f) + Net16(f, IpAt(f) + 2) <= |f|
  {
    hide And;
    var offset := 0;
    if |f| < offset + ETH_BYTES {
      return None;
    }
    var ethertype := Net16(f, 12);
    offset := offset + ETH_BYTES;
    if IsVlan(ethertype) {
      if |f| < offset + TAG_BYTES {
        return None;
      }
      ethertype := Net16(f, offset + 2);
      offset := offset + TAG_BYTES;
    }
    if ethertype != ETH_P_IP {
      return None;
    }
    if |f| < offset + IP_BYTES {
      return None;
    }
    var versionIhl := f[offset];
    if versionIhl / 16 != 4 {
      return None;
    }
    NibbleMask(versionIhl);
    var ipHdrLen := And(versionIhl, 0x0F) * 4;
    if ipHdrLen < IP_BYTES || |f| < offset + ipHdrLen {
      return None;
    }
    if f[offset + 9] != IPPROTO_UDP {
      return None;
    }
    FragmentMask(Net16(f, offset + 6));
    if And(Net16(f, offset + 6), 0x3FFF) != 0 {
      return None;
    }
    var ipTotLen := Net16(f, offset + 2);
    if ipTotLen < ipHdrLen + UDP_BYTES + WIRE_BYTES || offset + ipTotLen > |f| {
      return None;
    }
    var udpOff := offset + ipHdrLen;
    if |f| < udpOff + UDP_BYTES {
      return None;
    }
    if Net16(f, udpOff + 2) != ORDER_ENTRY_PORT {
      return None;
    }
    if Net16(f, udpOff + 4) < UDP_BYTES + WIRE_BYTES {
      return None;
    }
    var wireOff := udpOff + UDP_BYTES;
    if |f| < wireOff + WIRE_BYTES {
      return None;
    }
    wireAt := Some(wireOff);
  }

  /** Everything the parser reads: a message exactly for the frames that are orders. */
  method Parse(f: Bytes) returns (message: Option<Message>)
    ensures message == if IsOrder(f) then Some(MessageAt(f, WireAt(f))) else None
  {
    var wireAt := ParseHeaders(f);
    if wireAt.None? {
      return None;
    }
    var w := wireAt.value;
    var orderId, price, qty, clientId := Net64(f, w), Signed(Net64(f, w + 8)), Net32(f, w + 16), Net64(f, w + 20);
    var side, tif := f[w + 28], f[w + 29];
    if side > 1 || tif > 2 || qty == 0 {
      return None;
    }
    message := Some(Message(orderId, price, qty, clientId, SideOfByte(side), TifOfByte(tif)));
  }

  /** The order that the parser fills in. */
  class Target {
    var order: Order

    constructor (order: Order)
      ensures this.order == order
    {
      this.order := order;
    }
  }

  /** parse_order_zero_copy, for the pointer `at` into `memory`: on success it writes six fields of `out` and no other;
      otherwise it writes nothing. */
  method ParseOrderZeroCopy(memory: array?<uint8>, at: nat, frameLen: uint32, out: Target) returns (ok: bool)
    requires memory != null ==> at + frameLen <= memory.Length
    modifies out
    ensures ok <==> memory != null && IsOrder(memory[at..at + frameLen])
    ensures ok ==>
              var frame := memory[at..at + frameLen];
              var m := MessageAt(frame, WireAt(frame));
              && out.order.orderId == m.orderId && out.order.price == m.price && out.order.qty == m.qty
              && out.order.side == m.side && out.order.tif == m.tif && out.order.clientId == m.clientId
              && out.order.timestampNs == old(out.order.timestampNs)
              && out.order.eventTag == old(out.order.eventTag) && out.order.clientTag == old(out.order.clientTag)
    ensures !ok ==> out.order == old(out.order)
  {
    if memory == null {
      return false;
    }
    var parsed := Parse(memory[at..at + frameLen]);
    if parsed.None? {
      return false;
    }
    var m := parsed.value;
    out.order := out.order.(orderId := m.orderId);
    out.order := out.order.(price := m.price);
    out.order := out.order.(qty := m.qty);
    out.order := out.order.(side := m.side);
    out.order := out.order.(tif := m.tif);
    out.order := out.order.(clientId := m.clientId);
    ok := true;
  }
}
