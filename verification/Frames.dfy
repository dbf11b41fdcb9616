/** What an order-entry frame is: Ethernet with at most one 802.1Q or 802.1AD tag, IPv4 (section 3.1 of RFC 791), UDP
    (RFC 768), and the 30-byte order message of include/hydra/xdp/zero_copy_parser.hpp:53-62. */
module Frames {
  import opened Types
  import opened Masks

  type Bytes = seq<uint8>

  const ETH_P_IP := 0x0800
  const ETH_P_8021Q := 0x8100
  const ETH_P_8021AD := 0x88A8
  const IPPROTO_UDP := 17
  const ETH_BYTES := 14
  const TAG_BYTES := 4
  const IP_BYTES := 20
  const UDP_BYTES := 8
  const WIRE_BYTES := 30
  const ORDER_ENTRY_PORT := 40000

  /** The k bytes at position i as one number in network byte order. */
  function Net(f: Bytes, i: nat, k: nat): (v: nat)
    requires i + k <= |f|
  {
    if k == 0 then 0 else Net(f, i, k - 1) * 256 + f[i + k - 1]
  }

  function Net16(f: Bytes, i: nat): (v: uint16)
    requires i + 2 <= |f|
  {
    var high: int, low: int := f[i], f[i + 1];
    high * 256 + low
  }

  predicate IsVlan(proto: int) {
    proto == ETH_P_8021Q || proto == ETH_P_8021AD
  }

  /** The IHL nibble. */
  lemma NibbleMask(b: uint8)
    ensures And(b, 0x0F) == b % 16
  {
    assert Pow2(4) == 16;
    MaskIsMod(b, 4);
  }

  /** The more-fragments flag and the 13 offset bits together are the low 14 bits. */
  lemma FragmentMask(v: uint16)
    ensures And(v, 0x3FFF) == v % 0x4000
  {
    assert Pow2(7) == 128;
    assert Pow2(14) == 128 * Pow2(7);
    MaskIsMod(v, 14);
  }

  // ---------- Shape of a frame ----------

  /** Where the IPv4 header would start. */
  function IpAt(f: Bytes): nat
    requires |f| >= ETH_BYTES
  {
    if IsVlan(Net16(f, 12)) then ETH_BYTES + TAG_BYTES else ETH_BYTES
  }

  /** IPv4 header length from its IHL nibble. */
  function IpBytes(f: Bytes): nat
    requires |f| >= ETH_BYTES && |f| > IpAt(f)
  {
    f[IpAt(f)] % 16 * 4
  }

  predicate HasIp(f: Bytes) {
    && |f| >= ETH_BYTES
    && |f| >= IpAt(f)
    && Net16(f, IpAt(f) - 2) == ETH_P_IP
    && |f| >= IpAt(f) + IP_BYTES
    && IpBytes(f) >= IP_BYTES
    && |f| >= IpAt(f) + IpBytes(f)
  }

  /** More-fragments flag or a fragment offset. */
  predicate IsFragment(f: Bytes)
    requires HasIp(f)
  {
    Net16(f, IpAt(f) + 6) % 0x4000 != 0
  }

  predicate HasUdp(f: Bytes) {
    && HasIp(f)
    && f[IpAt(f) + 9] == IPPROTO_UDP
    && !IsFragment(f)
    && |f| >= IpAt(f) + IpBytes(f) + UDP_BYTES
  }

  /** An unfragmented UDP datagram for the order-entry port that announces room for a whole order message. */
  predicate IsOrderTraffic(f: Bytes) {
    && HasUdp(f)
    && var udp := IpAt(f) + IpBytes(f);
    && Net16(f, udp + 2) == ORDER_ENTRY_PORT
    && Net16(f, udp + 4) >= UDP_BYTES + WIRE_BYTES
  }

  /** Where the order message starts. */
  function WireAt(f: Bytes): nat
    requires HasIp(f)
  {
    IpAt(f) + IpBytes(f) + UDP_BYTES
  }

  /** What the parser checks beyond the classifier: it is really IPv4, its total length covers the message and lies
      within the frame, and the message's fields are in range. */
  predicate IsTrusted(f: Bytes)
    requires IsOrderTraffic(f)
  {
    && f[IpAt(f)] / 16 == 4
    && var total := Net16(f, IpAt(f) + 2);
    && total >= IpBytes(f) + UDP_BYTES + WIRE_BYTES
    && IpAt(f) + total <= |f|
    && FieldsInRange(f, WireAt(f))
  }

  predicate FieldsInRange(f: Bytes, w: nat)
    requires |f| >= w + WIRE_BYTES
  {
    f[w + 28] <= 1 && f[w + 29] <= 2 && Net(f, w + 16, 4) > 0
  }

  predicate IsOrder(f: Bytes) {
    IsOrderTraffic(f) && IsTrusted(f)
  }

  // ---------- The message ----------

  /** What an order message carries. */
  datatype Message = Message(orderId: uint64, price: int64, qty: uint32, clientId: uint64, side: Side, tif: TimeInForce)

  /** A 64-bit pattern read as a signed number. */
  function Signed(v: uint64): int64 {
    if v < 0x8000_0000_0000_0000 then v else v - U64_LIMIT
  }

  function Unsigned(v: int64): uint64 {
    if v >= 0 then v else v + U64_LIMIT
  }

  function SideOfByte(b: uint8): Side
    requires b <= 1
  {
    if b == 0 then BUY else SELL
  }

  function TifOfByte(b: uint8): TimeInForce
    requires b <= 2
  {
    if b == 0 then GTC else if b == 1 then IOC else FOK
  }

  lemma {:induction false} NetBound(f: Bytes, i: nat, k: nat)
    requires i + k <= |f|
    ensures Net(f, i, k) < Pow256(k)
  {
    if k > 0 {
      NetBound(f, i, k - 1);
    }
  }

  function Pow256(k: nat): (p: nat)
    ensures p > 0
  {
    if k == 0 then 1 else 256 * Pow256(k - 1)
  }

  lemma Pow256Values()
    ensures Pow256(1) == 0x100 && Pow256(2) == 0x1_0000 && Pow256(4) == 0x1_0000_0000
    ensures Pow256(8) == 0x1_0000_0000_0000_0000
  {
    assert Pow256(4) == 256 * 256 * Pow256(2);
    assert Pow256(6) == 256 * 256 * Pow256(4);
  }

  function Net64(f: Bytes, i: nat): (v: uint64)
    requires i + 8 <= |f|
  {
    NetBound(f, i, 8);
    Pow256Values();
    Net(f, i, 8)
  }

  function Net32(f: Bytes, i: nat): (v: uint32)
    requires i + 4 <= |f|
  {
    NetBound(f, i, 4);
    Pow256Values();
    Net(f, i, 4)
  }

  /** The message at position w. */
  function MessageAt(f: Bytes, w: nat): Message
    requires |f| >= w + WIRE_BYTES && FieldsInRange(f, w)
  {
    Message(Net64(f, w), Signed(Net64(f, w + 8)), Net32(f, w + 16), Net64(f, w + 20), SideOfByte(f[w + 28]), TifOfByte(f[w + 29]))
  }
}
