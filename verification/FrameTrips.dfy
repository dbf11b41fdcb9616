/** The two readers of order frames compared with each other, and with the writer. */
module FrameTrips {
  import opened Types
  import opened Frames
  import opened Classifiers
  import opened OrderParsers

  // ---------- Classifier and parser ----------

  /** On every byte string: what the parser accepts, the classifier redirects; and what the classifier redirects, the
      parser accepts exactly when the frame also passes the parser's own checks. */
  method Compare(f: Bytes) returns (redirected: bool, message: Option<Message>)
    ensures redirected <==> IsOrderTraffic(f)
    ensures message.Some? ==> redirected
    ensures redirected ==> (message.Some? <==> IsTrusted(f))
  {
    var verdict := Classify(f, true);
    redirected := verdict == REDIRECTED;
    message := Parse(f);
  }

  /** The classifier never looks at the version nibble. */
  lemma VersionIsNotClassified(f: Bytes, version: nat)
    requires IsOrderTraffic(f) && version < 16
    ensures var f2 := f[IpAt(f) := version * 16 + f[IpAt(f)] % 16];
            && IsOrderTraffic(f2)
            && (version != 4 ==> !IsOrder(f2))
  {
    var f2 := f[IpAt(f) := version * 16 + f[IpAt(f)] % 16];
    Nibbles(version, f[IpAt(f)] % 16);
    assert IpAt(f2) == IpAt(f) && IpBytes(f2) == IpBytes(f);
    assert forall i :: 0 <= i < |f| && i != IpAt(f) ==> f2[i] == f[i];
  }

  lemma Nibbles(high: nat, low: nat)
    requires low < 16
    ensures (high * 16 + low) % 16 == low && (high * 16 + low) / 16 == high
  {
  }

  // ---------- Writing ----------

  /** v as k bytes in network byte order. */
  function Put(v: nat, k: nat): (b: Bytes)
    ensures |b| == k
  {
    if k == 0 then [] else Put(v / 256, k - 1) + [v % 256]
  }

  function SideByte(s: Side): uint8 {
    if s.BUY? then 0 else 1
  }

  function TifByte(t: TimeInForce): uint8 {
    if t.GTC? then 0 else if t.IOC? then 1 else 2
  }

  /** OrderWireFormat as tools/send_test_orders.cpp fills it. */
  function PutMessage(m: Message): (b: Bytes)
    ensures |b| == WIRE_BYTES
  {
    Put(m.orderId, 8) + Put(Unsigned(m.price), 8) + Put(m.qty, 4) + Put(m.clientId, 8) + [SideByte(m.side), TifByte(m.tif)]
  }

  const IP_HEADER: Bytes := [0x45, 0, 0, 58, 0, 0, 0, 0, 0, 17, 0, 0, 0, 0, 0, 0, 0, 0, 0, 0]
  const UDP_HEADER: Bytes := [0, 0, 0x9C, 0x40, 0, 38, 0, 0]

  /** A VLAN tag of either kind. */
  datatype Tag = Tag(customer: bool, tci: uint16)

  function TagProto(t: Tag): Bytes {
    if t.customer then [0x81, 0x00] else [0x88, 0xA8]
  }

  /** EtherType fields and tags in front of the IPv4 header. */
  function PutTags(tags: seq<Tag>): Bytes {
    if tags == [] then [0x08, 0x00]
    else TagProto(tags[0]) + Put(tags[0].tci, 2) + PutTags(tags[1..])
  }

  /** A whole frame; the two MAC addresses are arbitrary. */
  function PutFrame(macs: Bytes, tags: seq<Tag>, m: Message): Bytes
    requires |macs| == 12
  {
    macs + PutTags(tags) + IP_HEADER + UDP_HEADER + PutMessage(m)
  }

  // ---------- Reading back ----------

  /** Reading inside the second part of a concatenation. */
  lemma {:induction false} NetShift(a: Bytes, b: Bytes, i: nat, k: nat)
    requires i + k <= |b|
    ensures Net(a + b, |a| + i, k) == Net(b, i, k)
  {
    if k > 0 {
      NetShift(a, b, i, k - 1);
    }
  }

  lemma {:induction false} NetFront(a: Bytes, b: Bytes, i: nat, k: nat)
    requires i + k <= |a|
    ensures Net(a + b, i, k) == Net(a, i, k)
  {
    if k > 0 {
      NetFront(a, b, i, k - 1);
    }
  }

  lemma {:induction false} PutThenNet(v: nat, k: nat)
    requires v < Pow256(k)
    ensures Net(Put(v, k), 0, k) == v
  {
    if k > 0 {
      PutThenNet(v / 256, k - 1);
      NetFront(Put(v / 256, k - 1), [v % 256], 0, k - 1);
    }
  }

  /** A number written in the middle of something is read back. */
  lemma ReadBack(a: Bytes, v: nat, k: nat, b: Bytes)
    requires v < Pow256(k)
    ensures Net(a + Put(v, k) + b, |a|, k) == v
  {
    NetFront(a + Put(v, k), b, |a|, k);
    NetShift(a, Put(v, k), 0, k);
    PutThenNet(v, k);
  }

  lemma SignedUnsigned(p: int64)
    ensures Signed(Unsigned(p)) == p
  {
  }

  // ---------- Bytes ----------

  /** The i-th of k bytes counts from the most significant. */
  lemma {:induction false} PutByte(v: nat, k: nat, i: nat)
    requires i < k
    ensures Put(v, k)[i] == v / Pow256(k - 1 - i) % 256
  {
    if i < k - 1 {
      PutByte(v / 256, k - 1, i);
      DivTwice(v, Pow256(k - 2 - i));
    } else {
      assert Pow256(0) == 1;
    }
  }

  lemma DivTwice(v: nat, p: nat)
    requires p > 0
    ensures v / 256 / p == v / (256 * p)
  {
    var q := v / (256 * p);
    Quotient(v, 256 * p);
    Regrouped(q, p);
    OneByteLess(v, q * p, p);
    QuotientIs(v / 256, p, q);
  }

  lemma Quotient(v: nat, d: nat)
    requires d > 0
    ensures v / d * d <= v < v / d * d + d
  {
    assert v == v / d * d + v % d;
  }

  lemma Regrouped(q: int, p: int)
    ensures q * (256 * p) == 256 * (q * p)
  {
  }

  lemma OneByteLess(v: nat, n: int, p: nat)
    requires 256 * n <= v < 256 * n + 256 * p
    ensures n <= v / 256 < n + p
  {
  }

  lemma QuotientIs(x: nat, p: nat, q: nat)
    requires q * p <= x < q * p + p
    ensures x / p == q
  {
    var d := x / p;
    assert x == d * p + x % p;
    if d < q {
      NextMultiple(p, d, q);
    } else if d > q {
      NextMultiple(p, q, d);
    }
  }

  lemma NextMultiple(p: nat, a: int, b: int)
    requires a < b
    ensures a * p + p <= b * p
  {
    assert (b - a - 1) * p >= 0;
    assert (b - a - 1) * p == b * p - a * p - p;
  }

  /** Which byte of the 30 holds what: the identifiers, the price in two's complement and the quantity with their most
      significant byte first, then side and time in force. */
  lemma MessageBytes(m: Message, i: nat)
    ensures i < 8 ==> PutMessage(m)[i] == m.orderId / Pow256(7 - i) % 256
    ensures i < 8 ==> PutMessage(m)[8 + i] == (if m.price >= 0 then m.price else m.price + U64_LIMIT) / Pow256(7 - i) % 256
    ensures i < 4 ==> PutMessage(m)[16 + i] == m.qty / Pow256(3 - i) % 256
    ensures i < 8 ==> PutMessage(m)[20 + i] == m.clientId / Pow256(7 - i) % 256
    ensures PutMessage(m)[28] == match m.side { case BUY => 0 case SELL => 1 }
    ensures PutMessage(m)[29] == match m.tif { case GTC => 0 case IOC => 1 case FOK => 2 }
  {
    hide Put, Pow256;
    if i < 8 {
      PutByte(m.orderId, 8, i);
      PutByte(Unsigned(m.price), 8, i);
      PutByte(m.clientId, 8, i);
    }
    if i < 4 {
      PutByte(m.qty, 4, i);
    }
  }

  /** An order-entry datagram byte by byte, its IPv4 header at `ip`: EtherType 0800, at least five header words, protocol 17,
      no fragment, destination port 9C40, and a UDP length of at least 38. */
  predicate TrafficBytesAt(f: Bytes, ip: nat)
    requires ip >= 2
  {
    && |f| >= ip + 20
    && f[ip - 2] == 0x08 && f[ip - 1] == 0x00
    && f[ip] % 16 >= 5 && f[ip + 9] == 17
    && f[ip + 6] % 64 == 0 && f[ip + 7] == 0
    && var udp := ip + 4 * (f[ip] % 16);
    && |f| >= udp + 8
    && f[udp + 2] == 0x9C && f[udp + 3] == 0x40
    && (f[udp + 4] > 0 || f[udp + 5] >= 38)
  }

  /** The bytes of one tag in front of it. */
  predicate TagBytes(f: Bytes) {
    |f| >= 18 && ((f[12] == 0x81 && f[13] == 0x00) || (f[12] == 0x88 && f[13] == 0xA8))
  }

  /** And those that the parser asks for: version 4, a total length that covers the message and lies within the frame, side,
      time in force and quantity in range. */
  predicate OrderBytesAt(f: Bytes, ip: nat)
    requires ip >= 2
  {
    && TrafficBytesAt(f, ip)
    && f[ip] / 16 == 4
    && var header, total := 4 * (f[ip] % 16), f[ip + 2] as int * 256 + f[ip + 3];
    && header + 38 <= total <= |f| - ip
    && var wire := ip + header + 8;
    && f[wire + 28] <= 1 && f[wire + 29] <= 2
    && (f[wire + 16] > 0 || f[wire + 17] > 0 || f[wire + 18] > 0 || f[wire + 19] > 0)
  }

  lemma FragmentBytes(high: uint8, low: uint8)
    ensures var h: int, l: int := high, low; (h * 256 + l) % 0x4000 == 0 <==> h % 64 == 0 && l == 0
  {
  }

  lemma TrafficAt(f: Bytes)
    requires |f| >= 14
    ensures IsOrderTraffic(f) <==> |f| >= IpAt(f) && TrafficBytesAt(f, IpAt(f))
  {
    if |f| >= IpAt(f) + 20 {
      FragmentBytes(f[IpAt(f) + 6], f[IpAt(f) + 7]);
    }
  }

  lemma QtyBytes(f: Bytes, i: nat)
    requires i + 4 <= |f|
    ensures Net(f, i, 4) > 0 <==> f[i] > 0 || f[i + 1] > 0 || f[i + 2] > 0 || f[i + 3] > 0
  {
    assert Net(f, i, 1) == f[i];
    assert Net(f, i, 2) == Net(f, i, 1) * 256 + f[i + 1];
    assert Net(f, i, 3) == Net(f, i, 2) * 256 + f[i + 2];
    assert Net(f, i, 4) == Net(f, i, 3) * 256 + f[i + 3];
  }

  lemma OrderAt(f: Bytes)
    requires |f| >= 14
    ensures IsOrder(f) <==> |f| >= IpAt(f) && OrderBytesAt(f, IpAt(f))
  {
    hide Net, IsOrderTraffic;
    TrafficAt(f);
    if IsOrderTraffic(f) && |f| >= WireAt(f) + 30 {
      QtyBytes(f, WireAt(f) + 16);
    }
  }

  /** Which byte strings are order traffic, and which of these are orders. */
  lemma TrafficIs(f: Bytes)
    ensures IsOrderTraffic(f) <==> TrafficBytesAt(f, 14) || (TagBytes(f) && TrafficBytesAt(f, 18))
    ensures IsOrder(f) <==> OrderBytesAt(f, 14) || (TagBytes(f) && OrderBytesAt(f, 18))
  {
    if |f| >= 14 {
      TrafficAt(f);
      OrderAt(f);
    }
  }

  /** The message behind any prefix is read back field by field. */
  lemma MessageRoundTrip(before: Bytes, m: Message)
    requires m.qty > 0
    ensures var f := before + PutMessage(m);
            FieldsInRange(f, |before|) && MessageAt(f, |before|) == m
  {
    hide Net, Put;
    Pow256Values();
    var id, price, qty, client := Put(m.orderId, 8), Put(Unsigned(m.price), 8), Put(m.qty, 4), Put(m.clientId, 8);
    var last := [SideByte(m.side), TifByte(m.tif)];
    var f := before + PutMessage(m);
    ReadBack(before, m.orderId, 8, price + qty + client + last);
    assert f == before + id + (price + qty + client + last);
    ReadBack(before + id, Unsigned(m.price), 8, qty + client + last);
    assert f == (before + id) + price + (qty + client + last);
    ReadBack(before + id + price, m.qty, 4, client + last);
    assert f == (before + id + price) + qty + (client + last);
    ReadBack(before + id + price + qty, m.clientId, 8, last);
    assert f == (before + id + price + qty) + client + last;
    SignedUnsigned(m.price);
  }

  /** The headers of a frame with at most one tag pass every check. */
  lemma HeadersPass(macs: Bytes, tags: seq<Tag>, m: Message)
    requires |macs| == 12 && |tags| <= 1
    ensures var f := PutFrame(macs, tags, m);
            && IsOrderTraffic(f)
            && WireAt(f) == |f| - WIRE_BYTES
            && f[IpAt(f)] / 16 == 4 && IpBytes(f) == IP_BYTES && Net16(f, IpAt(f) + 2) == 58 && IpAt(f) + 58 == |f|
  {
    hide PutMessage, Put;
    var f := PutFrame(macs, tags, m);
    if tags == [] {
      assert f[12] == 0x08 && f[13] == 0x00;
      assert f[14..34] == IP_HEADER && f[34..42] == UDP_HEADER;
      HeadersAt(f, 14);
    } else {
      OneTagBytes(tags);
      assert f[12..14] == TagProto(tags[0]);
      assert f[16] == 0x08 && f[17] == 0x00;
      assert f[18..38] == IP_HEADER && f[38..46] == UDP_HEADER;
      HeadersAt(f, 18);
    }
  }

  lemma OneTagBytes(tags: seq<Tag>)
    requires |tags| == 1
    ensures PutTags(tags) == TagProto(tags[0]) + Put(tags[0].tci, 2) + [0x08, 0x00]
  {
    assert tags[1..] == [];
  }

  lemma TwoTagsBytes(tags: seq<Tag>)
    requires |tags| >= 2
    ensures PutTags(tags) == TagProto(tags[0]) + Put(tags[0].tci, 2) +
                             (TagProto(tags[1]) + Put(tags[1].tci, 2) + PutTags(tags[2..]))
  {
    assert tags[1..][0] == tags[1] && tags[1..][1..] == tags[2..];
  }

  lemma HeaderBytes()
    ensures IP_HEADER[0] == 0x45 && IP_HEADER[2] == 0 && IP_HEADER[3] == 58 && IP_HEADER[6] == 0 && IP_HEADER[7] == 0
    ensures IP_HEADER[9] == 17
    ensures UDP_HEADER[2] == 0x9C && UDP_HEADER[3] == 0x40 && UDP_HEADER[4] == 0 && UDP_HEADER[5] == 38
  {
  }

  lemma HeadersAt(f: Bytes, ip: nat)
    requires |f| == ip + 58 && ip >= ETH_BYTES && IpAt(f) == ip && Net16(f, ip - 2) == ETH_P_IP
    requires f[ip..ip + 20] == IP_HEADER && f[ip + 20..ip + 28] == UDP_HEADER
    ensures IsOrderTraffic(f) && WireAt(f) == |f| - WIRE_BYTES
    ensures f[ip] / 16 == 4 && IpBytes(f) == IP_BYTES && Net16(f, ip + 2) == 58
  {
    var iph, udph := f[ip..ip + 20], f[ip + 20..ip + 28];
    HeaderBytes();
    assert iph[0] == f[ip] && iph[2] == f[ip + 2] && iph[3] == f[ip + 3] && iph[6] == f[ip + 6] && iph[7] == f[ip + 7];
    assert iph[9] == f[ip + 9];
    assert udph[2] == f[ip + 22] && udph[3] == f[ip + 23] && udph[4] == f[ip + 24] && udph[5] == f[ip + 25];
  }

  // ---------- Main results ----------

  /** Every message with a positive quantity survives the wire, untagged or with one tag of either kind: the frame is
      accepted by both readers and reads back as exactly that message. */
  lemma RoundTrip(macs: Bytes, tags: seq<Tag>, m: Message)
    requires |macs| == 12 && |tags| <= 1 && m.qty > 0
    ensures var f := PutFrame(macs, tags, m); IsOrder(f) && MessageAt(f, WireAt(f)) == m
  {
    hide PutMessage, PutTags, MessageAt, FieldsInRange;
    var before := macs + PutTags(tags) + IP_HEADER + UDP_HEADER;
    HeadersPass(macs, tags, m);
    MessageRoundTrip(before, m);
    assert PutFrame(macs, tags, m) == before + PutMessage(m);
  }

  /** What was sent is what the parser writes: with the frame of a message in memory, the six fields become those of the
      message and the other three stay. */
  method ReceiveSent(memory: array<uint8>, at: nat, ghost macs: Bytes, ghost tags: seq<Tag>, ghost m: Message,
                     frameLen: uint32, out: Target)
    returns (ok: bool)
    requires |macs| == 12 && |tags| <= 1 && m.qty > 0 && at + frameLen <= memory.Length
    requires memory[at..at + frameLen] == PutFrame(macs, tags, m)
    modifies out
    ensures ok
    ensures out.order.orderId == m.orderId && out.order.price == m.price && out.order.qty == m.qty
    ensures out.order.side == m.side && out.order.tif == m.tif && out.order.clientId == m.clientId
    ensures out.order.timestampNs == old(out.order.timestampNs)
    ensures out.order.eventTag == old(out.order.eventTag) && out.order.clientTag == old(out.order.clientTag)
  {
    hide PutFrame, IsOrder, MessageAt, WireAt;
    RoundTrip(macs, tags, m);
    ok := ParseOrderZeroCopy(memory, at, frameLen, out);
  }

  /** Two or more tags are refused by both. */
  lemma TwoTagsAreRefused(macs: Bytes, tags: seq<Tag>, m: Message)
    requires |macs| == 12 && |tags| >= 2
    ensures var f := PutFrame(macs, tags, m); !HasIp(f) && !IsOrder(f)
  {
    hide PutMessage, Put;
    var f := PutFrame(macs, tags, m);
    var first, second := TagProto(tags[0]) + Put(tags[0].tci, 2), TagProto(tags[1]) + Put(tags[1].tci, 2);
    var rest := PutTags(tags[2..]) + IP_HEADER + UDP_HEADER + PutMessage(m);
    assert |f| >= 20 && Net16(f, 12) == Net16(first, 0) && Net16(f, 16) == Net16(second, 0) by {
      hide Net16;
      TwoTagsBytes(tags);
      Rebracket(macs, first, second, PutTags(tags[2..]), IP_HEADER, UDP_HEADER, PutMessage(m));
      Middle(macs, first, second + rest);
      Middle(macs + first, second, rest);
    }
  }

  lemma Rebracket(a: Bytes, b: Bytes, c: Bytes, d: Bytes, x: Bytes, y: Bytes, z: Bytes)
    ensures a + (b + (c + d)) + x + y + z == a + b + (c + (d + x + y + z)) == (a + b) + c + (d + x + y + z)
  {
  }

  lemma Middle(a: Bytes, b: Bytes, c: Bytes)
    ensures forall i :: 0 <= i < |b| ==> (a + b + c)[|a| + i] == b[i]
    ensures |b| >= 2 ==> Net16(a + b + c, |a|) == Net16(b, 0)
  {
  }

  /** A zero quantity, which would be a cancel, never comes off the wire. */
  lemma ZeroQtyIsRefused(macs: Bytes, tags: seq<Tag>, m: Message)
    requires |macs| == 12 && |tags| <= 1 && m.qty == 0
    ensures var f := PutFrame(macs, tags, m); IsOrderTraffic(f) && !IsOrder(f)
  {
    hide PutTags, Put, Net;
    HeadersPass(macs, tags, m);
    var f := PutFrame(macs, tags, m);
    var ahead := macs + PutTags(tags) + IP_HEADER + UDP_HEADER + Put(m.orderId, 8) + Put(Unsigned(m.price), 8);
    var behind := Put(m.clientId, 8) + [SideByte(m.side), TifByte(m.tif)];
    Pow256Values();
    ReadBack(ahead, 0, 4, behind);
    assert f == ahead + Put(0, 4) + behind;
  }

  /** The two do not agree on every packet shape, although net/xdp_prog.bpf.c:33-37 says so: this frame, an order with
      version nibble 6, is redirected and then refused. */
  lemma TheyDisagreeOnVersionSix()
    ensures exists f :: IsOrderTraffic(f) && !IsOrder(f) && |f| == 72
  {
    hide PutMessage;
    var m := Message(1, 100, 1, 1, BUY, GTC);
    var macs := seq(12, _ => 0);
    var f := PutFrame(macs, [], m);
    HeadersPass(macs, [], m);
    VersionIsNotClassified(f, 6);
  }
}
