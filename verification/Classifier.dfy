/** net/xdp_prog.bpf.c with net/parsing_helpers.h: the kernel-side decision to hand a frame to the order-entry socket. */
module Classifiers {
  import opened Types
  import opened Masks
  import opened Frames

  /** struct hdr_cursor. */
  class HdrCursor {
    var pos: nat

    constructor ()
      ensures pos == 0
    {
      pos := 0;
    }
  }

  /** net/xdp_prog.bpf.c:38; the header's default of 2 is overridden. */
  const VLAN_MAX_DEPTH := 1

  /** Follows VLAN tags from position `pos`, where `proto` is the EtherType read so far. */
  function SkipTags(f: Bytes, pos: nat, proto: int, depth: nat): (int, nat)
    decreases depth
  {
    if depth == 0 || !IsVlan(proto) || pos + TAG_BYTES > |f| then (proto, pos)
    else SkipTags(f, pos + TAG_BYTES, Net16(f, pos + 2), depth - 1)
  }

  /** parse_ethhdr_vlan: the EtherType behind the tags, or -1; the cursor ends up behind the tags. */
  method ParseEthhdr(nh: HdrCursor, f: Bytes) returns (proto: int)
    requires nh.pos == 0
    modifies nh
    ensures |f| < ETH_BYTES ==> proto == -1 && nh.pos == 0
    ensures |f| >= ETH_BYTES ==> (proto, nh.pos) == SkipTags(f, ETH_BYTES, Net16(f, 12), VLAN_MAX_DEPTH)
  {
    if nh.pos + ETH_BYTES > |f| {
      return -1;
    }
    var vlh := nh.pos + ETH_BYTES;
    proto := Net16(f, nh.pos + 12);
    var i := 0;
    while i < VLAN_MAX_DEPTH
      invariant 0 <= i <= VLAN_MAX_DEPTH && vlh >= ETH_BYTES
      invariant SkipTags(f, ETH_BYTES, Net16(f, 12), VLAN_MAX_DEPTH) == SkipTags(f, vlh, proto, VLAN_MAX_DEPTH - i)
    {
      if !IsVlan(proto) || vlh + TAG_BYTES > |f| {
        break;
      }
      proto := Net16(f, vlh + 2);
      vlh := vlh + TAG_BYTES;
      i := i + 1;
    }
    nh.pos := vlh;
  }

  /** parse_iphdr: the protocol, or -1; the cursor moves behind the header and its options. */
  method ParseIphdr(nh: HdrCursor, f: Bytes) returns (protocol: int, iph: nat)
    modifies nh
    ensures iph == old(nh.pos)
    ensures var ok := |f| >= iph + IP_BYTES && f[iph] % 16 * 4 >= IP_BYTES && |f| >= iph + f[iph] % 16 * 4;
            if ok then protocol == f[iph + 9] && nh.pos == iph + f[iph] % 16 * 4 else protocol == -1 && nh.pos == iph
  {
    iph := nh.pos;
    if iph + IP_BYTES > |f| {
      return -1, iph;
    }
    var hdrsize := f[iph] % 16 * 4;
    if hdrsize < IP_BYTES {
      return -1, iph;
    }
    if nh.pos + hdrsize > |f| {
      return -1, iph;
    }
    nh.pos := nh.pos + hdrsize;
    protocol := f[iph + 9];
  }

  /** parse_udphdr: the payload length that the header announces, or -1. */
  method ParseUdphdr(nh: HdrCursor, f: Bytes) returns (payload: int, udph: nat)
    modifies nh
    ensures udph == old(nh.pos)
    ensures if |f| >= udph + UDP_BYTES
            then payload == (if Net16(f, udph + 4) >= UDP_BYTES then Net16(f, udph + 4) - UDP_BYTES else -1)
                 && nh.pos == udph + UDP_BYTES
            else payload == -1 && nh.pos == udph
  {
    udph := nh.pos;
    if udph + UDP_BYTES > |f| {
      return -1, udph;
    }
    nh.pos := udph + UDP_BYTES;
    payload := Net16(f, udph + 4) - UDP_BYTES;
    if payload < 0 {
      return -1, udph;
    }
  }

  datatype Verdict = REDIRECTED | PASSED | NOT_UDP | WRONG_PORT | FRAGMENTED

  /** hydra_xdp_redirect: the statistics slot it bumps. Only REDIRECTED hands the frame to the socket. */
  method Classify(f: Bytes, socketBound: bool) returns (verdict: Verdict)
    ensures verdict == REDIRECTED <==> IsOrderTraffic(f) && socketBound
    ensures verdict == PASSED <==> IsOrderTraffic(f) && !socketBound
    ensures verdict == NOT_UDP <==> !HasIp(f) || f[IpAt(f) + 9] != IPPROTO_UDP
    ensures verdict == FRAGMENTED <==> HasIp(f) && f[IpAt(f) + 9] == IPPROTO_UDP && IsFragment(f)
  {
    hide And, SkipTags;
    var nh := new HdrCursor();
    var ethType := ParseEthhdr(nh, f);
    OneTag(f);
    if ethType != ETH_P_IP {
      return NOT_UDP;
    }
    var ipType, iph := ParseIphdr(nh, f);
    if ipType != IPPROTO_UDP {
      return NOT_UDP;
    }
    FragmentMask(Net16(f, iph + 6));
    if And(Net16(f, iph + 6), 0x3FFF) != 0 {
      return FRAGMENTED;
    }
    var payload, udph := ParseUdphdr(nh, f);
    if payload < 0 || Net16(f, udph + 2) != ORDER_ENTRY_PORT {
      return WRONG_PORT;
    }
    if payload < WIRE_BYTES {
      return WRONG_PORT;
    }
    if !socketBound {
      return PASSED;
    }
    verdict := REDIRECTED;
  }

  /** With room for one tag, tags are skipped as IpAt says. */
  lemma OneTag(f: Bytes)
    ensures |f| >= ETH_BYTES ==>
              var (proto, pos) := SkipTags(f, ETH_BYTES, Net16(f, 12), VLAN_MAX_DEPTH);
              if |f| >= IpAt(f) then pos == IpAt(f) && proto == Net16(f, pos - 2) else IsVlan(proto)
  {
  }

  /** enum hydra_stat_slot. */
  function StatSlot(v: Verdict): (slot: nat)
    ensures slot < 5
  {
    match v
    case REDIRECTED => 0
    case PASSED => 1
    case NOT_UDP => 2
    case WRONG_PORT => 3
    case FRAGMENTED => 4
  }

  /** An IPv4 packet that says UDP and is whole. */
  predicate IsUnfragmentedUdp(f: Bytes) {
    HasIp(f) && f[IpAt(f) + 9] == IPPROTO_UDP && !IsFragment(f)
  }

  /** The program with its statistics map. */
  class XdpProgram {
    const stats: array<nat>

    constructor ()
      ensures fresh(stats) && stats.Length == 5 && stats[..] == [0, 0, 0, 0, 0]
    {
      stats := new nat[5](_ => 0);
    }

    /** One frame: each of the five counters moves by one exactly for the frames it counts, and each frame moves one. */
    method HydraXdpRedirect(f: Bytes, socketBound: bool) returns (verdict: Verdict)
      requires stats.Length == 5
      modifies stats
      ensures verdict == REDIRECTED <==> IsOrderTraffic(f) && socketBound
      ensures stats[0] == old(stats[0]) + if IsOrderTraffic(f) && socketBound then 1 else 0
      ensures stats[1] == old(stats[1]) + if IsOrderTraffic(f) && !socketBound then 1 else 0
      ensures stats[2] == old(stats[2]) + if !HasIp(f) || f[IpAt(f) + 9] != IPPROTO_UDP then 1 else 0
      ensures stats[3] == old(stats[3]) + if IsUnfragmentedUdp(f) && !IsOrderTraffic(f) then 1 else 0
      ensures stats[4] == old(stats[4]) + if HasIp(f) && f[IpAt(f) + 9] == IPPROTO_UDP && IsFragment(f) then 1 else 0
    {
      verdict := Classify(f, socketBound);
      stats[StatSlot(verdict)] := stats[StatSlot(verdict)] + 1;
    }
  }
}
