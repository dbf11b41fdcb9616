/** The file that include/hydra/dataset_generator.hpp writes and reads: a 112-byte header and one 256-byte record for each
    event, numbers in the byte order of the (little-endian) host. What neither side interprets, the generator's
    configuration and an order's links, tag and padding, travels as opaque bytes. */
module DatasetFiles {
  import opened Types
  import opened Frames
  import opened FrameTrips
  import Datasets

  const HEADER_BYTES := 112
  const RECORD_BYTES := 256
  const FORMAT_VERSION: uint32 := 3

  /** "HYDRALOB". */
  const MAGIC: Bytes := [0x48, 0x59, 0x44, 0x52, 0x41, 0x4C, 0x4F, 0x42]

  type Block16 = b: Bytes | |b| == 16 witness Zeros(16)
  type Block25 = b: Bytes | |b| == 25 witness Zeros(25)
  type Block32 = b: Bytes | |b| == 32 witness Zeros(32)
  type Block88 = b: Bytes | |b| == 88 witness Zeros(88)

  function Zeros(k: nat): (b: Bytes)
    ensures |b| == k
  {
    seq(k, i => 0)
  }

  /** An order as its 128 bytes hold it. Side, time in force and event tag are whatever their byte says. */
  datatype StoredOrder = StoredOrder(
    orderId: uint64,
    price: int64,
    qty: uint32,
    side: uint8,
    tif: uint8,
    eventTag: uint8,
    hotPadding: Block25,
    links: Block16,
    timestampNs: uint64,
    clientId: uint64,
    clientTag: Block32,
    coldPadding: Block16)

  datatype StoredEvent = StoredEvent(kind: Datasets.Kind, order: StoredOrder, target: uint64, arrivalNs: uint64)

  datatype ReadError =
    | TRUNCATED_HEADER
    | BAD_MAGIC
    | VERSION_MISMATCH
    | TOO_MANY_EVENTS
    | INVALID_EVENT_TYPE(record: nat)
    | INVALID_SIDE_OR_TIF(record: nat)

  datatype ReadResult = Ok(events: seq<StoredEvent>) | Err(error: ReadError)

  // ---------- Numbers ----------

  /** v as k bytes, the least significant first. */
  function PutHost(v: nat, k: nat): (b: Bytes)
    ensures |b| == k
  {
    if k == 0 then [] else [v % 256] + PutHost(v / 256, k - 1)
  }

  function Host(b: Bytes): (v: nat)
    ensures v < Pow256(|b|)
  {
    if b == [] then 0 else b[0] + 256 * Host(b[1..])
  }

  lemma {:induction false} HostRoundTrip(v: nat, k: nat)
    requires v < Pow256(k)
    ensures Host(PutHost(v, k)) == v
  {
    if k > 0 {
      HostRoundTrip(v / 256, k - 1);
      assert PutHost(v, k)[1..] == PutHost(v / 256, k - 1);
    }
  }

  function Host64(b: Bytes): uint64
    requires |b| == 8
  {
    Pow256Values();
    Host(b)
  }

  function Host32(b: Bytes): uint32
    requires |b| == 4
  {
    Pow256Values();
    Host(b)
  }

  lemma Host64RoundTrip(v: uint64)
    ensures Host64(PutHost(v, 8)) == v
  {
    Pow256Values();
    HostRoundTrip(v, 8);
  }

  lemma Host32RoundTrip(v: uint32)
    ensures Host32(PutHost(v, 4)) == v
  {
    Pow256Values();
    HostRoundTrip(v, 4);
  }

  // ---------- Layout ----------

  /** The cache line of the fields that matching touches. */
  function PutHotLine(o: StoredOrder): (b: Bytes)
    ensures |b| == 64
  {
    PutHost(o.orderId, 8) + PutHost(Unsigned(o.price), 8) + PutHost(o.qty, 4) + [o.side, o.tif, o.eventTag]
    + o.hotPadding + o.links
  }

  function PutColdLine(o: StoredOrder): (b: Bytes)
    ensures |b| == 64
  {
    PutHost(o.timestampNs, 8) + PutHost(o.clientId, 8) + o.clientTag + o.coldPadding
  }

  function KindByte(k: Datasets.Kind): uint8 {
    match k
    case NEW_ORDER => 0
    case CANCEL => 1
    case AMEND => 2
  }

  function KindOfByte(b: uint8): Datasets.Kind
    requires b <= 2
  {
    if b == 0 then Datasets.NEW_ORDER else if b == 1 then Datasets.CANCEL else Datasets.AMEND
  }

  function PutRecord(e: StoredEvent): (b: Bytes)
    ensures |b| == RECORD_BYTES
  {
    ([KindByte(e.kind)] + Zeros(63)) + PutHotLine(e.order) + PutColdLine(e.order)
    + (PutHost(e.target, 8) + PutHost(e.arrivalNs, 8) + Zeros(48))
  }

  function PutHeader(config: Block88, count: uint64): (b: Bytes)
    ensures |b| == HEADER_BYTES
  {
    MAGIC + PutHost(FORMAT_VERSION, 4) + Zeros(4) + PutHost(count, 8) + config
  }

  function PutRecords(events: seq<StoredEvent>): (b: Bytes)
    ensures |b| == RECORD_BYTES * |events|
  {
    if events == [] then [] else PutRecords(events[..|events| - 1]) + PutRecord(events[|events| - 1])
  }

  function PutFile(config: Block88, events: seq<StoredEvent>): (f: Bytes)
    requires |events| < U64_LIMIT
    ensures |f| == HEADER_BYTES + RECORD_BYTES * |events|
  {
    PutHeader(config, |events|) + PutRecords(events)
  }

  // ---------- What a reader may find ----------

  function OrderOfLines(hot: Bytes, cold: Bytes): StoredOrder
    requires |hot| == 64 && |cold| == 64
  {
    StoredOrder(Host64(hot[..8]), Signed(Host64(hot[8..16])), Host32(hot[16..20]), hot[20], hot[21], hot[22],
                hot[23..48], hot[48..],
                Host64(cold[..8]), Host64(cold[8..16]), cold[16..48], cold[48..])
  }

  /** The record holds an event type, and a new order also a side and a time in force. */
  predicate RecordOk(rec: Bytes)
    requires |rec| == RECORD_BYTES
  {
    rec[0] <= 2 && (rec[0] == 0 ==> rec[84] <= 1 && rec[85] <= 2)
  }

  function EventOf(rec: Bytes): StoredEvent
    requires |rec| == RECORD_BYTES && RecordOk(rec)
  {
    StoredEvent(KindOfByte(rec[0]), OrderOfLines(rec[64..128], rec[128..192]), Host64(rec[192..200]), Host64(rec[200..208]))
  }

  function Count(f: Bytes): uint64
    requires |f| >= HEADER_BYTES
  {
    Host64(f[16..24])
  }

  function Record(f: Bytes, i: nat): (rec: Bytes)
    requires |f| >= HEADER_BYTES + RECORD_BYTES * (i + 1)
    ensures |rec| == RECORD_BYTES
  {
    f[HEADER_BYTES + RECORD_BYTES * i..HEADER_BYTES + RECORD_BYTES * (i + 1)]
  }

  /** The header is this format's, and announces no more records than the file holds. */
  predicate HeaderOk(f: Bytes) {
    && |f| >= HEADER_BYTES
    && f[..8] == MAGIC
    && Host32(f[8..12]) == FORMAT_VERSION
    && RECORD_BYTES * Count(f) <= |f| - HEADER_BYTES
  }

  predicate RecordsOk(f: Bytes, n: nat)
    requires |f| >= HEADER_BYTES + RECORD_BYTES * n
  {
    forall i :: 0 <= i < n ==> RecordOk(Record(f, i))
  }

  predicate IsDatasetFile(f: Bytes) {
    HeaderOk(f) && RecordsOk(f, Count(f))
  }

  function Stored(f: Bytes, n: nat): (events: seq<StoredEvent>)
    requires |f| >= HEADER_BYTES + RECORD_BYTES * n && RecordsOk(f, n)
    ensures |events| == n
    ensures forall i :: 0 <= i < n ==> events[i] == EventOf(Record(f, i))
  {
    seq(n, i requires 0 <= i < n => EventOf(Record(f, i)))
  }

  // ---------- Writing and reading ----------

  /** write_to_file(), as the bytes it writes. */
  method WriteToFile(config: Block88, events: seq<StoredEvent>) returns (f: Bytes)
    requires |events| < U64_LIMIT
    ensures f == PutFile(config, events)
  {
    hide PutRecord, PutHeader;
    f := PutHeader(config, |events|);
    var i := 0;
    while i < |events|
      invariant 0 <= i <= |events|
      invariant f == PutHeader(config, |events|) + PutRecords(events[..i])
    {
      f := f + PutRecord(events[i]);
      assert events[..i + 1][..i] == events[..i];
      i := i + 1;
    }
    assert events[..i] == events;
  }

  /** read_from_file(), on the bytes of the file. Which byte strings are refused, and as what, is exact; record numbers
      are those of the first offender. */
  method ReadFromFile(f: Bytes) returns (r: ReadResult)
    ensures r.Ok? <==> IsDatasetFile(f)
    ensures r.Ok? ==> r.events == Stored(f, Count(f))
    ensures r == Err(TRUNCATED_HEADER) <==> |f| < HEADER_BYTES
    ensures r == Err(BAD_MAGIC) <==> |f| >= HEADER_BYTES && f[..8] != MAGIC
    ensures r == Err(VERSION_MISMATCH) <==>
            |f| >= HEADER_BYTES && f[..8] == MAGIC && Host32(f[8..12]) != FORMAT_VERSION
    ensures r == Err(TOO_MANY_EVENTS) <==>
            && |f| >= HEADER_BYTES && f[..8] == MAGIC && Host32(f[8..12]) == FORMAT_VERSION
            && RECORD_BYTES * Count(f) > |f| - HEADER_BYTES
    ensures r.Err? && (r.error.INVALID_EVENT_TYPE? || r.error.INVALID_SIDE_OR_TIF?) ==>
            && HeaderOk(f) && r.error.record < Count(f)
            && RecordsOk(f, r.error.record) && !RecordOk(Record(f, r.error.record))
            && (r.error.INVALID_EVENT_TYPE? <==> Record(f, r.error.record)[0] > 2)
  {
    hide Host, OrderOfLines;
    if |f| < HEADER_BYTES {
      return Err(TRUNCATED_HEADER);
    }
    if f[..8] != MAGIC {
      return Err(BAD_MAGIC);
    }
    if Host32(f[8..12]) != FORMAT_VERSION {
      return Err(VERSION_MISMATCH);
    }
    var count := Count(f);
    if count > (|f| - HEADER_BYTES) / RECORD_BYTES {
      return Err(TOO_MANY_EVENTS);
    }
    var events := [];
    var i := 0;
    while i < count
      invariant 0 <= i <= count && RecordsOk(f, i) && events == Stored(f, i)
    {
      var rec := Record(f, i);
      if rec[0] > 2 {
        return Err(INVALID_EVENT_TYPE(i));
      }
      if rec[0] == 0 && (rec[84] > 1 || rec[85] > 2) {
        return Err(INVALID_SIDE_OR_TIF(i));
      }
      events := events + [EventOf(rec)];
      i := i + 1;
    }
    r := Ok(events);
  }

  // ---------- Round trip ----------

  /** Cutting the middle out of three parts. */
  lemma MiddleCut(a: Bytes, b: Bytes, c: Bytes)
    ensures (a + b + c)[|a|..|a| + |b|] == b
  {
  }

  lemma HotLineRoundTrip(o: StoredOrder)
    ensures var hot := PutHotLine(o);
            && Host64(hot[..8]) == o.orderId && Signed(Host64(hot[8..16])) == o.price && Host32(hot[16..20]) == o.qty
            && hot[20] == o.side && hot[21] == o.tif && hot[22] == o.eventTag
            && hot[23..48] == o.hotPadding && hot[48..] == o.links
  {
    hide PutHost, Host64, Host32;
    var hot := PutHotLine(o);
    assert hot[..8] == PutHost(o.orderId, 8) && hot[8..16] == PutHost(Unsigned(o.price), 8) && hot[16..20] == PutHost(o.qty, 4);
    assert hot[23..48] == o.hotPadding && hot[48..] == o.links;
    Host64RoundTrip(o.orderId);
    Host64RoundTrip(Unsigned(o.price));
    Host32RoundTrip(o.qty);
  }

  lemma ColdLineRoundTrip(o: StoredOrder)
    ensures var cold := PutColdLine(o);
            && Host64(cold[..8]) == o.timestampNs && Host64(cold[8..16]) == o.clientId
            && cold[16..48] == o.clientTag && cold[48..] == o.coldPadding
  {
    hide PutHost, Host64;
    var cold := PutColdLine(o);
    assert cold[..8] == PutHost(o.timestampNs, 8) && cold[8..16] == PutHost(o.clientId, 8);
    assert cold[16..48] == o.clientTag && cold[48..] == o.coldPadding;
    Host64RoundTrip(o.timestampNs);
    Host64RoundTrip(o.clientId);
  }

  /** What read_from_file() asks of an event. */
  predicate Readable(e: StoredEvent) {
    e.kind.NEW_ORDER? ==> e.order.side <= 1 && e.order.tif <= 2
  }

  lemma RecordParts(e: StoredEvent)
    ensures var rec := PutRecord(e);
            && rec[0] == KindByte(e.kind) && rec[64..128] == PutHotLine(e.order) && rec[128..192] == PutColdLine(e.order)
            && rec[192..200] == PutHost(e.target, 8) && rec[200..208] == PutHost(e.arrivalNs, 8)
  {
    hide PutHost, PutHotLine, PutColdLine, KindByte;
    var rec, first := PutRecord(e), [KindByte(e.kind)] + Zeros(63);
    MiddleCut(first, PutHotLine(e.order), PutColdLine(e.order));
    assert rec[192..200] == PutHost(e.target, 8) && rec[200..208] == PutHost(e.arrivalNs, 8);
  }

  /** One record: every bit of the order comes back, and the reader refuses exactly what it should. */
  lemma RecordRoundTrip(e: StoredEvent)
    ensures RecordOk(PutRecord(e)) <==> Readable(e)
    ensures Readable(e) ==> EventOf(PutRecord(e)) == e
  {
    hide PutHost, Host64, Host32, PutHotLine, PutColdLine, PutRecord;
    var rec := PutRecord(e);
    RecordParts(e);
    HotLineRoundTrip(e.order);
    ColdLineRoundTrip(e.order);
    assert rec[84] == rec[64..128][20] && rec[85] == rec[64..128][21];
    Host64RoundTrip(e.target);
    Host64RoundTrip(e.arrivalNs);
  }

  // ---------- Bytes ----------

  /** The i-th byte of a number counts from the least significant. */
  lemma {:induction false} HostByte(v: nat, k: nat, i: nat)
    requires i < k
    ensures PutHost(v, k)[i] == v / Pow256(i) % 256
  {
    if i > 0 {
      HostByte(v / 256, k - 1, i - 1);
      DivTwice(v, Pow256(i - 1));
    } else {
      assert Pow256(0) == 1;
    }
  }

  /** Which byte of a record holds what: the kind, then from byte 64 on the order's identifier, price in two's complement,
      quantity, side, time in force and event tag, from byte 128 on its time and client, and from byte 192 on target and
      arrival; every number with its least significant byte first. */
  lemma RecordBytes(e: StoredEvent, i: nat)
    ensures var rec, price := PutRecord(e), if e.order.price >= 0 then e.order.price else e.order.price + U64_LIMIT;
            && rec[0] == (match e.kind { case NEW_ORDER => 0 case CANCEL => 1 case AMEND => 2 })
            && (i < 8 ==> rec[64 + i] == e.order.orderId / Pow256(i) % 256 && rec[72 + i] == price / Pow256(i) % 256)
            && (i < 4 ==> rec[80 + i] == e.order.qty / Pow256(i) % 256)
            && rec[84] == e.order.side && rec[85] == e.order.tif && rec[86] == e.order.eventTag
            && (i < 8 ==> rec[128 + i] == e.order.timestampNs / Pow256(i) % 256)
            && (i < 8 ==> rec[136 + i] == e.order.clientId / Pow256(i) % 256)
            && (i < 8 ==> rec[192 + i] == e.target / Pow256(i) % 256 && rec[200 + i] == e.arrivalNs / Pow256(i) % 256)
  {
    hide PutHost, Pow256;
    var rec, o := PutRecord(e), e.order;
    assert rec[64..128] == PutHotLine(o) && rec[128..192] == PutColdLine(o);
    if i < 8 {
      HostByte(o.orderId, 8, i);
      HostByte(Unsigned(o.price), 8, i);
      HostByte(o.timestampNs, 8, i);
      HostByte(o.clientId, 8, i);
      HostByte(e.target, 8, i);
      HostByte(e.arrivalNs, 8, i);
    }
    if i < 4 {
      HostByte(o.qty, 4, i);
    }
  }

  lemma {:induction false} RecordsCut(events: seq<StoredEvent>, i: nat)
    requires i < |events|
    ensures PutRecords(events)[RECORD_BYTES * i..RECORD_BYTES * (i + 1)] == PutRecord(events[i])
  {
    hide PutRecord;
    var front, last := events[..|events| - 1], events[|events| - 1];
    if i == |events| - 1 {
      MiddleCut(PutRecords(front), PutRecord(last), []);
    } else {
      RecordsCut(front, i);
      assert PutRecords(events)[RECORD_BYTES * i..RECORD_BYTES * (i + 1)]
          == PutRecords(front)[RECORD_BYTES * i..RECORD_BYTES * (i + 1)];
    }
  }

  lemma HeaderRoundTrip(config: Block88, events: seq<StoredEvent>, trailing: Bytes)
    requires |events| < U64_LIMIT
    ensures HeaderOk(PutFile(config, events) + trailing) && Count(PutFile(config, events) + trailing) == |events|
  {
    hide PutHost, Host64, Host32, PutRecords;
    var f, header := PutFile(config, events) + trailing, PutHeader(config, |events|);
    assert f[..8] == MAGIC && f[8..12] == PutHost(FORMAT_VERSION, 4) && f[16..24] == PutHost(|events|, 8);
    Host32RoundTrip(FORMAT_VERSION);
    Host64RoundTrip(|events|);
  }

  lemma RecordOfFile(config: Block88, events: seq<StoredEvent>, trailing: Bytes, i: nat)
    requires |events| < U64_LIMIT && i < |events|
    ensures Record(PutFile(config, events) + trailing, i) == PutRecord(events[i])
  {
    hide PutHeader, PutRecords, PutRecord;
    RecordsCut(events, i);
    var from, to := RECORD_BYTES * i, RECORD_BYTES * (i + 1);
    assert (PutHeader(config, |events|) + PutRecords(events) + trailing)[HEADER_BYTES + from..HEADER_BYTES + to]
        == PutRecords(events)[from..to];
  }

  /** Where everything is in a file: "HYDRALOB", version 3 and the number of records, the configuration from byte 24 on, and
      record k at byte 112 + 256 * k. */
  lemma FileBytes(config: Block88, events: seq<StoredEvent>, i: nat, k: nat, j: nat)
    requires |events| < U64_LIMIT
    ensures var f := PutFile(config, events);
            && |f| == 112 + 256 * |events|
            && f[..16] == [0x48, 0x59, 0x44, 0x52, 0x41, 0x4C, 0x4F, 0x42, 3, 0, 0, 0, 0, 0, 0, 0]
            && (i < 8 ==> f[16 + i] == |events| / Pow256(i) % 256)
            && (i < 88 ==> f[24 + i] == config[i])
            && (k < |events| && j < 256 ==> f[112 + 256 * k + j] == PutRecord(events[k])[j])
  {
    hide PutRecords, PutRecord, Pow256;
    var f, header := PutFile(config, events), PutHeader(config, |events|);
    assert f[..112] == header;
    VersionBytes();
    assert f[..16] == header[..16] == MAGIC + PutHost(FORMAT_VERSION, 4) + Zeros(4);
    hide PutHost;
    if i < 8 {
      HostByte(|events|, 8, i);
    }
    if k < |events| && j < 256 {
      RecordsCut(events, k);
      assert PutRecords(events)[256 * k..256 * (k + 1)][j] == PutRecords(events)[256 * k + j];
    }
  }

  lemma VersionBytes()
    ensures PutHost(FORMAT_VERSION, 4) == [3, 0, 0, 0] && Zeros(4) == [0, 0, 0, 0]
  {
    assert PutHost(0, 2) == [0, 0];
    assert PutHost(0, 3) == [0] + PutHost(0, 2);
  }

  /** What write_to_file() wrote, read_from_file() accepts exactly when every new order has a side and a time in force,
      and then it returns the very events; bytes behind the last record change nothing. */
  lemma FileRoundTrip(config: Block88, events: seq<StoredEvent>, trailing: Bytes)
    requires |events| < U64_LIMIT
    ensures var f := PutFile(config, events) + trailing;
            && (IsDatasetFile(f) <==> forall e :: e in events ==> Readable(e))
            && (IsDatasetFile(f) ==> Stored(f, Count(f)) == events)
  {
    hide PutFile, Count, HeaderOk, RecordOk, EventOf, Record, PutRecord, Readable;
    var f := PutFile(config, events) + trailing;
    HeaderRoundTrip(config, events, trailing);
    forall i | 0 <= i < |events|
      ensures Record(f, i) == PutRecord(events[i]) && (RecordOk(Record(f, i)) <==> Readable(events[i]))
      ensures Readable(events[i]) ==> EventOf(Record(f, i)) == events[i]
    {
      RecordOfFile(config, events, trailing, i);
      RecordRoundTrip(events[i]);
    }
  }

  // ---------- The generator's own datasets ----------

  /** An event of generate() as its record holds it: no links, no padding, no tag. */
  function Flattened(e: Datasets.DatasetEvent): StoredEvent
  {
    var o := e.order;
    StoredEvent(e.kind,
                StoredOrder(o.orderId, o.price, o.qty, SideByte(o.side), TifByte(o.tif), if o.eventTag.REPLACE? then 1 else 0,
                            Zeros(25), Zeros(16), o.timestampNs, o.clientId, Zeros(32), Zeros(16)),
                e.target, e.arrivalNs)
  }

  /** And back, when side, time in force and event tag are enumerators. */
  function Restored(e: StoredEvent): Datasets.DatasetEvent
    requires e.order.side <= 1 && e.order.tif <= 2 && e.order.eventTag <= 1
  {
    var o := e.order;
    Datasets.DatasetEvent(e.kind,
                          Order(o.orderId, o.price, o.qty, SideOfByte(o.side), TifOfByte(o.tif),
                                if o.eventTag == 1 then REPLACE else NEW_OR_CANCEL, o.timestampNs, o.clientId, ""),
                          e.target, e.arrivalNs)
  }

  /** A generated list is always accepted, and event by event it is what generate() returned. */
  lemma GeneratedListsSurvive(config: Block88, c: Datasets.Config, draws: seq<Datasets.Draw>, events: seq<Datasets.DatasetEvent>)
    requires |events| < U64_LIMIT && Datasets.AllDrawn(c, draws, events)
    ensures var f := PutFile(config, seq(|events|, i requires 0 <= i < |events| => Flattened(events[i])));
            && IsDatasetFile(f) && Count(f) == |events|
            && forall i :: 0 <= i < |events| ==>
                 && var e := Stored(f, Count(f))[i];
                 && e.order.side <= 1 && e.order.tif <= 2 && e.order.eventTag <= 1
                 && Restored(e) == events[i]
  {
    hide PutFile, Count, IsDatasetFile, Record, PutRecord, EventOf, Datasets.AllDrawn;
    Datasets.NoTags(c, draws, events);
    var flat := seq(|events|, i requires 0 <= i < |events| => Flattened(events[i]));
    assert PutFile(config, flat) + [] == PutFile(config, flat);
    FileRoundTrip(config, flat, []);
    HeaderRoundTrip(config, flat, []);
  }
}
