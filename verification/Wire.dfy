/**
 The control packets on the wire: each packet's `Serialize` fills a buffer through a moving offset, its
 `Deserialize` reads it back.
 */
module Wire {
  import opened Bytes
  import opened Options
  import opened Protocol

  const TYPE_RLY_INQUIRY: Byte := 2
  const TYPE_RLY_ADVICE: Byte := 3
  const TYPE_RLY_FILTER: Byte := 4
  const TYPE_RLY_REPORT: Byte := 6
  const TYPE_FW_PROBE: Byte := 7
  const TYPE_FW_FORWARD: Byte := 8
  const TYPE_FW_REPLY: Byte := 9
  const TYPE_BW_RESERVE: Byte := 10
  const TYPE_BW_FORWARD: Byte := 11
  const TYPE_BW_REPLY: Byte := 12
  const TYPE_BW_RELEASE: Byte := 13
  const MAX_REPORT_ENTRYS := 20

  /** Seconds and microseconds, four bytes each. */
  datatype Stamp = Stamp(sec: Word, usec: Word)
  datatype ReportEntry = ReportEntry(relay: EndPoint, delay: Stamp)

  datatype Advice = Advice(kind: Byte, ttl: Byte, source: EndPoint, destination: EndPoint, relays: seq<EndPoint>)
  datatype Report = Report(ttl: Byte, source: EndPoint, destination: EndPoint, reports: seq<ReportEntry>)
  datatype Probe = Probe(kind: Byte, ttl: Byte, source: EndPoint, relay: EndPoint, destination: EndPoint,
                         stamp: Stamp, bandwidth: Word, load: Word)

  // ---------- Fields ----------

  const ENDPOINT_LEN := 12
  const STAMP_LEN := 8
  const ENTRY_LEN := ENDPOINT_LEN + STAMP_LEN

  function EndPointBytes(e: EndPoint): (b: Data)
    ensures |b| == ENDPOINT_LEN
  {
    Le2(e.asn) + (Le2(e.port) + (Le4(e.addr) + Le4(e.mask)))
  }

  function EndPointAt(b: Data, at: nat): EndPoint
    requires at + ENDPOINT_LEN <= |b|
  {
    EndPoint(Get2(b, at), Get2(b, at + 2), Get4(b, at + 4), Get4(b, at + 8))
  }

  lemma EndPointRead(pre: Data, e: EndPoint, post: Data)
    ensures EndPointAt(pre + (EndPointBytes(e) + post), |pre|) == e
  {
    hide Le2, Le4, Get2, Get4;
    var b := pre + (EndPointBytes(e) + post);
    var p1 := pre + Le2(e.asn);
    var p2 := p1 + Le2(e.port);
    var p3 := p2 + Le4(e.addr);
    assert b == pre + (Le2(e.asn) + (Le2(e.port) + (Le4(e.addr) + (Le4(e.mask) + post))));
    assert b == p1 + (Le2(e.port) + (Le4(e.addr) + (Le4(e.mask) + post)));
    assert b == p2 + (Le4(e.addr) + (Le4(e.mask) + post));
    assert b == p3 + (Le4(e.mask) + post);
    GetPut2(pre, e.asn, Le2(e.port) + (Le4(e.addr) + (Le4(e.mask) + post)));
    GetPut2(p1, e.port, Le4(e.addr) + (Le4(e.mask) + post));
    GetPut4(p2, e.addr, Le4(e.mask) + post);
    GetPut4(p3, e.mask, post);
  }

  /**
   An end point byte by byte: autonomous system, port, address and mask, each number with its least significant byte
   first.
   */
  lemma EndPointPlaces(e: EndPoint)
    ensures var b := EndPointBytes(e);
            && b[0] + 256 * b[1] as int == e.asn && b[2] + 256 * b[3] as int == e.port
            && b[4] + 256 * b[5] as int + 65536 * b[6] as int + 16777216 * b[7] as int == e.addr
            && b[8] + 256 * b[9] as int + 65536 * b[10] as int + 16777216 * b[11] as int == e.mask
  {
    hide Le4;
    WordPlaces(e.addr);
    WordPlaces(e.mask);
  }

  lemma WordPlaces(v: Word)
    ensures var b := Le4(v); b[0] + 256 * b[1] as int + 65536 * b[2] as int + 16777216 * b[3] as int == v
  {
  }

  function StampBytes(t: Stamp): (b: Data)
    ensures |b| == STAMP_LEN
  {
    Le4(t.sec) + Le4(t.usec)
  }

  function StampAt(b: Data, at: nat): Stamp
    requires at + STAMP_LEN <= |b|
  {
    Stamp(Get4(b, at), Get4(b, at + 4))
  }

  lemma StampRead(pre: Data, t: Stamp, post: Data)
    ensures StampAt(pre + (StampBytes(t) + post), |pre|) == t
  {
    hide Le4, Get4;
    var b := pre + (StampBytes(t) + post);
    assert b == pre + (Le4(t.sec) + (Le4(t.usec) + post));
    assert b == (pre + Le4(t.sec)) + (Le4(t.usec) + post);
    GetPut4(pre, t.sec, Le4(t.usec) + post);
    GetPut4(pre + Le4(t.sec), t.usec, post);
  }

  /** A number in network byte order. */
  function NetBytes(v: Word): (b: Data)
    ensures |b| == 4
  {
    Le4(Swap4(v))
  }

  function NetAt(b: Data, at: nat): Word
    requires at + 4 <= |b|
  {
    Swap4(Get4(b, at))
  }

  /** In network byte order the most significant byte comes first. */
  lemma NetPlaces(v: Word)
    ensures var b := NetBytes(v); b[3] + 256 * b[2] as int + 65536 * b[1] as int + 16777216 * b[0] as int == v
  {
    hide Swap, Le2;
    var lo, hi := v % 65536, v / 65536;
    Halves(Swap(lo), Swap(hi));
    SwapPlaces(lo);
    SwapPlaces(hi);
    assert NetBytes(v) == Le2(Swap(hi)) + Le2(Swap(lo));
  }

  lemma SwapPlaces(v: Short)
    ensures Le2(Swap(v)) == [v / 256, v % 256]
  {
  }

  lemma NetRead(pre: Data, v: Word, post: Data)
    ensures NetAt(pre + (NetBytes(v) + post), |pre|) == v
  {
    GetPut4(pre, Swap4(v), post);
    Swap4Twice(v);
  }

  // ---------- Lists ----------

  function EndPointsBytes(es: seq<EndPoint>): (b: Data)
    ensures |b| == ENDPOINT_LEN * |es|
  {
    if es == [] then [] else EndPointBytes(es[0]) + EndPointsBytes(es[1..])
  }

  function EndPointsAt(b: Data, at: nat, n: nat): (es: seq<EndPoint>)
    requires at + ENDPOINT_LEN * n <= |b|
    ensures |es| == n
    decreases n
  {
    if n == 0 then [] else [EndPointAt(b, at)] + EndPointsAt(b, at + ENDPOINT_LEN, n - 1)
  }

  lemma {:induction false} EndPointsRead(pre: Data, es: seq<EndPoint>, rest: Data)
    ensures EndPointsAt(pre + (EndPointsBytes(es) + rest), |pre|, |es|) == es
    decreases |es|
  {
    if es != [] {
      hide EndPointBytes, EndPointAt;
      Assoc(EndPointBytes(es[0]), EndPointsBytes(es[1..]), rest);
      EndPointRead(pre, es[0], EndPointsBytes(es[1..]) + rest);
      Assoc(pre, EndPointBytes(es[0]), EndPointsBytes(es[1..]) + rest);
      EndPointsRead(pre + EndPointBytes(es[0]), es[1..], rest);
      assert es == [es[0]] + es[1..];
    }
  }

  function EntryBytes(e: ReportEntry): (b: Data)
    ensures |b| == ENTRY_LEN
  {
    EndPointBytes(e.relay) + StampBytes(e.delay)
  }

  function EntryAt(b: Data, at: nat): ReportEntry
    requires at + ENTRY_LEN <= |b|
  {
    ReportEntry(EndPointAt(b, at), StampAt(b, at + ENDPOINT_LEN))
  }

  function EntriesBytes(es: seq<ReportEntry>): (b: Data)
    ensures |b| == ENTRY_LEN * |es|
  {
    if es == [] then [] else EntryBytes(es[0]) + EntriesBytes(es[1..])
  }

  function EntriesAt(b: Data, at: nat, n: nat): (es: seq<ReportEntry>)
    requires at + ENTRY_LEN * n <= |b|
    ensures |es| == n
    decreases n
  {
    if n == 0 then [] else [EntryAt(b, at)] + EntriesAt(b, at + ENTRY_LEN, n - 1)
  }

  lemma EntryRead(pre: Data, e: ReportEntry, post: Data)
    ensures EntryAt(pre + (EntryBytes(e) + post), |pre|) == e
  {
    hide EndPointBytes, EndPointAt, StampBytes, StampAt;
    Assoc(EndPointBytes(e.relay), StampBytes(e.delay), post);
    EndPointRead(pre, e.relay, StampBytes(e.delay) + post);
    Assoc(pre, EndPointBytes(e.relay), StampBytes(e.delay) + post);
    StampRead(pre + EndPointBytes(e.relay), e.delay, post);
  }

  lemma {:induction false} EntriesRead(pre: Data, es: seq<ReportEntry>, rest: Data)
    ensures EntriesAt(pre + (EntriesBytes(es) + rest), |pre|, |es|) == es
    decreases |es|
  {
    if es != [] {
      hide EntryBytes, EntryAt;
      Assoc(EntryBytes(es[0]), EntriesBytes(es[1..]), rest);
      EntryRead(pre, es[0], EntriesBytes(es[1..]) + rest);
      Assoc(pre, EntryBytes(es[0]), EntriesBytes(es[1..]) + rest);
      EntriesRead(pre + EntryBytes(es[0]), es[1..], rest);
      assert es == [es[0]] + es[1..];
    }
  }

  // ---------- Packets ----------

  const INQUIRY_LEN := 3 + 3 * ENDPOINT_LEN
  const LIST_POS := 3 + 2 * ENDPOINT_LEN
  const PROBE_LEN := 2 + 3 * ENDPOINT_LEN + STAMP_LEN + 8

  function InquiryBytes(q: Inquiry): (b: Data)
    ensures |b| == INQUIRY_LEN
  {
    [TYPE_RLY_INQUIRY, q.ttl, q.demand] +
    (EndPointBytes(q.source) + (EndPointBytes(q.destination) + (EndPointBytes(q.proxy) + [])))
  }

  /**
   A field that begins within the `len` bytes received lies in the buffer.  Readers check no more than that it begins
   there: of a packet cut in the middle of a field they take the rest from what the buffer holds behind it.
   */
  predicate Inside(buf: Data, len: nat, pos: nat, size: nat) {
    pos < len ==> pos + size <= |buf|
  }

  predicate InquiryInside(buf: Data, len: nat) {
    Inside(buf, len, 3, ENDPOINT_LEN) && Inside(buf, len, 15, ENDPOINT_LEN) && Inside(buf, len, 27, ENDPOINT_LEN)
  }

  /** An inquiry is complete as soon as its last field begins. */
  function ReadInquiry(buf: Data, len: nat): Option<Inquiry>
    requires 0 < len <= |buf| && InquiryInside(buf, len)
  {
    if buf[0] != TYPE_RLY_INQUIRY || len <= 27 then None
    else Some(Inquiry(buf[1], buf[2], EndPointAt(buf, 3), EndPointAt(buf, 15), EndPointAt(buf, 27)))
  }

  /** Every field of an inquiry stands where readers look for it. */
  lemma InquiryFields(q: Inquiry)
    ensures var b := InquiryBytes(q);
            && |b| == 39 && b[0] == 2 && b[1] == q.ttl && b[2] == q.demand
            && b[3..15] == EndPointBytes(q.source) && b[15..27] == EndPointBytes(q.destination)
            && b[27..39] == EndPointBytes(q.proxy)
  {
    hide EndPointBytes;
  }

  lemma InquiryRoundTrip(q: Inquiry, rest: Data)
    ensures ReadInquiry(InquiryBytes(q) + rest, INQUIRY_LEN) == Some(q)
  {
    hide EndPointBytes, EndPointAt;
    var head: Data := [TYPE_RLY_INQUIRY, q.ttl, q.demand];
    var s, d, p := EndPointBytes(q.source), EndPointBytes(q.destination), EndPointBytes(q.proxy);
    assert InquiryBytes(q) + rest == head + (s + (d + (p + rest)));
    EndPointRead(head, q.source, d + (p + rest));
    Assoc(head, s, d + (p + rest));
    EndPointRead(head + s, q.destination, p + rest);
    Assoc(head + s, d, p + rest);
    EndPointRead((head + s) + d, q.proxy, rest);
  }

  function AdviceBytes(a: Advice): (b: Data)
    ensures |b| == LIST_POS + ENDPOINT_LEN * |AtMost(MAX_ADVICED_RELAYS, a.relays)|
  {
    var relays := AtMost(MAX_ADVICED_RELAYS, a.relays);
    [a.kind, a.ttl, |relays|] + (EndPointBytes(a.source) + (EndPointBytes(a.destination) + EndPointsBytes(relays)))
  }

  /** Every field of an advice stands where readers look for it, every relay behind the one before it. */
  lemma AdviceFields(a: Advice, i: nat)
    requires i < |a.relays| && i < 20
    ensures var b := AdviceBytes(a);
            && |b| == 27 + 12 * b[2] as int && b[0] == a.kind && b[1] == a.ttl
            && b[2] == (if |a.relays| > 20 then 20 else |a.relays|)
            && b[3..15] == EndPointBytes(a.source) && b[15..27] == EndPointBytes(a.destination)
            && b[27 + 12 * i..39 + 12 * i] == EndPointBytes(a.relays[i])
  {
    hide EndPointBytes, EndPointsBytes;
    var relays := AtMost(MAX_ADVICED_RELAYS, a.relays);
    EndPointsSlot(relays, i);
    var b, l := AdviceBytes(a), EndPointsBytes(relays);
    assert b[27..] == l;
    assert b[27 + 12 * i..39 + 12 * i] == l[12 * i..12 * i + 12];
  }

  lemma {:induction false} EndPointsSlot(es: seq<EndPoint>, i: nat)
    requires i < |es|
    ensures EndPointsBytes(es)[12 * i..12 * i + 12] == EndPointBytes(es[i])
  {
    hide EndPointBytes;
    if i > 0 {
      EndPointsSlot(es[1..], i - 1);
      assert EndPointsBytes(es)[12..] == EndPointsBytes(es[1..]);
      assert EndPointsBytes(es)[12 * i..12 * i + 12] == EndPointsBytes(es[1..])[12 * (i - 1)..12 * (i - 1) + 12];
    }
  }

  /** What a reader of a list of fields of one size touches. */
  predicate ListInside(buf: Data, len: nat, size: nat)
    requires len <= |buf|
  {
    && Inside(buf, len, 3, ENDPOINT_LEN) && Inside(buf, len, 15, ENDPOINT_LEN)
    && (2 < len ==> forall i {:trigger Inside(buf, len, LIST_POS + size * i, size)} ::
                      0 <= i < buf[2] ==> Inside(buf, len, LIST_POS + size * i, size))
  }

  /** Whether every one of the fields listed begins within what was received. */
  predicate AllBegin(buf: Data, len: nat, size: nat)
    requires 2 < len <= |buf|
  {
    buf[2] > 0 ==> LIST_POS + size * (buf[2] - 1) < len
  }

  /** An advice is complete as soon as the last of its relays begins. */
  function ReadAdvice(buf: Data, len: nat): Option<Advice>
    requires 0 < len <= |buf| && ListInside(buf, len, ENDPOINT_LEN)
  {
    if (buf[0] != TYPE_RLY_ADVICE && buf[0] != TYPE_RLY_FILTER) || len <= 15 || !AllBegin(buf, len, ENDPOINT_LEN)
    then None
    else
      ListEnds(buf, len, ENDPOINT_LEN);
      Some(Advice(buf[0], buf[1], EndPointAt(buf, 3), EndPointAt(buf, 15), EndPointsAt(buf, LIST_POS, buf[2])))
  }

  lemma EntryInside(buf: Data, len: nat, size: nat, i: nat)
    requires 2 < len <= |buf| && ListInside(buf, len, size) && i < buf[2] && LIST_POS + size * i < len
    ensures LIST_POS + size * i + size <= |buf|
  {
    assert Inside(buf, len, LIST_POS + size * i, size);
  }

  lemma HeadInside(buf: Data, len: nat, size: nat)
    requires len <= |buf| && ListInside(buf, len, size)
    ensures (3 < len ==> 15 <= |buf|) && (15 < len ==> 27 <= |buf|)
  {
  }

  lemma ListEnds(buf: Data, len: nat, size: nat)
    requires 15 < len <= |buf| && ListInside(buf, len, size) && AllBegin(buf, len, size)
    ensures LIST_POS + size * buf[2] <= |buf|
  {
    if buf[2] > 0 {
      var i := buf[2] - 1;
      assert Inside(buf, len, LIST_POS + size * i, size);
      assert size * buf[2] == size * i + size;
    }
  }

  /** The list of a packet that was received whole lies in the buffer. */
  lemma WholeInside(b: Data, size: nat, rest: Data)
    requires 27 <= |b| && |b| == LIST_POS + size * b[2] && 0 < size
    ensures ListInside(b + rest, |b|, size) && AllBegin(b + rest, |b|, size)
  {
    var buf := b + rest;
    assert buf[2] == b[2];
    forall i {:trigger Inside(buf, |b|, LIST_POS + size * i, size)} | 0 <= i < b[2]
      ensures Inside(buf, |b|, LIST_POS + size * i, size)
    {
      assert size * i + size <= size * b[2] by { assert size * (b[2] - i - 1) >= 0; }
    }
    if b[2] > 0 { assert size * (b[2] - 1) == size * b[2] - size; }
  }

  /** Reading back an advice gives it with the first 20 of its relays. */
  lemma AdviceRoundTrip(a: Advice, rest: Data)
    requires a.kind == 3 || a.kind == 4
    ensures ListInside(AdviceBytes(a) + rest, |AdviceBytes(a)|, ENDPOINT_LEN)
    ensures ReadAdvice(AdviceBytes(a) + rest, |AdviceBytes(a)|) ==
            Some(a.(relays := AtMost(MAX_ADVICED_RELAYS, a.relays)))
  {
    hide EndPointBytes, EndPointAt, EndPointsBytes, EndPointsAt, ListInside, AllBegin;
    var relays := AtMost(MAX_ADVICED_RELAYS, a.relays);
    var head: Data := [a.kind, a.ttl, |relays|];
    var s, d, es := EndPointBytes(a.source), EndPointBytes(a.destination), EndPointsBytes(relays);
    WholeInside(AdviceBytes(a), ENDPOINT_LEN, rest);
    assert AdviceBytes(a) + rest == head + (s + (d + (es + rest)));
    EndPointRead(head, a.source, d + (es + rest));
    Assoc(head, s, d + (es + rest));
    EndPointRead(head + s, a.destination, es + rest);
    Assoc(head + s, d, es + rest);
    EndPointsRead((head + s) + d, relays, rest);
  }

  function ReportBytes(p: Report): (b: Data)
    ensures |b| == LIST_POS + ENTRY_LEN * |AtMost(MAX_REPORT_ENTRYS, p.reports)|
  {
    var reports := AtMost(MAX_REPORT_ENTRYS, p.reports);
    [TYPE_RLY_REPORT, p.ttl, |reports|] +
    (EndPointBytes(p.source) + (EndPointBytes(p.destination) + EntriesBytes(reports)))
  }

  /** Every field of a report stands where readers look for it, every entry behind the one before it. */
  lemma ReportFields(p: Report, i: nat)
    requires i < |p.reports| && i < 20
    ensures var b := ReportBytes(p);
            && |b| == 27 + 20 * b[2] as int && b[0] == 6 && b[1] == p.ttl
            && b[2] == (if |p.reports| > 20 then 20 else |p.reports|)
            && b[3..15] == EndPointBytes(p.source) && b[15..27] == EndPointBytes(p.destination)
            && b[27 + 20 * i..39 + 20 * i] == EndPointBytes(p.reports[i].relay)
            && b[39 + 20 * i..43 + 20 * i] == Le4(p.reports[i].delay.sec)
            && b[43 + 20 * i..47 + 20 * i] == Le4(p.reports[i].delay.usec)
  {
    hide EndPointBytes, EntriesBytes, Le4;
    var reports := AtMost(MAX_REPORT_ENTRYS, p.reports);
    EntriesSlot(reports, i);
    var b, l, e := ReportBytes(p), EntriesBytes(reports), p.reports[i];
    assert b[27..] == l;
    assert EntryBytes(e) == l[20 * i..20 * i + 20] == b[27 + 20 * i..47 + 20 * i];
    assert EntryBytes(e)[12..16] == Le4(e.delay.sec) && EntryBytes(e)[16..20] == Le4(e.delay.usec);
    assert b[27 + 20 * i..39 + 20 * i] == EntryBytes(e)[..12];
    assert b[39 + 20 * i..43 + 20 * i] == EntryBytes(e)[12..16];
    assert b[43 + 20 * i..47 + 20 * i] == EntryBytes(e)[16..20];
  }

  lemma {:induction false} EntriesSlot(es: seq<ReportEntry>, i: nat)
    requires i < |es|
    ensures EntriesBytes(es)[20 * i..20 * i + 20] == EntryBytes(es[i])
  {
    hide EntryBytes;
    if i > 0 {
      EntriesSlot(es[1..], i - 1);
      assert EntriesBytes(es)[20..] == EntriesBytes(es[1..]);
      assert EntriesBytes(es)[20 * i..20 * i + 20] == EntriesBytes(es[1..])[20 * (i - 1)..20 * (i - 1) + 20];
    }
  }

  function ReadReport(buf: Data, len: nat): Option<Report>
    requires 0 < len <= |buf| && ListInside(buf, len, ENTRY_LEN)
  {
    if buf[0] != TYPE_RLY_REPORT || len <= 15 || !AllBegin(buf, len, ENTRY_LEN) then None
    else
      ListEnds(buf, len, ENTRY_LEN);
      Some(Report(buf[1], EndPointAt(buf, 3), EndPointAt(buf, 15), EntriesAt(buf, LIST_POS, buf[2])))
  }

  lemma ReportRoundTrip(p: Report, rest: Data)
    ensures ListInside(ReportBytes(p) + rest, |ReportBytes(p)|, ENTRY_LEN)
    ensures ReadReport(ReportBytes(p) + rest, |ReportBytes(p)|) ==
            Some(p.(reports := AtMost(MAX_REPORT_ENTRYS, p.reports)))
  {
    hide EndPointBytes, EndPointAt, EntriesBytes, EntriesAt, ListInside, AllBegin;
    var reports := AtMost(MAX_REPORT_ENTRYS, p.reports);
    var head: Data := [TYPE_RLY_REPORT, p.ttl, |reports|];
    var s, d, es := EndPointBytes(p.source), EndPointBytes(p.destination), EntriesBytes(reports);
    WholeInside(ReportBytes(p), ENTRY_LEN, rest);
    assert ReportBytes(p) + rest == head + (s + (d + (es + rest)));
    EndPointRead(head, p.source, d + (es + rest));
    Assoc(head, s, d + (es + rest));
    EndPointRead(head + s, p.destination, es + rest);
    Assoc(head + s, d, es + rest);
    EntriesRead((head + s) + d, reports, rest);
  }

  predicate ProbeKind(k: Byte): (r: bool)
    ensures r <==> 7 <= k <= 13
  {
    || k == TYPE_FW_PROBE || k == TYPE_FW_FORWARD || k == TYPE_FW_REPLY
    || k == TYPE_BW_RESERVE || k == TYPE_BW_FORWARD || k == TYPE_BW_REPLY || k == TYPE_BW_RELEASE
  }

  function ProbeBytes(p: Probe): (b: Data)
    ensures |b| == PROBE_LEN
  {
    [p.kind, p.ttl] +
    (EndPointBytes(p.source) + (EndPointBytes(p.relay) + (EndPointBytes(p.destination) +
    (StampBytes(p.stamp) + (NetBytes(p.bandwidth) + (NetBytes(p.load) + []))))))
  }

  predicate ProbeInside(buf: Data, len: nat) {
    && Inside(buf, len, 2, ENDPOINT_LEN) && Inside(buf, len, 14, ENDPOINT_LEN) && Inside(buf, len, 26, ENDPOINT_LEN)
    && Inside(buf, len, 38, STAMP_LEN) && Inside(buf, len, 46, 4) && Inside(buf, len, 50, 4)
  }

  /** A probe is complete as soon as its last field begins. */
  function ReadProbe(buf: Data, len: nat): Option<Probe>
    requires 0 < len <= |buf| && ProbeInside(buf, len)
  {
    if !ProbeKind(buf[0]) || len <= 50 then None
    else Some(Probe(buf[0], buf[1], EndPointAt(buf, 2), EndPointAt(buf, 14), EndPointAt(buf, 26),
                    StampAt(buf, 38), NetAt(buf, 46), NetAt(buf, 50)))
  }

  /** Every field of a probe stands at the offset where readers look for it. */
  lemma ProbeFields(p: Probe)
    ensures var b := ProbeBytes(p);
            && b[0] == p.kind && b[1] == p.ttl
            && EndPointAt(b, 2) == p.source && EndPointAt(b, 14) == p.relay && EndPointAt(b, 26) == p.destination
            && StampAt(b, 38) == p.stamp && NetAt(b, 46) == p.bandwidth && NetAt(b, 50) == p.load
  {
    hide EndPointBytes, EndPointAt, StampBytes, StampAt, NetBytes, NetAt;
    var head: Data := [p.kind, p.ttl];
    var s, r, d := EndPointBytes(p.source), EndPointBytes(p.relay), EndPointBytes(p.destination);
    var t, w, l := StampBytes(p.stamp), NetBytes(p.bandwidth), NetBytes(p.load);
    EndPointRead(head, p.source, r + (d + (t + (w + (l + [])))));
    Assoc(head, s, r + (d + (t + (w + (l + [])))));
    EndPointRead(head + s, p.relay, d + (t + (w + (l + []))));
    Assoc(head + s, r, d + (t + (w + (l + []))));
    EndPointRead((head + s) + r, p.destination, t + (w + (l + [])));
    Assoc((head + s) + r, d, t + (w + (l + [])));
    StampRead(((head + s) + r) + d, p.stamp, w + (l + []));
    Assoc(((head + s) + r) + d, t, w + (l + []));
    NetRead((((head + s) + r) + d) + t, p.bandwidth, l + []);
    Assoc((((head + s) + r) + d) + t, w, l + []);
    NetRead(((((head + s) + r) + d) + t) + w, p.load, []);
  }

  lemma ProbeRoundTrip(p: Probe, rest: Data)
    requires ProbeKind(p.kind)
    ensures ReadProbe(ProbeBytes(p) + rest, PROBE_LEN) == Some(p)
  {
    hide EndPointAt, StampAt, NetAt, ProbeBytes;
    var b := ProbeBytes(p);
    ProbeFields(p);
    EndPointInside(b, rest, 2);
    EndPointInside(b, rest, 14);
    EndPointInside(b, rest, 26);
    StampInside(b, rest, 38);
    NetInside(b, rest, 46);
    NetInside(b, rest, 50);
  }

  lemma EndPointInside(b: Data, rest: Data, at: nat)
    requires at + ENDPOINT_LEN <= |b|
    ensures EndPointAt(b + rest, at) == EndPointAt(b, at)
  {
  }

  lemma StampInside(b: Data, rest: Data, at: nat)
    requires at + STAMP_LEN <= |b|
    ensures StampAt(b + rest, at) == StampAt(b, at)
  {
  }

  lemma NetInside(b: Data, rest: Data, at: nat)
    requires at + 4 <= |b|
    ensures NetAt(b + rest, at) == NetAt(b, at)
  {
    hide Swap4;
  }

  // ---------- The code: buffers and offsets ----------

  method SerializeInquiry(q: Inquiry) returns (buf: array<Byte>)
    ensures fresh(buf) && buf[..] == InquiryBytes(q)
  {
    hide EndPointBytes;
    var tmpbuf := new Byte[100];
    ghost var head: Data := [TYPE_RLY_INQUIRY, q.ttl, q.demand];
    ghost var s, d, p := EndPointBytes(q.source), EndPointBytes(q.destination), EndPointBytes(q.proxy);
    var offset := PutHead(tmpbuf, TYPE_RLY_INQUIRY, q.ttl, q.demand);
    offset := Append(tmpbuf, offset, EndPointBytes(q.source), head);
    offset := Append(tmpbuf, offset, EndPointBytes(q.destination), head + s);
    offset := Append(tmpbuf, offset, EndPointBytes(q.proxy), (head + s) + d);
    buf := new Byte[offset];
    var end := Append(buf, 0, tmpbuf[..offset], []);
    Assoc(head + s, d, p + []);
    Assoc(head, s, d + (p + []));
    assert buf[..] == buf[..end] == ((head + s) + d) + (p + []);
  }

  /** The three bytes that inquiries, advices and reports begin with. */
  method PutHead(buf: array<Byte>, kind: Byte, ttl: Byte, count: Byte) returns (offset: nat)
    requires 3 <= buf.Length
    modifies buf
    ensures offset == 3 && buf[..offset] == [kind, ttl, count]
  {
    offset := Append(buf, 0, [kind], []);
    offset := Append(buf, offset, [ttl], [kind]);
    offset := Append(buf, offset, [count], [kind, ttl]);
  }

  method SerializeAdvice(a: Advice) returns (buf: array<Byte>)
    ensures fresh(buf) && buf[..] == AdviceBytes(a)
  {
    hide EndPointBytes, EndPointsBytes;
    var size: Byte := if |a.relays| > MAX_ADVICED_RELAYS then MAX_ADVICED_RELAYS else |a.relays|;
    var len := LIST_POS + ENDPOINT_LEN * size as int;
    buf := new Byte[len];
    ghost var head: Data := [a.kind, a.ttl, size];
    ghost var s, d := EndPointBytes(a.source), EndPointBytes(a.destination);
    var offset := PutHead(buf, a.kind, a.ttl, size);
    offset := Append(buf, offset, EndPointBytes(a.source), head);
    offset := Append(buf, offset, EndPointBytes(a.destination), head + s);
    PutRelays(buf, offset, a.relays[..size], (head + s) + d);
    Assoc(head + s, d, EndPointsBytes(a.relays[..size]));
    Assoc(head, s, d + EndPointsBytes(a.relays[..size]));
    assert a.relays[..size] == AtMost(MAX_ADVICED_RELAYS, a.relays);
    assert buf[..] == buf[..len];
  }

  method PutRelays(buf: array<Byte>, at: nat, relays: seq<EndPoint>, ghost filled: Data)
    requires at + ENDPOINT_LEN * |relays| <= buf.Length && buf[..at] == filled
    modifies buf
    ensures buf[..at + ENDPOINT_LEN * |relays|] == filled + EndPointsBytes(relays)
  {
    hide EndPointBytes, EndPointsBytes;
    EndPointsNone();
    var offset, i := at, 0;
    assert relays[..0] == [] && filled + [] == filled;
    while i < |relays|
      invariant 0 <= i <= |relays| && offset == at + ENDPOINT_LEN * i
      invariant buf[..offset] == filled + EndPointsBytes(relays[..i])
    {
      EndPointsPush(relays[..i], relays[i]);
      assert relays[..i + 1] == relays[..i] + [relays[i]];
      Assoc(filled, EndPointsBytes(relays[..i]), EndPointBytes(relays[i]));
      offset := Append(buf, offset, EndPointBytes(relays[i]), filled + EndPointsBytes(relays[..i]));
      i := i + 1;
    }
    assert relays[..i] == relays;
  }

  lemma EndPointsNone()
    ensures EndPointsBytes([]) == []
  {
  }

  lemma {:induction false} EndPointsPush(es: seq<EndPoint>, e: EndPoint)
    ensures EndPointsBytes(es + [e]) == EndPointsBytes(es) + EndPointBytes(e)
    decreases |es|
  {
    hide EndPointBytes;
    if es == [] {
      assert [e][1..] == [];
    } else {
      assert (es + [e])[1..] == es[1..] + [e];
      EndPointsPush(es[1..], e);
    }
  }

  /** The three bytes behind which every list begins, or nothing when the packet ends before the third. */
  method GetHead(buf: Data, len: nat) returns (ok: bool, ttl: Byte, count: Byte, offset: nat)
    requires 0 < len <= |buf|
    ensures ok <==> 3 < len
    ensures ok ==> ttl == buf[1] && count == buf[2] && offset == 3
  {
    ttl, count, offset := 0, 0, 1;
    if offset >= len { return false, ttl, count, offset; }
    ttl := buf[offset];
    offset := offset + 1;
    if offset >= len { return false, ttl, count, offset; }
    count := buf[offset];
    offset := offset + 1;
    ok := offset < len;
  }

  method DeserializeInquiry(buf: Data, len: nat) returns (r: Option<Inquiry>)
    requires 0 < len <= |buf| && InquiryInside(buf, len)
    ensures r == ReadInquiry(buf, len)
  {
    hide EndPointAt;
    if buf[0] != TYPE_RLY_INQUIRY { return None; }
    var ok, ttl, demand, offset := GetHead(buf, len);
    if !ok { return None; }
    var source := EndPointAt(buf, offset);
    offset := offset + ENDPOINT_LEN;
    if offset >= len { return None; }
    var destination := EndPointAt(buf, offset);
    offset := offset + ENDPOINT_LEN;
    if offset >= len { return None; }
    var proxy := EndPointAt(buf, offset);
    return Some(Inquiry(ttl, demand, source, destination, proxy));
  }

  /** The list is read through the moving offset; a packet that ends before a field begins is refused. */
  method DeserializeAdvice(buf: Data, len: nat) returns (r: Option<Advice>)
    requires 0 < len <= |buf| && ListInside(buf, len, ENDPOINT_LEN)
    ensures r == ReadAdvice(buf, len)
  {
    hide EndPointAt, EndPointsAt, ListInside;
    HeadInside(buf, len, ENDPOINT_LEN);
    if buf[0] != TYPE_RLY_ADVICE && buf[0] != TYPE_RLY_FILTER { return None; }
    var ok, ttl, size, offset := GetHead(buf, len);
    if !ok { return None; }
    var source := EndPointAt(buf, offset);
    offset := offset + ENDPOINT_LEN;
    if offset >= len { return None; }
    var destination := EndPointAt(buf, offset);
    offset := offset + ENDPOINT_LEN;
    var relays: seq<EndPoint> := [];
    NoEndPoints(buf, LIST_POS);
    var i := 0;
    while i < size
      invariant 0 <= i <= size && offset == LIST_POS + ENDPOINT_LEN * i <= |buf|
      invariant i > 0 ==> LIST_POS + ENDPOINT_LEN * (i - 1) < len
      invariant relays == EndPointsAt(buf, LIST_POS, i)
    {
      if offset >= len { return None; }
      EntryInside(buf, len, ENDPOINT_LEN, i);
      EndPointsSnoc(buf, LIST_POS, i);
      relays := relays + [EndPointAt(buf, offset)];
      offset := offset + ENDPOINT_LEN;
      i := i + 1;
    }
    return Some(Advice(buf[0], ttl, source, destination, relays));
  }

  lemma NoEndPoints(b: Data, at: nat)
    requires at <= |b|
    ensures EndPointsAt(b, at, 0) == []
  {
  }

  lemma {:induction false} EndPointsSnoc(b: Data, at: nat, n: nat)
    requires at + ENDPOINT_LEN * (n + 1) <= |b|
    ensures EndPointsAt(b, at, n + 1) == EndPointsAt(b, at, n) + [EndPointAt(b, at + ENDPOINT_LEN * n)]
    decreases n
  {
    hide EndPointAt;
    if n > 0 { EndPointsSnoc(b, at + ENDPOINT_LEN, n - 1); }
  }

  method SerializeReport(p: Report) returns (buf: array<Byte>)
    ensures fresh(buf) && buf[..] == ReportBytes(p)
  {
    hide EndPointBytes, EntriesBytes;
    var size: Byte := if |p.reports| > MAX_REPORT_ENTRYS then MAX_REPORT_ENTRYS else |p.reports|;
    var len := LIST_POS + ENTRY_LEN * size as int;
    buf := new Byte[len];
    ghost var head: Data := [TYPE_RLY_REPORT, p.ttl, size];
    ghost var s, d := EndPointBytes(p.source), EndPointBytes(p.destination);
    var offset := PutHead(buf, TYPE_RLY_REPORT, p.ttl, size);
    offset := Append(buf, offset, EndPointBytes(p.source), head);
    offset := Append(buf, offset, EndPointBytes(p.destination), head + s);
    PutEntries(buf, offset, p.reports[..size], (head + s) + d);
    Assoc(head + s, d, EntriesBytes(p.reports[..size]));
    Assoc(head, s, d + EntriesBytes(p.reports[..size]));
    assert p.reports[..size] == AtMost(MAX_REPORT_ENTRYS, p.reports);
    assert buf[..] == buf[..len];
  }

  method PutEntries(buf: array<Byte>, at: nat, reports: seq<ReportEntry>, ghost filled: Data)
    requires at + ENTRY_LEN * |reports| <= buf.Length && buf[..at] == filled
    modifies buf
    ensures buf[..at + ENTRY_LEN * |reports|] == filled + EntriesBytes(reports)
  {
    hide EntryBytes, EntriesBytes;
    EntriesNone();
    var offset, i := at, 0;
    assert reports[..0] == [] && filled + [] == filled;
    while i < |reports|
      invariant 0 <= i <= |reports| && offset == at + ENTRY_LEN * i
      invariant buf[..offset] == filled + EntriesBytes(reports[..i])
    {
      EntriesPush(reports[..i], reports[i]);
      assert reports[..i + 1] == reports[..i] + [reports[i]];
      Assoc(filled, EntriesBytes(reports[..i]), EntryBytes(reports[i]));
      offset := Append(buf, offset, EntryBytes(reports[i]), filled + EntriesBytes(reports[..i]));
      i := i + 1;
    }
    assert reports[..i] == reports;
  }

  lemma EntriesNone()
    ensures EntriesBytes([]) == []
  {
  }

  lemma {:induction false} EntriesPush(es: seq<ReportEntry>, e: ReportEntry)
    ensures EntriesBytes(es + [e]) == EntriesBytes(es) + EntryBytes(e)
    decreases |es|
  {
    hide EntryBytes;
    if es == [] {
      assert [e][1..] == [];
    } else {
      assert (es + [e])[1..] == es[1..] + [e];
      EntriesPush(es[1..], e);
    }
  }

  method DeserializeReport(buf: Data, len: nat) returns (r: Option<Report>)
    requires 0 < len <= |buf| && ListInside(buf, len, ENTRY_LEN)
    ensures r == ReadReport(buf, len)
  {
    hide EndPointAt, EntryAt, EntriesAt, ListInside;
    HeadInside(buf, len, ENTRY_LEN);
    if buf[0] != TYPE_RLY_REPORT { return None; }
    var ok, ttl, size, offset := GetHead(buf, len);
    if !ok { return None; }
    var source := EndPointAt(buf, offset);
    offset := offset + ENDPOINT_LEN;
    if offset >= len { return None; }
    var destination := EndPointAt(buf, offset);
    offset := offset + ENDPOINT_LEN;
    var reports: seq<ReportEntry> := [];
    NoEntries(buf, LIST_POS);
    var i := 0;
    while i < size
      invariant 0 <= i <= size && offset == LIST_POS + ENTRY_LEN * i <= |buf|
      invariant i > 0 ==> LIST_POS + ENTRY_LEN * (i - 1) < len
      invariant reports == EntriesAt(buf, LIST_POS, i)
    {
      if offset >= len { return None; }
      EntryInside(buf, len, ENTRY_LEN, i);
      EntriesSnoc(buf, LIST_POS, i);
      reports := reports + [EntryAt(buf, offset)];
      offset := offset + ENTRY_LEN;
      i := i + 1;
    }
    return Some(Report(ttl, source, destination, reports));
  }

  lemma NoEntries(b: Data, at: nat)
    requires at <= |b|
    ensures EntriesAt(b, at, 0) == []
  {
  }

  lemma {:induction false} EntriesSnoc(b: Data, at: nat, n: nat)
    requires at + ENTRY_LEN * (n + 1) <= |b|
    ensures EntriesAt(b, at, n + 1) == EntriesAt(b, at, n) + [EntryAt(b, at + ENTRY_LEN * n)]
    decreases n
  {
    hide EntryAt;
    if n > 0 { EntriesSnoc(b, at + ENTRY_LEN, n - 1); }
  }

  method DeserializeProbe(buf: Data, len: nat) returns (r: Option<Probe>)
    requires 0 < len <= |buf| && ProbeInside(buf, len)
    ensures r == ReadProbe(buf, len)
  {
    hide EndPointAt, StampAt, Get4, Swap4;
    if !ProbeKind(buf[0]) { return None; }
    var offset := 1;
    if offset >= len { return None; }
    var ttl := buf[offset];
    offset := offset + 1;
    if offset >= len { return None; }
    var source := EndPointAt(buf, offset);
    offset := offset + ENDPOINT_LEN;
    if offset >= len { return None; }
    var relay := EndPointAt(buf, offset);
    offset := offset + ENDPOINT_LEN;
    if offset >= len { return None; }
    var destination := EndPointAt(buf, offset);
    offset := offset + ENDPOINT_LEN;
    if offset >= len { return None; }
    var stamp := StampAt(buf, offset);
    offset := offset + STAMP_LEN;
    if offset >= len { return None; }
    var bandwidth := Swap4(Get4(buf, offset));
    offset := offset + 4;
    if offset >= len { return None; }
    var load := Swap4(Get4(buf, offset));
    return Some(Probe(buf[0], ttl, source, relay, destination, stamp, bandwidth, load));
  }

  method SerializeProbe(p: Probe) returns (buf: array<Byte>)
    ensures fresh(buf) && buf[..] == ProbeBytes(p)
  {
    hide EndPointBytes, StampBytes, NetBytes;
    buf := new Byte[PROBE_LEN];
    ghost var head: Data := [p.kind, p.ttl];
    ghost var s, r, d := EndPointBytes(p.source), EndPointBytes(p.relay), EndPointBytes(p.destination);
    ghost var t, w, l := StampBytes(p.stamp), NetBytes(p.bandwidth), NetBytes(p.load);
    var offset := Append(buf, 0, [p.kind], []);
    offset := Append(buf, offset, [p.ttl], [p.kind]);
    offset := Append(buf, offset, EndPointBytes(p.source), head);
    offset := Append(buf, offset, EndPointBytes(p.relay), head + s);
    offset := Append(buf, offset, EndPointBytes(p.destination), (head + s) + r);
    offset := Append(buf, offset, StampBytes(p.stamp), ((head + s) + r) + d);
    offset := Append(buf, offset, NetBytes(p.bandwidth), (((head + s) + r) + d) + t);
    offset := Append(buf, offset, NetBytes(p.load), ((((head + s) + r) + d) + t) + w);
    Assoc((((head + s) + r) + d) + t, w, l + []);
    Assoc(((head + s) + r) + d, t, w + (l + []));
    Assoc((head + s) + r, d, t + (w + (l + [])));
    Assoc(head + s, r, d + (t + (w + (l + []))));
    Assoc(head, s, r + (d + (t + (w + (l + [])))));
    assert l + [] == l;
    assert buf[..] == buf[..offset];
  }
}
