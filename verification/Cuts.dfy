/**
 Control packets that arrive in part.  Writing what was read gives the bytes back, so a reader that accepts a packet
 has read it as it was written exactly when it found all of its bytes.
 */
module Cuts {
  import opened Bytes
  import opened Options
  import opened Protocol
  import opened Wire

  // ---------- Writing what was read ----------

  lemma EndPointWritten(b: Data, at: nat)
    requires at + ENDPOINT_LEN <= |b|
    ensures EndPointBytes(EndPointAt(b, at)) == b[at..at + ENDPOINT_LEN]
  {
    Written2(b, at);
    Written2(b, at + 2);
    Written4(b, at + 4);
    Written4(b, at + 8);
    hide Le2, Le4, Get2, Get4;
    var e := EndPointAt(b, at);
    assert Le2(e.asn) + (Le2(e.port) + (Le4(e.addr) + Le4(e.mask))) == b[at..at + ENDPOINT_LEN];
  }

  lemma StampWritten(b: Data, at: nat)
    requires at + STAMP_LEN <= |b|
    ensures StampBytes(StampAt(b, at)) == b[at..at + STAMP_LEN]
  {
    hide Le4, Get4;
    Written4(b, at);
    Written4(b, at + 4);
  }

  lemma NetWritten(b: Data, at: nat)
    requires at + 4 <= |b|
    ensures NetBytes(NetAt(b, at)) == b[at..at + 4]
  {
    hide Le4, Get4, Swap4;
    Swap4Twice(Get4(b, at));
    Written4(b, at);
  }

  lemma {:induction false} EndPointsWritten(b: Data, at: nat, n: nat)
    requires at + ENDPOINT_LEN * n <= |b|
    ensures EndPointsBytes(EndPointsAt(b, at, n)) == b[at..at + ENDPOINT_LEN * n]
    decreases n
  {
    hide EndPointBytes, EndPointAt;
    if n > 0 {
      EndPointWritten(b, at);
      EndPointsWritten(b, at + ENDPOINT_LEN, n - 1);
      assert EndPointsAt(b, at, n)[1..] == EndPointsAt(b, at + ENDPOINT_LEN, n - 1);
    }
  }

  lemma EntryWritten(b: Data, at: nat)
    requires at + ENTRY_LEN <= |b|
    ensures EntryBytes(EntryAt(b, at)) == b[at..at + ENTRY_LEN]
  {
    hide EndPointBytes, EndPointAt, StampBytes, StampAt;
    EndPointWritten(b, at);
    StampWritten(b, at + ENDPOINT_LEN);
  }

  lemma {:induction false} EntriesWritten(b: Data, at: nat, n: nat)
    requires at + ENTRY_LEN * n <= |b|
    ensures EntriesBytes(EntriesAt(b, at, n)) == b[at..at + ENTRY_LEN * n]
    decreases n
  {
    hide EntryBytes, EntryAt;
    if n > 0 {
      EntryWritten(b, at);
      EntriesWritten(b, at + ENTRY_LEN, n - 1);
      assert EntriesAt(b, at, n)[1..] == EntriesAt(b, at + ENTRY_LEN, n - 1);
    }
  }

  lemma InquiryWritten(buf: Data, len: nat)
    requires 0 < len <= |buf| && InquiryInside(buf, len) && ReadInquiry(buf, len).Some?
    ensures InquiryBytes(ReadInquiry(buf, len).value) == buf[..INQUIRY_LEN]
  {
    hide EndPointBytes, EndPointAt;
    EndPointWritten(buf, 3);
    EndPointWritten(buf, 15);
    EndPointWritten(buf, 27);
    assert buf[..INQUIRY_LEN] == buf[..3] + (buf[3..15] + (buf[15..27] + (buf[27..39] + [])));
    assert buf[..3] == [buf[0], buf[1], buf[2]];
  }

  /** An advice of at most 20 relays; of more than that a writer keeps the first 20. */
  lemma AdviceWritten(buf: Data, len: nat)
    requires 0 < len <= |buf| && ListInside(buf, len, ENDPOINT_LEN) && ReadAdvice(buf, len).Some?
    requires buf[2] <= MAX_ADVICED_RELAYS
    ensures LIST_POS + ENDPOINT_LEN * buf[2] <= |buf|
    ensures AdviceBytes(ReadAdvice(buf, len).value) == buf[..LIST_POS + ENDPOINT_LEN * buf[2]]
  {
    hide EndPointBytes, EndPointAt, EndPointsBytes, EndPointsAt, ListInside;
    ListEnds(buf, len, ENDPOINT_LEN);
    var end := LIST_POS + ENDPOINT_LEN * buf[2];
    EndPointWritten(buf, 3);
    EndPointWritten(buf, 15);
    EndPointsWritten(buf, LIST_POS, buf[2]);
    assert buf[..end] == buf[..3] + (buf[3..15] + (buf[15..27] + buf[27..end]));
    assert buf[..3] == [buf[0], buf[1], buf[2]];
  }

  lemma ReportWritten(buf: Data, len: nat)
    requires 0 < len <= |buf| && ListInside(buf, len, ENTRY_LEN) && ReadReport(buf, len).Some?
    requires buf[2] <= MAX_REPORT_ENTRYS
    ensures LIST_POS + ENTRY_LEN * buf[2] <= |buf|
    ensures ReportBytes(ReadReport(buf, len).value) == buf[..LIST_POS + ENTRY_LEN * buf[2]]
  {
    hide EndPointBytes, EndPointAt, EntriesBytes, EntriesAt, ListInside;
    ListEnds(buf, len, ENTRY_LEN);
    var end := LIST_POS + ENTRY_LEN * buf[2];
    EndPointWritten(buf, 3);
    EndPointWritten(buf, 15);
    EntriesWritten(buf, LIST_POS, buf[2]);
    assert buf[..end] == buf[..3] + (buf[3..15] + (buf[15..27] + buf[27..end]));
    assert buf[..3] == [buf[0], buf[1], buf[2]];
  }

  lemma ProbeWritten(buf: Data, len: nat)
    requires 0 < len <= |buf| && ProbeInside(buf, len) && ReadProbe(buf, len).Some?
    ensures ProbeBytes(ReadProbe(buf, len).value) == buf[..PROBE_LEN]
  {
    hide EndPointBytes, EndPointAt, StampBytes, StampAt, NetBytes, NetAt;
    EndPointWritten(buf, 2);
    EndPointWritten(buf, 14);
    EndPointWritten(buf, 26);
    StampWritten(buf, 38);
    NetWritten(buf, 46);
    NetWritten(buf, 50);
    var tail := buf[38..46] + (buf[46..50] + (buf[50..54] + []));
    assert tail == buf[38..54];
    assert buf[..PROBE_LEN] == buf[..2] + (buf[2..14] + (buf[14..26] + (buf[26..38] + tail)));
    assert buf[..2] == [buf[0], buf[1]];
  }

  // ---------- Packets of which `n` bytes arrive ----------

  /** Every byte is another one. */
  function Others(d: Data): (r: Data)
    ensures |r| == |d| && forall i :: 0 <= i < |d| ==> r[i] != d[i]
  {
    if d == [] then [] else [if d[0] == 0 then 1 else 0] + Others(d[1..])
  }

  /** A whole packet, of which only the first `n` bytes are right. */
  function Garbled(b: Data, n: nat): (r: Data)
    requires n < |b|
    ensures |r| == |b| && r[..n] == b[..n] && r[n] != b[n]
  {
    b[..n] + Others(b[n..])
  }

  lemma GarbledSplit(b: Data, n: nat)
    requires n < |b|
    ensures Garbled(b, n) == b[..n] + Garbled(b, n)[n..] && Garbled(b, n)[..|b|] == Garbled(b, n)
  {
  }

  /**
   An inquiry that arrives in part is refused exactly when its last field does not begin in that part; otherwise it is
   read as it was written exactly when the buffer happens to hold the rest.
   */
  lemma InquiryCutIff(q: Inquiry, n: nat, rest: Data)
    requires 0 < n <= INQUIRY_LEN && InquiryInside(InquiryBytes(q)[..n] + rest, n)
    ensures var buf := InquiryBytes(q)[..n] + rest;
            && (ReadInquiry(buf, n).None? <==> n <= 27)
            && (ReadInquiry(buf, n) == Some(q) <==> 27 < n && buf[..INQUIRY_LEN] == InquiryBytes(q))
  {
    hide EndPointBytes, EndPointAt;
    var b, buf := InquiryBytes(q), InquiryBytes(q)[..n] + rest;
    assert buf[0] == b[0];
    if 27 < n {
      InquiryWritten(buf, n);
      if buf[..INQUIRY_LEN] == b {
        assert buf == b + buf[INQUIRY_LEN..];
        InquiryRoundTrip(q, buf[INQUIRY_LEN..]);
      }
    }
  }

  /** Every inquiry is misread from some buffer when it is cut within its last field. */
  lemma InquiryMisread(q: Inquiry, n: nat)
    requires 27 < n < INQUIRY_LEN
    ensures var buf := Garbled(InquiryBytes(q), n);
            ReadInquiry(buf, n).Some? && ReadInquiry(buf, n) != Some(q)
  {
    hide InquiryBytes, ReadInquiry;
    GarbledSplit(InquiryBytes(q), n);
    InquiryCutIff(q, n, Garbled(InquiryBytes(q), n)[n..]);
  }

  /** Where the last field of a list of `count` fields begins, or the last one in front of an empty list. */
  function LastBegins(count: nat, size: nat): nat {
    if count == 0 then 15 else LIST_POS + size * (count - 1)
  }

  lemma LastBeginsFacts(buf: Data, n: nat, size: nat)
    requires 15 < n <= |buf| && 0 < size
    ensures AllBegin(buf, n, size) <==> LastBegins(buf[2], size) < n
    ensures 15 <= LastBegins(buf[2], size)
  {
    if buf[2] > 0 { assert size * (buf[2] - 1) >= 0; }
  }

  lemma AdviceCutIff(a: Advice, n: nat, rest: Data)
    requires a.kind == TYPE_RLY_ADVICE || a.kind == TYPE_RLY_FILTER
    requires 0 < n <= |AdviceBytes(a)| && ListInside(AdviceBytes(a)[..n] + rest, n, ENDPOINT_LEN)
    ensures var b, buf := AdviceBytes(a), AdviceBytes(a)[..n] + rest;
            var relays := AtMost(MAX_ADVICED_RELAYS, a.relays);
            && (ReadAdvice(buf, n).None? <==> n <= LastBegins(|relays|, ENDPOINT_LEN))
            && (ReadAdvice(buf, n) == Some(a.(relays := relays)) <==>
                  LastBegins(|relays|, ENDPOINT_LEN) < n && b <= buf)
  {
    hide EndPointBytes, EndPointAt, EndPointsBytes, EndPointsAt, ListInside;
    var b, buf := AdviceBytes(a), AdviceBytes(a)[..n] + rest;
    var relays := AtMost(MAX_ADVICED_RELAYS, a.relays);
    assert buf[0] == b[0] == a.kind;
    if 15 < n {
      assert buf[2] == b[2] == |relays|;
      LastBeginsFacts(buf, n, ENDPOINT_LEN);
      if LastBegins(|relays|, ENDPOINT_LEN) < n {
        AdviceWritten(buf, n);
        if b <= buf {
          assert buf == b + buf[|b|..];
          AdviceRoundTrip(a, buf[|b|..]);
        }
      }
    }
  }

  lemma ListInsideWhole(buf: Data, n: nat, size: nat)
    requires 15 < n <= |buf| && 0 < size && |buf| == LIST_POS + size * buf[2]
    ensures ListInside(buf, n, size)
  {
    hide ListInside, AllBegin;
    WholeInside(buf, size, []);
    assert buf + [] == buf;
    ListInsideShorter(buf, n, size);
  }

  lemma ListInsideShorter(buf: Data, n: nat, size: nat)
    requires 15 < n <= |buf| && ListInside(buf, |buf|, size)
    ensures ListInside(buf, n, size)
  {
    forall i {:trigger Inside(buf, n, LIST_POS + size * i, size)} | 0 <= i < buf[2]
      ensures Inside(buf, n, LIST_POS + size * i, size)
    {
      assert Inside(buf, |buf|, LIST_POS + size * i, size);
    }
  }

  lemma AdviceMisread(a: Advice, n: nat)
    requires a.kind == TYPE_RLY_ADVICE || a.kind == TYPE_RLY_FILTER
    requires LastBegins(|AtMost(MAX_ADVICED_RELAYS, a.relays)|, ENDPOINT_LEN) < n < |AdviceBytes(a)|
    ensures var buf := Garbled(AdviceBytes(a), n);
            && ListInside(buf, n, ENDPOINT_LEN) && ReadAdvice(buf, n).Some?
            && ReadAdvice(buf, n) != Some(a.(relays := AtMost(MAX_ADVICED_RELAYS, a.relays)))
  {
    hide ReadAdvice, ListInside, EndPointBytes, EndPointsBytes;
    var b, buf := AdviceBytes(a), Garbled(AdviceBytes(a), n);
    GarbledSplit(b, n);
    assert buf[2] == b[..n][2] == |AtMost(MAX_ADVICED_RELAYS, a.relays)|;
    ListInsideWhole(buf, n, ENDPOINT_LEN);
    AdviceCutIff(a, n, buf[n..]);
  }

  lemma ReportCutIff(p: Report, n: nat, rest: Data)
    requires 0 < n <= |ReportBytes(p)| && ListInside(ReportBytes(p)[..n] + rest, n, ENTRY_LEN)
    ensures var b, buf := ReportBytes(p), ReportBytes(p)[..n] + rest;
            var reports := AtMost(MAX_REPORT_ENTRYS, p.reports);
            && (ReadReport(buf, n).None? <==> n <= LastBegins(|reports|, ENTRY_LEN))
            && (ReadReport(buf, n) == Some(p.(reports := reports)) <==>
                  LastBegins(|reports|, ENTRY_LEN) < n && b <= buf)
  {
    hide EndPointBytes, EndPointAt, EntriesBytes, EntriesAt, ListInside;
    var b, buf := ReportBytes(p), ReportBytes(p)[..n] + rest;
    var reports := AtMost(MAX_REPORT_ENTRYS, p.reports);
    assert buf[0] == b[0];
    if 15 < n {
      assert buf[2] == b[2] == |reports|;
      LastBeginsFacts(buf, n, ENTRY_LEN);
      if LastBegins(|reports|, ENTRY_LEN) < n {
        ReportWritten(buf, n);
        if b <= buf {
          assert buf == b + buf[|b|..];
          ReportRoundTrip(p, buf[|b|..]);
        }
      }
    }
  }

  lemma ReportMisread(p: Report, n: nat)
    requires LastBegins(|AtMost(MAX_REPORT_ENTRYS, p.reports)|, ENTRY_LEN) < n < |ReportBytes(p)|
    ensures var buf := Garbled(ReportBytes(p), n);
            && ListInside(buf, n, ENTRY_LEN) && ReadReport(buf, n).Some?
            && ReadReport(buf, n) != Some(p.(reports := AtMost(MAX_REPORT_ENTRYS, p.reports)))
  {
    hide ReadReport, ListInside, EndPointBytes, EntriesBytes;
    var b, buf := ReportBytes(p), Garbled(ReportBytes(p), n);
    GarbledSplit(b, n);
    assert buf[2] == b[..n][2] == |AtMost(MAX_REPORT_ENTRYS, p.reports)|;
    ListInsideWhole(buf, n, ENTRY_LEN);
    ReportCutIff(p, n, buf[n..]);
  }

  lemma ProbeCutIff(p: Probe, n: nat, rest: Data)
    requires ProbeKind(p.kind) && 0 < n <= PROBE_LEN && ProbeInside(ProbeBytes(p)[..n] + rest, n)
    ensures var buf := ProbeBytes(p)[..n] + rest;
            && (ReadProbe(buf, n).None? <==> n <= 50)
            && (ReadProbe(buf, n) == Some(p) <==> 50 < n && buf[..PROBE_LEN] == ProbeBytes(p))
  {
    hide EndPointBytes, EndPointAt, StampBytes, StampAt, NetBytes, NetAt;
    var b, buf := ProbeBytes(p), ProbeBytes(p)[..n] + rest;
    assert buf[0] == b[0] == p.kind;
    if 50 < n {
      ProbeWritten(buf, n);
      if buf[..PROBE_LEN] == b {
        assert buf == b + buf[PROBE_LEN..];
        ProbeRoundTrip(p, buf[PROBE_LEN..]);
      }
    }
  }

  lemma ProbeMisread(p: Probe, n: nat)
    requires ProbeKind(p.kind) && 50 < n < PROBE_LEN
    ensures var buf := Garbled(ProbeBytes(p), n);
            ReadProbe(buf, n).Some? && ReadProbe(buf, n) != Some(p)
  {
    hide ProbeBytes, ReadProbe;
    GarbledSplit(ProbeBytes(p), n);
    ProbeCutIff(p, n, Garbled(ProbeBytes(p), n)[n..]);
  }
}
