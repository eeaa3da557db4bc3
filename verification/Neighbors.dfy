/**
 The proxy's neighbour table: a map by address and a rotating list over the same neighbour objects, filled by
 configuration, by pings from unknown peers and by the records in pongs.
 */
module Neighbors {
  import opened Bytes
  import opened Clocks
  import opened Events
  import opened Protocol

  const ORACLE: Byte := 0
  const PEER: Byte := 1
  /** Sequence numbers restart here. */
  const SEQ_LIMIT := 250

  class Neighbor {
    const kind: Byte
    const addr: Word
    const port: Short
    var ts: Time
    var mask: Word
    var asn: Short
    var next: Byte

    constructor (kind: Byte, addr: Word, port: Short, ts: Time, mask: Word, asn: Short)
      ensures this.kind == kind && this.addr == addr && this.port == port
      ensures this.ts == ts && this.mask == mask && this.asn == asn && next == 0
    {
      this.kind, this.addr, this.port, this.ts, this.mask, this.asn, next := kind, addr, port, ts, mask, asn, 0;
    }
  }

  // ---------- Map and list ----------

  /** Map and list hold the same objects, each under its own address, none twice. */
  ghost predicate Linked(nm: map<Word, Neighbor>, nl: seq<Neighbor>) {
    && (forall i, j :: 0 <= i < j < |nl| ==> nl[i].addr != nl[j].addr)
    && (forall i :: 0 <= i < |nl| ==> nl[i].addr in nm && nm[nl[i].addr] == nl[i])
    && (forall a :: a in nm ==> nm[a].addr == a && nm[a] in nl)
  }

  lemma {:induction false} LinkedSize(nm: map<Word, Neighbor>, nl: seq<Neighbor>)
    requires Linked(nm, nl)
    ensures |nm| == |nl|
    decreases |nl|
  {
    if nl == [] {
      assert nm == map[];
    } else {
      LinkedPopBack(nm, nl);
      var a := nl[|nl| - 1].addr;
      LinkedSize(nm - {a}, nl[..|nl| - 1]);
      assert nm == (nm - {a})[a := nm[a]];
    }
  }

  lemma LinkedPopBack(nm: map<Word, Neighbor>, nl: seq<Neighbor>)
    requires Linked(nm, nl) && nl != []
    ensures Linked(nm - {nl[|nl| - 1].addr}, nl[..|nl| - 1])
  {
    var n := |nl| - 1;
    forall a | a in nm && a != nl[n].addr ensures nm[a] in nl[..n] {
      var i :| 0 <= i < |nl| && nl[i] == nm[a];
      assert nl[..n][i] == nm[a];
    }
  }

  lemma LinkedPushFront(nm: map<Word, Neighbor>, nl: seq<Neighbor>, pn: Neighbor)
    requires Linked(nm, nl) && pn.addr !in nm
    ensures Linked(nm[pn.addr := pn], [pn] + nl)
  {
    var nl' := [pn] + nl;
    assert nl'[0] == pn;
    forall a | a in nm ensures nm[a] in nl' {
      var i :| 0 <= i < |nl| && nl[i] == nm[a];
      assert nl'[i + 1] == nm[a];
    }
  }

  lemma LinkedEnds(nm: map<Word, Neighbor>, nl: seq<Neighbor>)
    requires Linked(nm, nl) && nl != []
    ensures forall i :: 0 < i < |nl| ==> nl[i] != nl[0]
    ensures forall i :: 0 <= i < |nl| - 1 ==> nl[i] != nl[|nl| - 1]
  {
  }

  lemma LinkedDistinct(nm: map<Word, Neighbor>, nl: seq<Neighbor>)
    requires Linked(nm, nl)
    ensures forall i, j :: 0 <= i < j < |nl| ==> nl[i] != nl[j]
    ensures forall i :: 0 <= i < |nl| ==> nl[i].addr in nm && nm[nl[i].addr] == nl[i]
    ensures forall a :: a in nm ==> nm[a].addr == a && nm[a] in nl
  {
  }

  lemma OraclesStay(nl: seq<Neighbor>, evicted: bool)
    requires nl != [] && (evicted ==> 2 <= |nl| && nl[|nl| - 1].kind != ORACLE)
    ensures forall i :: 0 <= i < |nl| && nl[i].kind == ORACLE ==> nl[i] in Probed(nl, evicted)
  {
    var nl' := Probed(nl, evicted);
    forall i | 0 <= i < |nl| && nl[i].kind == ORACLE ensures nl[i] in nl' {
      assert nl'[if i == 0 then |nl'| - 1 else i - 1] == nl[i];
    }
  }

  /** The map finds the last neighbour of each address. */
  ghost predicate Indexed(nm: map<Word, Neighbor>, nl: seq<Neighbor>) {
    && (forall i :: 0 <= i < |nl| ==> nl[i].addr in nm)
    && (forall a :: a in nm ==> exists i :: LastOf(nl, i, a) && nm[a] == nl[i])
  }

  ghost predicate LastOf(nl: seq<Neighbor>, i: int, a: Word) {
    0 <= i < |nl| && nl[i].addr == a && forall j :: i < j < |nl| ==> nl[j].addr != a
  }

  lemma IndexedPush(nm: map<Word, Neighbor>, nl: seq<Neighbor>, pn: Neighbor)
    requires Indexed(nm, nl)
    ensures Indexed(nm[pn.addr := pn], nl + [pn])
  {
    var nm', nl' := nm[pn.addr := pn], nl + [pn];
    assert LastOf(nl', |nl|, pn.addr);
    forall a | a in nm && a != pn.addr ensures exists i :: LastOf(nl', i, a) && nm'[a] == nl'[i] {
      var i :| LastOf(nl, i, a) && nm[a] == nl[i];
      assert LastOf(nl', i, a) && nl'[i] == nl[i];
    }
  }

  /** Pushing behind the list and into the map links the two exactly when no address comes twice. */
  lemma IndexedLinkedIff(nm: map<Word, Neighbor>, nl: seq<Neighbor>)
    requires Indexed(nm, nl)
    ensures Linked(nm, nl) <==> forall i, j :: 0 <= i < j < |nl| ==> nl[i].addr != nl[j].addr
  {
    if forall i, j :: 0 <= i < j < |nl| ==> nl[i].addr != nl[j].addr {
      forall i | 0 <= i < |nl| ensures nm[nl[i].addr] == nl[i] {
        var k :| LastOf(nl, k, nl[i].addr) && nm[nl[i].addr] == nl[k];
      }
    }
  }

  lemma LinkedRotate(nm: map<Word, Neighbor>, nl: seq<Neighbor>)
    requires Linked(nm, nl) && nl != []
    ensures Linked(nm, nl[1..] + [nl[0]])
  {
    var nl' := nl[1..] + [nl[0]];
    forall i | 0 <= i < |nl'| ensures nl'[i] == nl[if i == |nl| - 1 then 0 else i + 1] {}
    forall a | a in nm ensures nm[a] in nl' {
      var i :| 0 <= i < |nl| && nl[i] == nm[a];
      assert nl'[if i == 0 then |nl| - 1 else i - 1] == nm[a];
    }
  }

  // ---------- Probing round robin ----------

  /** The list after a probe: the front goes to the back, after the old back is dropped if it is too old. */
  function Probed<T>(nl: seq<T>, evict: bool): seq<T>
    requires nl != [] && (evict ==> 2 <= |nl|)
  {
    (if evict then nl[1..|nl| - 1] else nl[1..]) + [nl[0]]
  }

  lemma ProbedSteps<T>(nl: seq<T>, evict: bool)
    requires nl != [] && (evict ==> 2 <= |nl|)
    ensures var cut := if evict then nl[..|nl| - 1] else nl;
            && cut != [] && cut[0] == nl[0] && Probed(nl, evict) != []
            && Probed(nl, evict) == cut[1..] + [cut[0]] == (cut + [nl[0]])[1..]
  {
    if evict { assert nl[..|nl| - 1][1..] == nl[1..|nl| - 1]; }
  }

  /** The list after one probe for each entry of `evicts`; a list of one is never cut. */
  function ProbedAll<T>(nl: seq<T>, evicts: seq<bool>): (r: seq<T>)
    requires nl != []
    ensures r != []
    decreases |evicts|
  {
    if evicts == [] then nl
    else
      var rest := ProbedAll(nl, evicts[..|evicts| - 1]);
      Probed(rest, evicts[|evicts| - 1] && 2 <= |rest|)
  }

  /** With no arrivals and whatever is evicted, the first n-1 probes go to the first n-1 of n neighbours in turn. */
  lemma {:induction false} RoundRobin<T>(nl: seq<T>, evicts: seq<bool>)
    requires |evicts| + 2 <= |nl|
    ensures nl[|evicts|..|nl| - 1] <= ProbedAll(nl, evicts)
    ensures ProbedAll(nl, evicts)[0] == nl[|evicts|]
    ensures |nl| <= |ProbedAll(nl, evicts)| + |evicts|
    decreases |evicts|
  {
    if evicts != [] {
      hide Probed;
      var k := |evicts| - 1;
      RoundRobin(nl, evicts[..k]);
      var rest := ProbedAll(nl, evicts[..k]);
      ProbedAhead(rest, evicts[k] && 2 <= |rest|, nl[k..|nl| - 1]);
      assert nl[|evicts|..|nl| - 1] == nl[k..|nl| - 1][1..];
    }
  }

  /** What is next in turn moves up by one. */
  lemma ProbedAhead<T>(rest: seq<T>, evict: bool, ahead: seq<T>)
    requires 2 <= |ahead| < |rest| && ahead <= rest
    ensures ahead[1..] <= Probed(rest, evict) && |rest| <= |Probed(rest, evict)| + 1
  {
    forall i | 0 <= i < |ahead| - 1 ensures Probed(rest, evict)[i] == ahead[i + 1] {
      assert rest[i + 1] == ahead[i + 1];
    }
  }

  lemma LinkedProbed(nm: map<Word, Neighbor>, nl: seq<Neighbor>, evict: bool)
    requires Linked(nm, nl) && nl != [] && (evict ==> 2 <= |nl|)
    ensures Linked(if evict then nm - {nl[|nl| - 1].addr} else nm, Probed(nl, evict))
  {
    hide Linked, Probed;
    ProbedSteps(nl, evict);
    if evict {
      LinkedPopBack(nm, nl);
      LinkedRotate(nm - {nl[|nl| - 1].addr}, nl[..|nl| - 1]);
    } else {
      LinkedRotate(nm, nl);
    }
  }

  /** `uint8_t` increment. */
  function Bumped(s: Byte): Byte {
    if s == 255 then 0 else s + 1
  }

  /** The prober's increment, which starts again at the limit. */
  function NextSeq(s: Byte): Byte {
    if s + 1 >= SEQ_LIMIT then 0 else s + 1
  }

  /** The responder answers with the number it got plus one: the prober expects just that, except after 249. */
  lemma SeqAgrees(s: Byte)
    requires s < 250
    ensures Bumped(s) == NextSeq(s) <==> s != 249
    ensures NextSeq(s) == (s + 1) % 250 && Bumped(s) == (s + 1) % 256
  {
  }

  // ---------- Messages ----------

  const TYPE_PROBE_PING: Byte := 0
  const TYPE_PROBE_PONG: Byte := 1
  const TS_LEN := 8
  const TS_POS := 1
  const NBNUM_POS := TS_POS + TS_LEN
  const SEQ_POS := NBNUM_POS + 1
  const ADDR_POS := SEQ_POS + 1
  const PING_HEADER_LEN := ADDR_POS + 4
  const MASK_POS := PING_HEADER_LEN
  const ASN_POS := MASK_POS + 4
  const PONG_HEADER_LEN := ASN_POS + 2
  const RECORD_LEN := 13

  /** A `timeval` as it stands in memory. */
  type Stamp = b: Data | |b| == TS_LEN witness seq(TS_LEN, _ => 0)

  /** The bytes of a ping, and the front of a pong. */
  type Header = b: Data | |b| == PING_HEADER_LEN witness seq(PING_HEADER_LEN, _ => 0)

  /** A message of full length leaves nothing of what was there. */
  lemma OverlayFull(buff: Header, msg: Header)
    ensures Overlay(buff, msg) == msg
  {
    assert msg[..PING_HEADER_LEN] == msg;
  }

  /** A neighbour as a pong lists it; `asn` as it stands in the message. */
  datatype Record = Record(kind: Byte, addr: Word, port: Short, mask: Word, asn: Short)

  /** A message on its way out. */
  datatype Packet = Packet(addr: Word, port: Short, bytes: Data)

  function PingBytes(stamp: Stamp, count: Byte, number: Byte, addr: Word): Header {
    [TYPE_PROBE_PING] + (stamp + ([count, number] + Le4(addr)))
  }

  /** What the prober put into a ping is found at its place. */
  lemma PingReadsBack(stamp: Stamp, count: Byte, number: Byte, addr: Word)
    ensures var b := PingBytes(stamp, count, number, addr);
            && |b| == 15 && b[0] == 0 && b[1..9] == stamp && b[9] == count && b[10] == number && Get4(b, 11) == addr
  {
    hide Le4, Get4;
    var b: Data := PingBytes(stamp, count, number, addr);
    var pre := ([TYPE_PROBE_PING] + stamp) + [count, number];
    assert b == pre + (Le4(addr) + []);
    GetPut4(pre, addr, []);
  }

  /** A message copied over the front of the message buffer: of a short one, what was there before stays behind it. */
  function Overlay(buff: Header, msg: Data): Header {
    if |msg| >= PING_HEADER_LEN then msg[..PING_HEADER_LEN] else msg + buff[|msg|..]
  }

  /** Byte by byte. */
  lemma OverlayPlaces(buff: Header, msg: Data)
    ensures forall i :: 0 <= i < 15 ==> Overlay(buff, msg)[i] == if i < |msg| then msg[i] else buff[i]
  {
  }

  function RecordBytes(r: Record): (b: Data)
    ensures |b| == RECORD_LEN
  {
    [r.kind] + (Le4(r.addr) + (Le2(r.port) + (Le4(r.mask) + Le2(r.asn))))
  }

  function RecordsBytes(rs: seq<Record>): (b: Data)
    ensures |b| == RECORD_LEN * |rs|
  {
    if rs == [] then [] else RecordsBytes(rs[..|rs| - 1]) + RecordBytes(rs[|rs| - 1])
  }

  function GetRecord(b: Data, at: nat): Record
    requires at + RECORD_LEN <= |b|
  {
    Record(b[at], Get4(b, at + 1), Get2(b, at + 5), Get4(b, at + 7), Get2(b, at + 11))
  }

  /** The 13 bytes of a record: type, address, port, mask and AS number. */
  lemma RecordPlaces(r: Record)
    ensures var b := RecordBytes(r);
            && |b| == 13 && b[0] == r.kind && b[1..5] == Le4(r.addr) && b[5..7] == Le2(r.port)
            && b[7..11] == Le4(r.mask) && b[11..13] == Le2(r.asn)
  {
    hide Le2, Le4;
  }

  lemma GetRecordAt(pre: Data, r: Record, post: Data)
    ensures GetRecord(pre + (RecordBytes(r) + post), |pre|) == r
  {
    var b := pre + (RecordBytes(r) + post);
    var p1 := pre + [r.kind];
    var p2 := p1 + Le4(r.addr);
    var p3 := p2 + Le2(r.port);
    var p4 := p3 + Le4(r.mask);
    assert b == p1 + (Le4(r.addr) + (Le2(r.port) + (Le4(r.mask) + (Le2(r.asn) + post))));
    assert b == p2 + (Le2(r.port) + (Le4(r.mask) + (Le2(r.asn) + post)));
    assert b == p3 + (Le4(r.mask) + (Le2(r.asn) + post));
    assert b == p4 + (Le2(r.asn) + post);
    GetPut4(p1, r.addr, Le2(r.port) + (Le4(r.mask) + (Le2(r.asn) + post)));
    GetPut2(p2, r.port, Le4(r.mask) + (Le2(r.asn) + post));
    GetPut4(p3, r.mask, Le2(r.asn) + post);
    GetPut2(p4, r.asn, post);
  }

  lemma {:induction false} RecordsConcat(a: seq<Record>, b: seq<Record>)
    ensures RecordsBytes(a + b) == RecordsBytes(a) + RecordsBytes(b)
    decreases |b|
  {
    if b == [] {
      assert a + b == a;
    } else {
      assert (a + b)[..|a + b| - 1] == a + b[..|b| - 1];
      hide RecordBytes;
      RecordsConcat(a, b[..|b| - 1]);
      ConcatThree(RecordsBytes(a), RecordsBytes(b[..|b| - 1]), RecordBytes(b[|b| - 1]));
    }
  }

  lemma ConcatThree(a: Data, b: Data, c: Data)
    ensures a + (b + c) == (a + b) + c
  {
  }

  lemma ConcatFour(a: Data, b: Data, c: Data, d: Data)
    ensures a + ((b + c) + d) == (a + b) + (c + d)
  {
  }

  /** Record `k` of a message is found where its position says. */
  lemma RecordAt(head: Data, rs: seq<Record>, k: nat)
    requires k < |rs|
    ensures |head| + RECORD_LEN * k + RECORD_LEN <= |head + RecordsBytes(rs)|
    ensures GetRecord(head + RecordsBytes(rs), |head| + RECORD_LEN * k) == rs[k]
  {
    hide GetRecord, RecordBytes;
    var a, b := rs[..k], rs[k + 1..];
    assert rs == (a + [rs[k]]) + b;
    RecordsConcat(a + [rs[k]], b);
    assert (a + [rs[k]])[..k] == a;
    assert RecordsBytes(a + [rs[k]]) == RecordsBytes(a) + RecordBytes(rs[k]);
    ConcatFour(head, RecordsBytes(a), RecordBytes(rs[k]), RecordsBytes(b));
    GetRecordAt(head + RecordsBytes(a), rs[k], RecordsBytes(b));
  }

  // ---------- What a pong offers and what its receiver learns ----------

  /** The record of a neighbour: its AS number goes out swapped. */
  function RecordOf(n: Neighbor): Record
    reads n
  {
    Record(n.kind, n.addr, n.port, n.mask, Swap(n.asn))
  }

  /** Neighbours other than the peer, from the back of the list, at most `limit`. */
  function Offered(nl: seq<Neighbor>, peer: Word, limit: nat): (r: seq<Neighbor>)
    ensures |r| <= limit
  {
    if nl == [] || limit == 0 then []
    else
      var n := |nl| - 1;
      if nl[n].addr != peer then [nl[n]] + Offered(nl[..n], peer, limit - 1) else Offered(nl[..n], peer, limit)
  }

  function Records(ns: seq<Neighbor>): (rs: seq<Record>)
    reads ns
    ensures |rs| == |ns| && forall i :: 0 <= i < |ns| ==> rs[i] == RecordOf(ns[i])
  {
    if ns == [] then [] else Records(ns[..|ns| - 1]) + [RecordOf(ns[|ns| - 1])]
  }

  /** The offer is distinct neighbours other than the peer, and all of them when it stays below the limit. */
  lemma {:induction false} OfferedFacts(nl: seq<Neighbor>, peer: Word, limit: nat)
    requires forall i, j :: 0 <= i < j < |nl| ==> nl[i].addr != nl[j].addr
    ensures var r := Offered(nl, peer, limit);
            && (forall i :: 0 <= i < |r| ==> r[i] in nl && r[i].addr != peer)
            && (forall i, j :: 0 <= i < j < |r| ==> r[i].addr != r[j].addr)
    ensures |Offered(nl, peer, limit)| == limit || |Offered(nl, peer, limit)| == Others(nl, peer)
    ensures |Offered(nl, peer, limit)| <= Others(nl, peer)
  {
    if nl != [] && limit != 0 {
      var n := |nl| - 1;
      if nl[n].addr != peer {
        OfferedFacts(nl[..n], peer, limit - 1);
      } else {
        OfferedFacts(nl[..n], peer, limit);
      }
    }
  }

  /** The last `limit` places of a list that are wanted, the last one first. */
  ghost function Places(wanted: seq<bool>, limit: nat): seq<nat> {
    if wanted == [] || limit == 0 then []
    else
      var n := |wanted| - 1;
      if wanted[n] then [n] + Places(wanted[..n], limit - 1) else Places(wanted[..n], limit)
  }

  lemma {:induction false} PlacesDown(wanted: seq<bool>, limit: nat)
    ensures forall k :: 0 <= k < |Places(wanted, limit)| ==>
              Places(wanted, limit)[k] < |wanted| && wanted[Places(wanted, limit)[k]]
    ensures forall k, l :: 0 <= k < l < |Places(wanted, limit)| ==> Places(wanted, limit)[l] < Places(wanted, limit)[k]
  {
    if wanted != [] && limit != 0 {
      var n := |wanted| - 1;
      if wanted[n] {
        PlacesDown(wanted[..n], limit - 1);
      } else {
        PlacesDown(wanted[..n], limit);
      }
    }
  }

  /** A wanted place that is left out stands in front of all that are taken, when the limit is reached. */
  lemma {:induction false} PlaceLeftOut(wanted: seq<bool>, limit: nat, j: nat)
    requires j < |wanted| && wanted[j] && j !in Places(wanted, limit)
    ensures var at := Places(wanted, limit); |at| == limit && forall k :: 0 <= k < |at| ==> j < at[k]
  {
    if limit != 0 {
      var n := |wanted| - 1;
      var at, rest := Places(wanted, limit), Places(wanted[..n], if wanted[n] then limit - 1 else limit);
      assert at == (if wanted[n] then [n] else []) + rest;
      assert wanted[n] ==> at[0] == n;
      assert j < n;
      assert j !in rest;
      PlaceLeftOut(wanted[..n], if wanted[n] then limit - 1 else limit, j);
    }
  }

  function NotPeer(nl: seq<Neighbor>, peer: Word): (r: seq<bool>)
    ensures |r| == |nl| && forall i :: 0 <= i < |nl| ==> r[i] == (nl[i].addr != peer)
  {
    seq(|nl|, i requires 0 <= i < |nl| => nl[i].addr != peer)
  }

  /** The offer is the neighbours at the last places that are not the peer's, the last one first. */
  lemma {:induction false} OfferedPlaces(nl: seq<Neighbor>, peer: Word, limit: nat)
    ensures var at := Places(NotPeer(nl, peer), limit);
            && |at| == |Offered(nl, peer, limit)|
            && forall k :: 0 <= k < |at| ==> at[k] < |nl| && Offered(nl, peer, limit)[k] == nl[at[k]]
  {
    if nl != [] && limit != 0 {
      var n := |nl| - 1;
      assert NotPeer(nl, peer)[..n] == NotPeer(nl[..n], peer);
      OfferedPlaces(nl[..n], peer, if nl[n].addr != peer then limit - 1 else limit);
    }
  }

  /** How many neighbours are not the peer. */
  function Others(nl: seq<Neighbor>, peer: Word): nat {
    if nl == [] then 0 else Others(nl[..|nl| - 1], peer) + if nl[|nl| - 1].addr != peer then 1 else 0
  }

  /** What a receiver that knows `known` takes from a list of records: it stops at the first address it knows. */
  function Learned(known: set<Word>, rs: seq<Record>): (r: seq<Record>)
    ensures |r| <= |rs|
    decreases |rs|
  {
    if rs == [] || rs[0].addr in known then []
    else [rs[0]] + Learned(known + {rs[0].addr}, rs[1..])
  }

  /** It is the longest prefix of records with unknown and pairwise distinct addresses. */
  lemma {:induction false} LearnedIsLongest(known: set<Word>, rs: seq<Record>)
    ensures var k := |Learned(known, rs)|;
            && Learned(known, rs) == rs[..k]
            && (forall i :: 0 <= i < k ==> rs[i].addr !in known)
            && (forall i, j :: 0 <= i < j < k ==> rs[i].addr != rs[j].addr)
            && (k < |rs| ==> rs[k].addr in known || exists i :: 0 <= i < k && rs[i].addr == rs[k].addr)
    decreases |rs|
  {
    if rs != [] && rs[0].addr !in known {
      LearnedIsLongest(known + {rs[0].addr}, rs[1..]);
      var k := |Learned(known, rs)|;
      assert forall i :: 0 <= i < |rs| - 1 ==> rs[1..][i] == rs[i + 1];
      assert Learned(known, rs) == rs[..k];
      if k < |rs| && rs[k].addr !in known {
        if rs[k].addr == rs[0].addr {
        } else {
          var i :| 0 <= i < k - 1 && rs[1..][i].addr == rs[1..][k - 1].addr;
          assert rs[i + 1].addr == rs[k].addr;
        }
      }
    }
  }

  /** A receiver that knows none of what is offered learns all of it. */
  lemma ExchangeAll(nl: seq<Neighbor>, peer: Word, limit: nat, known: set<Word>)
    requires forall i, j :: 0 <= i < j < |nl| ==> nl[i].addr != nl[j].addr
    requires forall i :: 0 <= i < |nl| ==> nl[i].addr == peer || nl[i].addr !in known
    ensures Learned(known, Records(Offered(nl, peer, limit))) == Records(Offered(nl, peer, limit))
  {
    var offer := Offered(nl, peer, limit);
    OfferedFacts(nl, peer, limit);
    var rs := Records(offer);
    forall i | 0 <= i < |rs| ensures rs[i].addr == offer[i].addr && rs[i].addr !in known {
      assert offer[i] in nl;
    }
    LearnedIsLongest(known, rs);
    assert |Learned(known, rs)| == |rs|;
  }

  /** The first `count` records behind the header of a pong. */
  function RecordsIn(msg: Data, count: nat): (rs: seq<Record>)
    requires PONG_HEADER_LEN + RECORD_LEN * count <= |msg|
    ensures |rs| == count
    ensures forall i :: 0 <= i < count ==> rs[i] == GetRecord(msg, PONG_HEADER_LEN + RECORD_LEN * i)
  {
    seq(count, i requires 0 <= i < count => GetRecord(msg, PONG_HEADER_LEN + RECORD_LEN * i))
  }

  /** The records of a pong are read from any buffer it was received into. */
  lemma RecordsReadBack(head: Data, rs: seq<Record>, rest: Data)
    requires |head| == PONG_HEADER_LEN
    ensures PONG_HEADER_LEN + RECORD_LEN * |rs| <= |head + RecordsBytes(rs) + rest|
    ensures RecordsIn(head + RecordsBytes(rs) + rest, |rs|) == rs
  {
    hide GetRecord, RecordsBytes, RecordBytes, RecordsIn;
    var b := head + RecordsBytes(rs) + rest;
    RecordsSize(head, rs, rest);
    RecordsInAt(b, |rs|);
    forall k | 0 <= k < |rs| ensures RecordsIn(b, |rs|)[k] == rs[k] {
      RecordAt(head, rs, k);
      GetRecordInside(head + RecordsBytes(rs), rest, PONG_HEADER_LEN + RECORD_LEN * k);
    }
  }

  lemma RecordsSize(head: Data, rs: seq<Record>, rest: Data)
    ensures |RecordsBytes(rs)| == RECORD_LEN * |rs|
    ensures |head| + RECORD_LEN * |rs| <= |head + RecordsBytes(rs) + rest|
  {
  }

  lemma RecordsInAt(msg: Data, count: nat)
    requires PONG_HEADER_LEN + RECORD_LEN * count <= |msg|
    ensures |RecordsIn(msg, count)| == count
    ensures forall i :: 0 <= i < count ==> RecordsIn(msg, count)[i] == GetRecord(msg, PONG_HEADER_LEN + RECORD_LEN * i)
  {
  }

  lemma GetRecordInside(b: Data, rest: Data, at: nat)
    requires at + RECORD_LEN <= |b|
    ensures GetRecord(b + rest, at) == GetRecord(b, at)
  {
  }

  /** The reply to a ping: its stamp and probed address, the next sequence number, and `rs`. */
  function PongBytes(ping: Header, mask: Word, asn: Short, rs: seq<Record>): (b: Data)
    requires |rs| <= 255
    ensures |b| == PONG_HEADER_LEN + RECORD_LEN * |rs|
  {
    PongHead(ping, mask, asn, |rs|) + RecordsBytes(rs)
  }

  function PongHead(ping: Header, mask: Word, asn: Short, count: Byte): (b: Data)
    ensures |b| == PONG_HEADER_LEN
  {
    PongFront(ping, count) + (Le4(mask) + Le2(Swap(asn)))
  }

  /** A ping turned into the front of a pong. */
  function PongFront(ping: Header, count: Byte): Header {
    [TYPE_PROBE_PONG] + (ping[TS_POS..NBNUM_POS] + ([count, Bumped(ping[SEQ_POS])] + ping[ADDR_POS..]))
  }

  lemma PongParts(ping: Header, mask: Word, asn: Short, rs: seq<Record>)
    requires |rs| <= 255
    ensures PongBytes(ping, mask, asn, rs) == PongHead(ping, mask, asn, |rs|) + RecordsBytes(rs)
  {
  }

  /** The prober reads from a pong what the responder put there, and its own stamp and address. */
  lemma PongReadsBack(ping: Header, mask: Word, asn: Short, rs: seq<Record>)
    requires |rs| <= 255
    ensures var b := PongBytes(ping, mask, asn, rs);
            && b[0] == 1 && b[9] == |rs| && b[10] == (ping[10] as int + 1) % 256 && b[1..9] == ping[1..9]
            && b[21..] == RecordsBytes(rs)
  {
    hide Le2, Le4, RecordsBytes, Swap, PongFront;
    FrontReadsBack(ping, |rs|, Le4(mask) + Le2(Swap(asn)), RecordsBytes(rs));
  }

  /** A pong repeats the ping byte by byte, but for the type, the count and the number, which it answers. */
  lemma PongEchoes(ping: Header, mask: Word, asn: Short, rs: seq<Record>)
    requires |rs| <= 255
    ensures var b := PongBytes(ping, mask, asn, rs);
            && |b| >= 21 && b[0] == 1 && b[9] == |rs| && b[10] == (ping[10] as int + 1) % 256
            && forall i :: 1 <= i < 15 && i != 9 && i != 10 ==> b[i] == ping[i]
  {
    hide Le2, Le4, RecordsBytes, Swap;
    var b, front := PongBytes(ping, mask, asn, rs), PongFront(ping, |rs|);
    assert b == front + ((Le4(mask) + Le2(Swap(asn))) + RecordsBytes(rs));
    assert forall i :: 0 <= i < 15 ==> b[i] == front[i];
  }

  lemma FrontReadsBack(ping: Header, count: Byte, fields: Data, tail: Data)
    ensures var b := (PongFront(ping, count) + fields) + tail;
            && b[0] == 1 && b[NBNUM_POS] == count && b[SEQ_POS] == Bumped(ping[SEQ_POS])
            && b[TS_POS..NBNUM_POS] == ping[TS_POS..NBNUM_POS]
  {
    var stamp := ping[TS_POS..NBNUM_POS];
    var numbers: Data := [count, Bumped(ping[SEQ_POS])];
    var addr := ping[ADDR_POS..];
    var b := (PongFront(ping, count) + fields) + tail;
    assert b == [TYPE_PROBE_PONG] + (stamp + (numbers + ((addr + fields) + tail)));
    Middle([TYPE_PROBE_PONG], stamp, numbers + ((addr + fields) + tail));
    assert b == ([TYPE_PROBE_PONG] + stamp) + (numbers + ((addr + fields) + tail));
    Middle([TYPE_PROBE_PONG] + stamp, numbers, (addr + fields) + tail);
  }

  lemma Middle(a: Data, m: Data, c: Data)
    ensures (a + (m + c))[|a|..|a| + |m|] == m
    ensures forall i :: 0 <= i < |m| ==> (a + (m + c))[|a| + i] == m[i]
  {
  }

  lemma PongFieldsReadBack(ping: Header, mask: Word, asn: Short, rs: seq<Record>)
    requires |rs| <= 255
    ensures var b := PongBytes(ping, mask, asn, rs);
            Get4(b, 11) == Get4(ping, 11) && Get4(b, 15) == mask && Swap(Get2(b, 19)) == asn
  {
    hide Le2, Le4, Get2, Get4, Swap, RecordsBytes, PongFront;
    var head := PongFront(ping, |rs|);
    var post := Le2(Swap(asn)) + RecordsBytes(rs);
    ConcatFive(head, Le4(mask), Le2(Swap(asn)), RecordsBytes(rs));
    GetPut4(head, mask, post);
    GetPut2(head + Le4(mask), Swap(asn), RecordsBytes(rs));
    SwapTwice(asn);
    SameAddress(ping, |rs|, Le4(mask) + post);
  }

  lemma ConcatFive(a: Data, b: Data, c: Data, d: Data)
    ensures (a + (b + c)) + d == a + (b + (c + d)) == (a + b) + (c + d)
  {
  }

  lemma SameAddress(ping: Header, count: Byte, post: Data)
    ensures Get4(PongFront(ping, count) + post, ADDR_POS) == Get4(ping, ADDR_POS)
  {
  }

  // ---------- The table ----------

  datatype Interface = Interface(addr: Word, mask: Word, asn: Short)

  /** It is the mask and AS number of the first interface with that address, or a full mask and 0. */
  lemma {:induction false} LocatedIsFirst(interfaces: seq<Interface>, addr: Word)
    ensures forall i :: 0 <= i < |interfaces| && interfaces[i].addr == addr
                        && (forall j :: 0 <= j < i ==> interfaces[j].addr != addr) ==>
              Located(interfaces, addr) == (interfaces[i].mask, interfaces[i].asn)
    ensures (forall i :: 0 <= i < |interfaces| ==> interfaces[i].addr != addr) ==>
              Located(interfaces, addr) == (0xffff_ffff, 0)
  {
    if interfaces != [] && interfaces[0].addr != addr {
      LocatedIsFirst(interfaces[1..], addr);
      assert forall i :: 0 < i < |interfaces| ==> interfaces[i] == interfaces[1..][i - 1];
    }
  }

  /** A line of the configuration file. */
  datatype Line = Line(kind: Byte, addr: Word, port: Short, ts: Time, asn: Short, mask: Word)

  /** An address of a private network, by its first two octets. */
  predicate Intra(addr: Word) {
    var first, second := addr % 256, addr / 256 % 256;
    || first == 10
    || (first == 172 && 16 <= second < 32)
    || (first == 192 && second == 168)
    || (first == 169 && second == 254)
  }

  /** In dotted notation, as addresses stand in memory. */
  lemma IntraOctets(a: Byte, b: Byte, c: Byte, d: Byte)
    ensures Intra(a as int + 256 * b as int + 65536 * c as int + 16777216 * d as int) <==>
            a == 10 || (a == 172 && 16 <= b < 32) || (a == 192 && b == 168) || (a == 169 && b == 254)
  {
    var addr := a as int + 256 * b as int + 65536 * c as int + 16777216 * d as int;
    assert addr % 256 == a && addr / 256 == b as int + 256 * c as int + 65536 * d as int;
  }

  /** Lines with a negative type, no address or port, or an address of this proxy or a private network are skipped. */
  predicate Usable(l: Line, interfaces: seq<Interface>) {
    && l.kind < 128 && l.addr != 0 && l.port != 0
    && (forall i :: 0 <= i < |interfaces| ==> interfaces[i].addr != l.addr)
    && !Intra(l.addr)
  }

  /** The same with the address in dotted notation. */
  lemma UsableIff(l: Line, interfaces: seq<Interface>, a: Byte, b: Byte, c: Byte, d: Byte)
    requires l.addr == a as int + 256 * b as int + 65536 * c as int + 16777216 * d as int
    ensures Usable(l, interfaces) <==>
            && l.kind < 128 && l.port != 0 && (a != 0 || b != 0 || c != 0 || d != 0)
            && (forall i :: 0 <= i < |interfaces| ==> interfaces[i].addr != l.addr)
            && !(a == 10 || (a == 172 && 16 <= b < 32) || (a == 192 && b == 168) || (a == 169 && b == 254))
  {
    hide Intra;
    IntraOctets(a, b, c, d);
  }

  function Chosen(lines: seq<Line>, interfaces: seq<Interface>): (r: seq<Line>)
    ensures forall i :: 0 <= i < |r| ==> Usable(r[i], interfaces)
  {
    if lines == [] then []
    else
      var l := lines[|lines| - 1];
      Chosen(lines[..|lines| - 1], interfaces) + if Usable(l, interfaces) then [l] else []
  }

  /** Exactly the usable lines are chosen. */
  lemma {:induction false} ChosenIff(lines: seq<Line>, interfaces: seq<Interface>)
    ensures forall l :: l in Chosen(lines, interfaces) <==> l in lines && Usable(l, interfaces)
    ensures |Chosen(lines, interfaces)| <= |lines|
  {
    hide Usable;
    if lines != [] {
      var n := |lines| - 1;
      ChosenIff(lines[..n], interfaces);
      assert lines == lines[..n] + [lines[n]];
    }
  }

  ghost predicate Describes(l: Line, n: Neighbor)
    reads n
  {
    n.kind == l.kind && n.addr == l.addr && n.port == l.port && n.ts == l.ts && n.asn == l.asn && n.mask == l.mask &&
    n.next == 0
  }

  /** What the responder reports about the address it was probed at. */
  function Located(interfaces: seq<Interface>, addr: Word): (Word, Short) {
    if interfaces == [] then (0xffff_ffff, 0)
    else if interfaces[0].addr == addr then (interfaces[0].mask, interfaces[0].asn)
    else Located(interfaces[1..], addr)
  }

  ghost predicate Numbered(nl: seq<Neighbor>)
    reads nl`next
  {
    forall i :: 0 <= i < |nl| ==> nl[i].next < SEQ_LIMIT
  }

  lemma NumberedProbed(nl: seq<Neighbor>, evict: bool)
    requires nl != [] && (evict ==> 2 <= |nl|) && Numbered(nl)
    ensures Numbered(Probed(nl, evict))
  {
  }

  class SimpleNbmtr {
    const minSize: int
    const abateInterval: int
    const perQuery: Byte
    const interfaces: seq<Interface>
    var nm: map<Word, Neighbor>
    var nl: seq<Neighbor>
    /** The front of the message buffer, in which pings and pongs are built over whatever was there before. */
    var buff: Header
    /** Everything sent so far. */
    var outbox: seq<Packet>

    /** Map and list agree, the list is never empty, and sequence numbers stay below their limit. */
    ghost predicate Valid()
      reads this, nl`next
    {
      nl != [] && Linked(nm, nl) && Numbered(nl)
    }

    /**
     Starts from the usable lines of a configuration file.  The table is in order exactly when there are any, and no
     address comes twice.
     */
    constructor (lines: seq<Line>, minSize: int, abateInterval: int, perQuery: Byte, interfaces: seq<Interface>,
                 buff: Header)
      ensures var chosen := Chosen(lines, interfaces);
              && |nl| == |chosen| && (forall i :: 0 <= i < |nl| ==> Describes(chosen[i], nl[i]) && fresh(nl[i]))
              && (forall i :: 0 <= i < |nl| ==>
                    && nl[i].kind == chosen[i].kind && nl[i].addr == chosen[i].addr && nl[i].port == chosen[i].port
                    && nl[i].ts == chosen[i].ts && nl[i].asn == chosen[i].asn && nl[i].mask == chosen[i].mask
                    && nl[i].next == 0)
              && Indexed(nm, nl)
              && (Valid() <==>
                    chosen != [] && forall i, j :: 0 <= i < j < |chosen| ==> chosen[i].addr != chosen[j].addr)
      ensures outbox == [] && this.minSize == minSize && this.abateInterval == abateInterval
      ensures this.perQuery == perQuery && this.interfaces == interfaces && this.buff == buff
    {
      hide Usable, Linked;
      this.minSize, this.abateInterval, this.perQuery, this.interfaces := minSize, abateInterval, perQuery, interfaces;
      this.buff := buff;
      nm, nl, outbox := map[], [], [];
      new;
      var i := 0;
      while i < |lines|
        invariant 0 <= i <= |lines| && outbox == [] && this.buff == buff
        invariant |nl| == |Chosen(lines[..i], interfaces)|
        invariant forall k :: 0 <= k < |nl| ==> Describes(Chosen(lines[..i], interfaces)[k], nl[k]) && fresh(nl[k])
        invariant Indexed(nm, nl)
      {
        var l := lines[i];
        assert lines[..i + 1][..i] == lines[..i];
        if Usable(l, interfaces) {
          var pn := new Neighbor(l.kind, l.addr, l.port, l.ts, l.mask, l.asn);
          IndexedPush(nm, nl, pn);
          nm := nm[pn.addr := pn];
          nl := nl + [pn];
        }
        i := i + 1;
      }
      assert lines[..i] == lines;
      IndexedLinkedIff(nm, nl);
    }

    /** Sends a ping to `n` and moves its sequence number on. */
    method Ping(n: Neighbor, stamp: Stamp, count: Byte)
      requires n.next < SEQ_LIMIT
      modifies this`outbox, this`buff, n`next
      ensures n.next == NextSeq(old(n.next)) && buff == PingBytes(stamp, count, old(n.next), n.addr)
      ensures outbox == old(outbox) + [Packet(n.addr, n.port, PingBytes(stamp, count, old(n.next), n.addr))]
    {
      buff := PingBytes(stamp, count, n.next, n.addr);
      outbox := outbox + [Packet(n.addr, n.port, buff)];
      n.next := n.next + 1;
      if n.next >= SEQ_LIMIT { n.next := 0; }
    }

    /** The pings of one probe: to the front of the list, and before that to the back while the table is small. */
    method SendPings(pn: Neighbor, back: Neighbor, stamp: Stamp)
      requires Valid() && pn == nl[0] && back == nl[|nl| - 1]
      modifies this`outbox, this`buff, pn`next, back`next
      ensures Valid() && outbox != [] && buff == outbox[|outbox| - 1].bytes
      ensures pn.next == NextSeq(old(pn.next))
      ensures back != pn ==> back.next == if |nl| < minSize then NextSeq(old(back.next)) else old(back.next)
      ensures outbox == old(outbox) + old(Pings(stamp))
      ensures outbox[|outbox| - 1] ==
              Packet(pn.addr, pn.port, PingBytes(stamp, if |nl| < minSize then perQuery else 0, old(pn.next), pn.addr))
      ensures if 2 <= |nl| < minSize
              then |outbox| == |old(outbox)| + 2 &&
                   outbox[|old(outbox)|] ==
                   Packet(back.addr, back.port, PingBytes(stamp, perQuery, old(back.next), back.addr))
              else |outbox| == |old(outbox)| + 1
    {
      hide Linked, PingBytes;
      LinkedSize(nm, nl);
      LinkedDistinct(nm, nl);
      var count: Byte := 0;
      if |nm| < minSize {
        count := perQuery;
        if |nl| >= 2 { Ping(back, stamp, count); }
      }
      Ping(pn, stamp, count);
    }

    function PingTo(n: Neighbor, stamp: Stamp, count: Byte): Packet
      reads n
    {
      Packet(n.addr, n.port, PingBytes(stamp, count, n.next, n.addr))
    }

    /** How many neighbours the front of the list is asked for: none once the table is large enough. */
    function Wanted(): Byte
      reads this
    {
      if |nl| < minSize then perQuery else 0
    }

    function Pings(stamp: Stamp): seq<Packet>
      requires nl != []
      reads this, nl
    {
      (if 2 <= |nl| < minSize then [PingTo(nl[|nl| - 1], stamp, perQuery)] else []) + [PingTo(nl[0], stamp, Wanted())]
    }

    /** Whether the back of the list, heard of at `ts`, has been silent for too long at time `now`. */
    predicate TooOld(nl: seq<Neighbor>, ts: Time, now: Time)
      requires nl != []
    {
      2 <= |nl| && nl[|nl| - 1].kind != ORACLE && now - ts >= abateInterval
    }

    /**
     Probes the front of the list and moves it to the back; a small table also asks its last neighbour for more.
     The old back leaves the table when it has been silent for too long, unless it is an oracle or the last one.
     */
    method Probe(stamp: Stamp, time: Clock) returns (ghost evicted: bool)
      requires Valid() && time.Valid()
      modifies this, nl, time
      ensures Valid() && time.Valid() && old(time.last) <= time.last
      ensures evicted == TooOld(old(nl), old(nl[|nl| - 1].ts), time.last)
      ensures evicted <==> 2 <= |old(nl)| && old(nl)[|old(nl)| - 1].kind != 0
                           && time.last - old(nl[|nl| - 1].ts) >= abateInterval
      ensures nl == Probed(old(nl), evicted)
      ensures nl == (if evicted then old(nl)[1..|old(nl)| - 1] else old(nl)[1..]) + [old(nl)[0]]
      ensures nm == if evicted then old(nm) - {old(nl)[|old(nl)| - 1].addr} else old(nm)
      ensures outbox == old(outbox) + old(Pings(stamp)) && outbox != [] && buff == outbox[|outbox| - 1].bytes
      ensures var front := old(nl)[0];
              outbox[|outbox| - 1] ==
              Packet(front.addr, front.port,
                     PingBytes(stamp, if |old(nl)| < minSize then perQuery else 0, old(nl[0].next), front.addr))
      ensures if 2 <= |old(nl)| < minSize
              then var back := old(nl)[|old(nl)| - 1];
                   |outbox| == |old(outbox)| + 2 &&
                   outbox[|old(outbox)|] ==
                   Packet(back.addr, back.port, PingBytes(stamp, perQuery, old(nl[|nl| - 1].next), back.addr))
              else |outbox| == |old(outbox)| + 1
      ensures old(nl)[0].ts == time.last && old(nl)[0].next == NextSeq(old(nl[0].next))
      ensures forall i :: 0 < i < |old(nl)| ==> old(nl)[i].ts == old(nl[i].ts)
      ensures forall i :: 0 < i < |old(nl)| - 1 ==> old(nl)[i].next == old(nl[i].next)
      ensures forall i :: 0 <= i < |old(nl)| ==> old(nl)[i].mask == old(nl[i].mask) && old(nl)[i].asn == old(nl[i].asn)
      ensures 2 <= |old(nl)| ==>
                var back := old(nl)[|old(nl)| - 1];
                back.next == if |old(nl)| < minSize then NextSeq(old(nl[|nl| - 1].next)) else old(nl[|nl| - 1].next)
      ensures forall i :: 0 <= i < |old(nl)| && old(nl)[i].kind == ORACLE ==> old(nl)[i] in nl
    {
      hide Linked, PingBytes, Pings, Probed, Numbered, NextSeq;
      LinkedEnds(nm, nl);
      var pn := nl[0];
      SendPings(pn, nl[|nl| - 1], stamp);
      var now := time.Now();
      pn.ts := now;
      evicted := Rotate(pn);
      OraclesStay(old(nl), evicted);
    }

    /** Moves the front `pn` to the back, after dropping the old back if it is too old. */
    method Rotate(pn: Neighbor) returns (evicted: bool)
      requires Valid() && pn == nl[0]
      modifies this`nm, this`nl
      ensures Valid()
      ensures evicted == TooOld(old(nl), old(nl)[|old(nl)| - 1].ts, pn.ts)
      ensures nl == Probed(old(nl), evicted)
      ensures nl == (if evicted then old(nl)[1..|old(nl)| - 1] else old(nl)[1..]) + [old(nl)[0]]
      ensures nm == if evicted then old(nm) - {old(nl)[|old(nl)| - 1].addr} else old(nm)
    {
      hide Linked, Numbered;
      LinkedSize(nm, nl);
      var back := nl[|nl| - 1];
      evicted := pn.ts - back.ts >= abateInterval && back.kind != ORACLE && |nm| > 1;
      NumberedProbed(nl, evicted);
      LinkedProbed(nm, nl, evicted);
      ProbedSteps(nl, evicted);
      if evicted {
        nm := nm - {back.addr};
        nl := nl[..|nl| - 1];
      }
      nl := nl + [pn];
      nl := nl[1..];
    }

    method Locate(addr: Word) returns (mask: Word, asn: Short)
      ensures (mask, asn) == Located(interfaces, addr)
    {
      var i := 0;
      while i < |interfaces|
        invariant 0 <= i <= |interfaces|
        invariant Located(interfaces, addr) == Located(interfaces[i..], addr)
      {
        if interfaces[i].addr == addr { return interfaces[i].mask, interfaces[i].asn; }
        i := i + 1;
      }
      return 0xffff_ffff, 0;
    }

    /** A new neighbour joins the map and the front of the list. */
    method Join(r: Record, time: Clock) returns (pn: Neighbor)
      requires Valid() && time.Valid() && r.addr !in nm
      modifies this`nm, this`nl, time
      ensures Valid() && time.Valid() && old(time.last) <= time.last && fresh(pn)
      ensures nm == old(nm)[r.addr := pn] && nm.Keys == old(nm).Keys + {r.addr} && nl == [pn] + old(nl)
      ensures Holds(pn, r) && pn.ts == time.last
    {
      hide Linked, Numbered;
      var now := time.Now();
      pn := new Neighbor(r.kind, r.addr, r.port, now, r.mask, r.asn);
      LinkedPushFront(nm, nl, pn);
      NumberedPush(nl, pn);
      nm := nm[r.addr := pn];
      nl := [pn] + nl;
    }

    /** Learns an unknown peer and answers in the message buffer, over the front of which the ping is copied. */
    method AnswerPing(msg: Data, peerAddr: Word, peerPort: Short, time: Clock)
      requires Valid() && time.Valid()
      modifies this, time
      ensures Valid() && time.Valid() && old(time.last) <= time.last
      ensures peerAddr in old(nm) ==> nm == old(nm) && nl == old(nl)
      ensures peerAddr !in old(nm) ==>
                && nl != [] && nl[1..] == old(nl) && fresh(nl[0]) && nm == old(nm)[peerAddr := nl[0]]
                && Holds(nl[0], Record(1, peerAddr, peerPort, 0xffff_ffff, 0)) && nl[0].ts == time.last
      ensures var ping := Overlay(old(buff), msg);
              var (mask, asn) := Located(interfaces, Get4(ping, ADDR_POS));
              var offer := Offered(nl, peerAddr, ping[NBNUM_POS]);
              && outbox == old(outbox) + [Packet(peerAddr, peerPort, PongBytes(ping, mask, asn, Records(offer)))]
              && buff == PongFront(ping, |offer|)
    {
      hide Linked, Numbered, PongBytes, PongFront, PongHead, Overlay, Holds, Offered, RecordsBytes, Records;
      if peerAddr !in nm { var _ := Join(Record(PEER, peerAddr, peerPort, 0xffff_ffff, 0), time); }
      buff := Overlay(buff, msg);
      var mask, asn := Locate(Get4(buff, ADDR_POS));
      var m, body := OfferRecords(peerAddr, buff[NBNUM_POS]);
      PongParts(buff, mask, asn, Records(Offered(nl, peerAddr, buff[NBNUM_POS])));
      outbox := outbox + [Packet(peerAddr, peerPort, PongHead(buff, mask, asn, m) + body)];
      buff := PongFront(buff, m);
    }

    /**
     Learns an unknown peer, and answers with up to as many other neighbours as the ping asks for.  A ping of any
     length is copied over the front of the message buffer and answered there.
     */
    method ProcessPing(msg: Data, peerAddr: Word, peerPort: Short, time: Clock)
      requires Valid() && time.Valid()
      modifies this, time
      ensures Valid() && time.Valid() && old(time.last) <= time.last
      ensures peerAddr in old(nm) ==> nm == old(nm) && nl == old(nl)
      ensures peerAddr !in old(nm) ==>
                && nl != [] && nl[1..] == old(nl) && fresh(nl[0]) && nm == old(nm)[peerAddr := nl[0]]
                && nl[0].kind == 1 && nl[0].addr == peerAddr && nl[0].port == peerPort && nl[0].mask == 0xffff_ffff
                && nl[0].asn == 0 && nl[0].next == 0 && nl[0].ts == time.last
      ensures var ping := Overlay(old(buff), msg);
              var (mask, asn) := Located(interfaces, Get4(ping, ADDR_POS));
              var offer := Offered(nl, peerAddr, ping[NBNUM_POS]);
              && outbox == old(outbox) + [Packet(peerAddr, peerPort, PongBytes(ping, mask, asn, Records(offer)))]
              && buff == PongFront(ping, |offer|)
      ensures var addr := Get4(Overlay(old(buff), msg), ADDR_POS);
              var pong := outbox[|outbox| - 1].bytes;
              && |outbox| > 0 && |pong| >= PONG_HEADER_LEN
              && (forall i :: 0 <= i < |interfaces| && interfaces[i].addr == addr
                              && (forall j :: 0 <= j < i ==> interfaces[j].addr != addr) ==>
                    Get4(pong, MASK_POS) == interfaces[i].mask && Swap(Get2(pong, ASN_POS)) == interfaces[i].asn)
              && ((forall i :: 0 <= i < |interfaces| ==> interfaces[i].addr != addr) ==>
                    Get4(pong, MASK_POS) == 0xffff_ffff && Swap(Get2(pong, ASN_POS)) == 0)
      ensures var pong := outbox[|outbox| - 1].bytes;
              && |outbox| > 0 && |pong| >= 21 && pong[0] == 1
              && pong[10] == (1 + if 10 < |msg| then msg[10] as int else old(buff)[10]) % 256
              && forall i :: 1 <= i < 15 && i != 9 && i != 10 ==> pong[i] == if i < |msg| then msg[i] else old(buff)[i]
    {
      hide Valid, PongBytes, PongFront, Overlay, Offered, Records, Located, Get4, Get2, Swap;
      AnswerPing(msg, peerAddr, peerPort, time);
      ghost var ping := Overlay(old(buff), msg);
      ghost var (mask, asn) := Located(interfaces, Get4(ping, ADDR_POS));
      ghost var rs := Records(Offered(nl, peerAddr, ping[NBNUM_POS]));
      OverlayPlaces(old(buff), msg);
      LocatedIsFirst(interfaces, Get4(ping, ADDR_POS));
      PongFieldsReadBack(ping, mask, asn, rs);
      PongEchoes(ping, mask, asn, rs);
      assert outbox[|outbox| - 1].bytes == PongBytes(ping, mask, asn, rs);
    }

    /** The records of the neighbours offered to a peer. */
    method OfferRecords(peerAddr: Word, n: Byte) returns (m: Byte, body: Data)
      ensures var offer := Offered(nl, peerAddr, n); m == |offer| && body == RecordsBytes(Records(offer))
    {
      hide RecordsBytes, Records, RecordBytes;
      RecordsNone();
      m, body := 0, [];
      ghost var got: seq<Neighbor> := [];
      var i := |nl|;
      assert nl[..i] == nl;
      while i > 0 && m < n
        invariant 0 <= i <= |nl| && m == |got| <= n
        invariant Offered(nl, peerAddr, n) == got + Offered(nl[..i], peerAddr, n - m)
        invariant body == RecordsBytes(Records(got))
        decreases i
      {
        i := i - 1;
        assert nl[..i + 1][..i] == nl[..i];
        if nl[i].addr != peerAddr {
          RecordsPush(got, nl[i]);
          got := got + [nl[i]];
          body := body + RecordBytes(RecordOf(nl[i]));
          m := m + 1;
        }
      }
      assert Offered(nl, peerAddr, n) == got + [] == got;
    }

    /**
     Updates the answering neighbour and learns what its pong offers.  `msg` is the whole buffer it was received
     into: of a pong that holds fewer records than it says, the rest is what the buffer held before.
     */
    method ProcessPong(msg: Data, peerAddr: Word, time: Clock) returns (accepted: bool, ghost news: seq<Neighbor>)
      requires Valid() && time.Valid()
      requires |msg| >= PONG_HEADER_LEN && |msg| >= PONG_HEADER_LEN + RECORD_LEN * msg[NBNUM_POS]
      modifies this`nm, this`nl, nl, time
      ensures Valid() && time.Valid() && old(time.last) <= time.last
      ensures accepted <==>
                Get4(msg, ADDR_POS) == peerAddr && peerAddr in old(nm) && old(nm[peerAddr].next) == msg[SEQ_POS]
      ensures !accepted ==> nm == old(nm) && nl == old(nl)
      ensures forall n :: n in old(nl) ==> n.next == old(n.next)
      ensures forall n :: n in old(nl) && (!accepted || n.addr != peerAddr) ==>
                n.ts == old(n.ts) && n.mask == old(n.mask) && n.asn == old(n.asn)
      ensures accepted ==>
                var pn := old(nm)[peerAddr];
                && pn.mask == Get4(msg, MASK_POS) && pn.asn == Swap(Get2(msg, ASN_POS))
                && old(time.last) <= pn.ts <= time.last
      ensures accepted ==>
                && nl == news + old(nl) && AllHold(news, Learned(old(nm).Keys, RecordsIn(msg, msg[NBNUM_POS])))
                && forall n :: n in news ==> fresh(n)
    {
      hide Linked, RecordsIn, Learned, Get4, Get2, AllHold, Numbered;
      if Get4(msg, ADDR_POS) != peerAddr || peerAddr !in nm || nm[peerAddr].next != msg[SEQ_POS] { return false, []; }
      accepted := true;
      LinkedDistinct(nm, nl);
      var pn := nm[peerAddr];
      assert pn in nl;
      var now := time.Now();
      pn.ts := now;
      pn.mask := Get4(msg, MASK_POS);
      pn.asn := Swap(Get2(msg, ASN_POS));
      news := Learn(msg, time);
    }

    /** Pushes the records of a pong to the front of the list, up to the first one whose address is known. */
    method Learn(msg: Data, time: Clock) returns (ghost news: seq<Neighbor>)
      requires Valid() && time.Valid()
      requires |msg| >= PONG_HEADER_LEN && |msg| >= PONG_HEADER_LEN + RECORD_LEN * msg[NBNUM_POS]
      modifies this`nm, this`nl, time
      ensures Valid() && time.Valid() && old(time.last) <= time.last
      ensures nl == news + old(nl) && AllHold(news, Learned(old(nm).Keys, RecordsIn(msg, msg[NBNUM_POS])))
      ensures forall n :: n in news ==> fresh(n)
    {
      hide Linked, RecordsIn, Learned, GetRecord, AllHold, Numbered, Holds;
      ghost var rs := RecordsIn(msg, msg[NBNUM_POS]);
      var pos := PONG_HEADER_LEN;
      ghost var k := 0;
      var i := 0;
      news := [];
      AllHoldNone();
      assert rs[..0] == [] && rs[k..] == rs;
      while i < msg[NBNUM_POS]
        invariant 0 <= k <= i <= |rs| && pos == PONG_HEADER_LEN + RECORD_LEN * k
        invariant Valid() && time.Valid() && old(time.last) <= time.last
        invariant Learned(old(nm).Keys, rs) == rs[..k] + Learned(nm.Keys, rs[k..])
        invariant k < i ==> rs[k].addr in nm
        invariant nl == news + old(nl) && AllHold(news, rs[..k])
        invariant forall n :: n in news ==> fresh(n)
      {
        var r := GetRecord(msg, pos);
        if r.addr !in nm {
          pos := pos + RECORD_LEN;
          LearnStep(old(nm).Keys, nm.Keys, rs, k);
          var pn := Join(r, time);
          AllHoldPush(news, rs, k, pn);
          news := [pn] + news;
          k := k + 1;
        }
        i := i + 1;
      }
      LearnEnd(nm.Keys, rs, k);
      assert Learned(old(nm).Keys, rs) == rs[..k] + [] == rs[..k];
    }
  }

  /** `news` holds the records `rs`, the last of them in front. */
  ghost predicate AllHold(news: seq<Neighbor>, rs: seq<Record>)
    reads news
  {
    |news| == |rs| && forall i :: 0 <= i < |news| ==> Holds(news[i], rs[|rs| - 1 - i])
  }

  lemma AllHoldNone()
    ensures AllHold([], [])
  {
  }

  lemma AllHoldPush(news: seq<Neighbor>, rs: seq<Record>, k: nat, pn: Neighbor)
    requires k < |rs| && AllHold(news, rs[..k]) && Holds(pn, rs[k])
    ensures AllHold([pn] + news, rs[..k + 1])
  {
    var news' := [pn] + news;
    forall i | 0 <= i < |news'| ensures Holds(news'[i], rs[..k + 1][k - i]) {
      if i > 0 { assert Holds(news[i - 1], rs[..k][k - i]); }
    }
  }

  lemma NumberedPush(nl: seq<Neighbor>, pn: Neighbor)
    requires Numbered(nl) && pn.next == 0
    ensures Numbered([pn] + nl)
  {
  }

  ghost predicate Holds(n: Neighbor, r: Record)
    reads n
  {
    n.kind == r.kind && n.addr == r.addr && n.port == r.port && n.mask == r.mask && n.asn == r.asn && n.next == 0
  }

  lemma RecordsNone()
    ensures Records([]) == [] && RecordsBytes([]) == []
  {
  }

  lemma RecordsPush(got: seq<Neighbor>, n: Neighbor)
    ensures RecordsBytes(Records(got + [n])) == RecordsBytes(Records(got)) + RecordBytes(RecordOf(n))
  {
    assert (got + [n])[..|got|] == got;
    assert Records(got + [n])[..|got|] == Records(got);
  }

  lemma LearnStep(known0: set<Word>, known: set<Word>, rs: seq<Record>, k: nat)
    requires k < |rs| && rs[k].addr !in known
    requires Learned(known0, rs) == rs[..k] + Learned(known, rs[k..])
    ensures Learned(known0, rs) == rs[..k + 1] + Learned(known + {rs[k].addr}, rs[k + 1..])
  {
    assert rs[k..][1..] == rs[k + 1..];
  }

  lemma LearnEnd(known: set<Word>, rs: seq<Record>, k: nat)
    requires k <= |rs| && (k < |rs| ==> rs[k].addr in known)
    ensures Learned(known, rs[k..]) == []
  {
  }

  // ---------- An exchange ----------

  /**
   `n` is what a prober made of the responder's neighbour `m`: every field is right, except that the AS number is
   right exactly when its two bytes are equal.
   */
  ghost predicate Taught(n: Neighbor, m: Neighbor)
    reads n, m
  {
    && n.kind == m.kind && n.addr == m.addr && n.port == m.port && n.mask == m.mask && n.asn == Swap(m.asn)
    && (n.asn == m.asn <==> m.asn % 256 == m.asn / 256)
  }

  /** The learned neighbours are the front of what the responder offers, the last of them in front. */
  lemma LearnedTaught(news: seq<Neighbor>, offer: seq<Neighbor>, known: set<Word>)
    requires AllHold(news, Learned(known, Records(offer))) && Distinct(offer)
    ensures |news| <= |offer| && (AllNew(known, offer) ==> |news| == |offer|)
    ensures forall i :: 0 <= i < |news| ==> Taught(news[i], offer[|news| - 1 - i])
  {
    hide Learned, Records, Swap;
    var rs := Records(offer);
    LearnedIsLongest(known, rs);
    assert forall i :: 0 <= i < |offer| ==> rs[i].addr == offer[i].addr;
    forall i | 0 <= i < |news| ensures Taught(news[i], offer[|news| - 1 - i]) {
      var m := offer[|news| - 1 - i];
      assert Holds(news[i], RecordOf(m));
      SwapFixedIff(m.asn);
    }
  }

  /** What a prober reads from the buffer into which a pong was received. */
  lemma PongReceived(ping: Header, mask: Word, asn: Short, rs: seq<Record>, rest: Data)
    requires |rs| <= 255
    ensures var msg := PongBytes(ping, mask, asn, rs) + rest;
            && msg[NBNUM_POS] == |rs| && msg[SEQ_POS] == Bumped(ping[SEQ_POS])
            && Get4(msg, ADDR_POS) == Get4(ping, ADDR_POS)
            && Get4(msg, MASK_POS) == mask && Swap(Get2(msg, ASN_POS)) == asn
            && |msg| >= PONG_HEADER_LEN + RECORD_LEN * |rs| && RecordsIn(msg, |rs|) == rs
  {
    hide RecordsIn, PongHead, RecordsBytes, Swap;
    var pong := PongBytes(ping, mask, asn, rs);
    PongReadsBack(ping, mask, asn, rs);
    PongFieldsReadBack(ping, mask, asn, rs);
    RecordsReadBack(PongHead(ping, mask, asn, |rs|), rs, rest);
    Get4Inside(pong, rest, ADDR_POS);
    Get4Inside(pong, rest, MASK_POS);
    assert Get2(pong + rest, ASN_POS) == Get2(pong, ASN_POS);
  }

  lemma Get4Inside(b: Data, rest: Data, at: nat)
    requires at + 4 <= |b|
    ensures Get4(b + rest, at) == Get4(b, at)
  {
  }

  ghost predicate Apart(a: seq<Neighbor>, b: seq<Neighbor>) {
    forall i, j :: 0 <= i < |a| && 0 <= j < |b| ==> a[i] != b[j]
  }

  lemma ProbedApart(nl: seq<Neighbor>, others: seq<Neighbor>, evict: bool)
    requires nl != [] && (evict ==> 2 <= |nl|) && Apart(nl, others)
    ensures Apart(Probed(nl, evict), others) && nl[0] in Probed(nl, evict)
    ensures forall i :: 0 <= i < |Probed(nl, evict)| ==> Probed(nl, evict)[i] in nl
  {
    var nl' := Probed(nl, evict);
    assert nl'[|nl'| - 1] == nl[0];
    forall i | 0 <= i < |nl'| ensures nl'[i] in nl {
      assert nl'[i] == nl[if i == |nl'| - 1 then 0 else i + 1];
    }
  }

  lemma ApartJoined(a: seq<Neighbor>, b: seq<Neighbor>, b': seq<Neighbor>)
    requires Apart(a, b)
    requires b' == b || (b' != [] && b'[1..] == b && forall i :: 0 <= i < |a| ==> a[i] != b'[0])
    ensures Apart(a, b')
  {
    forall i, j | 0 <= i < |a| && 0 <= j < |b'| ensures a[i] != b'[j] {
      if b' != b && j > 0 { assert b'[j] == b[j - 1]; }
    }
  }

  lemma OfferedApart(a: seq<Neighbor>, b: seq<Neighbor>, peer: Word, limit: nat)
    requires Apart(a, b)
    ensures Apart(a, Offered(b, peer, limit))
    decreases |b|
  {
    if b != [] {
      var n := |b| - 1;
      OfferedApart(a, b[..n], peer, limit);
      if limit > 0 { OfferedApart(a, b[..n], peer, limit - 1); }
    }
  }

  ghost predicate Distinct(nl: seq<Neighbor>) {
    forall i, j :: 0 <= i < j < |nl| ==> nl[i].addr != nl[j].addr
  }

  lemma OfferedDistinct(nm: map<Word, Neighbor>, nl: seq<Neighbor>, peer: Word, limit: nat)
    requires Linked(nm, nl)
    ensures Distinct(Offered(nl, peer, limit))
  {
    OfferedFacts(nl, peer, limit);
  }

  /** Nobody known among what is offered. */
  ghost predicate AllNew(known: set<Word>, offer: seq<Neighbor>) {
    forall i :: 0 <= i < |offer| ==> offer[i].addr !in known
  }

  /** A responder's table after a ping: a peer it did not know stands in front. */
  ghost predicate Met(nl0: seq<Neighbor>, nl: seq<Neighbor>, peer: Word) {
    nl == nl0 || (nl != [] && nl[1..] == nl0 && nl[0].addr == peer)
  }

  lemma NumberedFirst(nl: seq<Neighbor>)
    requires Numbered(nl) && nl != []
    ensures nl[0].next < SEQ_LIMIT
  {
  }

  /** The prober's ping to the front of its list, while the responder's table stays as it is. */
  method Ask(prober: SimpleNbmtr, ghost responder: SimpleNbmtr, stamp: Stamp, time: Clock)
    returns (sent: Packet, ghost evicted: bool)
    requires prober.Valid() && responder.Valid() && time.Valid()
    requires prober != responder && Apart(prober.nl, responder.nl)
    modifies prober, prober.nl, time
    ensures prober.Valid() && responder.Valid() && time.Valid() && Apart(prober.nl, responder.nl)
    ensures var target, number := old(prober.nl)[0], old(prober.nl[0].next);
            && sent == Packet(target.addr, target.port, PingBytes(stamp, old(prober.Wanted()), number, target.addr))
            && target in prober.nl && target.next == NextSeq(number) && number < SEQ_LIMIT
    ensures (evicted ==> 2 <= |old(prober.nl)|) && prober.nl == Probed(old(prober.nl), evicted)
    ensures prober.nm.Keys <= old(prober.nm).Keys
    ensures forall i :: 0 <= i < |prober.nl| ==> prober.nl[i] in old(prober.nl)
  {
    hide Linked, Numbered, Probed, PingBytes, NextSeq;
    NumberedFirst(prober.nl);
    ghost var nl := prober.nl;
    evicted := prober.Probe(stamp, time);
    ProbedApart(nl, responder.nl, evicted);
    sent := prober.outbox[|prober.outbox| - 1];
  }

  /** The responder's half of an exchange: the pong it sends back for a ping. */
  method Reply(responder: SimpleNbmtr, ping: Header, peerAddr: Word, peerPort: Short, time: Clock,
               ghost others: seq<Neighbor>)
    returns (pong: Data, ghost offer: seq<Neighbor>)
    requires responder.Valid() && time.Valid() && Apart(others, responder.nl)
    modifies responder, time
    ensures responder.Valid() && Apart(others, responder.nl) && Met(old(responder.nl), responder.nl, peerAddr)
    ensures offer == Offered(responder.nl, peerAddr, ping[NBNUM_POS]) && Apart(others, offer) && Distinct(offer)
    ensures var (mask, asn) := Located(responder.interfaces, Get4(ping, ADDR_POS));
            pong == PongBytes(ping, mask, asn, Records(offer))
  {
    hide Linked, Numbered, PongBytes, Offered, Records, Located, Get4, Apart, Distinct, Overlay, PongFront;
    OverlayFull(responder.buff, ping);
    ghost var theirs := responder.nl;
    responder.ProcessPing(ping, peerAddr, peerPort, time);
    ApartJoined(others, theirs, responder.nl);
    offer := Offered(responder.nl, peerAddr, ping[NBNUM_POS]);
    OfferedApart(others, responder.nl, peerAddr, ping[NBNUM_POS]);
    OfferedDistinct(responder.nm, responder.nl, peerAddr, ping[NBNUM_POS]);
    pong := responder.outbox[|responder.outbox| - 1].bytes;
  }

  /** The prober's half: what it makes of the pong that answers its last ping to `target`. */
  method Hear(prober: SimpleNbmtr, ghost target: Neighbor, ghost ping: Header, pong: Data, rest: Data, from: Word,
              ghost mask: Word, ghost asn: Short, ghost offer: seq<Neighbor>, time: Clock)
    returns (accepted: bool, ghost news: seq<Neighbor>)
    requires prober.Valid() && time.Valid() && from == target.addr == Get4(ping, ADDR_POS)
    requires target in prober.nl && target.next == NextSeq(ping[SEQ_POS]) && ping[SEQ_POS] < SEQ_LIMIT
    requires Distinct(offer) && |offer| <= 255 && Apart(prober.nl, offer)
    requires pong == PongBytes(ping, mask, asn, Records(offer))
    modifies prober, prober.nl, time
    ensures prober.Valid() && (accepted <==> ping[SEQ_POS] != SEQ_LIMIT - 1)
    ensures accepted ==> target.mask == mask && target.asn == asn
    ensures prober.nl == news + old(prober.nl) && (!accepted ==> news == [])
    ensures accepted && AllNew(old(prober.nm).Keys, offer) ==> |news| == |offer|
    ensures |news| <= |offer| && forall i :: 0 <= i < |news| ==> Taught(news[i], offer[|news| - 1 - i])
  {
    hide Linked, Numbered, PongBytes, Records, RecordsIn, AllHold, Learned, Get4, Get2, NextSeq, Bumped, Taught;
    hide AllNew, Distinct;
    ghost var rs := Records(offer);
    PongReceived(ping, mask, asn, rs, rest);
    LinkedDistinct(prober.nm, prober.nl);
    ghost var known := prober.nm.Keys;
    SeqAgrees(ping[SEQ_POS]);
    accepted, news := prober.ProcessPong(pong + rest, from, time);
    assert Records(offer) == rs;
    if accepted { LearnedTaught(news, offer, known); } else { news := []; }
  }

  /**
   One probe and its answer.  The prober's ping reaches the responder, and the pong arrives in a buffer that holds
   `rest` behind it.  The answer is accepted exactly when the ping did not carry 249.  Then the prober has the
   responder's true mask and AS number, and it has learned neighbours of the responder, all that were offered if it
   knew none of them, each with every field right but for its AS number, which is right exactly when its two bytes
   are equal.
   */
  method Exchange(prober: SimpleNbmtr, responder: SimpleNbmtr, proberAddr: Word, proberPort: Short, stamp: Stamp,
                  rest: Data, time: Clock, time': Clock)
    returns (accepted: bool, ghost evicted: bool, ghost offer: seq<Neighbor>, ghost news: seq<Neighbor>)
    requires prober.Valid() && responder.Valid() && time.Valid() && time'.Valid()
    requires prober != responder && time != time' && Apart(prober.nl, responder.nl)
    modifies prober, prober.nl, responder, time, time'
    ensures prober.Valid() && responder.Valid()
    ensures accepted <==> old(prober.nl[0].next) != 249
    ensures Met(old(responder.nl), responder.nl, proberAddr)
    ensures offer == Offered(responder.nl, proberAddr, old(prober.Wanted()))
    ensures accepted ==> (old(prober.nl)[0].mask, old(prober.nl)[0].asn) ==
                         Located(responder.interfaces, old(prober.nl)[0].addr)
    ensures accepted ==>
              var target, interfaces := old(prober.nl)[0], responder.interfaces;
              && (forall i :: 0 <= i < |interfaces| && interfaces[i].addr == target.addr
                              && (forall j :: 0 <= j < i ==> interfaces[j].addr != target.addr) ==>
                    target.mask == interfaces[i].mask && target.asn == interfaces[i].asn)
              && ((forall i :: 0 <= i < |interfaces| ==> interfaces[i].addr != target.addr) ==>
                    target.mask == 0xffff_ffff && target.asn == 0)
    ensures evicted ==> 2 <= |old(prober.nl)|
    ensures prober.nl == news + Probed(old(prober.nl), evicted) && (!accepted ==> news == [])
    ensures accepted && AllNew(old(prober.nm).Keys, offer) ==> |news| == |offer|
    ensures |news| <= |offer| && forall i :: 0 <= i < |news| ==>
              var n, m := news[i], offer[|news| - 1 - i];
              && n.kind == m.kind && n.addr == m.addr && n.port == m.port && n.mask == m.mask
              && n.asn == 256 * (m.asn % 256) + m.asn / 256 && (n.asn == m.asn <==> m.asn % 256 == m.asn / 256)
  {
    hide Linked, Numbered, PongBytes, Offered, Records, Located, Probed, Get4, PingBytes, NextSeq;
    hide Distinct, Met;
    ghost var target, number, count := prober.nl[0], prober.nl[0].next, prober.Wanted();
    var sent, pong;
    sent, evicted := Ask(prober, responder, stamp, time);
    ghost var ping := PingBytes(stamp, count, number, target.addr);
    PingReadsBack(stamp, count, number, target.addr);
    pong, offer := Reply(responder, sent.bytes, proberAddr, proberPort, time', prober.nl);
    ghost var (mask, asn) := Located(responder.interfaces, target.addr);
    LocatedIsFirst(responder.interfaces, target.addr);
    accepted, news := Hear(prober, target, ping, pong, rest, sent.addr, mask, asn, offer, time);
  }

  /** A table with one configured neighbour. */
  method Solo(l: Line, buff: Header) returns (table: SimpleNbmtr)
    requires l.kind < 128 && l.addr != 0 && l.port != 0 && !Intra(l.addr)
    ensures fresh(table) && table.Valid() && table.minSize == 60 && table.perQuery == 20 && table.interfaces == []
    ensures |table.nl| == 1 && fresh(table.nl[0]) && Describes(l, table.nl[0]) && table.nm.Keys == {l.addr}
  {
    ChosenOne(l);
    table := new SimpleNbmtr([l], 60, 1200, 20, [], buff);
  }

  /** A responder whose only neighbour has AS number 1 teaches a prober who does not know it that it is 256. */
  method MislearnAsn(time: Clock, time': Clock, stamp: Stamp, buff: Header) returns (prober: SimpleNbmtr)
    requires time.Valid() && time'.Valid() && time != time'
    modifies time, time'
    ensures prober.Valid() && |prober.nl| == 2 && prober.nl[0].addr == 0x0202_0202 && prober.nl[0].asn == 256
  {
    hide Linked, Numbered, Offered, Located, Distinct, Met, Intra;
    var theirs := Line(PEER, 0x0202_0202, 80, 0, 1, 0xffff_ffff);
    var ours := Line(PEER, 0x0101_0101, 80, 0, 0, 0xffff_ffff);
    NotIntra();
    prober := Solo(ours, buff);
    var responder := Solo(theirs, buff);
    ghost var n := responder.nl[0];
    assert responder.nl == [n];
    var accepted, evicted, offer, news := Exchange(prober, responder, 0x0303_0303, 80, stamp, [], time, time');
    OfferedOne(responder.nl, n, 0x0303_0303, 20);
  }

  lemma NotIntra()
    ensures !Intra(0x0202_0202) && !Intra(0x0101_0101)
  {
  }

  lemma ChosenOne(l: Line)
    requires l.kind < 128 && l.addr != 0 && l.port != 0 && !Intra(l.addr)
    ensures Chosen([l], []) == [l]
  {
    assert [l][..0] == [];
  }

  lemma OfferedOne(nl: seq<Neighbor>, n: Neighbor, peer: Word, limit: nat)
    requires n.addr != peer && Met([n], nl, peer) && limit > 0
    ensures Offered(nl, peer, limit) == [n]
  {
    if nl != [n] {
      assert nl[1..][0] == n && nl == [nl[0], n];
      assert nl[..1] == [nl[0]] && [nl[0]][..0] == [];
      assert Offered([nl[0]], peer, limit - 1) == [];
    } else {
      assert [n][..0] == [];
    }
  }
}
