/**
 The relay: it grants bandwidth to sessions, and it answers probes, reservations and data by editing the packet in
 place and sending it on.
 */
module Forwarder {
  import opened Bytes
  import opened Events
  import opened Ledger
  import opened Protocol
  import opened Wire

  const TTL_POS := 1
  const SRC_PORT_POS := 4
  const DST_PORT_POS := 28
  const BW_POS := 46
  const TASK_POS := 50
  const DATA_ADDR_OFFSET := 3
  const MIN_DATA_PKT_LEN := 9

  /** A datagram on its way to a port and address. */
  datatype Datagram = Datagram(port: Short, addr: Word, bytes: Data)

  /** `htons` of a 32-bit value keeps its low half only. */
  function Htons(v: Word): Word {
    Swap(v % 65536)
  }

  /** What the client reads as bandwidth when the relay wrote `v` through `htons`. */
  function SeenBandwidth(v: Word): Word {
    Swap4(Htons(v))
  }

  /** The client sees the low half of the value shifted up: the true value exactly when it is zero. */
  lemma BandwidthSeenIff(v: Word)
    ensures SeenBandwidth(v) == (v % 65536) * 65536
    ensures SeenBandwidth(v) == v <==> v == 0
  {
    var low: Short := v % 65536;
    var w: Word := Swap(low);
    assert w % 65536 == w && w / 65536 == 0 && Swap(0) == 0;
    hide Swap;
    SwapTwice(low);
    assert Swap4(w) == 65536 * (low as int);
    ShiftedIff(v);
  }

  lemma ShiftedIff(v: Word)
    ensures (v % 65536) * 65536 == v <==> v == 0
  {
    var hi, lo := v / 65536, v % 65536;
    assert v == 65536 * hi + lo;
  }

  // ---------- The edits ----------

  function ProbeKey(p: Probe): SessionKey {
    SessionKey(p.source.port, p.source.addr, p.destination.port, p.destination.addr)
  }

  /** Two stretches of six bytes, copied from the packet. */
  function KeyAt(b: Data): SessionKey
    requires |b| >= PROBE_LEN
  {
    SessionKey(Get2(b, SRC_PORT_POS), Get4(b, SRC_PORT_POS + 2), Get2(b, DST_PORT_POS), Get4(b, DST_PORT_POS + 2))
  }

  lemma KeyRead(p: Probe)
    ensures KeyAt(ProbeBytes(p)) == ProbeKey(p)
            == SessionKey(p.source.port, p.source.addr, p.destination.port, p.destination.addr)
  {
    hide ProbeBytes, StampAt, NetAt, Get2, Get4;
    ProbeFields(p);
  }

  /** The four places a relay writes to: type, time to live, bandwidth (as the raw word `raw`) and load. */
  function Edited(b: Data, kind: Byte, raw: Word, load: Word): Data
    requires |b| == PROBE_LEN
  {
    Splice(Splice(Splice(Splice(b, 0, [kind]), TTL_POS, [Decremented(b[TTL_POS])]), BW_POS, Le4(raw)),
           TASK_POS, NetBytes(load))
  }

  /** Editing the bytes is editing the packet: nothing but these four fields changes. */
  lemma EditedIsProbe(p: Probe, kind: Byte, raw: Word, load: Word)
    ensures Edited(ProbeBytes(p), kind, raw, load)
            == ProbeBytes(p.(kind := kind, ttl := Decremented(p.ttl), bandwidth := Swap4(raw), load := load))
  {
    hide EndPointBytes, StampBytes, Le4, Swap4, Splice;
    Swap4Twice(raw);
    assert NetBytes(Swap4(raw)) == Le4(raw);
    var s, r, d := EndPointBytes(p.source), EndPointBytes(p.relay), EndPointBytes(p.destination);
    var t, w, l := StampBytes(p.stamp), NetBytes(p.bandwidth), NetBytes(p.load);
    var rest := s + (r + (d + (t + (w + (l + [])))));
    HeadSplices(p.kind, p.ttl, kind, rest);
    var head: Data := [kind, Decremented(p.ttl)];
    FieldsAssoc(head, s, r, d, t, w + (l + []));
    SpliceField((((head + s) + r) + d) + t, w, Le4(raw), l + []);
    Assoc((((head + s) + r) + d) + t, Le4(raw), l + []);
    SpliceField(((((head + s) + r) + d) + t) + Le4(raw), l, NetBytes(load), []);
    Assoc((((head + s) + r) + d) + t, Le4(raw), NetBytes(load) + []);
    FieldsAssoc(head, s, r, d, t, Le4(raw) + (NetBytes(load) + []));
  }

  lemma SpliceKeeps(b: Data, at: nat, d: Data, i: nat)
    requires at + |d| <= |b| && i < |b| && !(at <= i < at + |d|)
    ensures Splice(b, at, d)[i] == b[i]
  {
  }

  lemma HeadSplices(kind: Byte, ttl: Byte, kind': Byte, rest: Data)
    ensures var b: Data := [kind, ttl] + rest;
            && b[TTL_POS] == ttl
            && Splice(Splice(b, 0, [kind']), TTL_POS, [Decremented(ttl)]) == [kind', Decremented(ttl)] + rest
  {
    var b: Data := [kind, ttl] + rest;
    assert b == [] + ([kind] + ([ttl] + rest));
    SpliceField([], [kind], [kind'], [ttl] + rest);
    SpliceField([kind'], [ttl], [Decremented(ttl)], rest);
    assert [] + ([kind'] + ([ttl] + rest)) == [kind'] + ([ttl] + rest);
    assert [kind'] + ([Decremented(ttl)] + rest) == [kind', Decremented(ttl)] + rest;
  }

  lemma FieldsAssoc(h: Data, s: Data, r: Data, d: Data, t: Data, x: Data)
    ensures h + (s + (r + (d + (t + x)))) == ((((h + s) + r) + d) + t) + x
  {
    Assoc(h, s, r + (d + (t + x)));
    Assoc(h + s, r, d + (t + x));
    Assoc((h + s) + r, d, t + x);
    Assoc(((h + s) + r) + d, t, x);
  }

  // ---------- The relay ----------

  class SimpleFwd {
    const maxFlow: Byte
    const timeout: Time
    var sessions: map<SessionKey, Session>
    /** The running total of granted bandwidth, sixteen bits wide. */
    var current: Short
    ghost var leaked: nat
    /** Everything sent so far. */
    var outbox: seq<Datagram>

    ghost function Contents(): State
      reads this
    {
      State(sessions, current, leaked)
    }

    ghost predicate Valid()
      reads this
    {
      Sound(false, maxFlow, Contents())
    }

    constructor (maxFlow: Byte, timeout: Time)
      ensures Valid() && sessions == map[] && current == 0 && leaked == 0 && outbox == []
      ensures this.maxFlow == maxFlow && this.timeout == timeout
    {
      this.maxFlow, this.timeout := maxFlow, timeout;
      sessions, current, leaked, outbox := map[], 0, 0, [];
    }

    /** Writes the four fields and sends the packet to its destination. */
    method Edit(msg: array<Byte>, kind: Byte, raw: Word, load: Word, ghost p: Probe)
      requires msg[..] == ProbeBytes(p)
      modifies this`outbox, msg
      ensures msg[..] == ProbeBytes(p.(kind := kind, ttl := Decremented(p.ttl), bandwidth := Swap4(raw), load := load))
      ensures outbox == old(outbox) + [Datagram(p.destination.port, p.destination.addr, msg[..])]
    {
      hide ProbeBytes, Splice, Le4, NetBytes, Get2, Get4, Swap4;
      EditedIsProbe(p, kind, raw, load);
      ProbeFields(p);
      Put(msg, 0, [kind]);
      SpliceKeeps(ProbeBytes(p), 0, [kind], TTL_POS);
      Put(msg, TTL_POS, [Decremented(msg[TTL_POS])]);
      Put(msg, BW_POS, Le4(raw));
      Put(msg, TASK_POS, NetBytes(load));
      KeyRead(p.(kind := kind, ttl := Decremented(p.ttl), bandwidth := Swap4(raw), load := load));
      outbox := outbox + [Datagram(Get2(msg[..], DST_PORT_POS), Get4(msg[..], DST_PORT_POS + 2), msg[..])];
    }

    /** Tells the client what is left and how many sessions there are. */
    method ProcessProbe(msg: array<Byte>, ghost p: Probe)
      requires Valid() && msg[..] == ProbeBytes(p)
      modifies this`outbox, msg
      ensures Valid()
      ensures msg[..] == ProbeBytes(p.(kind := 8, ttl := Decremented(p.ttl),
                                       bandwidth := SeenBandwidth(MAX_FWD_BW - current), load := |sessions|))
      ensures outbox == old(outbox) + [Datagram(p.destination.port, p.destination.addr, msg[..])]
    {
      hide ProbeBytes, Swap4, Htons;
      Edit(msg, TYPE_FW_FORWARD, Htons(MAX_FWD_BW - current), |sessions|, p);
    }

    /**
     Grants bandwidth: to a known session anew, to a new one if the table has room.  A request of sixteen bits is
     granted in full.  The packet goes on with the grant and the number of sessions in it.
     */
    method ProcessReserve(msg: array<Byte>, now: Time, ghost p: Probe) returns (ghost granted: Word)
      requires Valid() && msg[..] == ProbeBytes(p)
      modifies this, msg
      ensures Valid()
      ensures (Contents(), granted) == OnReserve(false, maxFlow, old(Contents()), ProbeKey(p), p.bandwidth, now)
      ensures var key := SessionKey(p.source.port, p.source.addr, p.destination.port, p.destination.addr);
              sessions == if key in old(sessions) || |old(sessions)| < maxFlow
                          then old(sessions)[key := Session(granted, now)] else old(sessions)
      ensures p.bandwidth < 65536 ==> granted == p.bandwidth
      ensures msg[..] == ProbeBytes(p.(kind := 11, ttl := Decremented(p.ttl),
                                       bandwidth := SeenBandwidth(granted), load := |sessions|))
      ensures outbox == old(outbox) + [Datagram(p.destination.port, p.destination.addr, msg[..])]
    {
      hide ProbeBytes, Swap4, Htons, Sound, Total, Get2, Get4;
      ReserveSound(false, maxFlow, Contents(), ProbeKey(p), p.bandwidth, now);
      ReserveGrants(maxFlow, Contents(), ProbeKey(p), p.bandwidth, now);
      ProbeFields(p);
      KeyRead(p);
      var key := KeyAt(msg[..]);
      var rq := NetAt(msg[..], BW_POS);
      rq := Charge(key, rq, now);
      granted := rq;
      Edit(msg, TYPE_BW_FORWARD, Htons(rq), TableSize(), p);
    }

    /** The number of sessions; a table never outgrows its limit. */
    function TableSize(): (n: Word)
      requires Valid()
      reads this
    {
      |sessions|
    }

    /** The ledger's part of a reservation. */
    method Charge(key: SessionKey, request: Word, now: Time) returns (rq: Word)
      requires Valid()
      modifies this`sessions, this`current, this`leaked
      ensures (Contents(), rq) == OnReserve(false, maxFlow, old(Contents()), key, request, now)
    {
      hide Total;
      rq := request;
      if key in sessions {
        if rq != sessions[key].rq {
          current := (current - sessions[key].rq) % 65536;
          rq := Offer(rq);
          current := (current + rq) % 65536;
        }
        sessions := sessions[key := Session(rq, now)];
      } else {
        rq := Offer(rq);
        current := (current + rq) % 65536;
        if |sessions| < maxFlow {
          sessions := sessions[key := Session(rq, now)];
        } else {
          leaked := leaked + rq;
        }
      }
    }

    /** What is granted of a request, stored in sixteen bits. */
    method Offer(request: Word) returns (rq: Word)
      ensures rq == Grant(false, current, request)
    {
      var left := MAX_FWD_BW - current;
      rq := (if left >= request then request else left) % 65536;
    }

    method ProcessRelease(msg: array<Byte>, ghost p: Probe)
      requires Valid() && msg[..] == ProbeBytes(p)
      modifies this`sessions, this`current
      ensures Valid() && Contents() == OnRelease(false, old(Contents()), ProbeKey(p))
      ensures sessions ==
              old(sessions) - {SessionKey(p.source.port, p.source.addr, p.destination.port, p.destination.addr)}
    {
      hide ProbeBytes, Total, Sound, Get2, Get4;
      ReleaseSound(false, maxFlow, Contents(), ProbeKey(p));
      KeyRead(p);
      var key := KeyAt(msg[..]);
      if key in sessions {
        current := (current - sessions[key].rq) % 65536;
        sessions := sessions - {key};
      } else {
        assert sessions == sessions - {key};
      }
    }

    /** Erases, while walking through the table, every session that was silent for too long. */
    method UpdateHmap(now: Time)
      requires Valid()
      modifies this`sessions, this`current
      ensures Valid() && Contents() == OnExpire(false, old(Contents()), now, timeout)
      ensures forall k :: k in sessions <==> k in old(sessions) && now - old(sessions)[k].last <= timeout
      ensures forall k :: k in sessions ==> sessions[k] == old(sessions)[k]
    {
      hide Total, Cut, Sound;
      ExpireSound(false, maxFlow, Contents(), now, timeout);
      LeftEnds(sessions, now, timeout);
      EraseExpired(now);
    }

    method EraseExpired(now: Time)
      modifies this`sessions, this`current
      ensures sessions == Left(old(sessions), now, timeout, {})
      ensures current == Cut(false, old(current) - (Total(old(sessions)) - Total(sessions)))
    {
      hide Total, Cut, Left;
      ghost var all := sessions;
      var rest := sessions.Keys;
      LeftEnds(all, now, timeout);
      CutNow(current);
      while rest != {}
        invariant rest <= all.Keys && sessions == Left(all, now, timeout, rest)
        invariant current == Cut(false, old(current) - (Total(all) - Total(sessions)))
        decreases rest
      {
        var k :| k in rest;
        LeftStep(all, now, timeout, rest, k);
        EraseIfExpired(k, now, old(current), Total(all));
        rest := rest - {k};
      }
    }

    method EraseIfExpired(k: SessionKey, now: Time, ghost before: Short, ghost total: nat)
      requires k in sessions && current == Cut(false, before - (total - Total(sessions)))
      modifies this`sessions, this`current
      ensures sessions == if now - old(sessions)[k].last > timeout then old(sessions) - {k} else old(sessions)
      ensures current == Cut(false, before - (total - Total(sessions)))
    {
      hide Total, Cut;
      if now - sessions[k].last > timeout {
        EraseStep(sessions, k, before, total);
        Deduct(sessions[k].rq);
        sessions := sessions - {k};
      }
    }

    /** `_cur_rq_bw -= bw` in sixteen bits. */
    method Deduct(bw: Word)
      modifies this`current
      ensures current == Cut(false, old(current) - bw)
    {
      current := (current - bw) % 65536;
    }

    /**
     A data packet of a known session goes on to the session's destination with the true source in the place of the
     destination; any other packet goes nowhere.
     */
    method ProcessData(msg: array<Byte>, peerPort: Short, peerAddr: Word, now: Time)
      requires Valid()
      modifies this, msg
      ensures Valid() && sessions.Keys == old(sessions).Keys && current == old(current) && leaked == old(leaked)
      ensures msg.Length >= MIN_DATA_PKT_LEN ==>
                var key := SessionKey(peerPort, peerAddr, Get2(old(msg[..]), DATA_ADDR_OFFSET),
                                      Get4(old(msg[..]), DATA_ADDR_OFFSET + 2));
                && (key in old(sessions) ==>
                      && msg[..] == Splice(old(msg[..]), DATA_ADDR_OFFSET, Le2(peerPort) + Le4(peerAddr))
                      && outbox == old(outbox) + [Datagram(key.dstPort, key.dstAddr, msg[..])]
                      && sessions == old(sessions)[key := old(sessions)[key].(last := now)])
                && (key !in old(sessions) ==> outbox == old(outbox) && sessions == old(sessions))
      ensures msg.Length < MIN_DATA_PKT_LEN ==> outbox == old(outbox) && sessions == old(sessions)
    {
      hide Total, Cut, Splice, Get2, Get4, Le2, Le4;
      if msg.Length < MIN_DATA_PKT_LEN { return; }
      var key := SessionKey(peerPort, peerAddr, Get2(msg[..], DATA_ADDR_OFFSET), Get4(msg[..], DATA_ADDR_OFFSET + 2));
      if key in sessions {
        Put(msg, DATA_ADDR_OFFSET, Le2(peerPort) + Le4(peerAddr));
        TouchKeeps(sessions, key, now);
        sessions := sessions[key := sessions[key].(last := now)];
        outbox := outbox + [Datagram(key.dstPort, key.dstAddr, msg[..])];
      }
    }
  }

  /**
   A reservation and then data of the same stream: if the table takes the session, the data goes to the destination
   of the probe with the source of the probe in it; otherwise it goes nowhere.
   */
  method ReserveThenData(relay: SimpleFwd, probe: array<Byte>, data: array<Byte>, now: Time, now': Time, p: Probe)
    requires relay.Valid() && probe != data && probe[..] == ProbeBytes(p) && data.Length >= MIN_DATA_PKT_LEN
    requires Get2(data[..], DATA_ADDR_OFFSET) == p.destination.port
    requires Get4(data[..], DATA_ADDR_OFFSET + 2) == p.destination.addr
    modifies relay, probe, data
    ensures relay.Valid() && |relay.outbox| > |old(relay.outbox)|
    ensures var key := SessionKey(p.source.port, p.source.addr, p.destination.port, p.destination.addr);
            relay.outbox[|old(relay.outbox)| + 1..] ==
            if key in old(relay.sessions) || |old(relay.sessions)| < relay.maxFlow
            then [Datagram(p.destination.port, p.destination.addr,
                           Splice(old(data[..]), DATA_ADDR_OFFSET, Le2(p.source.port) + Le4(p.source.addr)))]
            else []
  {
    hide ProbeBytes, Get2, Get4, Splice, Le2, Le4, Sound, OnReserve;
    ghost var granted := relay.ProcessReserve(probe, now, p);
    relay.ProcessData(data, p.source.port, p.source.addr, now');
  }

  /** A release and then data of the same stream: it goes nowhere. */
  method ReleaseThenData(relay: SimpleFwd, probe: array<Byte>, data: array<Byte>, now: Time, p: Probe)
    requires relay.Valid() && probe != data && probe[..] == ProbeBytes(p) && data.Length >= MIN_DATA_PKT_LEN
    requires Get2(data[..], DATA_ADDR_OFFSET) == p.destination.port
    requires Get4(data[..], DATA_ADDR_OFFSET + 2) == p.destination.addr
    modifies relay, data
    ensures relay.Valid() && relay.outbox == old(relay.outbox)
  {
    hide ProbeBytes, Get2, Get4, Splice, Le2, Le4, Sound, OnRelease;
    relay.ProcessRelease(probe, p);
    relay.ProcessData(data, p.source.port, p.source.addr, now);
  }

  lemma CutNow(current: Short)
    ensures Cut(false, current) == current
  {
  }

  /** What is left of a table when all but `rest` has been looked at. */
  function Left(all: map<SessionKey, Session>, now: Time, timeout: Time, rest: set<SessionKey>)
    : map<SessionKey, Session>
  {
    all - (Expired(all, now, timeout) - rest)
  }

  lemma LeftEnds(all: map<SessionKey, Session>, now: Time, timeout: Time)
    ensures Left(all, now, timeout, all.Keys) == all
    ensures Left(all, now, timeout, {}) == all - Expired(all, now, timeout)
  {
    assert Expired(all, now, timeout) - all.Keys == {};
    assert all - {} == all;
    assert Expired(all, now, timeout) - {} == Expired(all, now, timeout);
  }

  lemma LeftStep(all: map<SessionKey, Session>, now: Time, timeout: Time, rest: set<SessionKey>, k: SessionKey)
    requires k in rest && rest <= all.Keys
    ensures var left := Left(all, now, timeout, rest);
            && k in left && left[k] == all[k]
            && Left(all, now, timeout, rest - {k}) == if now - all[k].last > timeout then left - {k} else left
  {
    var gone := Expired(all, now, timeout);
    if now - all[k].last > timeout {
      assert gone - (rest - {k}) == (gone - rest) + {k};
    } else {
      assert gone - (rest - {k}) == gone - rest;
    }
  }

  lemma EraseStep(sessions: map<SessionKey, Session>, k: SessionKey, current: Short, total: nat)
    requires k in sessions
    ensures Cut(false, Cut(false, current - (total - Total(sessions))) - sessions[k].rq)
            == Cut(false, current - (total - Total(sessions - {k})))
  {
    hide Total, Cut;
    TotalRemove(sessions, k);
    CutAdd(false, current - (total - Total(sessions)), -(sessions[k].rq as int));
  }

  /** Noting the time of contact leaves the books alone. */
  lemma TouchKeeps(sessions: map<SessionKey, Session>, key: SessionKey, now: Time)
    requires key in sessions
    ensures var touched := sessions[key := sessions[key].(last := now)];
            Total(touched) == Total(sessions) && |touched| == |sessions| && touched.Keys == sessions.Keys
  {
    hide Total;
    var touched := sessions[key := sessions[key].(last := now)];
    TotalAdd(sessions, key, sessions[key].(last := now));
    TotalRemove(sessions, key);
    SameSize(sessions, touched);
  }
}
