/**
 Important data on every path at once: the client sends one copy directly and one through each relay, and the
 destination strips whichever header it finds.
 */
module DataPath {
  import opened Bytes
  import opened Events
  import opened Forwarder
  import opened Ledger
  import opened Options
  import opened Protocol
  import opened Wire

  const TYPE_DATA: Byte := 14
  const VERSION := 3
  const CORS_MAX_MSG_SIZE := 2048
  const DIRECT_LEN := 3
  const INDIRECT_LEN := 9

  /** An address and a port of a client. */
  datatype Peer = Peer(port: Short, addr: Word)

  /** What the destination hands to the application; flag 0 is the direct path. */
  datatype Received = Received(payload: Data, source: Peer, flag: nat)

  /** The second header byte: version in the low four bits, then the direct bit, then three control bits. */
  function Flags(direct: bool): Byte {
    VERSION + if direct then 16 else 0
  }

  function Version(flags: Byte): nat {
    flags % 16
  }

  predicate IsDirect(flags: Byte) {
    flags / 16 % 2 == 1
  }

  /** The third header byte is whatever the send buffer held. */
  function DirectBytes(junk: Byte, payload: Data): Data {
    [TYPE_DATA, Flags(true), junk] + payload
  }

  function IndirectBytes(junk: Byte, p: Peer, payload: Data): (b: Data)
    ensures |b| == INDIRECT_LEN + |payload|
  {
    [TYPE_DATA, Flags(false), junk] + ((Le2(p.port) + Le4(p.addr)) + payload)
  }

  function Parse(b: Data, peer: Peer): Option<Received>
    requires |b| >= DIRECT_LEN && (!IsDirect(b[1]) ==> |b| >= INDIRECT_LEN)
  {
    if Version(b[1]) > VERSION then None
    else if IsDirect(b[1]) then Some(Received(b[DIRECT_LEN..], peer, 0))
    else Some(Received(b[INDIRECT_LEN..], Peer(Get2(b, DATA_ADDR_OFFSET), Get4(b, DATA_ADDR_OFFSET + 2)), 1))
  }

  /** A packet of a later version is refused; of any other the direct bit says where the payload begins. */
  lemma ParseIff(b: Data, peer: Peer)
    requires |b| >= 9
    ensures Parse(b, peer) == None <==> b[1] % 16 > 3
    ensures b[1] % 16 <= 3 && b[1] / 16 % 2 == 1 ==> Parse(b, peer) == Some(Received(b[3..], peer, 0))
    ensures b[1] % 16 <= 3 && b[1] / 16 % 2 == 0 ==>
              var r := Parse(b, peer);
              && r.Some? && r.value.payload == b[9..] && r.value.flag == 1
              && r.value.source.port == b[3] + 256 * b[4] as int
              && r.value.source.addr ==
                 b[5] + 256 * b[6] as int + 65536 * b[7] as int + 16777216 * b[8] as int
  {
  }

  /** The address in an indirect header, where the relay and the destination look for it. */
  lemma IndirectPeer(junk: Byte, p: Peer, payload: Data)
    ensures var b := IndirectBytes(junk, p, payload);
            && Get2(b, DATA_ADDR_OFFSET) == p.port && Get4(b, DATA_ADDR_OFFSET + 2) == p.addr
            && b[INDIRECT_LEN..] == payload
  {
    hide Le2, Le4, Get2, Get4;
    var head: Data := [TYPE_DATA, Flags(false), junk];
    Assoc(Le2(p.port), Le4(p.addr), payload);
    GetPut2(head, p.port, Le4(p.addr) + payload);
    Assoc(head, Le2(p.port), Le4(p.addr) + payload);
    GetPut4(head + Le2(p.port), p.addr, payload);
  }

  /** A relay's edit turns a packet for the destination into a packet from the source. */
  lemma RelayEdit(junk: Byte, to: Peer, from: Peer, payload: Data)
    ensures Splice(IndirectBytes(junk, to, payload), DATA_ADDR_OFFSET, Le2(from.port) + Le4(from.addr))
            == IndirectBytes(junk, from, payload)
  {
    hide Le2, Le4, Splice;
    SpliceField([TYPE_DATA, Flags(false), junk], Le2(to.port) + Le4(to.addr), Le2(from.port) + Le4(from.addr), payload);
  }

  lemma ParseDirect(junk: Byte, payload: Data, peer: Peer)
    ensures Parse(DirectBytes(junk, payload), peer) == Some(Received(payload, peer, 0))
  {
  }

  lemma ParseNeeds(junk: Byte, source: Peer, payload: Data)
    ensures var b := IndirectBytes(junk, source, payload);
            |b| >= INDIRECT_LEN && b[1] == Flags(false) && !IsDirect(b[1])
  {
  }

  lemma ParseIndirect(junk: Byte, source: Peer, payload: Data, peer: Peer)
    ensures Parse(IndirectBytes(junk, source, payload), peer) == Some(Received(payload, source, 1))
  {
    hide Le2, Le4, Get2, Get4;
    IndirectPeer(junk, source, payload);
  }

  /** Sends `payload` in mesh mode: both headers are built in one buffer, one after the other. */
  method SendMesh(payload: Data, dst: Peer, relays: seq<Peer>, sbuf: array<Byte>) returns (sent: seq<Datagram>)
    requires sbuf.Length == CORS_MAX_MSG_SIZE && INDIRECT_LEN + |payload| <= CORS_MAX_MSG_SIZE
    modifies sbuf
    ensures var junk := old(sbuf[2]);
            && |sent| == 1 + |relays|
            && sent[0] == Datagram(dst.port, dst.addr, DirectBytes(junk, payload))
            && forall i :: 0 <= i < |relays| ==>
                 sent[1 + i] == Datagram(relays[i].port, relays[i].addr, IndirectBytes(junk, dst, payload))
    ensures forall k :: 0 <= k < |sent| ==>
              |sent[k].bytes| >= 2 && sent[k].bytes[0] == 14 && sent[k].bytes[1] == if k == 0 then 19 else 3
  {
    hide Le2, Le4, Splice;
    ghost var junk := sbuf[2];
    PutFlags(sbuf, Flags(true));
    var end := Append(sbuf, DIRECT_LEN, payload, [TYPE_DATA, Flags(true), junk]);
    sent := [Datagram(dst.port, dst.addr, sbuf[..end])];
    assert sent[0].bytes == DirectBytes(junk, payload);
    assert sbuf[2] == sbuf[..end][2];
    PutFlags(sbuf, Flags(false));
    ghost var head: Data := [TYPE_DATA, Flags(false), junk];
    end := Append(sbuf, DATA_ADDR_OFFSET, Le2(dst.port) + Le4(dst.addr), head);
    end := Append(sbuf, end, payload, head + (Le2(dst.port) + Le4(dst.addr)));
    Assoc(head, Le2(dst.port) + Le4(dst.addr), payload);
    assert sbuf[..end] == IndirectBytes(junk, dst, payload);
    HeaderBytes(junk, dst, payload);
    var i := 0;
    while i < |relays|
      invariant 0 <= i <= |relays| && |sent| == 1 + i && sbuf[..end] == IndirectBytes(junk, dst, payload)
      invariant sent[0] == Datagram(dst.port, dst.addr, DirectBytes(junk, payload))
      invariant forall j :: 0 <= j < i ==>
                  sent[1 + j] == Datagram(relays[j].port, relays[j].addr, IndirectBytes(junk, dst, payload))
      invariant forall k :: 1 <= k < |sent| ==> sent[k].bytes == IndirectBytes(junk, dst, payload)
    {
      sent := sent + [Datagram(relays[i].port, relays[i].addr, sbuf[..end])];
      i := i + 1;
    }
  }

  /** Type 14; version 3 in the low four bits of the second byte, and the direct bit above them. */
  lemma HeaderBytes(junk: Byte, p: Peer, payload: Data)
    ensures var b := DirectBytes(junk, payload); |b| >= 2 && b[0] == 14 && b[1] == 19
    ensures var b := IndirectBytes(junk, p, payload); |b| >= 2 && b[0] == 14 && b[1] == 3
  {
  }

  method PutFlags(sbuf: array<Byte>, flags: Byte)
    requires sbuf.Length == CORS_MAX_MSG_SIZE
    modifies sbuf
    ensures sbuf[..DIRECT_LEN] == [TYPE_DATA, flags, old(sbuf[2])]
  {
    sbuf[0] := TYPE_DATA;
    sbuf[1] := flags;
  }

  /** One copy through one relay: what the destination receives, if the relay sends anything. */
  method Through(relay: SimpleFwd, d: Datagram, source: Peer, dst: Peer, payload: Data, ghost junk: Byte,
                 relayAt: Peer, now: Time)
    returns (r: Option<Received>)
    requires relay.Valid() && d.bytes == IndirectBytes(junk, dst, payload)
    modifies relay
    ensures relay.Valid() && relay.sessions.Keys == old(relay.sessions).Keys
    ensures r == if SessionKey(source.port, source.addr, dst.port, dst.addr) in old(relay.sessions)
                 then Some(Received(payload, source, 1)) else None
    ensures r.Some? ==> |relay.outbox| == |old(relay.outbox)| + 1
                        && relay.outbox[|old(relay.outbox)|].port == dst.port
                        && relay.outbox[|old(relay.outbox)|].addr == dst.addr
    ensures r.None? ==> relay.outbox == old(relay.outbox)
  {
    hide Le2, Le4, Splice, Get2, Get4, Sound, Parse, IndirectBytes;
    var msg := new Byte[|d.bytes|];
    var end := Append(msg, 0, d.bytes, []);
    assert msg[..] == msg[..end] == d.bytes;
    IndirectPeer(junk, dst, payload);
    RelayEdit(junk, dst, source, payload);
    ParseIndirect(junk, source, payload, relayAt);
    ParseNeeds(junk, source, payload);
    var n := |relay.outbox|;
    relay.ProcessData(msg, source.port, source.addr, now);
    if |relay.outbox| == n { return None; }
    r := Parse(relay.outbox[|relay.outbox| - 1].bytes, relayAt);
  }

  /**
   A mesh transmission end to end, over any number of relays: the destination parses the same payload and the true
   source from the direct copy, with flag 0, and from every copy whose relay holds the session, with flag 1; the
   other relays send nothing.
   */
  method Mesh(payload: Data, source: Peer, dst: Peer, relays: seq<SimpleFwd>, at: seq<Peer>, sbuf: array<Byte>,
              now: Time)
    returns (received: seq<Option<Received>>)
    requires sbuf.Length == CORS_MAX_MSG_SIZE && INDIRECT_LEN + |payload| <= CORS_MAX_MSG_SIZE
    requires |at| == |relays| && forall i :: 0 <= i < |relays| ==> relays[i].Valid()
    modifies relays, sbuf
    ensures |received| == 1 + |relays|
    ensures received[0] == Some(Received(payload, source, 0))
    ensures forall i :: 0 <= i < |relays| ==>
              received[1 + i] == if SessionKey(source.port, source.addr, dst.port, dst.addr) in old(relays[i].sessions)
                                 then Some(Received(payload, source, 1)) else None
  {
    hide IndirectBytes, Parse, Sound;
    ghost var junk, key := sbuf[2], SessionKey(source.port, source.addr, dst.port, dst.addr);
    var sent := SendMesh(payload, dst, at, sbuf);
    ParseDirect(junk, payload, source);
    DirectNeeds(junk, payload);
    received := [Parse(sent[0].bytes, source)];
    var i := 0;
    while i < |relays|
      invariant 0 <= i <= |relays| && |received| == 1 + i
      invariant forall j :: 0 <= j < |relays| ==>
                  relays[j].Valid() && relays[j].sessions.Keys == old(relays[j].sessions).Keys
      invariant received[0] == Some(Received(payload, source, 0))
      invariant forall j :: 0 <= j < i ==>
                  received[1 + j] == if key in old(relays[j].sessions)
                                     then Some(Received(payload, source, 1)) else None
    {
      var r := Through(relays[i], sent[1 + i], source, dst, payload, junk, at[i], now);
      received := received + [r];
      i := i + 1;
    }
  }

  /**
   A reservation from `source` to `dst` at every relay: afterwards a relay holds the session if it did before or its
   table had room.
   */
  method ReserveAll(relays: seq<SimpleFwd>, p: Probe, source: Peer, dst: Peer, now: Time)
    requires p.source.port == source.port && p.source.addr == source.addr
    requires p.destination.port == dst.port && p.destination.addr == dst.addr
    requires forall i :: 0 <= i < |relays| ==> relays[i].Valid()
    modifies relays
    ensures forall i :: 0 <= i < |relays| ==> relays[i].Valid()
    ensures forall i :: 0 <= i < |relays| ==>
              var key := SessionKey(source.port, source.addr, dst.port, dst.addr);
              (key in relays[i].sessions <==>
                 key in old(relays[i].sessions) || |old(relays[i].sessions)| < relays[i].maxFlow)
  {
    hide ProbeBytes, Sound, OnReserve;
    ghost var key := SessionKey(source.port, source.addr, dst.port, dst.addr);
    var i := 0;
    while i < |relays|
      invariant 0 <= i <= |relays| && forall j :: 0 <= j < |relays| ==> relays[j].Valid()
      invariant forall j :: 0 <= j < |relays| ==>
                  relays[j].sessions == old(relays[j].sessions) ||
                  (key in relays[j].sessions &&
                   (key in old(relays[j].sessions) || |old(relays[j].sessions)| < relays[j].maxFlow))
      invariant forall j :: 0 <= j < i ==>
                  (key in relays[j].sessions <==>
                     key in old(relays[j].sessions) || |old(relays[j].sessions)| < relays[j].maxFlow)
    {
      var msg := SerializeProbe(p);
      ghost var granted := relays[i].ProcessReserve(msg, now, p);
      i := i + 1;
    }
  }

  /**
   Reservations and then a mesh transmission: the destination gets the payload and the true source over every relay
   that held the session or had room for it.
   */
  method ReservedMesh(payload: Data, p: Probe, source: Peer, dst: Peer, relays: seq<SimpleFwd>, at: seq<Peer>,
                      sbuf: array<Byte>, now: Time)
    returns (received: seq<Option<Received>>)
    requires sbuf.Length == CORS_MAX_MSG_SIZE && INDIRECT_LEN + |payload| <= CORS_MAX_MSG_SIZE
    requires p.source.port == source.port && p.source.addr == source.addr
    requires p.destination.port == dst.port && p.destination.addr == dst.addr
    requires |at| == |relays| && forall i :: 0 <= i < |relays| ==> relays[i].Valid()
    modifies relays, sbuf
    ensures |received| == 1 + |relays| && received[0] == Some(Received(payload, source, 0))
    ensures forall i :: 0 <= i < |relays| ==>
              var key := SessionKey(source.port, source.addr, dst.port, dst.addr);
              received[1 + i] == if key in old(relays[i].sessions) || |old(relays[i].sessions)| < relays[i].maxFlow
                                 then Some(Received(payload, source, 1)) else None
  {
    hide Sound;
    ReserveAll(relays, p, source, dst, now);
    received := Mesh(payload, source, dst, relays, at, sbuf, now);
  }

  lemma DirectNeeds(junk: Byte, payload: Data)
    ensures var b := DirectBytes(junk, payload); |b| >= DIRECT_LEN && IsDirect(b[1])
  {
  }
}
