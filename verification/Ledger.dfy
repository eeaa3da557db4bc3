/**
 The relay's bandwidth ledger: the bandwidth granted to each session and a running total of a fixed width.
 */
module Ledger {
  import opened Events
  import opened Protocol

  const MAX_FWD_BW := 1024 * 1024 * 2

  datatype SessionKey = SessionKey(srcPort: Short, srcAddr: Word, dstPort: Short, dstAddr: Word)
  datatype Session = Session(rq: Word, last: Time)

  /**
   `current` is the running total.  `leaked` is what was granted to sessions that a full table did not take; the code
   does not keep it.
   */
  datatype State = State(sessions: map<SessionKey, Session>, current: Word, leaked: nat)

  datatype Op =
    | Reserve(key: SessionKey, rq: Word, now: Time)
    | Release(key: SessionKey)
    | Expire(now: Time, timeout: Time)

  /** Cuts to the width of the accumulators: 16 bits as declared, or 32. */
  function Cut(wide: bool, x: int): Word {
    if wide then x % 0x1_0000_0000 else x % 65536
  }

  /** What is granted of a request: all of it or what is left, cut to the width of the record. */
  function Grant(wide: bool, current: Word, rq: Word): Word {
    var left := (MAX_FWD_BW - current) % 0x1_0000_0000;
    Cut(wide, if left >= rq then rq else left)
  }

  function OnReserve(wide: bool, maxFlow: Byte, s: State, key: SessionKey, rq: Word, now: Time): (State, Word) {
    if key in s.sessions then
      var was := s.sessions[key];
      if rq == was.rq then (s.(sessions := s.sessions[key := Session(rq, now)]), rq)
      else
        var freed := Cut(wide, s.current - was.rq);
        var g := Grant(wide, freed, rq);
        (s.(sessions := s.sessions[key := Session(g, now)], current := Cut(wide, freed + g)), g)
    else
      var g := Grant(wide, s.current, rq);
      var s' := s.(current := Cut(wide, s.current + g));
      if |s.sessions| < maxFlow then (s'.(sessions := s.sessions[key := Session(g, now)]), g)
      else (s'.(leaked := s.leaked + g), g)
  }

  function OnRelease(wide: bool, s: State, key: SessionKey): State {
    if key in s.sessions then
      s.(sessions := s.sessions - {key}, current := Cut(wide, s.current - s.sessions[key].rq))
    else s
  }

  function Expired(sessions: map<SessionKey, Session>, now: Time, timeout: Time): set<SessionKey> {
    set k | k in sessions && now - sessions[k].last > timeout
  }

  ghost function OnExpire(wide: bool, s: State, now: Time, timeout: Time): State {
    var kept := s.sessions - Expired(s.sessions, now, timeout);
    s.(sessions := kept, current := Cut(wide, s.current - (Total(s.sessions) - Total(kept))))
  }

  ghost function Step(wide: bool, maxFlow: Byte, s: State, op: Op): State {
    match op
    case Reserve(key, rq, now) => OnReserve(wide, maxFlow, s, key, rq, now).0
    case Release(key) => OnRelease(wide, s, key)
    case Expire(now, timeout) => OnExpire(wide, s, now, timeout)
  }

  ghost function Run(wide: bool, maxFlow: Byte, ops: seq<Op>): State
    decreases |ops|
  {
    if ops == [] then State(map[], 0, 0)
    else Step(wide, maxFlow, Run(wide, maxFlow, ops[..|ops| - 1]), ops[|ops| - 1])
  }

  // ---------- What the sessions add up to ----------

  ghost function Total(m: map<SessionKey, Session>): nat {
    if m == map[] then 0
    else
      var k :| k in m;
      m[k].rq + Total(m - {k})
  }

  lemma {:induction false} TotalRemove(m: map<SessionKey, Session>, k: SessionKey)
    requires k in m
    ensures Total(m) == m[k].rq + Total(m - {k})
    decreases |m|
  {
    var j :| j in m && Total(m) == m[j].rq + Total(m - {j});
    if j != k {
      assert m == (m - {j})[j := m[j]];
      TotalRemove(m - {j}, k);
      assert m == (m - {k})[k := m[k]];
      TotalRemove(m - {k}, j);
      assert m - {j} - {k} == m - {k} - {j};
    }
  }

  lemma TotalAdd(m: map<SessionKey, Session>, k: SessionKey, v: Session)
    ensures Total(m[k := v]) == v.rq + Total(m - {k})
    ensures k !in m ==> m - {k} == m
  {
    TotalRemove(m[k := v], k);
    assert m[k := v] - {k} == m - {k};
  }

  lemma {:induction false} TotalBound(m: map<SessionKey, Session>)
    requires forall k :: k in m ==> m[k].rq < 65536
    ensures Total(m) <= 65535 * |m|
    decreases |m|
  {
    hide Total;
    TotalNone();
    if m != map[] {
      var k :| k in m;
      TotalRemove(m, k);
      assert m == (m - {k})[k := m[k]];
      TotalBound(m - {k});
    }
  }

  lemma TotalNone()
    ensures Total(map[]) == 0
  {
  }

  lemma {:induction false} TotalRemoveAll(m: map<SessionKey, Session>, gone: set<SessionKey>)
    ensures Total(m - gone) <= Total(m)
    decreases gone
  {
    if gone == {} {
      assert m - gone == m;
    } else {
      var k :| k in gone;
      TotalRemoveAll(m, gone - {k});
      if k in m {
        assert m - gone == (m - (gone - {k})) - {k};
        TotalRemove(m - (gone - {k}), k);
      } else {
        assert m - gone == m - (gone - {k});
      }
    }
  }

  // ---------- The invariant ----------

  /** A total that is, in its width, what is `due`, and leaves something to grant.  At full width nothing wraps. */
  ghost predicate Charged(wide: bool, current: Word, due: nat) {
    current == Cut(wide, due) && current <= MAX_FWD_BW && (wide ==> current == due)
  }

  /** The running total is charged with the live grants and the leaked ones; the table is never over its size. */
  ghost predicate Sound(wide: bool, maxFlow: Byte, s: State) {
    && Charged(wide, s.current, Total(s.sessions) + s.leaked)
    && |s.sessions| <= maxFlow
    && (!wide ==> Narrow(s.sessions))
  }

  /** Grants are cut to 16 bits. */
  ghost predicate Narrow(m: map<SessionKey, Session>) {
    forall k :: k in m ==> m[k].rq < 65536
  }

  lemma CutAdd(wide: bool, a: int, b: int)
    ensures Cut(wide, Cut(wide, a) + b) == Cut(wide, a + b)
    ensures 0 <= a < 65536 || (wide && 0 <= a <= MAX_FWD_BW) ==> Cut(wide, a) == a
    ensures !wide ==> Cut(wide, a) < 65536
  {
    if wide {
      Cut32(a, b);
    } else {
      Cut16(a, b);
    }
  }

  lemma Cut16(a: int, b: int)
    ensures (a % 65536 + b) % 65536 == (a + b) % 65536
  {
  }

  lemma Cut32(a: int, b: int)
    ensures (a % 0x1_0000_0000 + b) % 0x1_0000_0000 == (a + b) % 0x1_0000_0000
  {
  }

  /** A total goes down by what leaves it. */
  lemma ChargeLess(wide: bool, current: Word, due: nat, rest: nat)
    requires Charged(wide, current, due) && rest <= due
    ensures Charged(wide, Cut(wide, current - (due - rest)), rest)
  {
    hide Cut;
    CutAdd(wide, due, rest - due);
    CutAdd(wide, rest, 0);
  }

  /** Taking one grant out of the total. */
  lemma Freed(wide: bool, maxFlow: Byte, s: State, key: SessionKey)
    requires Sound(wide, maxFlow, s) && key in s.sessions
    ensures Charged(wide, Cut(wide, s.current - s.sessions[key].rq), Total(s.sessions - {key}) + s.leaked)
    ensures Total(s.sessions) == s.sessions[key].rq + Total(s.sessions - {key})
  {
    hide Cut, Total, Charged;
    TotalRemove(s.sessions, key);
    ChargeLess(wide, s.current, Total(s.sessions) + s.leaked, Total(s.sessions - {key}) + s.leaked);
  }

  /** Granting out of a sound total keeps it sound and within the maximum. */
  lemma Granted(wide: bool, current: Word, due: nat, rq: Word)
    requires Charged(wide, current, due)
    ensures var g := Grant(wide, current, rq);
            Charged(wide, Cut(wide, current + g), due + g) && (!wide ==> g < 65536) && g <= rq
  {
    hide Cut;
    var left := MAX_FWD_BW - current;
    var offer := if left >= rq then rq else left;
    var g := Grant(wide, current, rq);
    assert g == Cut(wide, offer);
    assert g <= offer by { CutLess(wide, offer); }
    CutAdd(wide, due, g);
    CutAdd(wide, due + g, 0);
    CutAdd(wide, offer, 0);
  }

  lemma CutLess(wide: bool, x: nat)
    ensures Cut(wide, x) <= x
  {
  }

  lemma ReserveSound(wide: bool, maxFlow: Byte, s: State, key: SessionKey, rq: Word, now: Time)
    requires Sound(wide, maxFlow, s)
    ensures Sound(wide, maxFlow, OnReserve(wide, maxFlow, s, key, rq, now).0)
  {
    hide Cut, Grant, Total, Sound;
    if key !in s.sessions {
      ReserveNew(wide, maxFlow, s, key, rq, now);
    } else if rq == s.sessions[key].rq {
      ReserveSame(wide, maxFlow, s, key, now);
    } else {
      ReserveOther(wide, maxFlow, s, key, rq, now);
    }
  }

  lemma ReserveNew(wide: bool, maxFlow: Byte, s: State, key: SessionKey, rq: Word, now: Time)
    requires Sound(wide, maxFlow, s) && key !in s.sessions
    ensures Sound(wide, maxFlow, OnReserve(wide, maxFlow, s, key, rq, now).0)
  {
    hide Cut, Grant, Total, Charged;
    var g := Grant(wide, s.current, rq);
    Granted(wide, s.current, Total(s.sessions) + s.leaked, rq);
    TotalAdd(s.sessions, key, Session(g, now));
  }

  /**
   What a reservation does for its caller with sixteen bits: it is granted in full when it fits into them, and the
   table has the session with just that grant, if it had it before or has room.
   */
  lemma ReserveGrants(maxFlow: Byte, s: State, key: SessionKey, rq: Word, now: Time)
    requires Sound(false, maxFlow, s)
    ensures var (s', g) := OnReserve(false, maxFlow, s, key, rq, now);
            && (rq < 65536 ==> g == rq)
            && s'.sessions == if key in s.sessions || |s.sessions| < maxFlow then s.sessions[key := Session(g, now)]
                              else s.sessions
  {
    hide Total, Grant;
    if rq < 65536 {
      assert s.current < 65536;
      GrantAll(false, s.current, rq);
      if key in s.sessions { GrantAll(false, Cut(false, s.current - s.sessions[key].rq), rq); }
    }
  }

  /** With 32 bits a reservation gets all it asks for or all there is left. */
  lemma WideGrantIsMost(current: Word, rq: Word)
    requires current <= MAX_FWD_BW
    ensures var g := Grant(true, current, rq); g == rq || (g < rq && current + g == MAX_FWD_BW)
  {
  }

  /** Asking again for the same only notes the time. */
  lemma ReserveSame(wide: bool, maxFlow: Byte, s: State, key: SessionKey, now: Time)
    requires Sound(wide, maxFlow, s) && key in s.sessions
    ensures Sound(wide, maxFlow, s.(sessions := s.sessions[key := Session(s.sessions[key].rq, now)]))
  {
    hide Cut, Total, Charged;
    var v := Session(s.sessions[key].rq, now);
    TotalAdd(s.sessions, key, v);
    TotalRemove(s.sessions, key);
    SameSize(s.sessions, s.sessions[key := v]);
  }

  lemma ReserveOther(wide: bool, maxFlow: Byte, s: State, key: SessionKey, rq: Word, now: Time)
    requires Sound(wide, maxFlow, s) && key in s.sessions && rq != s.sessions[key].rq
    ensures Sound(wide, maxFlow, OnReserve(wide, maxFlow, s, key, rq, now).0)
  {
    hide Cut, Grant, Total, Charged;
    Freed(wide, maxFlow, s, key);
    var freed := Cut(wide, s.current - s.sessions[key].rq);
    Granted(wide, freed, Total(s.sessions - {key}) + s.leaked, rq);
    var v := Session(Grant(wide, freed, rq), now);
    TotalAdd(s.sessions, key, v);
    SameSize(s.sessions, s.sessions[key := v]);
  }

  lemma SameSize(m: map<SessionKey, Session>, m': map<SessionKey, Session>)
    requires m.Keys == m'.Keys
    ensures |m| == |m'|
  {
    assert |m| == |m.Keys| && |m'| == |m'.Keys|;
  }

  lemma ReleaseSound(wide: bool, maxFlow: Byte, s: State, key: SessionKey)
    requires Sound(wide, maxFlow, s)
    ensures Sound(wide, maxFlow, OnRelease(wide, s, key))
  {
    hide Cut, Total, Charged;
    if key in s.sessions {
      Freed(wide, maxFlow, s, key);
      assert s.sessions == (s.sessions - {key})[key := s.sessions[key]];
    }
  }

  /** Everything that has expired leaves at once. */
  lemma ExpireSound(wide: bool, maxFlow: Byte, s: State, now: Time, timeout: Time)
    requires Sound(wide, maxFlow, s)
    ensures Sound(wide, maxFlow, OnExpire(wide, s, now, timeout))
  {
    hide Cut, Total, Expired, Charged, Narrow;
    var gone := Expired(s.sessions, now, timeout);
    var kept := s.sessions - gone;
    TotalRemoveAll(s.sessions, gone);
    var due, rest := Total(s.sessions) + s.leaked, Total(kept) + s.leaked;
    assert due - rest == Total(s.sessions) - Total(kept);
    ChargeLess(wide, s.current, due, rest);
    RemoveFacts(s.sessions, gone);
  }

  lemma RemoveFacts(m: map<SessionKey, Session>, gone: set<SessionKey>)
    ensures |m - gone| <= |m| && (Narrow(m) ==> Narrow(m - gone))
  {
    assert (m - gone).Keys <= m.Keys;
    SubsetSize((m - gone).Keys, m.Keys);
    assert |m - gone| == |(m - gone).Keys| && |m| == |m.Keys|;
  }

  lemma SubsetSize(a: set<SessionKey>, b: set<SessionKey>)
    requires a <= b
    ensures |a| <= |b|
  {
    assert b == a + (b - a);
  }

  /** Through every mix of reserve, re-reserve, release and timeout. */
  lemma {:induction false} RunSound(wide: bool, maxFlow: Byte, ops: seq<Op>)
    ensures Sound(wide, maxFlow, Run(wide, maxFlow, ops))
    decreases |ops|
  {
    if ops != [] {
      RunSound(wide, maxFlow, ops[..|ops| - 1]);
      var s := Run(wide, maxFlow, ops[..|ops| - 1]);
      match ops[|ops| - 1]
      case Reserve(key, rq, now) => ReserveSound(wide, maxFlow, s, key, rq, now);
      case Release(key) => ReleaseSound(wide, maxFlow, s, key);
      case Expire(now, timeout) => ExpireSound(wide, maxFlow, s, now, timeout);
    }
  }

  /** What the relay has promised: the grants in the table and those answered to sessions that it did not take. */
  ghost function Promised(s: State): nat {
    Total(s.sessions) + s.leaked
  }

  /** With 32-bit accumulators the relay would never promise more than it has. */
  lemma WideNeverOversubscribes(maxFlow: Byte, ops: seq<Op>)
    ensures var s := Run(true, maxFlow, ops); Promised(s) == s.current <= MAX_FWD_BW
  {
    RunSound(true, maxFlow, ops);
  }

  // ---------- What leaks ----------

  /** The operation that is charged without being kept: a new session that a full table grants something. */
  ghost predicate Leaks(wide: bool, maxFlow: Byte, s: State, op: Op) {
    op.Reserve? && op.key !in s.sessions && |s.sessions| >= maxFlow && Grant(wide, s.current, op.rq) > 0
  }

  lemma LeakStep(wide: bool, maxFlow: Byte, s: State, op: Op)
    ensures s.leaked <= Step(wide, maxFlow, s, op).leaked
    ensures Step(wide, maxFlow, s, op).leaked != s.leaked <==> Leaks(wide, maxFlow, s, op)
  {
    hide Cut, Grant, Total, Expired;
  }

  /** Operation `i` of a run leaks. */
  ghost predicate LeaksAt(wide: bool, maxFlow: Byte, ops: seq<Op>, i: nat)
    requires i < |ops|
  {
    Leaks(wide, maxFlow, Run(wide, maxFlow, ops[..i]), ops[i])
  }

  lemma LeaksInPrefix(wide: bool, maxFlow: Byte, ops: seq<Op>, n: nat, i: nat)
    requires i < n <= |ops|
    ensures LeaksAt(wide, maxFlow, ops[..n], i) == LeaksAt(wide, maxFlow, ops, i)
  {
    assert ops[..n][..i] == ops[..i];
  }

  /** Nothing has leaked exactly when no operation of the run met a full table in this way. */
  lemma {:induction false} LeakFreeIff(wide: bool, maxFlow: Byte, ops: seq<Op>)
    ensures Run(wide, maxFlow, ops).leaked == 0 <==> forall i :: 0 <= i < |ops| ==> !LeaksAt(wide, maxFlow, ops, i)
    decreases |ops|
  {
    hide Leaks, Step;
    if ops != [] {
      var n := |ops| - 1;
      LeakFreeIff(wide, maxFlow, ops[..n]);
      LeakStep(wide, maxFlow, Run(wide, maxFlow, ops[..n]), ops[n]);
      assert LeaksAt(wide, maxFlow, ops, n) == Leaks(wide, maxFlow, Run(wide, maxFlow, ops[..n]), ops[n]);
      forall i | 0 <= i < n ensures LeaksAt(wide, maxFlow, ops[..n], i) == LeaksAt(wide, maxFlow, ops, i) {
        LeaksInPrefix(wide, maxFlow, ops, n, i);
      }
    }
  }

  /** The total is that of the live grants exactly when what leaked is nothing in the total's width. */
  lemma EvenIff(wide: bool, maxFlow: Byte, ops: seq<Op>)
    ensures var s := Run(wide, maxFlow, ops);
            s.current == Cut(wide, Total(s.sessions)) <==> Cut(wide, s.leaked) == 0
  {
    hide Total, Run;
    RunSound(wide, maxFlow, ops);
  }

  /** When every session is gone, the total is what leaked: the ledger is even again only if that is nothing. */
  lemma LeakRemains(wide: bool, maxFlow: Byte, ops: seq<Op>)
    requires Run(wide, maxFlow, ops).sessions == map[]
    ensures var s := Run(wide, maxFlow, ops); s.current == Cut(wide, s.leaked)
  {
    hide Total, Cut, Run;
    TotalNone();
    RunSound(wide, maxFlow, ops);
  }

  // ---------- Runs that go wrong ----------

  function Key(i: nat): SessionKey {
    SessionKey(i % 65536, 0, 0, 0)
  }

  lemma GrantAll(wide: bool, current: Word, rq: Word)
    requires current < 65536 && rq < 65536
    ensures Grant(wide, current, rq) == rq
  {
  }

  /** `n` sessions that each ask for `rq`. */
  ghost function Fill(n: nat, rq: Word): seq<Op> {
    if n == 0 then [] else Fill(n - 1, rq) + [Reserve(Key(n - 1), rq, 0)]
  }

  /** `n` sessions that were granted `sum` together. */
  ghost predicate Filled(s: State, n: nat, sum: nat) {
    && Total(s.sessions) == sum && |s.sessions| == n && s.leaked == 0
    && forall k :: k in s.sessions ==> k.srcPort < n && s.sessions[k].last == 0
  }

  /** One more session that is granted everything. */
  lemma FillStep(wide: bool, maxFlow: Byte, s: State, i: nat, sum: nat, rq: Word)
    requires Sound(wide, maxFlow, s) && i < maxFlow && rq < 65536 && (wide ==> sum < 65536)
    requires Filled(s, i, sum)
    ensures Filled(OnReserve(wide, maxFlow, s, Key(i), rq, 0).0, i + 1, sum + rq)
  {
    hide Total, Cut, Grant;
    assert Key(i).srcPort == i && Key(i) !in s.sessions;
    CutAdd(wide, sum, 0);
    GrantAll(wide, s.current, rq);
    TotalAdd(s.sessions, Key(i), Session(rq, 0));
  }

  lemma {:induction false} FillRun(wide: bool, maxFlow: Byte, n: nat, rq: Word)
    requires n <= maxFlow && rq < 65536 && (wide ==> rq == 0)
    ensures Filled(Run(wide, maxFlow, Fill(n, rq)), n, n * rq)
  {
    hide Total, Sound, OnReserve, Filled;
    FilledNone();
    if n > 0 {
      FillRun(wide, maxFlow, n - 1, rq);
      RunSound(wide, maxFlow, Fill(n - 1, rq));
      assert Fill(n, rq)[..|Fill(n, rq)| - 1] == Fill(n - 1, rq);
      assert (n - 1) * rq + rq == n * rq;
      FillStep(wide, maxFlow, Run(wide, maxFlow, Fill(n - 1, rq)), n - 1, (n - 1) * rq, rq);
    }
  }

  lemma FilledNone()
    ensures Filled(State(map[], 0, 0), 0, 0)
  {
  }

  /** A full table of sessions that ask for nothing, one reservation too many, and the time at which all expire. */
  ghost function Overfill(maxFlow: Byte): seq<Op> {
    (Fill(maxFlow, 0) + [Reserve(Key(maxFlow), 1, 0)]) + [Expire(1, 0)]
  }

  /** Whatever the size of the table, a run can end with no session and a total that is not zero. */
  lemma OverfillLeaks(wide: bool, maxFlow: Byte)
    ensures var s := Run(wide, maxFlow, Overfill(maxFlow)); s.sessions == map[] && s.current == s.leaked == 1
  {
    hide Total, Cut, Filled, Grant;
    var full := Run(wide, maxFlow, Fill(maxFlow, 0));
    FillRun(wide, maxFlow, maxFlow, 0);
    RunSound(wide, maxFlow, Fill(maxFlow, 0));
    var more := Fill(maxFlow, 0) + [Reserve(Key(maxFlow), 1, 0)];
    assert more[..|more| - 1] == Fill(maxFlow, 0);
    var ops := more + [Expire(1, 0)];
    assert ops[..|ops| - 1] == more;
    OverfillSteps(wide, maxFlow, full);
  }

  lemma OverfillSteps(wide: bool, maxFlow: Byte, full: State)
    requires Sound(wide, maxFlow, full) && Filled(full, maxFlow, 0)
    ensures var s := OnExpire(wide, OnReserve(wide, maxFlow, full, Key(maxFlow), 1, 0).0, 1, 0);
            s.sessions == map[] && s.current == s.leaked == 1
  {
    hide Total, OnReserve, OnExpire, Key;
    TooMany(wide, maxFlow, full);
    LeakStays(wide, full.sessions);
  }

  lemma TooMany(wide: bool, maxFlow: Byte, full: State)
    requires Sound(wide, maxFlow, full) && Filled(full, maxFlow, 0)
    ensures OnReserve(wide, maxFlow, full, Key(maxFlow), 1, 0).0 == State(full.sessions, 1, 1)
  {
    hide Total, Cut, Grant;
    assert Key(maxFlow).srcPort == maxFlow;
    assert Key(maxFlow) !in full.sessions;
    SmallCuts(wide);
  }

  lemma SmallCuts(wide: bool)
    ensures Cut(wide, 0) == 0 && Cut(wide, 1) == 1 && Grant(wide, 0, 1) == 1
  {
  }

  lemma LeakStays(wide: bool, m: map<SessionKey, Session>)
    requires Total(m) == 0 && forall k :: k in m ==> m[k].last == 0
    ensures OnExpire(wide, State(m, 1, 1), 1, 0) == State(map[], 1, 1)
  {
    hide Total, Cut, Expired;
    AllExpired(m);
    TotalNone();
    SmallCuts(wide);
  }

  lemma AllExpired(m: map<SessionKey, Session>)
    requires forall k :: k in m ==> m[k].last == 0
    ensures m - Expired(m, 1, 0) == map[]
  {
  }

  // ---------- What is promised ----------

  /** After these operations the grants of the sessions in the table are within the relay's bandwidth. */
  ghost predicate Within(wide: bool, maxFlow: Byte, ops: seq<Op>) {
    Total(Run(wide, maxFlow, ops).sessions) <= MAX_FWD_BW
  }

  /**
   The grants of the sessions in the table are within the relay's bandwidth, in any run, exactly when the table is
   small enough for the sixteen-bit total: the running total wraps, and with 33 sessions of 65535 each it is too late.
   */
  lemma NeverOversubscribesIff(maxFlow: Byte)
    ensures (forall ops :: Within(false, maxFlow, ops)) <==> maxFlow <= 32
  {
    if maxFlow <= 32 {
      forall ops ensures Within(false, maxFlow, ops) {
        RunSound(false, maxFlow, ops);
        TotalBound(Run(false, maxFlow, ops).sessions);
      }
    } else {
      FillRun(false, maxFlow, 33, 65535);
      assert !Within(false, maxFlow, Fill(33, 65535));
    }
  }

  /** After these operations everything promised is within the relay's bandwidth. */
  ghost predicate AllWithin(wide: bool, maxFlow: Byte, ops: seq<Op>) {
    Promised(Run(wide, maxFlow, ops)) <= MAX_FWD_BW
  }

  ghost function Reservations(ops: seq<Op>): nat {
    if ops == [] then 0 else Reservations(ops[..|ops| - 1]) + if ops[|ops| - 1].Reserve? then 1 else 0
  }

  /** A step promises at most 65535 more, and nothing more unless it reserves. */
  lemma PromisedStep(maxFlow: Byte, s: State, op: Op)
    requires Sound(false, maxFlow, s)
    ensures Promised(Step(false, maxFlow, s, op)) <= Promised(s) + if op.Reserve? then 65535 else 0
  {
    hide Total, Cut, Grant, Expired, Charged;
    match op
    case Reserve(key, rq, now) =>
      PromisedReserve(maxFlow, s, key, rq, now);
    case Release(key) =>
      if key in s.sessions { TotalRemove(s.sessions, key); }
    case Expire(now, timeout) =>
      TotalRemoveAll(s.sessions, Expired(s.sessions, now, timeout));
  }

  lemma PromisedReserve(maxFlow: Byte, s: State, key: SessionKey, rq: Word, now: Time)
    requires Sound(false, maxFlow, s)
    ensures Promised(OnReserve(false, maxFlow, s, key, rq, now).0) <= Promised(s) + 65535
  {
    hide Total, Grant, Charged;
    var g := OnReserve(false, maxFlow, s, key, rq, now).1;
    GrantNarrow(s.current, rq);
    if key in s.sessions {
      var was := s.sessions[key];
      GrantNarrow(Cut(false, s.current - was.rq), rq);
      TotalRemove(s.sessions, key);
    }
    TotalAdd(s.sessions, key, Session(g, now));
  }

  lemma GrantNarrow(current: Word, rq: Word)
    ensures Grant(false, current, rq) < 65536
  {
  }

  lemma {:induction false} PromisedBound(maxFlow: Byte, ops: seq<Op>)
    ensures Promised(Run(false, maxFlow, ops)) <= 65535 * Reservations(ops)
    decreases |ops|
  {
    hide Promised, Step;
    PromisedNone();
    if ops != [] {
      var n := |ops| - 1;
      PromisedBound(maxFlow, ops[..n]);
      RunSound(false, maxFlow, ops[..n]);
      PromisedStep(maxFlow, Run(false, maxFlow, ops[..n]), ops[n]);
    }
  }

  lemma PromisedNone()
    ensures Promised(State(map[], 0, 0)) == 0
  {
  }

  /** `n` reservations of 65535 each: the table fills, and from then on one session is refused again and again. */
  ghost function Ask(maxFlow: Byte, n: nat): seq<Op> {
    if n == 0 then []
    else Ask(maxFlow, n - 1) + [Reserve(Key(if n - 1 < maxFlow then n - 1 else maxFlow), 65535, 0)]
  }

  lemma {:induction false} AskRun(maxFlow: Byte, n: nat)
    ensures var s := Run(false, maxFlow, Ask(maxFlow, n));
            && Promised(s) == 65535 * n && |s.sessions| == (if n < maxFlow then n else maxFlow)
            && forall k :: k in s.sessions ==> k.srcPort < n && k.srcPort < maxFlow
    ensures Reservations(Ask(maxFlow, n)) == n
  {
    hide OnReserve, Promised, Key;
    PromisedNone();
    if n > 0 {
      AskRun(maxFlow, n - 1);
      RunSound(false, maxFlow, Ask(maxFlow, n - 1));
      var ops := Ask(maxFlow, n);
      assert ops[..|ops| - 1] == Ask(maxFlow, n - 1);
      AskStep(maxFlow, Run(false, maxFlow, Ask(maxFlow, n - 1)), n - 1);
    }
  }

  lemma AskStep(maxFlow: Byte, s: State, n: nat)
    requires Sound(false, maxFlow, s) && |s.sessions| == (if n < maxFlow then n else maxFlow)
    requires forall k :: k in s.sessions ==> k.srcPort < n && k.srcPort < maxFlow
    ensures var s' := OnReserve(false, maxFlow, s, Key(if n < maxFlow then n else maxFlow), 65535, 0).0;
            && Promised(s') == Promised(s) + 65535
            && |s'.sessions| == (if n + 1 < maxFlow then n + 1 else maxFlow)
            && forall k :: k in s'.sessions ==> k.srcPort < n + 1 && k.srcPort < maxFlow
  {
    hide Total, Cut, Grant;
    var i := if n < maxFlow then n else maxFlow;
    assert Key(i).srcPort == i && Key(i) !in s.sessions;
    CutAdd(false, Promised(s), 0);
    GrantAll(false, s.current, 65535);
    TotalAdd(s.sessions, Key(i), Session(65535, 0));
  }

  /**
   With the answers to refused sessions counted too, no table is small enough: whatever its size, everything promised
   is within the bandwidth in all runs of at most `n` reservations exactly when `n` is at most 32.
   */
  lemma PromisesWithinIff(maxFlow: Byte, n: nat)
    ensures (forall ops :: Reservations(ops) <= n ==> AllWithin(false, maxFlow, ops)) <==> n <= 32
  {
    hide Run, Reservations, Promised;
    if n <= 32 {
      forall ops | Reservations(ops) <= n ensures AllWithin(false, maxFlow, ops) {
        PromisedBound(maxFlow, ops);
      }
    } else {
      AskRun(maxFlow, 33);
      assert !AllWithin(false, maxFlow, Ask(maxFlow, 33));
    }
  }
}
