/**
 The proxy's three self re-arming timers: each execution puts one successor of its own kind into the queue.
 */
module Timers {
  import opened Clocks
  import opened Events
  import opened Runs
  import opened StableQueue
  import opened EventQueues

  /** The probe, save and update intervals, in seconds. */
  datatype Intervals = Intervals(probe: int, save: int, update: int) {
    function Of(k: Kind): int {
      match k
      case Probe => probe
      case Save => save
      case Update => update
      case Other => 0
    }

    ghost predicate Positive() {
      0 < probe && 0 < save && 0 < update
    }
  }

  /** What `execute` puts into the queue.  Ids 0 to 2 are the timers armed at start. */
  function Rearm(iv: Intervals): Callback {
    (n: nat, e: Event, t: Time) => if e.kind == Other then [] else [Event(n + 3, t + iv.Of(e.kind), e.kind)]
  }

  ghost function OfKind(k: Kind): Event -> bool {
    (e: Event) => e.kind == k
  }

  /** Callbacks schedule strictly later than the time they run at. */
  ghost predicate FutureOnly(callback: Callback) {
    forall n, e, t, i :: 0 <= i < |callback(n, e, t)| ==> t < callback(n, e, t)[i].ts
  }

  /** The timers schedule strictly into the future exactly when every interval is positive. */
  lemma RearmFutureOnly(iv: Intervals)
    ensures FutureOnly(Rearm(iv)) <==> iv.Positive()
  {
    if FutureOnly(Rearm(iv)) {
      forall k: Kind | k != Other ensures 0 < iv.Of(k) {
        var xs := Rearm(iv)(0, Event(0, 0, k), 0);
        assert 0 < xs[0].ts;
      }
      assert 0 < iv.Of(Probe) && 0 < iv.Of(Save) && 0 < iv.Of(Update);
    }
  }

  /** Each timer's successor is due one interval of its own after the reading it fires at; other events have none. */
  lemma OneEach(iv: Intervals, n: nat, id: nat, ts: Time, t: Time)
    ensures Rearm(iv)(n, Event(id, ts, Probe), t) == [Event(n + 3, t + iv.probe, Probe)]
    ensures Rearm(iv)(n, Event(id, ts, Save), t) == [Event(n + 3, t + iv.save, Save)]
    ensures Rearm(iv)(n, Event(id, ts, Update), t) == [Event(n + 3, t + iv.update, Update)]
    ensures Rearm(iv)(n, Event(id, ts, Other), t) == []
  {
  }

  /** What firing a timer adds to the queue: its successor, unless that lies before the queue's clock. */
  lemma Successor(iv: Intervals, n: nat, e: Event, t: Time)
    ensures Accepted(Rearm(iv)(n, e, t)) ==
            if e.kind == Other || t + iv.Of(e.kind) < CLOCK then [] else [Event(n + 3, t + iv.Of(e.kind), e.kind)]
    ensures e.kind == Other || CLOCK <= t + iv.Of(e.kind) ==> Refused(Rearm(iv)(n, e, t)) == []
  {
    var xs := Rearm(iv)(n, e, t);
    assert xs != [] ==> xs[..0] == [];
    assert Accepted([]) == [] && Refused([]) == [];
  }

  lemma SuccessorKind(iv: Intervals, n: nat, e: Event, t: Time, k: Kind)
    requires k != Other && (e.kind == k ==> CLOCK <= t + iv.Of(k))
    ensures CountIf(Accepted(Rearm(iv)(n, e, t)), OfKind(k)) == CountIf([e], OfKind(k))
  {
    hide Accepted;
    Successor(iv, n, e, t);
    var xs := Accepted(Rearm(iv)(n, e, t));
    assert [e][..0] == [] && (xs != [] ==> xs[..0] == []);
  }

  /**
   The timers let a run end at clock reading `t` exactly when each has a positive interval, or one that points
   before the queue's clock.
   */
  lemma QuietIff(iv: Intervals, t: Time)
    ensures Quiet(Rearm(iv), t) <==> forall k: Kind :: k != Other ==> 0 < iv.Of(k) || t + iv.Of(k) < CLOCK
  {
    hide Accepted;
    forall n: nat, e: Event ensures Accepted(Rearm(iv)(n, e, t)) ==
        if e.kind == Other || t + iv.Of(e.kind) < CLOCK then [] else [Event(n + 3, t + iv.Of(e.kind), e.kind)]
    {
      Successor(iv, n, e, t);
    }
    if Quiet(Rearm(iv), t) {
      forall k: Kind | k != Other ensures 0 < iv.Of(k) || t + iv.Of(k) < CLOCK {
        var e := Event(0, 0, k);
        if CLOCK <= t + iv.Of(k) { assert t < Accepted(Rearm(iv)(0, e, t))[0].ts; }
      }
    }
  }

  /** The due timers of kind `k`. */
  ghost function DueOfKind(k: Kind, t: Time): Event -> bool {
    (e: Event) => e.kind == k && e.ts <= t
  }

  /** A timer whose interval points neither ahead nor before the queue's clock re-arms itself as due again. */
  lemma NotAheadIsPerpetual(iv: Intervals, k: Kind, t: Time)
    requires k != Other && iv.Of(k) <= 0 && CLOCK <= t + iv.Of(k)
    ensures Perpetual(Rearm(iv), DueOfKind(k, t), t)
  {
    var f := DueOfKind(k, t);
    forall n: nat, e: Event | f(e) ensures 1 <= CountIf(Accepted(Rearm(iv)(n, e, t)), f) {
      Successor(iv, n, e, t);
      var x := Event(n + 3, t + iv.Of(k), k);
      assert [x][..0] == [] && CountIf([x], f) == 1;
    }
  }

  /**
   The other half: with such a timer due and the clock standing still, one of the same kind is still due after any
   number of turns, so the run never ends.
   */
  method NeverEnds(q: EventQueue, iv: Intervals, k: Kind, time: Clock, turns: nat)
    requires q.Valid() && time.Valid() && q.inHand == [] && q.callback == Rearm(iv)
    requires time.pos + 1 == |time.readings|
    requires k != Other && iv.Of(k) <= 0 && CLOCK <= time.Final() + iv.Of(k)
    requires exists i :: 0 <= i < |q.pending| && DueOfKind(k, time.Final())(q.pending[i])
    modifies q, q.queue, q.queue.Repr, time
    ensures q.Valid() && q.pending != [] && q.pending[0].ts <= time.Final() && |q.fired| >= |old(q.fired)| + turns
    ensures exists i :: 0 <= i < |q.pending| && DueOfKind(k, time.Final())(q.pending[i])
  {
    hide EventQueue.Valid, SkipLists.SkipList.Valid, Since, CountIf, Perpetual;
    ghost var f := DueOfKind(k, time.Final());
    NotAheadIsPerpetual(iv, k, time.Final());
    CountSome(q.pending, f);
    var done := q.RunSome(time, turns, f);
    CountSome(q.pending, f);
  }

  lemma {:induction false} CountSome(p: seq<Event>, f: Event -> bool)
    ensures CountIf(p, f) > 0 <==> exists i :: 0 <= i < |p| && f(p[i])
  {
    if p != [] {
      var n := |p| - 1;
      CountSome(p[..n], f);
      if exists i :: 0 <= i < n && f(p[i]) {
        var i :| 0 <= i < n && f(p[i]);
        assert f(p[..n][i]);
      }
    }
  }

  /** A run of firings adds as many timers of a kind as it fires, when none of their successors is refused. */
  lemma {:induction false} SpawnedOfKind(iv: Intervals, n: nat, fs: seq<Firing>, k: Kind)
    requires k != Other
    requires forall i :: 0 <= i < |fs| && fs[i].event.kind == k ==> CLOCK <= fs[i].at + iv.Of(k)
    ensures CountIf(Spawned(Rearm(iv), n, fs), OfKind(k)) == CountIf(Fired(fs), OfKind(k))
    decreases |fs|
  {
    if fs != [] {
      hide Accepted, Spawned, Fired, Rearm, CountIf;
      var init, last := fs[..|fs| - 1], fs[|fs| - 1];
      SpawnedOfKind(iv, n, init, k);
      assert fs == init + [Firing(last.event, last.at)];
      FiredStep(Rearm(iv), n, init, last.event, last.at);
      SuccessorKind(iv, n + |init|, last.event, last.at, k);
      CountConcat(Spawned(Rearm(iv), n, init), Accepted(Rearm(iv)(n + |init|, last.event, last.at)), OfKind(k));
      CountConcat(Fired(init), [last.event], OfKind(k));
    } else {
      assert Fired(fs) == [];
    }
  }

  /** A run keeps the number of pending timers of each kind whose successors are not refused. */
  lemma RunKeepsTimers(iv: Intervals, b0: Books, b: Books, limit: Time, k: Kind)
    requires k != Other && b.hand == [] && Since(Rearm(iv), b0, b, limit)
    requires forall i :: |b0.fired| <= i < |b.fired| && b.fired[i].event.kind == k ==> CLOCK <= b.fired[i].at + iv.Of(k)
    ensures CountIf(b.pending, OfKind(k)) == CountIf(b0.pending, OfKind(k))
  {
    hide Fair, ScheduleAll, Declined, Onward, Awaited, Fired;
    var fs, accepted := b.fired[|b0.fired|..], b.accepted[|b0.accepted|..];
    assert (Fired(fs) + []) + b.pending == Fired(fs) + b.pending;
    FairIsMultiset(Fired(fs) + b.pending, b0.pending + accepted);
    CountMultiset(Fired(fs) + b.pending, b0.pending + accepted, OfKind(k));
    CountConcat(Fired(fs), b.pending, OfKind(k));
    CountConcat(b0.pending, accepted, OfKind(k));
    SpawnedOfKind(iv, |b0.fired|, fs, k);
  }

  /** Every pending timer fires within its interval of `now`. */
  ghost predicate Soon(iv: Intervals, p: seq<Event>, now: Time) {
    forall i :: 0 <= i < |p| ==> p[i].kind != Other && p[i].ts <= now + iv.Of(p[i].kind)
  }

  lemma {:induction false} SpawnedSoon(iv: Intervals, n: nat, fs: seq<Firing>, now: Time)
    requires forall i :: 0 <= i < |fs| ==> fs[i].at <= now
    ensures Soon(iv, Spawned(Rearm(iv), n, fs), now)
    decreases |fs|
  {
    if fs != [] {
      hide Accepted;
      var last := fs[|fs| - 1];
      SpawnedSoon(iv, n, fs[..|fs| - 1], now);
      Successor(iv, n + |fs| - 1, last.event, last.at);
    }
  }

  lemma {:induction false} ScheduleAllSoon(iv: Intervals, p: seq<Event>, es: seq<Event>, now: Time)
    requires Soon(iv, p, now) && Soon(iv, es, now)
    ensures Soon(iv, ScheduleAll(p, es), now)
    decreases |es|
  {
    if es != [] { ScheduleAllSoon(iv, p, es[..|es| - 1], now); }
  }

  /** After a run every timer is due within its own interval. */
  lemma RunKeepsSoon(iv: Intervals, b0: Books, b: Books, limit: Time, before: Time)
    requires b.hand == [] && Since(Rearm(iv), b0, b, limit)
    requires Soon(iv, b0.pending, before) && before <= limit
    ensures Soon(iv, b.pending, limit)
  {
    hide Fair, ScheduleAll, Declined, Onward, Awaited, Fired;
    var fs, accepted := b.fired[|b0.fired|..], b.accepted[|b0.accepted|..];
    SpawnedSoon(iv, |b0.fired|, fs, limit);
    assert (Fired(fs) + []) + b.pending == Fired(fs) + b.pending;
    FairIsMultiset(Fired(fs) + b.pending, b0.pending + accepted);
    forall i | 0 <= i < |b.pending|
      ensures b.pending[i].kind != Other && b.pending[i].ts <= limit + iv.Of(b.pending[i].kind)
    {
      var e := b.pending[i];
      assert e in multiset(b.pending) && e in multiset(b0.pending + accepted);
      assert e in b0.pending || e in accepted;
    }
  }

  /** Exactly one probe, one save and one update timer, and nothing else, each due within its interval. */
  ghost predicate Armed(iv: Intervals, p: seq<Event>, now: Time) {
    && (forall k: Kind {:trigger OfKind(k)} :: k != Other ==> CountIf(p, OfKind(k)) == 1)
    && Soon(iv, p, now)
  }

  lemma RunKeepsArmed(iv: Intervals, b0: Books, b: Books, limit: Time, before: Time)
    requires iv.Positive() && b.hand == [] && Since(Rearm(iv), b0, b, limit)
    requires Armed(iv, b0.pending, before) && before <= limit
    ensures Armed(iv, b.pending, limit)
    ensures b.rejected == b0.rejected
  {
    hide Soon, Since;
    FiredLater(iv, b0, b, limit);
    forall k: Kind | k != Other ensures CountIf(b.pending, OfKind(k)) == 1 {
      RunKeepsTimers(iv, b0, b, limit, k);
      assert CountIf(b0.pending, OfKind(k)) == 1;
    }
    RunKeepsSoon(iv, b0, b, limit, before);
  }

  /** With positive intervals no successor is refused. */
  lemma FiredLater(iv: Intervals, b0: Books, b: Books, limit: Time)
    requires iv.Positive() && Since(Rearm(iv), b0, b, limit)
    ensures forall i :: |b0.fired| <= i < |b.fired| ==> CLOCK <= b.fired[i].at
    ensures b.rejected == b0.rejected
  {
    hide Fair, ScheduleAll, Spawned, Onward, Awaited, Fired, Declined;
    var fs := b.fired[|b0.fired|..];
    forall i | |b0.fired| <= i < |b.fired| ensures CLOCK <= b.fired[i].at {
      assert b.fired[i] == fs[i - |b0.fired|];
    }
    NoneDeclined(iv, |b0.fired|, fs);
    assert b.rejected == b0.rejected + b.rejected[|b0.rejected|..];
  }

  lemma {:induction false} NoneDeclined(iv: Intervals, n: nat, fs: seq<Firing>)
    requires iv.Positive() && forall i :: 0 <= i < |fs| ==> CLOCK <= fs[i].at
    ensures Declined(Rearm(iv), n, fs) == []
    decreases |fs|
  {
    if fs != [] {
      hide Refused;
      NoneDeclined(iv, n, fs[..|fs| - 1]);
      Successor(iv, n + |fs| - 1, fs[|fs| - 1].event, fs[|fs| - 1].at);
    }
  }

  lemma StartArmed(iv: Intervals, p: Event, s: Event, u: Event, p3: seq<Event>, now: Time)
    requires p.kind == Probe && s.kind == Save && u.kind == Update && CLOCK <= p.ts && CLOCK <= s.ts && CLOCK <= u.ts
    requires p3 == ScheduleAll([], Accepted([p, s, u]))
    requires p.ts <= now + iv.probe && s.ts <= now + iv.save && u.ts <= now + iv.update
    ensures Armed(iv, p3, now) && Refused([p, s, u]) == []
  {
    hide ScheduleAll;
    var es := [p, s, u];
    AllAccepted(p, s, u);
    forall k: Kind | k != Other ensures CountIf(p3, OfKind(k)) == 1 {
      CountScheduleAll([], es, OfKind(k));
      CountThree(p, s, u, OfKind(k));
      assert k == Probe || k == Save || k == Update;
    }
    ScheduleAllSoon(iv, [], es, now);
  }

  lemma AllAccepted(p: Event, s: Event, u: Event)
    requires CLOCK <= p.ts && CLOCK <= s.ts && CLOCK <= u.ts
    ensures Accepted([p, s, u]) == [p, s, u] && Refused([p, s, u]) == []
  {
    assert [] + [p] == [p] && [p] + [s] == [p, s] && [p, s] + [u] == [p, s, u];
    AcceptedPush([], p);
    AcceptedPush([p], s);
    AcceptedPush([p, s], u);
  }

  lemma CountThree(p: Event, s: Event, u: Event, f: Event -> bool)
    ensures CountIf([p, s, u], f) == (if f(p) then 1 else 0) + (if f(s) then 1 else 0) + if f(u) then 1 else 0
  {
    assert [p, s, u][..2] == [p, s] && [p, s][..1] == [p] && [p][..0] == [];
    assert CountIf([p], f) == if f(p) then 1 else 0;
    assert CountIf([p, s], f) == CountIf([p], f) + if f(s) then 1 else 0;
  }

  /** The pending list, and the list of refused events, after `e` is offered. */
  ghost function Taken(p: seq<Event>, e: Event): seq<Event> {
    if CLOCK <= e.ts then Schedule(p, e) else p
  }

  ghost function Deleted(r: seq<Event>, e: Event): seq<Event> {
    if CLOCK <= e.ts then r else r + [e]
  }

  lemma OfferOne(r: seq<Event>, xs: seq<Event>, x: Event)
    ensures ScheduleAll([], Accepted(xs + [x])) == Taken(ScheduleAll([], Accepted(xs)), x)
    ensures r + Refused(xs + [x]) == Deleted(r + Refused(xs), x)
  {
    hide ScheduleAll, Accepted, Refused;
    AddStep([], [], r, xs, x);
    AcceptedPush(xs, x);
  }

  lemma OfferThree(r: seq<Event>, p: Event, s: Event, u: Event)
    ensures ScheduleAll([], Accepted([p, s, u])) == Taken(Taken(Taken([], p), s), u)
    ensures r + Refused([p, s, u]) == Deleted(Deleted(Deleted(r, p), s), u)
  {
    hide ScheduleAll, Accepted, Refused, Taken, Deleted;
    AddNone([], [], r);
    OfferOne(r, [], p);
    OfferOne(r, [p], s);
    OfferOne(r, [p, s], u);
    assert [] + [p] == [p] && [p] + [s] == [p, s] && [p, s] + [u] == [p, s, u];
  }

  /** Arms one timer, as `start` does; one that would be due before the queue's clock is refused. */
  method Arm(q: EventQueue, iv: Intervals, id: nat, kind: Kind, time: Clock) returns (e: Event)
    requires q.Valid() && time.Valid()
    modifies q, q.queue, q.queue.Repr, time
    ensures q.Valid() && fresh(q.queue.Repr - old(q.queue.Repr)) && q.inHand == old(q.inHand) && q.fired == old(q.fired)
    ensures time.Valid() && old(time.last) <= time.last && old(time.pos) <= time.pos && CLOCK <= time.last
    ensures e == Event(id, time.last + iv.Of(kind), kind)
    ensures q.pending == Taken(old(q.pending), e) && q.rejected == Deleted(old(q.rejected), e)
  {
    hide EventQueue.Valid, SkipLists.SkipList.Valid;
    var t := time.Now();
    e := Event(id, t + iv.Of(kind), kind);
    q.AddEvent(e);
  }

  /**
   Arms the neighbour maintainer's two timers and the relay advisor's one.  With positive intervals exactly one of
   each is armed; in general those that would be due before the queue's clock are not.
   */
  method Start(q: EventQueue, iv: Intervals, time: Clock) returns (ghost p: Event, ghost s: Event, ghost u: Event)
    requires q.Valid() && time.Valid() && q.pending == [] && q.inHand == []
    modifies q, q.queue, q.queue.Repr, time
    ensures q.Valid() && fresh(q.queue.Repr - old(q.queue.Repr)) && q.inHand == []
    ensures time.Valid() && old(time.last) <= time.last && old(time.pos) <= time.pos
    ensures p.kind == Probe && s.kind == Save && u.kind == Update
    ensures old(time.last) + iv.probe <= p.ts <= time.last + iv.probe
    ensures old(time.last) + iv.save <= s.ts <= time.last + iv.save
    ensures old(time.last) + iv.update <= u.ts <= time.last + iv.update
    ensures q.pending == ScheduleAll([], Accepted([p, s, u])) && q.rejected == old(q.rejected) + Refused([p, s, u])
    ensures iv.Positive() ==> Armed(iv, q.pending, time.last) && q.rejected == old(q.rejected)
  {
    hide EventQueue.Valid, SkipLists.SkipList.Valid, ScheduleAll, Accepted, Refused, Taken, Deleted, Armed;
    ghost var r := q.rejected;
    p := Arm(q, iv, 0, Probe, time);
    s := Arm(q, iv, 1, Save, time);
    u := Arm(q, iv, 2, Update, time);
    OfferThree(r, p, s, u);
    if iv.Positive() { StartArmed(iv, p, s, u, q.pending, time.last); }
  }

  /** What it means to be armed: three timers, one of each kind, each due within its own interval. */
  lemma ThreeTimers(iv: Intervals, p: seq<Event>, now: Time)
    requires Armed(iv, p, now)
    ensures |p| == 3 && {p[0].kind, p[1].kind, p[2].kind} == {Probe, Save, Update}
    ensures forall i :: 0 <= i < 3 ==>
              && (p[i].kind == Probe ==> p[i].ts <= now + iv.probe)
              && (p[i].kind == Save ==> p[i].ts <= now + iv.save)
              && (p[i].kind == Update ==> p[i].ts <= now + iv.update)
  {
    hide CountIf;
    CountKinds(p);
    assert CountIf(p, OfKind(Probe)) == 1 && CountIf(p, OfKind(Save)) == 1 && CountIf(p, OfKind(Update)) == 1;
    CountSome(p, OfKind(Probe));
    CountSome(p, OfKind(Save));
    CountSome(p, OfKind(Update));
  }

  lemma {:induction false} CountKinds(p: seq<Event>)
    requires forall i :: 0 <= i < |p| ==> p[i].kind != Other
    ensures |p| == CountIf(p, OfKind(Probe)) + CountIf(p, OfKind(Save)) + CountIf(p, OfKind(Update))
  {
    if p != [] { CountKinds(p[..|p| - 1]); }
  }

  ghost predicate AllAfter(p: seq<Event>, t: Time) {
    forall i :: 0 <= i < |p| ==> t < p[i].ts
  }

  /** The index of a reading `n` ahead of `pos`, or of the last one. */
  ghost function Ahead(readings: seq<Time>, pos: nat, n: nat): (r: nat)
    requires pos < |readings|
    ensures pos <= r < |readings|
  {
    if pos + n < |readings| then pos + n else |readings| - 1
  }

  lemma AfterAll(p: seq<Event>, t: Time)
    requires AllAfter(p, t)
    ensures forall i :: 0 <= i < |p| ==> t < p[i].ts
  {
  }

  lemma Later(p: seq<Event>, readings: seq<Time>, i: nat, j: nat, last: Time)
    requires i <= j < |readings| && readings[j] <= last
    requires forall i, j :: 0 <= i <= j < |readings| ==> readings[i] <= readings[j]
    requires forall i :: 0 <= i < |p| ==> last < p[i].ts
    ensures AllAfter(p, readings[i])
  {
  }

  /**
   The proxy's service loop for any number of rounds: run what is due, then sleep.  Between any two runs exactly one
   timer of each kind is pending, none was ever refused, and each comes due within its interval.  After `rounds`
   rounds no timer that was due by the clock's reading number `rounds` still waits.
   */
  method Serve(q: EventQueue, iv: Intervals, time: Clock, rounds: nat)
    requires q.Valid() && time.Valid() && iv.Positive() && q.callback == Rearm(iv)
    requires q.pending == [] && q.inHand == [] && q.rejected == []
    modifies q, q.queue, q.queue.Repr, time
    ensures q.Valid() && time.Valid() && q.inHand == [] && q.rejected == []
    ensures Armed(iv, q.pending, time.last)
    ensures |q.pending| == 3 && {q.pending[0].kind, q.pending[1].kind, q.pending[2].kind} == {Probe, Save, Update}
    ensures forall i :: 0 <= i < 3 ==>
              && (q.pending[i].kind == Probe ==> q.pending[i].ts <= time.last + iv.probe)
              && (q.pending[i].kind == Save ==> q.pending[i].ts <= time.last + iv.save)
              && (q.pending[i].kind == Update ==> q.pending[i].ts <= time.last + iv.update)
    ensures 0 < rounds && old(time.pos) + rounds <= |time.readings| ==>
              forall i :: 0 <= i < 3 ==> time.readings[old(time.pos) + rounds - 1] < q.pending[i].ts
    ensures rounds > 0 ==> AllAfter(q.pending, time.readings[Ahead(time.readings, old(time.pos), rounds - 1)])
  {
    hide EventQueue.Valid, SkipLists.SkipList.Valid, Armed, AllAfter, Since, Quiet;
    QuietIff(iv, time.Final());
    ghost var p, s, u := Start(q, iv, time);
    var round := 0;
    while round < rounds
      invariant q.Valid() && time.Valid() && fresh(q.queue.Repr - old(q.queue.Repr))
      invariant q.inHand == [] && q.rejected == []
      invariant Armed(iv, q.pending, time.last)
      invariant round <= rounds && Ahead(time.readings, old(time.pos), round) <= time.pos
      invariant round > 0 ==> AllAfter(q.pending, time.readings[Ahead(time.readings, old(time.pos), round - 1)])
    {
      ghost var b0, before := q.State(), time.last;
      ghost var pos := time.pos;
      q.Run(time);
      assert AllAfter(q.pending, time.readings[Ahead(time.readings, old(time.pos), round)]) by {
        Later(q.pending, time.readings, Ahead(time.readings, old(time.pos), round), pos, time.last);
      }
      RunKeepsArmed(iv, b0, q.State(), time.last, before);
      ghost var ran := time.last;
      var idle := q.GetIdleTime(time);
      ArmedLater(iv, q.pending, ran, time.last);
      round := round + 1;
    }
    ThreeTimers(iv, q.pending, time.last);
    if rounds > 0 { AfterAll(q.pending, time.readings[Ahead(time.readings, old(time.pos), rounds - 1)]); }
  }

  lemma ArmedLater(iv: Intervals, p: seq<Event>, now: Time, later: Time)
    requires Armed(iv, p, now) && now <= later
    ensures Armed(iv, p, later)
  {
  }
}
