/**
 The law of a run of the timer queue, as plain values: what fires, in what order, and what callbacks add meanwhile.

 Callbacks are arbitrary: `callback(n, e, t)` is what the n-th firing, of event `e` at clock reading `t`, schedules.
 */
module Runs {
  import opened Events
  import opened StableQueue

  type Callback = (nat, Event, Time) -> seq<Event>

  /** The queue's own clock, which never moves: events before it are refused. */
  const CLOCK: Time := 0

  /** One firing and the clock reading its callback saw. */
  datatype Firing = Firing(event: Event, at: Time)

  /** What was ever fired, accepted and refused, what is in hand, and what is pending in firing order. */
  datatype Books = Books(fired: seq<Firing>, accepted: seq<Event>, rejected: seq<Event>, hand: seq<Event>,
                         pending: seq<Event>)

  ghost function Fired(fs: seq<Firing>): seq<Event> {
    seq(|fs|, i requires 0 <= i < |fs| => fs[i].event)
  }

  /** The events that `add_event` takes. */
  ghost function Accepted(xs: seq<Event>): seq<Event> {
    if xs == [] then []
    else Accepted(xs[..|xs| - 1]) + if CLOCK <= xs[|xs| - 1].ts then [xs[|xs| - 1]] else []
  }

  /** The events that `add_event` deletes. */
  ghost function Refused(xs: seq<Event>): seq<Event> {
    if xs == [] then []
    else Refused(xs[..|xs| - 1]) + if CLOCK <= xs[|xs| - 1].ts then [] else [xs[|xs| - 1]]
  }

  lemma AcceptedPush(xs: seq<Event>, x: Event)
    ensures Accepted(xs + [x]) == if CLOCK <= x.ts then Accepted(xs) + [x] else Accepted(xs)
    ensures Refused(xs + [x]) == if CLOCK <= x.ts then Refused(xs) else Refused(xs) + [x]
  {
    assert (xs + [x])[..|xs|] == xs;
    assert Accepted(xs) + [] == Accepted(xs) && Refused(xs) + [] == Refused(xs);
  }

  lemma MultisetAside(a: multiset<Event>, r: multiset<Event>, e: Event)
    ensures (a + multiset{e}) + r == (a + r) + multiset{e} == a + (r + multiset{e})
  {
  }

  /** What is accepted and what is refused is all there is. */
  lemma {:induction false} AcceptedOrRefused(xs: seq<Event>)
    ensures multiset(Accepted(xs)) + multiset(Refused(xs)) == multiset(xs)
  {
    if xs != [] {
      hide Accepted, Refused;
      var n := |xs| - 1;
      AcceptedOrRefused(xs[..n]);
      assert xs == xs[..n] + [xs[n]];
      OneMore(xs[..n], xs[n]);
    }
  }

  lemma OneMore(ys: seq<Event>, x: Event)
    requires multiset(Accepted(ys)) + multiset(Refused(ys)) == multiset(ys)
    ensures multiset(Accepted(ys + [x])) + multiset(Refused(ys + [x])) == multiset(ys + [x])
  {
    AcceptedPush(ys, x);
    hide Accepted, Refused;
    MultisetPush(ys, x);
    MultisetAside(multiset(Accepted(ys)), multiset(Refused(ys)), x);
    if CLOCK <= x.ts { MultisetPush(Accepted(ys), x); } else { MultisetPush(Refused(ys), x); }
  }

  /** Everything that a run of firings, the first of them number `n`, adds to the queue. */
  ghost function Spawned(callback: Callback, n: nat, fs: seq<Firing>): seq<Event>
    decreases |fs|
  {
    if fs == [] then []
    else Spawned(callback, n, fs[..|fs| - 1]) + AddedBy(callback, n, fs, |fs| - 1)
  }

  /** Everything that it tries to add in vain. */
  ghost function Declined(callback: Callback, n: nat, fs: seq<Firing>): seq<Event>
    decreases |fs|
  {
    if fs == [] then []
    else Declined(callback, n, fs[..|fs| - 1]) + Refused(callback(n + |fs| - 1, fs[|fs| - 1].event, fs[|fs| - 1].at))
  }

  /** What firing `i` of the run adds. */
  ghost function AddedBy(callback: Callback, n: nat, fs: seq<Firing>, i: nat): seq<Event>
    requires i < |fs|
  {
    Accepted(callback(n + i, fs[i].event, fs[i].at))
  }

  /** No firing of the run adds an event earlier than the one that fired. */
  ghost predicate Onward(callback: Callback, n: nat, fs: seq<Firing>) {
    forall i, j {:trigger AddedBy(callback, n, fs, i)[j]} ::
      0 <= i < |fs| && 0 <= j < |AddedBy(callback, n, fs, i)| ==> fs[i].event.ts <= AddedBy(callback, n, fs, i)[j].ts
  }

  /** What firing `i` adds fires later, is in hand or is pending. */
  ghost predicate Awaited(callback: Callback, n: nat, fs: seq<Firing>, hand: seq<Event>, pending: seq<Event>, i: nat)
    requires i < |fs|
  {
    multiset(AddedBy(callback, n, fs, i)) <= multiset(Fired(fs)[i + 1..]) + multiset(hand) + multiset(pending)
  }

  /**
   The law of a run that began with `p0` pending.  Always: nothing fired before its time; what was accepted and
   refused since is what the callbacks tried to add; what fired (`fs`, the first of them firing number `n`), what is
   in hand and what is pending hold `p0` and everything accepted, each timestamp first in first out.  And if no
   callback added anything earlier than the event it ran for, then all of it is one list in order of time.
   */
  ghost predicate Law(callback: Callback, n: nat, p0: seq<Event>, fs: seq<Firing>, accepted: seq<Event>,
                      rejected: seq<Event>, hand: seq<Event>, pending: seq<Event>, limit: Time)
  {
    && InOrder(p0) && InOrder(pending)
    && accepted == Spawned(callback, n, fs) && rejected == Declined(callback, n, fs)
    && (forall i :: 0 <= i < |fs| ==> CLOCK <= fs[i].at && fs[i].event.ts <= fs[i].at <= limit)
    && (forall i :: 0 <= i < |hand| ==> hand[i].ts == hand[0].ts <= limit)
    && Fair((Fired(fs) + hand) + pending, p0 + accepted)
    && (forall i :: 0 <= i < |fs| ==> Awaited(callback, n, fs, hand, pending, i))
    && (Onward(callback, n, fs) ==> (Fired(fs) + hand) + pending == ScheduleAll(p0, accepted))
  }

  lemma FiredStep(callback: Callback, n: nat, fs: seq<Firing>, e: Event, t: Time)
    ensures var fs' := fs + [Firing(e, t)];
            && Fired(fs') == Fired(fs) + [e]
            && Spawned(callback, n, fs') == Spawned(callback, n, fs) + Accepted(callback(n + |fs|, e, t))
            && Declined(callback, n, fs') == Declined(callback, n, fs) + Refused(callback(n + |fs|, e, t))
            && AddedBy(callback, n, fs', |fs|) == Accepted(callback(n + |fs|, e, t))
            && (forall i :: 0 <= i < |fs| ==> AddedBy(callback, n, fs', i) == AddedBy(callback, n, fs, i))
  {
    hide Accepted, Refused;
    assert (fs + [Firing(e, t)])[..|fs|] == fs;
  }

  lemma OnwardStep(callback: Callback, n: nat, fs: seq<Firing>, e: Event, t: Time)
    requires Onward(callback, n, fs + [Firing(e, t)])
    ensures Onward(callback, n, fs)
    ensures var xs := Accepted(callback(n + |fs|, e, t)); forall j :: 0 <= j < |xs| ==> e.ts <= xs[j].ts
  {
    hide Fired, Spawned, Declined;
    var fs' := fs + [Firing(e, t)];
    FiredStep(callback, n, fs, e, t);
    forall i, j | 0 <= i < |fs| && 0 <= j < |AddedBy(callback, n, fs, i)|
      ensures fs[i].event.ts <= AddedBy(callback, n, fs, i)[j].ts
    {
      assert fs'[i] == fs[i] && AddedBy(callback, n, fs', i)[j] == AddedBy(callback, n, fs, i)[j];
    }
    var xs := Accepted(callback(n + |fs|, e, t));
    forall j | 0 <= j < |xs| ensures e.ts <= xs[j].ts {
      assert fs'[|fs|].event == e && AddedBy(callback, n, fs', |fs|)[j] == xs[j];
    }
  }

  /** In order of time, what is in hand is not earlier than anything that fired. */
  lemma GoneBefore(f: seq<Event>, h: seq<Event>, p: seq<Event>, t: Time)
    requires InOrder((f + h) + p) && h != [] && h[0].ts == t && forall i :: 0 <= i < |h| ==> h[i].ts == h[0].ts
    ensures forall i :: 0 <= i < |f + h| ==> (f + h)[i].ts <= t
  {
    var all := (f + h) + p;
    forall i | 0 <= i < |f + h| ensures (f + h)[i].ts <= t {
      assert all[i] == (f + h)[i] && all[|f|] == h[0];
    }
  }

  lemma AwaitedStep(callback: Callback, n: nat, fs: seq<Firing>, hand: seq<Event>, pending: seq<Event>, t: Time)
    requires hand != [] && InOrder(pending) && forall i :: 0 <= i < |fs| ==> Awaited(callback, n, fs, hand, pending, i)
    ensures var fs' := fs + [Firing(hand[0], t)];
            var xs := Accepted(callback(n + |fs|, hand[0], t));
            forall i :: 0 <= i < |fs'| ==> Awaited(callback, n, fs', hand[1..], ScheduleAll(pending, xs), i)
  {
    hide ScheduleAll, Spawned, Declined, Fired, AddedBy, Accepted, InOrder;
    var fs' := fs + [Firing(hand[0], t)];
    var xs := Accepted(callback(n + |fs|, hand[0], t));
    FiredStep(callback, n, fs, hand[0], t);
    ScheduleAllInOrder(pending, xs);
    assert hand == [hand[0]] + hand[1..];
    forall i | 0 <= i < |fs'| ensures Awaited(callback, n, fs', hand[1..], ScheduleAll(pending, xs), i) {
      if i < |fs| {
        assert Awaited(callback, n, fs, hand, pending, i);
        FiredLength(fs);
        assert Fired(fs')[i + 1..] == Fired(fs)[i + 1..] + [hand[0]];
      }
    }
  }

  lemma FiredLength(fs: seq<Firing>)
    ensures |Fired(fs)| == |fs|
  {
  }

  /** Firing the next event in hand keeps the law, whatever its callback does. */
  lemma LawStep(callback: Callback, n: nat, p0: seq<Event>, fs: seq<Firing>, accepted: seq<Event>,
                rejected: seq<Event>, hand: seq<Event>, pending: seq<Event>, limit: Time, t: Time)
    requires Law(callback, n, p0, fs, accepted, rejected, hand, pending, limit)
    requires hand != [] && limit <= t && CLOCK <= t
    ensures var xs := callback(n + |fs|, hand[0], t);
            Law(callback, n, p0, fs + [Firing(hand[0], t)], accepted + Accepted(xs), rejected + Refused(xs), hand[1..],
                ScheduleAll(pending, Accepted(xs)), t)
  {
    hide ScheduleAll, InOrder, Spawned, Declined, Fired, Fair, Onward, Awaited, Accepted, Refused;
    var xs := callback(n + |fs|, hand[0], t);
    var ys := Accepted(xs);
    var fs' := fs + [Firing(hand[0], t)];
    FiredStep(callback, n, fs, hand[0], t);
    ScheduleAllInOrder(pending, ys);
    assert (Fired(fs) + [hand[0]]) + hand[1..] == Fired(fs) + hand;
    FairSchedule(Fired(fs) + hand, pending, p0 + accepted, ys);
    assert (p0 + accepted) + ys == p0 + (accepted + ys);
    AwaitedStep(callback, n, fs, hand, pending, t);
    forall i | 0 <= i < |fs'| ensures CLOCK <= fs'[i].at && fs'[i].event.ts <= fs'[i].at <= t {
      if i < |fs| { assert fs'[i] == fs[i]; }
    }
    if Onward(callback, n, fs') {
      OnwardStep(callback, n, fs, hand[0], t);
      ScheduleAllInOrder(p0, accepted);
      GoneBefore(Fired(fs), hand, pending, hand[0].ts);
      FireStep(p0, accepted, Fired(fs), hand, pending, ys);
    }
  }

  // ---------- What holds at all times ----------

  /**
   Every accepted event has fired, is in hand or is pending, exactly once and each timestamp first in first out;
   nothing fired before its time; and the clock tells the accepted from the refused.
   */
  ghost predicate Kept(b: Books) {
    && Fair((Fired(b.fired) + b.hand) + b.pending, b.accepted)
    && (forall i :: 0 <= i < |b.fired| ==> b.fired[i].event.ts <= b.fired[i].at)
    && (forall i :: 0 <= i < |b.accepted| ==> CLOCK <= b.accepted[i].ts)
    && (forall i :: 0 <= i < |b.rejected| ==> b.rejected[i].ts < CLOCK)
  }

  lemma KeptAdd(b: Books, e: Event)
    requires Kept(b) && InOrder(b.pending) && CLOCK <= e.ts
    ensures Kept(b.(accepted := b.accepted + [e], pending := Schedule(b.pending, e)))
  {
    hide Fair, InOrder, Fired, Schedule;
    FairSchedule(Fired(b.fired) + b.hand, b.pending, b.accepted, [e]);
    ScheduleOne(b.pending, e);
  }

  lemma ScheduleOne(p: seq<Event>, e: Event)
    ensures ScheduleAll(p, [e]) == Schedule(p, e)
  {
    assert [e][..0] == [];
    assert ScheduleAll(p, []) == p;
  }

  lemma KeptRefuse(b: Books, e: Event)
    requires Kept(b) && e.ts < CLOCK
    ensures Kept(b.(rejected := b.rejected + [e]))
  {
    hide Fair, Fired;
  }

  lemma KeptTake(b: Books, taken: seq<Event>, rest: seq<Event>)
    requires Kept(b) && b.hand == [] && b.pending == taken + rest
    ensures Kept(b.(hand := taken, pending := rest))
  {
    hide Fair;
    assert (Fired(b.fired) + []) + (taken + rest) == (Fired(b.fired) + taken) + rest;
  }

  lemma KeptFire(b: Books, t: Time)
    requires Kept(b) && b.hand != [] && b.hand[0].ts <= t
    ensures Kept(b.(fired := b.fired + [Firing(b.hand[0], t)], hand := b.hand[1..]))
  {
    hide Fair;
    assert Fired(b.fired + [Firing(b.hand[0], t)]) == Fired(b.fired) + [b.hand[0]];
    assert (Fired(b.fired) + [b.hand[0]]) + b.hand[1..] == Fired(b.fired) + b.hand;
  }

  /** Nothing that is pending lies before the clock. */
  lemma KeptPending(b: Books)
    requires Kept(b)
    ensures b.pending != [] ==> CLOCK <= b.pending[|b.pending| - 1].ts
  {
    hide Fair, Fired;
    if b.pending != [] {
      FairIsMultiset((Fired(b.fired) + b.hand) + b.pending, b.accepted);
      var e := b.pending[|b.pending| - 1];
      assert e in multiset(b.pending) && e in multiset(b.accepted);
      var i :| 0 <= i < |b.accepted| && b.accepted[i] == e;
    }
  }

  /** Adding `xs` one after the other, step by step. */
  lemma AddStep(p: seq<Event>, a: seq<Event>, r: seq<Event>, xs: seq<Event>, x: Event)
    ensures CLOCK <= x.ts ==>
              && ScheduleAll(p, Accepted(xs + [x])) == Schedule(ScheduleAll(p, Accepted(xs)), x)
              && a + Accepted(xs + [x]) == (a + Accepted(xs)) + [x] && Refused(xs + [x]) == Refused(xs)
    ensures x.ts < CLOCK ==>
              Accepted(xs + [x]) == Accepted(xs) && r + Refused(xs + [x]) == (r + Refused(xs)) + [x]
  {
    AcceptedPush(xs, x);
    assert (Accepted(xs) + [x])[..|Accepted(xs)|] == Accepted(xs);
  }

  lemma AddNone(p: seq<Event>, a: seq<Event>, r: seq<Event>)
    ensures ScheduleAll(p, Accepted([])) == p && a + Accepted([]) == a && r + Refused([]) == r
  {
  }

  // ---------- Since the beginning of a run ----------

  /** `Law` of everything since the books were `b0`. */
  ghost predicate Since(callback: Callback, b0: Books, b: Books, limit: Time) {
    && b0.fired <= b.fired && b0.accepted <= b.accepted && b0.rejected <= b.rejected
    && Law(callback, |b0.fired|, b0.pending, b.fired[|b0.fired|..], b.accepted[|b0.accepted|..],
           b.rejected[|b0.rejected|..], b.hand, b.pending, limit)
  }

  /** The books after the next event in hand fired at `t`. */
  ghost function AfterFiring(callback: Callback, b: Books, t: Time): Books
    requires b.hand != []
  {
    var xs := callback(|b.fired|, b.hand[0], t);
    Books(b.fired + [Firing(b.hand[0], t)], b.accepted + Accepted(xs), b.rejected + Refused(xs), b.hand[1..],
          ScheduleAll(b.pending, Accepted(xs)))
  }

  lemma SinceStep(callback: Callback, b0: Books, b: Books, limit: Time, t: Time)
    requires Since(callback, b0, b, limit) && b.hand != [] && limit <= t && CLOCK <= t
    ensures Since(callback, b0, AfterFiring(callback, b, t), t)
  {
    hide Law, ScheduleAll, Accepted, Refused;
    var xs := callback(|b.fired|, b.hand[0], t);
    var f, a, r := |b0.fired|, |b0.accepted|, |b0.rejected|;
    LawStep(callback, f, b0.pending, b.fired[f..], b.accepted[a..], b.rejected[r..], b.hand, b.pending, limit, t);
    assert (b.fired + [Firing(b.hand[0], t)])[f..] == b.fired[f..] + [Firing(b.hand[0], t)];
    assert (b.accepted + Accepted(xs))[a..] == b.accepted[a..] + Accepted(xs);
    assert (b.rejected + Refused(xs))[r..] == b.rejected[r..] + Refused(xs);
  }

  /** What is in hand is due. */
  lemma SinceHand(callback: Callback, b0: Books, b: Books, limit: Time)
    requires Since(callback, b0, b, limit)
    ensures forall i :: 0 <= i < |b.hand| ==> b.hand[i].ts <= limit
  {
  }

  lemma SinceStart(callback: Callback, b: Books, limit: Time)
    requires InOrder(b.pending) && b.hand == []
    ensures Since(callback, b, b, limit)
  {
    assert (Fired([]) + []) + b.pending == b.pending == b.pending + [];
  }

  /** Taking events of one timestamp from the front of the list into hand. */
  lemma SinceTake(callback: Callback, b0: Books, b: Books, taken: seq<Event>, rest: seq<Event>, limit: Time)
    requires Since(callback, b0, b, limit) && b.hand == [] && b.pending == taken + rest
    requires forall i :: 0 <= i < |taken| ==> taken[i].ts == taken[0].ts <= limit
    ensures Since(callback, b0, b.(hand := taken, pending := rest), limit)
  {
    hide ScheduleAll, Spawned, Declined, Fair, Onward, Fired;
    var fs := b.fired[|b0.fired|..];
    assert (Fired(fs) + []) + (taken + rest) == (Fired(fs) + taken) + rest;
    assert InOrder(rest) by { RestInOrder(taken, rest); }
    forall i | 0 <= i < |fs| ensures Awaited(callback, |b0.fired|, fs, taken, rest, i) {
      assert Awaited(callback, |b0.fired|, fs, [], taken + rest, i);
    }
  }

  lemma RestInOrder(a: seq<Event>, b: seq<Event>)
    requires InOrder(a + b)
    ensures InOrder(b)
  {
    forall i, j | 0 <= i < j < |b| ensures b[i].ts <= b[j].ts {
      assert (a + b)[|a| + i] == b[i] && (a + b)[|a| + j] == b[j];
    }
  }

  lemma SinceLater(callback: Callback, b0: Books, b: Books, limit: Time, limit': Time)
    requires Since(callback, b0, b, limit) && limit <= limit'
    ensures Since(callback, b0, b, limit')
  {
    hide ScheduleAll, Spawned, Declined, Fair, Onward, Fired, InOrder, Awaited;
  }

  // ---------- What a run that is over amounts to ----------

  /**
   For all callbacks, a run that is over has fired exactly the events due by `limit`, among the old ones and those
   accepted meanwhile, each once, none before its time, and each timestamp first in first out.
   */
  lemma RunFiresWhatIsDue(callback: Callback, n: nat, p0: seq<Event>, fs: seq<Firing>, accepted: seq<Event>,
                          rejected: seq<Event>, pending: seq<Event>, limit: Time)
    requires Law(callback, n, p0, fs, accepted, rejected, [], pending, limit)
    requires forall i :: 0 <= i < |pending| ==> limit < pending[i].ts
    ensures multiset(Fired(fs)) + multiset(pending) == multiset(p0) + multiset(accepted)
    ensures forall i :: 0 <= i < |fs| ==> fs[i].event.ts <= fs[i].at <= limit
    ensures forall t {:trigger OnlyAt(accepted, t)} :: t <= limit ==>
              OnlyAt(Fired(fs), t) == OnlyAt(p0, t) + OnlyAt(accepted, t)
  {
    hide ScheduleAll, OnlyAt, Spawned, Declined, Onward, Awaited;
    assert (Fired(fs) + []) + pending == Fired(fs) + pending;
    FairIsMultiset(Fired(fs) + pending, p0 + accepted);
    forall t | t <= limit ensures OnlyAt(Fired(fs), t) == OnlyAt(p0, t) + OnlyAt(accepted, t) {
      assert OnlyAt(Fired(fs) + pending, t) == OnlyAt(p0 + accepted, t);
      OnlyAtConcat(p0, accepted, t);
      OnlyAtConcat(Fired(fs), pending, t);
      OnlyAtNone(pending, t);
    }
  }

  /**
   A run fires in order of time if and only if no callback of it added an event earlier than the one it ran for; it
   has then fired the due front of one stably sorted list.
   */
  lemma RunInOrderIff(callback: Callback, n: nat, p0: seq<Event>, fs: seq<Firing>, accepted: seq<Event>,
                      rejected: seq<Event>, pending: seq<Event>, limit: Time)
    requires Law(callback, n, p0, fs, accepted, rejected, [], pending, limit)
    requires forall i :: 0 <= i < |pending| ==> limit < pending[i].ts
    ensures InOrder(Fired(fs)) <==> Onward(callback, n, fs)
    ensures Onward(callback, n, fs) ==>
              var all := ScheduleAll(p0, accepted);
              Fired(fs) == all[..UpTo(all, limit)] && pending == all[UpTo(all, limit)..]
  {
    hide ScheduleAll, UpTo, Spawned, Declined, Fair;
    if Onward(callback, n, fs) {
      var all := ScheduleAll(p0, accepted);
      assert (Fired(fs) + []) + pending == Fired(fs) + pending;
      ScheduleAllInOrder(p0, accepted);
      UpToSplit(Fired(fs), pending, limit);
      forall i, j | 0 <= i < j < |Fired(fs)| ensures Fired(fs)[i].ts <= Fired(fs)[j].ts {
        assert all[i] == Fired(fs)[i] && all[j] == Fired(fs)[j];
      }
    }
    if InOrder(Fired(fs)) {
      forall i, j | 0 <= i < |fs| && 0 <= j < |AddedBy(callback, n, fs, i)|
        ensures fs[i].event.ts <= AddedBy(callback, n, fs, i)[j].ts
      {
        FiresAfter(callback, n, fs, pending, limit, i, AddedBy(callback, n, fs, i)[j]);
      }
    }
  }

  /** What a firing adds is not earlier than what fired, if it fires later in order or waits beyond the limit. */
  lemma FiresAfter(callback: Callback, n: nat, fs: seq<Firing>, pending: seq<Event>, limit: Time, i: nat, x: Event)
    requires i < |fs| && x in AddedBy(callback, n, fs, i) && Awaited(callback, n, fs, [], pending, i)
    requires InOrder(Fired(fs)) && fs[i].event.ts <= limit
    requires forall k :: 0 <= k < |pending| ==> limit < pending[k].ts
    ensures fs[i].event.ts <= x.ts
  {
    var later := Fired(fs)[i + 1..];
    assert x in multiset(AddedBy(callback, n, fs, i));
    assert x in later || x in pending;
    if x in later {
      var k :| 0 <= k < |later| && later[k] == x;
      assert Fired(fs)[i].ts <= Fired(fs)[i + 1 + k].ts;
    } else {
      var k :| 0 <= k < |pending| && pending[k] == x;
    }
  }

  // ---------- A clock that stands still ----------

  ghost function ByThen(t: Time): Event -> bool {
    (e: Event) => e.ts <= t
  }

  /** At reading `now` no callback adds anything that is due. */
  ghost predicate Quiet(callback: Callback, now: Time) {
    forall n, e, j {:trigger Accepted(callback(n, e, now))[j]} ::
      0 <= j < |Accepted(callback(n, e, now))| ==> now < Accepted(callback(n, e, now))[j].ts
  }

  /** At reading `now` an event of the kind `f` that fires adds one of that kind. */
  ghost predicate Perpetual(callback: Callback, f: Event -> bool, now: Time) {
    forall n, e {:trigger callback(n, e, now)} :: f(e) ==> 1 <= CountIf(Accepted(callback(n, e, now)), f)
  }

  /** Quiet callbacks leave the number of due events alone, the measure by which a run ends. */
  lemma QuietStep(callback: Callback, n: nat, e: Event, now: Time, pending: seq<Event>)
    requires Quiet(callback, now)
    ensures CountIf(ScheduleAll(pending, Accepted(callback(n, e, now))), ByThen(now)) == CountIf(pending, ByThen(now))
  {
    hide ScheduleAll, Accepted;
    var xs := Accepted(callback(n, e, now));
    CountScheduleAll(pending, xs, ByThen(now));
    CountNone(xs, ByThen(now));
  }

  /** Perpetual events never get fewer. */
  lemma PerpetualStep(callback: Callback, f: Event -> bool, n: nat, hand: seq<Event>, now: Time, pending: seq<Event>)
    requires Perpetual(callback, f, now) && hand != []
    ensures var xs := Accepted(callback(n, hand[0], now));
            CountIf(hand, f) + CountIf(pending, f) <= CountIf(hand[1..], f) + CountIf(ScheduleAll(pending, xs), f)
  {
    hide ScheduleAll, Accepted;
    var xs := Accepted(callback(n, hand[0], now));
    CountScheduleAll(pending, xs, f);
    assert hand == [hand[0]] + hand[1..];
    CountConcat([hand[0]], hand[1..], f);
    assert [hand[0]][..0] == [];
  }

  /**
   What happened between two states of the books while the clock stood at `now`: quiet callbacks left the number of
   due pending events alone, and of events that are perpetual there are not fewer.
   */
  ghost predicate Still(callback: Callback, f: Event -> bool, now: Time, b: Books, b': Books) {
    && (Quiet(callback, now) ==> CountIf(b'.pending, ByThen(now)) == CountIf(b.pending, ByThen(now)))
    && (Perpetual(callback, f, now) ==>
          CountIf(b.hand, f) + CountIf(b.pending, f) <= CountIf(b'.hand, f) + CountIf(b'.pending, f))
  }

  lemma StillSame(callback: Callback, f: Event -> bool, now: Time, b: Books)
    ensures Still(callback, f, now, b, b)
  {
  }

  lemma StillTrans(callback: Callback, f: Event -> bool, now: Time, b: Books, b': Books, b'': Books)
    requires Still(callback, f, now, b, b') && Still(callback, f, now, b', b'')
    ensures Still(callback, f, now, b, b'')
  {
  }

  lemma StillStep(callback: Callback, f: Event -> bool, b: Books, now: Time)
    requires b.hand != []
    ensures Still(callback, f, now, b, AfterFiring(callback, b, now))
  {
    hide ScheduleAll, Accepted, CountIf, Quiet, Perpetual;
    if Quiet(callback, now) { QuietStep(callback, |b.fired|, b.hand[0], now, b.pending); }
    if Perpetual(callback, f, now) { PerpetualStep(callback, f, |b.fired|, b.hand, now, b.pending); }
  }
}
