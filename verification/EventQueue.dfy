/** The timer queue: buckets of events in a skip list, and the loop that fires what is due. */
module EventQueues {
  import opened Events
  import opened Clocks
  import opened Chains
  import opened Runs
  import opened SkipLists
  import opened StableQueue

  /** The entry of timestamp `k` holds bucket `k`. */
  ghost predicate Holds(q: SkipList, b: Buckets, k: Time)
    reads q, q.Repr
  {
    k in q.node && q.node[k] in q.Repr && k in b && q.node[k].events == b[k]
  }

  /** `b` is what the entries of the skip list hold. */
  ghost predicate Mirrored(q: SkipList, b: Buckets)
    reads q, q.Repr
  {
    && q.Valid()
    && b.Keys == q.node.Keys
    && forall k {:trigger Holds(q, b, k)} :: k in b ==> Holds(q, b, k)
  }

  class EventQueue {
    const queue: SkipList
    const clock: Time := CLOCK
    const callback: Callback
    /** What was ever accepted, refused and fired, in order. */
    ghost var accepted: seq<Event>
    ghost var rejected: seq<Event>
    var fired: seq<Firing>
    ghost var buckets: Buckets
    /** The pending events, in the order in which they will fire. */
    ghost var pending: seq<Event>
    /** Events taken off the queue by `Run` and not fired yet. */
    ghost var inHand: seq<Event>

    /** The buckets stand for the flat list `pending`. */
    ghost predicate Stored()
      reads this, queue, queue.Repr
    {
      && Mirrored(queue, buckets)
      && Listed(queue.Keys(), buckets, pending)
    }

    /** Everything that happened so far. */
    ghost function State(): Books
      reads this
    {
      Books(fired, accepted, rejected, inHand, pending)
    }

    /**
     For all callbacks and at all times: what was accepted has fired, is in hand or is pending, each event exactly
     once and each timestamp first in first out; nothing fired before its time; what was refused lies before the
     queue's clock and what was accepted does not.
     */
    ghost predicate Valid()
      reads this, queue, queue.Repr
    {
      Stored() && Kept(State())
    }

    /** The same in terms of multisets: accepted = fired + in hand + pending. */
    lemma NothingLost()
      requires Valid()
      ensures multiset(accepted) == multiset(Fired(fired)) + multiset(inHand) + multiset(pending)
    {
      hide SkipList.Valid, SkipList.Keys, Mirrored, Listed, Fair;
      FairIsMultiset((Fired(fired) + inHand) + pending, accepted);
    }

    constructor (maxLevs: nat, callback: Callback)
      requires 1 <= maxLevs
      ensures Valid() && pending == [] && accepted == rejected == inHand == [] && fired == []
      ensures this.callback == callback
      ensures fresh(queue) && fresh(queue.Repr)
    {
      queue := new SkipList(maxLevs);
      this.callback := callback;
      accepted, rejected, fired, inHand, pending, buckets := [], [], [], [], [], map[];
    }

    /** The bucket for timestamp `ts`, created when there is none. */
    method FindBucket(ts: Time) returns (etr: Entry)
      requires Mirrored(queue, buckets)
      modifies this`buckets, queue, queue.Repr
      ensures Mirrored(queue, buckets) && fresh(queue.Repr - old(queue.Repr))
      ensures etr in queue.Repr && etr.ts == ts && ts in buckets && etr.events == buckets[ts]
      ensures queue.Keys() == if ts in old(buckets) then old(queue.Keys()) else InsertKey(old(queue.Keys()), ts)
      ensures buckets == if ts in old(buckets) then old(buckets) else old(buckets)[ts := []]
    {
      hide SkipList.Valid, SkipList.Keys;
      var found := queue.Search(ts);
      if found == null {
        etr := new Entry(ts, seq(queue.maxLevs, _ => null));
        var ok := queue.Insert(etr);
        assert ok;
        buckets := buckets[ts := []];
        forall k | k in buckets ensures Holds(queue, buckets, k) {
          assert k != ts ==> old(Holds(queue, buckets, k));
        }
      } else {
        etr := found;
        queue.NodeFacts();
        assert Holds(queue, buckets, ts);
      }
    }

    /** Appends `e` to a bucket. */
    method PushBack(etr: Entry, e: Event)
      requires Mirrored(queue, buckets) && etr in queue.Repr && etr.ts in buckets
      modifies this`buckets, etr`events
      ensures Mirrored(queue, buckets) && queue.Keys() == old(queue.Keys())
      ensures buckets == old(buckets)[etr.ts := old(buckets)[etr.ts] + [e]]
    {
      hide SkipList.Valid, SkipList.Keys;
      queue.NodeFacts();
      assert Holds(queue, buckets, etr.ts) && queue.node[etr.ts] == etr;
      etr.events := etr.events + [e];
      buckets := buckets[etr.ts := etr.events];
      forall k | k in buckets ensures Holds(queue, buckets, k) {
        assert old(Holds(queue, buckets, k));
        assert k != etr.ts ==> queue.node[k] != etr;
      }
    }

    /** Puts `e` into the bucket of its timestamp. */
    method Enqueue(e: Event)
      requires Mirrored(queue, buckets)
      modifies this`buckets, queue, queue.Repr
      ensures Mirrored(queue, buckets) && fresh(queue.Repr - old(queue.Repr))
      ensures queue.Keys() == if e.ts in old(buckets) then old(queue.Keys()) else InsertKey(old(queue.Keys()), e.ts)
      ensures buckets == StableQueue.AddEvent(old(buckets), e)
    {
      hide SkipList.Valid, SkipList.Keys, Mirrored;
      ghost var before := buckets;
      var etr := FindBucket(e.ts);
      PushBack(etr, e);
      assert before[e.ts := []][e.ts := [e]] == before[e.ts := [e]];
    }

    /** Puts `e` into the bucket of its timestamp, which is scheduling it. */
    method Put(e: Event)
      requires Stored()
      modifies this`buckets, this`pending, queue, queue.Repr
      ensures Stored() && fresh(queue.Repr - old(queue.Repr))
      ensures pending == Schedule(old(pending), e)
    {
      hide SkipList.Valid, SkipList.Keys, Listed;
      AddListed(queue.Keys(), buckets, pending, e);
      pending := Schedule(pending, e);
      Enqueue(e);
    }

    /** The head of the skip list has the timestamp of the first pending event. */
    lemma HeadFirst()
      requires Stored()
      ensures InOrder(pending)
      ensures if queue.head == null then pending == [] else pending != [] && pending[0].ts == queue.head.ts
    {
      hide SkipList.Valid, SkipList.Keys;
      queue.KeyFacts(0);
      FlatInOrder(queue.Keys(), buckets);
      if queue.head != null { FirstListed(queue.Keys(), buckets, pending); }
    }

    /** The tail has the timestamp of the last pending event. */
    lemma TailLast()
      requires Stored()
      ensures InOrder(pending)
      ensures if queue.tail == null then pending == [] else pending != [] && pending[|pending| - 1].ts == queue.tail.ts
    {
      hide SkipList.Valid, SkipList.Keys;
      queue.KeyFacts(0);
      FlatInOrder(queue.Keys(), buckets);
      if queue.tail != null { LastListed(queue.Keys(), buckets, pending); }
    }

    method AddEvent(e: Event)
      requires Valid()
      modifies this, queue, queue.Repr
      ensures Valid() && fresh(queue.Repr - old(queue.Repr)) && fired == old(fired) && inHand == old(inHand)
      ensures e.ts < clock ==> pending == old(pending) && accepted == old(accepted) && rejected == old(rejected) + [e]
      ensures clock <= e.ts ==>
                pending == Schedule(old(pending), e) && accepted == old(accepted) + [e] && rejected == old(rejected)
    {
      hide SkipList.Valid, SkipList.Keys, Mirrored, Listed, Kept, Schedule;
      if e.ts < clock {
        KeptRefuse(State(), e);
        rejected := rejected + [e];
        return;
      }
      HeadFirst();
      KeptAdd(State(), e);
      Put(e);
      accepted := accepted + [e];
    }

    /** Puts `e` one second behind everything that is pending. */
    method AppendEvent(e: Event) returns (ghost appended: Event)
      requires Valid()
      modifies this, queue, queue.Repr
      ensures Valid() && fresh(queue.Repr - old(queue.Repr)) && fired == old(fired) && inHand == old(inHand)
      ensures appended == e.(ts := if old(pending) == [] then clock + 1 else old(pending)[|old(pending)| - 1].ts + 1)
      ensures pending == old(pending) + [appended]
      ensures accepted == old(accepted) + [appended] && rejected == old(rejected)
    {
      hide SkipList.Valid, SkipList.Keys, Mirrored, Listed;
      var etr := queue.tail;
      TailLast();
      var ts := if etr != null then etr.ts + 1 else clock + 1;
      appended := e.(ts := ts);
      ScheduleLast(pending, appended);
      KeptPending(State());
      AddEvent(e.(ts := ts));
    }

    /** How long the proxy may sleep: 60 seconds when nothing is pending, else until the first event is due. */
    method GetIdleTime(time: Clock) returns (idle: Time)
      requires Valid() && time.Valid()
      modifies time
      ensures time.Valid() && old(time.last) <= time.last && old(time.pos) <= time.pos
      ensures pending == [] ==> idle == 60
      ensures pending != [] ==> idle >= 0 && (idle == 0 <==> pending[0].ts <= time.last)
      ensures pending != [] && idle > 0 ==>
                && pending[0].ts == time.last + idle
                && forall i :: 0 <= i < |pending| ==> time.last + idle <= pending[i].ts
    {
      hide SkipList.Valid, SkipList.Keys, Mirrored, Listed, Kept;
      HeadFirst();
      var etr := queue.head;
      if etr == null { return 60; }
      var now := time.Now();
      var t := etr.ts - now;
      idle := if t > 0 then t else 0;
    }

    /** Adds the events of `xs` one after the other. */
    method AddAll(xs: seq<Event>)
      requires Valid()
      modifies this, queue, queue.Repr
      ensures Valid() && fresh(queue.Repr - old(queue.Repr)) && fired == old(fired) && inHand == old(inHand)
      ensures pending == ScheduleAll(old(pending), Accepted(xs))
      ensures accepted == old(accepted) + Accepted(xs) && rejected == old(rejected) + Refused(xs)
    {
      hide SkipList.Valid, SkipList.Keys, Mirrored, Listed, Kept, Accepted, Refused, ScheduleAll, Schedule;
      ghost var p, a, r := pending, accepted, rejected;
      AddNone(p, a, r);
      var i := 0;
      while i < |xs|
        invariant 0 <= i <= |xs|
        invariant Valid() && fresh(queue.Repr - old(queue.Repr)) && fired == old(fired) && inHand == old(inHand)
        invariant pending == ScheduleAll(p, Accepted(xs[..i]))
        invariant accepted == a + Accepted(xs[..i]) && rejected == r + Refused(xs[..i])
      {
        assert xs[..i + 1] == xs[..i] + [xs[i]];
        AddStep(p, a, r, xs[..i], xs[i]);
        AddEvent(xs[i]);
        i := i + 1;
      }
      assert xs[..i] == xs;
    }

    /** Fires one event that was taken off the queue: its callback, which may do anything, reads the clock and adds. */
    method Fire(e: Event, time: Clock)
      requires Valid() && time.Valid()
      requires inHand != [] && inHand[0] == e && e.ts <= time.last
      modifies this, queue, queue.Repr, time
      ensures Valid() && fresh(queue.Repr - old(queue.Repr))
      ensures time.Valid() && old(time.last) <= time.last && old(time.pos) <= time.pos
      ensures CLOCK <= time.last && (old(time.pos) + 1 == |time.readings| ==> time.last == time.Final())
      ensures State() == AfterFiring(callback, old(State()), time.last)
      ensures var xs := callback(|old(fired)|, e, time.last);
              && fired == old(fired) + [Firing(e, time.last)] && inHand == old(inHand)[1..]
              && pending == ScheduleAll(old(pending), Accepted(xs))
              && accepted == old(accepted) + Accepted(xs) && rejected == old(rejected) + Refused(xs)
    {
      hide SkipList.Valid, SkipList.Keys, Mirrored, Listed, Kept, Accepted, Refused, ScheduleAll;
      var t := time.Now();
      var xs := callback(|fired|, e, t);
      AddAll(xs);
      KeptFire(State(), t);
      fired, inHand := fired + [Firing(e, t)], inHand[1..];
    }

    /** Takes the first bucket off the queue. */
    method TakeFirst(etr: Entry)
      requires Stored() && queue.head == etr
      modifies this`buckets, this`pending, queue, queue.Repr`forward, queue.Repr`previous
      ensures Stored() && queue.Repr == old(queue.Repr) - {etr} && etr in old(queue.Repr)
      ensures etr.events != [] && forall i :: 0 <= i < |etr.events| ==> etr.events[i].ts == etr.ts
      ensures old(pending) == etr.events + pending
    {
      hide SkipList.Valid, SkipList.Keys, Listed;
      queue.NodeFacts();
      queue.KeyFacts(etr.ts);
      assert Holds(queue, buckets, etr.ts);
      FirstListed(queue.Keys(), buckets, pending);
      buckets := buckets - {etr.ts};
      pending := pending[|etr.events|..];
      var e := queue.Remove(etr.ts);
      forall k | k in buckets ensures Holds(queue, buckets, k) {
        assert old(Holds(queue, buckets, k));
      }
    }

    /** Fires the next event in hand within a run that began with the books at `b0`. */
    method FireNext(e: Event, time: Clock, ghost b0: Books, ghost f: Event -> bool)
      requires Valid() && time.Valid()
      requires inHand != [] && inHand[0] == e && Since(callback, b0, State(), time.last)
      modifies this, queue, queue.Repr, time
      ensures Valid() && fresh(queue.Repr - old(queue.Repr))
      ensures inHand == old(inHand)[1..] && |fired| == |old(fired)| + 1
      ensures time.Valid() && old(time.last) <= time.last && old(time.pos) <= time.pos
      ensures Since(callback, b0, State(), time.last)
      ensures old(time.pos) + 1 == |time.readings| ==> Still(callback, f, time.Final(), old(State()), State())
    {
      hide SkipList.Valid, SkipList.Keys, Mirrored, Listed, Kept, Since, Accepted, Refused, ScheduleAll, Still;
      ghost var b, limit := State(), time.last;
      SinceHand(callback, b0, b, limit);
      Fire(e, time);
      SinceStep(callback, b0, b, limit, time.last);
      StillStep(callback, f, b, time.last);
    }

    /** Takes the first bucket, which is due by `limit`, into hand. */
    method TakeDue(etr: Entry, ghost b0: Books, ghost limit: Time)
      requires Valid() && queue.head == etr && inHand == [] && etr.ts <= limit && Since(callback, b0, State(), limit)
      modifies this`buckets, this`pending, this`inHand, queue, queue.Repr`forward, queue.Repr`previous
      ensures Valid() && queue.Repr == old(queue.Repr) - {etr} && inHand == etr.events && etr.events != []
      ensures Since(callback, b0, State(), limit)
      ensures old(pending) == inHand + pending
      ensures forall i :: 0 <= i < |inHand| ==> inHand[i].ts <= limit
    {
      hide SkipList.Valid, SkipList.Keys, Mirrored, Listed, Since, Fair;
      ghost var b := State();
      TakeFirst(etr);
      SinceTake(callback, b0, b, etr.events, pending, limit);
      KeptTake(b, etr.events, pending);
      inHand := etr.events;
    }

    /** Fires every event of a bucket that was taken off the queue, in order. */
    method FireAll(etr: Entry, time: Clock, ghost b0: Books, ghost f: Event -> bool)
      requires Valid() && time.Valid()
      requires etr !in queue.Repr && inHand == etr.events && Since(callback, b0, State(), time.last)
      modifies this, queue, queue.Repr, time
      ensures Valid() && fresh(queue.Repr - old(queue.Repr)) && inHand == [] && |fired| == |old(fired)| + |old(inHand)|
      ensures time.Valid() && old(time.last) <= time.last && old(time.pos) <= time.pos
      ensures Since(callback, b0, State(), time.last)
      ensures old(time.pos) + 1 == |time.readings| ==> Still(callback, f, time.Final(), old(State()), State())
    {
      hide SkipList.Valid, SkipList.Keys, Mirrored, Listed, Kept, Since, Still;
      StillSame(callback, f, time.Final(), State());
      var i := 0;
      while i < |etr.events|
        invariant 0 <= i <= |etr.events| && etr.events == old(etr.events)
        invariant Valid() && fresh(queue.Repr - old(queue.Repr))
        invariant inHand == etr.events[i..] && |fired| == |old(fired)| + i
        invariant time.Valid() && old(time.last) <= time.last && old(time.pos) <= time.pos
        invariant Since(callback, b0, State(), time.last)
        invariant old(time.pos) + 1 == |time.readings| ==> Still(callback, f, time.Final(), old(State()), State())
      {
        ghost var b := State();
        FireNext(etr.events[i], time, b0, f);
        if old(time.pos) + 1 == |time.readings| { StillTrans(callback, f, time.Final(), old(State()), b, State()); }
        i := i + 1;
      }
    }

    /** One turn of the loop: the first bucket, which is due, is taken off and fired. */
    method RunBucket(etr: Entry, time: Clock, ghost b0: Books, ghost f: Event -> bool)
      requires Valid() && time.Valid()
      requires queue.head == etr && inHand == [] && etr.ts <= time.last && Since(callback, b0, State(), time.last)
      modifies this, queue, queue.Repr, time
      ensures Valid() && fresh(queue.Repr - old(queue.Repr)) && inHand == [] && |fired| > |old(fired)|
      ensures time.Valid() && old(time.last) <= time.last && old(time.pos) <= time.pos
      ensures Since(callback, b0, State(), time.last)
      ensures old(time.pos) + 1 == |time.readings| && Quiet(callback, time.Final()) ==>
                CountIf(pending, ByThen(time.Final())) < CountIf(old(pending), ByThen(time.Final()))
      ensures old(time.pos) + 1 == |time.readings| && Perpetual(callback, f, time.Final()) ==>
                CountIf(pending, f) >= CountIf(old(pending), f)
    {
      hide SkipList.Valid, SkipList.Keys, Mirrored, Listed, Kept, Since, CountIf, Quiet, Perpetual;
      ghost var p := pending;
      TakeDue(etr, b0, time.last);
      CountConcat(inHand, pending, f);
      CountConcat(inHand, pending, ByThen(time.Final()));
      CountAll(inHand, ByThen(time.Final()));
      CountNone([], f);
      FireAll(etr, time, b0, f);
    }

    /**
     Any number of turns of the loop, for all callbacks: it stops early only when nothing is due.  While the clock
     stands still, events that keep adding one of their kind never get fewer.
     */
    method RunSome(time: Clock, most: nat, ghost f: Event -> bool) returns (done: bool)
      requires Valid() && time.Valid() && inHand == []
      modifies this, queue, queue.Repr, time
      ensures Valid() && fresh(queue.Repr - old(queue.Repr)) && inHand == []
      ensures time.Valid() && old(time.last) <= time.last
      ensures Since(callback, old(State()), State(), time.last)
      ensures done ==> forall i :: 0 <= i < |pending| ==> time.last < pending[i].ts
      ensures !done ==> pending != [] && pending[0].ts <= time.last && |fired| >= |old(fired)| + most
      ensures old(time.pos) + 1 == |time.readings| ==> time.last == time.Final()
      ensures old(time.pos) + 1 == |time.readings| && Perpetual(callback, f, time.Final()) ==>
                CountIf(pending, f) >= CountIf(old(pending), f)
    {
      hide SkipList.Valid, SkipList.Keys, Mirrored, Listed, Kept, Since, CountIf, Quiet, Perpetual;
      ghost var b0 := State();
      var etr := queue.head;
      var now := time.Now();
      HeadFirst();
      SinceStart(callback, b0, now);
      var turns := 0;
      while etr != null && etr.ts <= now && turns < most
        invariant Valid() && fresh(queue.Repr - old(queue.Repr)) && inHand == [] && |fired| >= |old(fired)| + turns
        invariant time.Valid() && old(time.last) <= time.last && now == time.last && turns <= most
        invariant etr == queue.head && Since(callback, b0, State(), now)
        invariant old(time.pos) <= time.pos && (old(time.pos) + 1 == |time.readings| ==> now == time.Final())
        invariant old(time.pos) + 1 == |time.readings| && Perpetual(callback, f, time.Final()) ==>
                    CountIf(pending, f) >= CountIf(old(pending), f)
        decreases most - turns
      {
        RunBucket(etr, time, b0, f);
        etr := queue.head;
        ghost var limit := time.last;
        now := time.Now();
        SinceLater(callback, b0, State(), limit, now);
        turns := turns + 1;
      }
      HeadFirst();
      done := etr == null || now < etr.ts;
    }

    /**
     One whole run, which leaves nothing due.  It ends although callbacks insert while it removes, because at the
     clock's last reading nothing they add is due.
     */
    method Run(time: Clock)
      requires Valid() && time.Valid() && inHand == [] && Quiet(callback, time.Final())
      modifies this, queue, queue.Repr, time
      ensures Valid() && fresh(queue.Repr - old(queue.Repr)) && inHand == []
      ensures time.Valid() && old(time.last) <= time.last
      ensures Since(callback, old(State()), State(), time.last)
      ensures forall i :: 0 <= i < |pending| ==> time.last < pending[i].ts
      ensures time.readings[old(time.pos)] <= time.last && (old(time.pos) < time.pos || time.pos + 1 == |time.readings|)
    {
      hide SkipList.Valid, SkipList.Keys, Mirrored, Listed, Kept, Since, CountIf, Quiet, Perpetual;
      ghost var b0 := State();
      var etr := queue.head;
      var now := time.Now();
      HeadFirst();
      SinceStart(callback, b0, now);
      while etr != null && etr.ts <= now
        invariant Valid() && fresh(queue.Repr - old(queue.Repr)) && inHand == []
        invariant time.Valid() && old(time.last) <= time.last && now == time.last
        invariant etr == queue.head && Since(callback, b0, State(), now)
        invariant time.readings[old(time.pos)] <= now && (old(time.pos) < time.pos || time.pos + 1 == |time.readings|)
        decreases |time.readings| - time.pos, CountIf(pending, ByThen(time.Final()))
      {
        RunBucket(etr, time, b0, ByThen(time.Final()));
        etr := queue.head;
        ghost var limit := time.last;
        now := time.Now();
        SinceLater(callback, b0, State(), limit, now);
      }
      HeadFirst();
    }
  }
}
