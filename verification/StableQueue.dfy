/**
 The reference for the timer queue: one list of events ordered by timestamp, where a new event goes behind every
 event that is not later.  The bucketed queue is proved equal to it.
 */
module StableQueue {
  import opened Events
  import opened Chains

  ghost predicate InOrder(p: seq<Event>) {
    forall i, j :: 0 <= i < j < |p| ==> p[i].ts <= p[j].ts
  }

  /** How many events at the front are not later than `t`, for a list in order. */
  ghost function UpTo(p: seq<Event>, t: Time): (n: nat)
    ensures n <= |p|
  {
    if p == [] then 0
    else if p[|p| - 1].ts <= t then |p|
    else UpTo(p[..|p| - 1], t)
  }

  ghost function Schedule(p: seq<Event>, e: Event): seq<Event> {
    p[..UpTo(p, e.ts)] + [e] + p[UpTo(p, e.ts)..]
  }

  ghost function ScheduleAll(p: seq<Event>, es: seq<Event>): seq<Event>
    decreases |es|
  {
    if es == [] then p else Schedule(ScheduleAll(p, es[..|es| - 1]), es[|es| - 1])
  }

  /** A list that splits at `t` is scheduled into at the split. */
  lemma {:induction false} UpToSplit(l: seq<Event>, r: seq<Event>, t: Time)
    requires forall i :: 0 <= i < |l| ==> l[i].ts <= t
    requires forall i :: 0 <= i < |r| ==> t < r[i].ts
    ensures UpTo(l + r, t) == |l|
    decreases |r|
  {
    if r == [] {
      assert l + r == l;
    } else {
      assert (l + r)[..|l + r| - 1] == l + r[..|r| - 1];
      UpToSplit(l, r[..|r| - 1], t);
    }
  }

  lemma {:induction false} UpToFacts(p: seq<Event>, t: Time)
    requires InOrder(p)
    ensures forall i :: 0 <= i < UpTo(p, t) ==> p[i].ts <= t
    ensures forall i :: UpTo(p, t) <= i < |p| ==> t < p[i].ts
  {
    if p != [] && t < p[|p| - 1].ts {
      UpToFacts(p[..|p| - 1], t);
    }
  }

  lemma ScheduleInOrder(p: seq<Event>, e: Event)
    requires InOrder(p)
    ensures InOrder(Schedule(p, e))
    ensures multiset(Schedule(p, e)) == multiset(p) + multiset{e}
  {
    UpToFacts(p, e.ts);
    assert p == p[..UpTo(p, e.ts)] + p[UpTo(p, e.ts)..];
  }

  lemma {:induction false} ScheduleAllInOrder(p: seq<Event>, es: seq<Event>)
    requires InOrder(p)
    ensures InOrder(ScheduleAll(p, es))
    ensures multiset(ScheduleAll(p, es)) == multiset(p) + multiset(es)
    decreases |es|
  {
    if es != [] {
      var init := es[..|es| - 1];
      ScheduleAllInOrder(p, init);
      ScheduleInOrder(ScheduleAll(p, init), es[|es| - 1]);
      assert es == init + [es[|es| - 1]];
    }
  }

  /** Scheduling commutes with what has left the front of the list already. */
  lemma SchedulePast(f: seq<Event>, p: seq<Event>, e: Event)
    requires InOrder(f + p) && forall i :: 0 <= i < |f| ==> f[i].ts <= e.ts
    ensures Schedule(f + p, e) == f + Schedule(p, e)
  {
    assert InOrder(p) by {
      forall i, j | 0 <= i < j < |p| ensures p[i].ts <= p[j].ts {
        assert (f + p)[|f| + i] == p[i] && (f + p)[|f| + j] == p[j];
      }
    }
    UpToFacts(p, e.ts);
    var n := UpTo(p, e.ts);
    assert f + p == (f + p[..n]) + p[n..];
    UpToSplit(f + p[..n], p[n..], e.ts);
    assert (f + p)[..|f| + n] == f + p[..n] && (f + p)[|f| + n..] == p[n..];
  }

  lemma {:induction false} ScheduleAllConcat(p: seq<Event>, es: seq<Event>, xs: seq<Event>)
    ensures ScheduleAll(p, es + xs) == ScheduleAll(ScheduleAll(p, es), xs)
    decreases |xs|
  {
    if xs == [] {
      assert es + xs == es;
    } else {
      assert (es + xs)[..|es + xs| - 1] == es + xs[..|xs| - 1];
      ScheduleAllConcat(p, es, xs[..|xs| - 1]);
    }
  }

  lemma {:induction false} SchedulePastAll(f: seq<Event>, p: seq<Event>, xs: seq<Event>)
    requires InOrder(f + p) && forall i, j :: 0 <= i < |f| && 0 <= j < |xs| ==> f[i].ts <= xs[j].ts
    ensures ScheduleAll(f + p, xs) == f + ScheduleAll(p, xs)
    decreases |xs|
  {
    if xs != [] {
      SchedulePastAll(f, p, xs[..|xs| - 1]);
      ScheduleAllInOrder(f + p, xs[..|xs| - 1]);
      SchedulePast(f, ScheduleAll(p, xs[..|xs| - 1]), xs[|xs| - 1]);
    }
  }

  /**
   Firing the first event in hand commutes with the rest: `f` has fired, `h` is in hand, `p` is pending, and the
   callback schedules `xs`, none of them before anything that left the list.
   */
  lemma FireStep(p0: seq<Event>, accepted: seq<Event>, f: seq<Event>, h: seq<Event>, p: seq<Event>, xs: seq<Event>)
    requires InOrder(p0) && h != [] && (f + h) + p == ScheduleAll(p0, accepted)
    requires forall i, j :: 0 <= i < |f + h| && 0 <= j < |xs| ==> (f + h)[i].ts <= xs[j].ts
    ensures ((f + [h[0]]) + h[1..]) + ScheduleAll(p, xs) == ScheduleAll(p0, accepted + xs)
  {
    ScheduleAllConcat(p0, accepted, xs);
    ScheduleAllInOrder(p0, accepted);
    SchedulePastAll(f + h, p, xs);
    assert (f + [h[0]]) + h[1..] == f + h;
  }

  // ---------- Counting ----------

  ghost function CountIf(p: seq<Event>, f: Event -> bool): nat {
    if p == [] then 0 else CountIf(p[..|p| - 1], f) + if f(p[|p| - 1]) then 1 else 0
  }

  lemma {:induction false} CountConcat(p: seq<Event>, q: seq<Event>, f: Event -> bool)
    ensures CountIf(p + q, f) == CountIf(p, f) + CountIf(q, f)
    decreases |q|
  {
    if q == [] {
      assert p + q == p;
    } else {
      assert (p + q)[..|p + q| - 1] == p + q[..|q| - 1];
      CountConcat(p, q[..|q| - 1], f);
    }
  }

  lemma {:induction false} CountScheduleAll(p: seq<Event>, es: seq<Event>, f: Event -> bool)
    ensures CountIf(ScheduleAll(p, es), f) == CountIf(p, f) + CountIf(es, f)
    decreases |es|
  {
    if es != [] {
      var q, e := ScheduleAll(p, es[..|es| - 1]), es[|es| - 1];
      CountScheduleAll(p, es[..|es| - 1], f);
      var n := UpTo(q, e.ts);
      assert q == q[..n] + q[n..];
      CountConcat(q[..n], q[n..], f);
      CountConcat(q[..n] + [e], q[n..], f);
      assert (q[..n] + [e])[..n] == q[..n];
    }
  }

  lemma {:induction false} CountNone(p: seq<Event>, f: Event -> bool)
    requires forall i :: 0 <= i < |p| ==> !f(p[i])
    ensures CountIf(p, f) == 0
  {
    if p != [] { CountNone(p[..|p| - 1], f); }
  }

  lemma {:induction false} CountAll(p: seq<Event>, f: Event -> bool)
    requires forall i :: 0 <= i < |p| ==> f(p[i])
    ensures CountIf(p, f) == |p|
  {
    if p != [] { CountAll(p[..|p| - 1], f); }
  }

  lemma MultisetPush(p: seq<Event>, e: Event)
    ensures multiset(p + [e]) == multiset(p) + multiset{e}
  {
  }

  lemma MultisetWithout(p: seq<Event>, i: nat)
    requires i < |p|
    ensures multiset(p) == multiset(p[..i] + p[i + 1..]) + multiset{p[i]}
  {
    assert p == (p[..i] + [p[i]]) + p[i + 1..];
  }

  /** Counting depends only on how often each event occurs. */
  lemma {:induction false} CountMultiset(a: seq<Event>, b: seq<Event>, f: Event -> bool)
    requires multiset(a) == multiset(b)
    ensures CountIf(a, f) == CountIf(b, f)
    decreases |a|
  {
    if a == [] {
      assert |multiset(b)| == 0;
    } else {
      var n := |a| - 1;
      assert a == a[..n] + [a[n]] && a[n] in multiset(b);
      var i :| 0 <= i < |b| && b[i] == a[n];
      SameWithout(a, b, i);
      CountMultiset(a[..n], b[..i] + b[i + 1..], f);
      CountWithout(b, i, f);
    }
  }

  lemma SameWithout(a: seq<Event>, b: seq<Event>, i: nat)
    requires multiset(a) == multiset(b) && a != [] && i < |b| && b[i] == a[|a| - 1]
    ensures multiset(a[..|a| - 1]) == multiset(b[..i] + b[i + 1..])
  {
    MultisetWithout(a, |a| - 1);
    MultisetWithout(b, i);
    assert a[..|a| - 1] + a[|a| - 1 + 1..] == a[..|a| - 1];
    SameRest(multiset(a[..|a| - 1]), multiset(b[..i] + b[i + 1..]), b[i]);
  }

  lemma SameRest(m: multiset<Event>, m': multiset<Event>, e: Event)
    requires m + multiset{e} == m' + multiset{e}
    ensures m == m'
  {
    forall x ensures m[x] == m'[x] {
      assert (m + multiset{e})[x] == m[x] + multiset{e}[x];
      assert (m' + multiset{e})[x] == m'[x] + multiset{e}[x];
    }
  }

  lemma CountWithout(b: seq<Event>, i: nat, f: Event -> bool)
    requires i < |b|
    ensures CountIf(b, f) == CountIf(b[..i] + b[i + 1..], f) + if f(b[i]) then 1 else 0
  {
    hide CountIf;
    var lo, hi := b[..i], b[i + 1..];
    assert b == (lo + [b[i]]) + hi;
    CountConcat(lo + [b[i]], hi, f);
    CountConcat(lo, [b[i]], f);
    CountConcat(lo, hi, f);
    CountOne(b[i], f);
  }

  lemma CountOne(e: Event, f: Event -> bool)
    ensures CountIf([e], f) == if f(e) then 1 else 0
  {
    assert [e][..0] == [];
  }

  /** An event later than all the others goes last. */
  lemma ScheduleLast(p: seq<Event>, e: Event)
    requires InOrder(p) && (p != [] ==> p[|p| - 1].ts <= e.ts)
    ensures Schedule(p, e) == p + [e]
  {
    UpToFacts(p, e.ts);
  }

  // ---------- First in, first out within one timestamp ----------

  ghost function OnlyAt(p: seq<Event>, t: Time): seq<Event> {
    if p == [] then []
    else OnlyAt(p[..|p| - 1], t) + if p[|p| - 1].ts == t then [p[|p| - 1]] else []
  }

  lemma {:induction false} OnlyAtConcat(p: seq<Event>, q: seq<Event>, t: Time)
    ensures OnlyAt(p + q, t) == OnlyAt(p, t) + OnlyAt(q, t)
    decreases |q|
  {
    if q == [] {
      assert p + q == p;
    } else {
      assert (p + q)[..|p + q| - 1] == p + q[..|q| - 1];
      OnlyAtConcat(p, q[..|q| - 1], t);
    }
  }

  lemma {:induction false} OnlyAtNone(p: seq<Event>, t: Time)
    requires forall i :: 0 <= i < |p| ==> p[i].ts != t
    ensures OnlyAt(p, t) == []
  {
    if p != [] { OnlyAtNone(p[..|p| - 1], t); }
  }

  lemma OnlyAtSchedule(q: seq<Event>, e: Event, t: Time)
    requires InOrder(q)
    ensures OnlyAt(Schedule(q, e), t) == OnlyAt(q, t) + if e.ts == t then [e] else []
  {
    hide UpTo, InOrder;
    UpToFacts(q, e.ts);
    var n := UpTo(q, e.ts);
    var lo, hi := q[..n], q[n..];
    assert q == lo + hi && Schedule(q, e) == (lo + [e]) + hi;
    OnlyAtConcat(lo, hi, t);
    OnlyAtConcat(lo + [e], hi, t);
    OnlyAtConcat(lo, [e], t);
    assert OnlyAt([e], t) == if e.ts == t then [e] else [];
    if e.ts == t { OnlyAtNone(hi, t); }
  }

  /** Events sharing a timestamp stay in the order in which they were scheduled. */
  lemma {:induction false} FirstInFirstOut(p: seq<Event>, es: seq<Event>, t: Time)
    requires InOrder(p)
    ensures OnlyAt(ScheduleAll(p, es), t) == OnlyAt(p, t) + OnlyAt(es, t)
    decreases |es|
  {
    if es != [] {
      var init, e := es[..|es| - 1], es[|es| - 1];
      FirstInFirstOut(p, init, t);
      ScheduleAllInOrder(p, init);
      OnlyAtSchedule(ScheduleAll(p, init), e, t);
    }
  }

  /** `a` and `b` hold the same events, and those of one timestamp in the same order. */
  ghost predicate Fair(a: seq<Event>, b: seq<Event>) {
    forall t {:trigger OnlyAt(a, t)} {:trigger OnlyAt(b, t)} :: OnlyAt(a, t) == OnlyAt(b, t)
  }

  lemma {:induction false} OnlyAtMultiplicity(p: seq<Event>, e: Event)
    ensures multiset(p)[e] == multiset(OnlyAt(p, e.ts))[e]
  {
    if p != [] {
      OnlyAtMultiplicity(p[..|p| - 1], e);
      assert p == p[..|p| - 1] + [p[|p| - 1]];
    }
  }

  /** Nothing is lost or duplicated between two such lists. */
  lemma FairIsMultiset(a: seq<Event>, b: seq<Event>)
    requires Fair(a, b)
    ensures multiset(a) == multiset(b)
  {
    forall e ensures multiset(a)[e] == multiset(b)[e] {
      OnlyAtMultiplicity(a, e);
      OnlyAtMultiplicity(b, e);
      assert OnlyAt(a, e.ts) == OnlyAt(b, e.ts);
    }
  }

  /** Scheduling accepted events, whatever has left the list and whenever it fired, keeps both. */
  lemma FairSchedule(gone: seq<Event>, pending: seq<Event>, accepted: seq<Event>, xs: seq<Event>)
    requires Fair(gone + pending, accepted) && InOrder(pending)
    ensures Fair(gone + ScheduleAll(pending, xs), accepted + xs)
  {
    hide ScheduleAll, OnlyAt;
    forall t ensures OnlyAt(gone + ScheduleAll(pending, xs), t) == OnlyAt(accepted + xs, t) {
      assert OnlyAt(gone + pending, t) == OnlyAt(accepted, t);
      OnlyAtConcat(gone, pending, t);
      OnlyAtConcat(gone, ScheduleAll(pending, xs), t);
      FirstInFirstOut(pending, xs, t);
      OnlyAtConcat(accepted, xs, t);
    }
  }

  // ---------- Buckets ----------

  type Buckets = map<Time, seq<Event>>

  /** The events of the buckets `keys`, in key order. */
  ghost function Flat(keys: seq<Time>, b: Buckets): seq<Event> {
    if keys == [] then []
    else (if keys[0] in b then b[keys[0]] else []) + Flat(keys[1..], b)
  }

  ghost predicate Own(b: Buckets) {
    forall k, i :: k in b && 0 <= i < |b[k]| ==> b[k][i].ts == k
  }

  /** Every bucket is non-empty and holds events of its own timestamp. */
  ghost predicate Sorted(keys: seq<Time>, b: Buckets) {
    && Increasing(keys)
    && (forall j :: 0 <= j < |keys| ==> keys[j] in b)
    && Covers(keys, b.Keys)
    && Own(b)
    && (forall k :: k in b ==> b[k] != [])
  }

  /** The buckets `b`, in the order of `keys`, stand for the list `p`. */
  ghost predicate Listed(keys: seq<Time>, b: Buckets, p: seq<Event>) {
    Sorted(keys, b) && p == Flat(keys, b)
  }

  lemma {:induction false} FlatConcat(s: seq<Time>, t: seq<Time>, b: Buckets)
    ensures Flat(s + t, b) == Flat(s, b) + Flat(t, b)
  {
    if s == [] {
      assert s + t == t;
    } else {
      assert (s + t)[1..] == s[1..] + t;
      FlatConcat(s[1..], t, b);
    }
  }

  lemma {:induction false} FlatAgrees(s: seq<Time>, b: Buckets, b': Buckets)
    requires forall i :: 0 <= i < |s| ==> s[i] in b && s[i] in b' && b[s[i]] == b'[s[i]]
    ensures Flat(s, b) == Flat(s, b')
  {
    if s != [] {
      FlatAgrees(s[1..], b, b');
    }
  }

  lemma {:induction false} FlatBelow(s: seq<Time>, b: Buckets, t: Time)
    requires Own(b) && forall j :: 0 <= j < |s| ==> s[j] < t
    ensures forall i :: 0 <= i < |Flat(s, b)| ==> Flat(s, b)[i].ts < t
  {
    if s != [] { FlatBelow(s[1..], b, t); }
  }

  lemma {:induction false} FlatAbove(s: seq<Time>, b: Buckets, t: Time)
    requires Own(b) && forall j :: 0 <= j < |s| ==> t < s[j]
    ensures forall i :: 0 <= i < |Flat(s, b)| ==> t < Flat(s, b)[i].ts
  {
    if s != [] { FlatAbove(s[1..], b, t); }
  }

  /** One bucket stands between those before and those behind it. */
  lemma FlatAround(lo: seq<Time>, t: Time, hi: seq<Time>, b: Buckets)
    ensures Flat(lo + ([t] + hi), b) == (Flat(lo, b) + (if t in b then b[t] else [])) + Flat(hi, b)
  {
    FlatConcat(lo, [t] + hi, b);
    assert ([t] + hi)[1..] == hi;
  }

  /** `lo`, the bucket of `e`, then `hi`: adding `e` to its bucket is scheduling it in the flat list. */
  lemma FlatAdd(lo: seq<Time>, hi: seq<Time>, b: Buckets, e: Event)
    requires Own(b)
    requires forall j :: 0 <= j < |lo| ==> lo[j] in b && lo[j] < e.ts
    requires forall j :: 0 <= j < |hi| ==> hi[j] in b && e.ts < hi[j]
    ensures var bucket := if e.ts in b then b[e.ts] else [];
            && Flat(lo + ([e.ts] + hi), b[e.ts := bucket + [e]]) == Schedule((Flat(lo, b) + bucket) + Flat(hi, b), e)
            && Flat(lo + ([e.ts] + hi), b) == (Flat(lo, b) + bucket) + Flat(hi, b)
  {
    var bucket := if e.ts in b then b[e.ts] else [];
    var b' := b[e.ts := bucket + [e]];
    hide Flat, Schedule;
    FlatAround(lo, e.ts, hi, b);
    FlatAround(lo, e.ts, hi, b');
    FlatAgrees(lo, b, b');
    FlatAgrees(hi, b, b');
    assert Flat(lo, b) + (bucket + [e]) == (Flat(lo, b) + bucket) + [e];
    assert Flat(lo + ([e.ts] + hi), b') == ((Flat(lo, b) + bucket) + [e]) + Flat(hi, b);
    ScheduleBetween(lo, hi, b, e);
  }

  lemma ScheduleBetween(lo: seq<Time>, hi: seq<Time>, b: Buckets, e: Event)
    requires Own(b)
    requires forall j :: 0 <= j < |lo| ==> lo[j] in b && lo[j] < e.ts
    requires forall j :: 0 <= j < |hi| ==> hi[j] in b && e.ts < hi[j]
    ensures var front := Flat(lo, b) + if e.ts in b then b[e.ts] else [];
            Schedule(front + Flat(hi, b), e) == (front + [e]) + Flat(hi, b)
  {
    hide Flat, Schedule;
    var bucket := if e.ts in b then b[e.ts] else [];
    FlatBelow(lo, b, e.ts);
    FlatAbove(hi, b, e.ts);
    ScheduleAt(Flat(lo, b) + bucket, Flat(hi, b), e);
  }

  lemma ScheduleAt(l: seq<Event>, h: seq<Event>, e: Event)
    requires forall i :: 0 <= i < |l| ==> l[i].ts <= e.ts
    requires forall i :: 0 <= i < |h| ==> e.ts < h[i].ts
    ensures Schedule(l + h, e) == (l + [e]) + h
  {
    UpToSplit(l, h, e.ts);
    assert (l + h)[..|l|] == l && (l + h)[|l|..] == h;
  }

  /** Where the bucket of timestamp `t` is, or would be. */
  lemma BucketSplit(keys: seq<Time>, t: Time) returns (lo: seq<Time>, hi: seq<Time>)
    requires Increasing(keys)
    ensures t in keys ==> keys == lo + ([t] + hi)
    ensures t !in keys ==> keys == lo + hi && InsertKey(keys, t) == lo + ([t] + hi)
    ensures forall j :: 0 <= j < |lo| ==> lo[j] in keys && lo[j] < t
    ensures forall j :: 0 <= j < |hi| ==> hi[j] in keys && t < hi[j]
  {
    var r := Rank(keys, t);
    RankFacts(keys, t);
    FindFacts(keys, t);
    lo := keys[..r];
    if t in keys {
      hi := keys[r + 1..];
      assert keys == lo + ([t] + hi);
      forall j | 0 <= j < |hi| ensures hi[j] in keys && t < hi[j] {
        assert Before(keys, r, r + 1 + j);
      }
    } else {
      hi := keys[r..];
      assert InsertKey(keys, t) == lo + ([t] + hi);
      forall j | 0 <= j < |hi| ensures hi[j] in keys && t < hi[j] {
        assert hi[j] == keys[r + j];
      }
    }
  }

  ghost function AddEvent(b: Buckets, e: Event): Buckets {
    b[e.ts := (if e.ts in b then b[e.ts] else []) + [e]]
  }

  lemma AddSorted(keys: seq<Time>, b: Buckets, e: Event)
    requires Sorted(keys, b)
    ensures e.ts in keys <==> e.ts in b
    ensures Sorted(if e.ts in keys then keys else InsertKey(keys, e.ts), AddEvent(b, e))
  {
    assert e.ts in b ==> Member(keys, e.ts);
    if e.ts in keys {
      var j :| 0 <= j < |keys| && keys[j] == e.ts;
    } else {
      InsertFacts(keys, e.ts);
      var keys' := InsertKey(keys, e.ts);
      forall j | 0 <= j < |keys'| ensures keys'[j] in AddEvent(b, e) {
        var r := Rank(keys, e.ts);
        assert keys'[j] == if j < r then keys[j] else if j == r then e.ts else keys[j - 1];
      }
      forall k | k in AddEvent(b, e) ensures Member(keys', k) {
        assert k in b ==> Member(keys, k);
      }
    }
  }

  /** Adding an event to its bucket, new or old, is scheduling it in the flat list. */
  lemma AddToBucket(keys: seq<Time>, b: Buckets, e: Event)
    requires Sorted(keys, b)
    ensures var keys' := if e.ts in keys then keys else InsertKey(keys, e.ts);
            Sorted(keys', AddEvent(b, e)) && Flat(keys', AddEvent(b, e)) == Schedule(Flat(keys, b), e)
  {
    AddSorted(keys, b, e);
    var lo, hi := BucketSplit(keys, e.ts);
    assert forall j :: 0 <= j < |keys| ==> keys[j] in b;
    forall j | 0 <= j < |lo| ensures lo[j] in b {
      var i :| 0 <= i < |keys| && keys[i] == lo[j];
    }
    forall j | 0 <= j < |hi| ensures hi[j] in b {
      var i :| 0 <= i < |keys| && keys[i] == hi[j];
    }
    FlatAdd(lo, hi, b, e);
    if e.ts in keys {
      assert Flat(keys, AddEvent(b, e)) == Schedule(Flat(keys, b), e);
    } else {
      FlatConcat(lo, hi, b);
      assert Flat(lo, b) + [] == Flat(lo, b);
    }
  }

  /** The first bucket is the front of the flat list. */
  lemma FlatFirst(keys: seq<Time>, b: Buckets)
    requires Sorted(keys, b) && keys != []
    ensures keys[0] in b && RemoveKey(keys, keys[0]) == keys[1..]
    ensures Flat(keys, b) == b[keys[0]] + Flat(keys[1..], b - {keys[0]})
    ensures Sorted(keys[1..], b - {keys[0]})
  {
    RankFacts(keys, keys[0]);
    forall j | 0 <= j < |keys[1..]| ensures keys[1..][j] in b - {keys[0]} {
      assert Before(keys, 0, j + 1);
    }
    forall i, j | 0 <= i < j < |keys[1..]| ensures Before(keys[1..], i, j) {
      assert Before(keys, i + 1, j + 1);
    }
    forall k | k in b - {keys[0]} ensures Member(keys[1..], k) {
      assert Member(keys, k);
      var j :| 0 <= j < |keys| && keys[j] == k;
      assert keys[1..][j - 1] == k;
    }
    FlatAgrees(keys[1..], b, b - {keys[0]});
  }

  lemma AddListed(keys: seq<Time>, b: Buckets, p: seq<Event>, e: Event)
    requires Listed(keys, b, p)
    ensures e.ts in keys <==> e.ts in b
    ensures Listed(if e.ts in b then keys else InsertKey(keys, e.ts), AddEvent(b, e), Schedule(p, e))
  {
    AddSorted(keys, b, e);
    AddToBucket(keys, b, e);
  }

  lemma FirstListed(keys: seq<Time>, b: Buckets, p: seq<Event>)
    requires Listed(keys, b, p) && keys != []
    ensures keys[0] in b && b[keys[0]] != [] && forall i :: 0 <= i < |b[keys[0]]| ==> b[keys[0]][i].ts == keys[0]
    ensures b[keys[0]] <= p && p[0].ts == keys[0]
    ensures Listed(RemoveKey(keys, keys[0]), b - {keys[0]}, p[|b[keys[0]]|..])
  {
    FlatFirst(keys, b);
    assert p[..|b[keys[0]]|] == b[keys[0]];
    assert p[|b[keys[0]]|..] == Flat(keys[1..], b - {keys[0]});
  }

  lemma LastListed(keys: seq<Time>, b: Buckets, p: seq<Event>)
    requires Listed(keys, b, p) && keys != []
    ensures p != [] && p[|p| - 1].ts == keys[|keys| - 1]
  {
    var n := |keys| - 1;
    assert keys == keys[..n] + [keys[n]];
    FlatConcat(keys[..n], [keys[n]], b);
    assert keys[n] in b && Flat([keys[n]], b) == b[keys[n]] + [];
    var k := keys[n];
    assert k in b;
    assert b[k] != [];
    assert b[k][|b[k]| - 1].ts == k;
  }

  /** The flat list is in order. */
  lemma {:induction false} FlatInOrder(keys: seq<Time>, b: Buckets)
    requires Increasing(keys) && Own(b)
    ensures InOrder(Flat(keys, b))
  {
    if keys != [] {
      Ordered(keys);
      assert Increasing(keys[1..]) by {
        forall i, j | 0 <= i < j < |keys[1..]| ensures Before(keys[1..], i, j) {}
      }
      FlatInOrder(keys[1..], b);
      FlatAbove(keys[1..], b, keys[0]);
    }
  }
}
