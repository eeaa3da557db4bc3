/** The intrusive skip list that orders the buckets of the timer queue. */
module SkipLists {
  import opened Events
  import opened Chains

  /** A bucket of events with one timestamp, linked into the list by `previous` and `forward`. */
  class Entry {
    const ts: Time
    var events: seq<Event>
    var previous: Entry?
    var forward: seq<Entry?>

    constructor (ts: Time, forward: seq<Entry?>)
      ensures this.ts == ts && events == [] && this.forward == forward
    {
      this.ts := ts;
      events := [];
      previous := null;
      this.forward := forward;
    }
  }

  /** The entry a link points at. */
  ghost function Deref(node: map<Time, Entry>, l: Link): Entry? {
    if l.To? && l.key in node then node[l.key] else null
  }

  /** The pointer fields of `e` are the ones `sh` records for its key. */
  ghost predicate TiedEntry(sh: Shape, node: map<Time, Entry>, e: Entry)
    reads e`forward, e`previous
  {
    && |e.forward| == |sh.fwd|
    && e.previous == Deref(node, At(sh.prv, e.ts))
    && forall i {:trigger e.forward[i]} {:trigger At(sh.fwd[i], e.ts)} :: 0 <= i < |sh.fwd| ==>
         e.forward[i] == Deref(node, At(sh.fwd[i], e.ts))
  }

  lemma KeysAfter(node: map<Time, Entry>, elm: Entry, repr: set<Entry>)
    requires Keyed(node, repr)
    ensures node[elm.ts := elm].Keys == node.Keys + {elm.ts}
    ensures elm.ts !in node ==> Keyed(node[elm.ts := elm], repr + {elm})
    ensures (node - {elm.ts}).Keys == node.Keys - {elm.ts}
    ensures elm in repr ==> Keyed(node - {elm.ts}, repr - {elm})
  {
  }

  /** `repr` is the set of entries of `node`, each under its own key. */
  ghost predicate Keyed(node: map<Time, Entry>, repr: set<Entry>) {
    && (forall k :: k in node ==> node[k] in repr && node[k].ts == k)
    && (forall e :: e in repr ==> e.ts in node && node[e.ts] == e)
  }

  ghost predicate Tied(sh: Shape, node: map<Time, Entry>, repr: set<Entry>)
    reads repr`forward, repr`previous
  {
    forall e {:trigger TiedEntry(sh, node, e)} :: e in repr ==> TiedEntry(sh, node, e)
  }

  /** The fields after the pointer writes of a new head are the ones `Push` records. */
  lemma PushTied(sh: Shape, node: map<Time, Entry>, repr: set<Entry>, lvl: nat, head: Entry?, elm: Entry, height: nat)
    requires Sound(sh, node.Keys, lvl) && Keyed(node, repr) && elm.ts !in node && 1 <= height
    requires head == if sh.levels[0] == [] then null else Deref(node, To(sh.levels[0][0]))
    requires |elm.forward| == |sh.fwd| && elm.previous == null
    requires forall i :: 0 <= i < |sh.fwd| ==>
               elm.forward[i] == if i < height then head
                                 else if head == null then null else Deref(node, At(sh.fwd[i], head.ts))
    requires head != null ==>
               |head.forward| == |sh.fwd| && head.previous == elm &&
               forall i :: 0 <= i < |sh.fwd| ==>
                 head.forward[i] == if i < height then Deref(node, At(sh.fwd[i], head.ts)) else null
    requires forall e :: e in repr && e != head ==> TiedEntry(sh, node, e)
    ensures Tied(Push(sh, elm.ts, height), node[elm.ts := elm], repr + {elm})
  {
    forall e | e in repr + {elm}
      ensures TiedEntry(Push(sh, elm.ts, height), node[elm.ts := elm], e)
    {
      assert e in repr && e != head ==> TiedEntry(sh, node, e);
      assert e != elm ==> e.ts in node && node[e.ts] == e;
      assert head != null ==> head.ts == sh.levels[0][0] by {
        LevelFacts(sh, node.Keys, lvl, 0);
      }
      var r := Push(sh, elm.ts, height);
      PushAt(sh, node.Keys, lvl, elm.ts, height, 0, e.ts);
      forall i | 0 <= i < |r.fwd|
        ensures e.forward[i] == Deref(node[elm.ts := elm], At(r.fwd[i], e.ts))
      {
        PushAt(sh, node.Keys, lvl, elm.ts, height, i, e.ts);
      }
    }
  }

  /** The fields after the pointer writes of an insertion inside the list are the ones `Splice` records. */
  lemma SpliceTied(sh: Shape, node: map<Time, Entry>, repr: set<Entry>, lvl: nat, preds: seq<Time>, elm: Entry,
                   height: nat)
    requires Sound(sh, node.Keys, lvl) && Keyed(node, repr) && elm.ts !in node
    requires 1 <= height && PredsFound(sh, preds, elm.ts, height)
    requires |elm.forward| == |sh.fwd| && elm.previous == Deref(node, To(preds[0]))
    requires forall i :: 0 <= i < |sh.fwd| ==>
               elm.forward[i] == if i < height then Deref(node, At(sh.fwd[i], preds[i])) else null
    requires forall e :: e in repr ==>
               |e.forward| == |sh.fwd| &&
               e.previous == if At(sh.fwd[0], preds[0]) == To(e.ts) then elm else Deref(node, At(sh.prv, e.ts))
    requires forall e, i {:trigger e.forward[i]} :: e in repr && 0 <= i < |sh.fwd| ==>
               e.forward[i] == if i < height && e.ts == preds[i] then elm else Deref(node, At(sh.fwd[i], e.ts))
    ensures Tied(Splice(sh, preds, elm.ts, height), node[elm.ts := elm], repr + {elm})
  {
    forall e | e in repr + {elm}
      ensures TiedEntry(Splice(sh, preds, elm.ts, height), node[elm.ts := elm], e)
    {
      var r := Splice(sh, preds, elm.ts, height);
      SpliceAt(sh, node.Keys, lvl, preds, elm.ts, height, 0, e.ts);
      forall i | 0 <= i < |r.fwd|
        ensures e.forward[i] == Deref(node[elm.ts := elm], At(r.fwd[i], e.ts))
      {
        SpliceAt(sh, node.Keys, lvl, preds, elm.ts, height, i, e.ts);
      }
    }
  }

  /** The fields after the head was unthreaded are the ones `Behead` records. */
  lemma BeheadTied(sh: Shape, node: map<Time, Entry>, repr: set<Entry>, lvl: nat, next: Entry)
    requires Sound(sh, node.Keys, lvl) && Keyed(node, repr) && 2 <= |sh.levels[0]|
    requires next in repr && next.ts == sh.levels[0][1]
    requires |next.forward| == |sh.fwd| && next.previous == null
    requires forall i :: 0 <= i < |sh.fwd| ==>
               next.forward[i] == Deref(node, At(sh.fwd[i],
                                                if At(sh.fwd[i], sh.levels[0][0]) == To(next.ts) then next.ts
                                                else sh.levels[0][0]))
    requires forall e :: e in repr && e != next ==> TiedEntry(sh, node, e)
    ensures var h := sh.levels[0][0]; h in node && Tied(Behead(sh), node - {h}, repr - {node[h]})
  {
    var h := sh.levels[0][0];
    assert h in node by { LevelFacts(sh, node.Keys, lvl, 0); }
    forall e | e in repr - {node[h]}
      ensures TiedEntry(Behead(sh), node - {h}, e)
    {
      assert e != next ==> TiedEntry(sh, node, e);
      BeheadAt(sh, node.Keys, lvl, 0, e.ts);
      forall i | 0 <= i < |sh.fwd|
        ensures e.forward[i] == Deref(node - {h}, At(Behead(sh).fwd[i], e.ts))
      {
        BeheadAt(sh, node.Keys, lvl, i, e.ts);
      }
    }
  }

  /** The fields after an entry inside the list was unlinked are the ones `Unlink` records. */
  lemma UnlinkTied(sh: Shape, node: map<Time, Entry>, repr: set<Entry>, lvl: nat, preds: seq<Time>, k: Time)
    requires Sound(sh, node.Keys, lvl) && Keyed(node, repr) && k in node && PredsFound(sh, preds, k, |sh.levels|)
    requires forall e :: e in repr && e.ts != k ==>
               |e.forward| == |sh.fwd| &&
               e.previous == Deref(node, if At(sh.fwd[0], k) == To(e.ts) then To(preds[0]) else At(sh.prv, e.ts))
    requires forall e, i {:trigger e.forward[i]} :: e in repr && e.ts != k && 0 <= i < |sh.fwd| ==>
               e.forward[i] ==
               Deref(node, At(sh.fwd[i], if e.ts == preds[i] && At(sh.fwd[i], e.ts) == To(k) then k else e.ts))
    ensures Tied(Unlink(sh, preds, k), node - {k}, repr - {node[k]})
  {
    forall e | e in repr - {node[k]}
      ensures TiedEntry(Unlink(sh, preds, k), node - {k}, e)
    {
      UnlinkKeyAt(sh, node.Keys, lvl, preds, k, 0, e.ts);
      forall i | 0 <= i < |sh.fwd|
        ensures e.forward[i] == Deref(node - {k}, At(Unlink(sh, preds, k).fwd[i], e.ts))
      {
        UnlinkKeyAt(sh, node.Keys, lvl, preds, k, i, e.ts);
      }
    }
  }

  class SkipList {
    const maxLevs: nat
    var head: Entry?
    var tail: Entry?
    var sz: nat
    var lvl: nat
    ghost var shape: Shape
    /** The map the list stands for. */
    ghost var node: map<Time, Entry>
    ghost var Repr: set<Entry>

    /** The list invariant: the pointers are a sound shape, and the four plain fields describe it. */
    ghost predicate Valid()
      reads this, Repr`forward, Repr`previous
    {
      && 1 <= lvl <= maxLevs == |shape.levels|
      && Sound(shape, node.Keys, lvl)
      && Keyed(node, Repr)
      && Tied(shape, node, Repr)
      && sz == |shape.levels[0]|
      && (shape.levels[0] == [] ==> head == tail == null && lvl == 1)
      && (shape.levels[0] != [] ==>
            && head == Deref(node, To(shape.levels[0][0]))
            && tail == Deref(node, To(shape.levels[0][|shape.levels[0]| - 1])))
    }

    /** The keys in order. */
    ghost function Keys(): (s: seq<Time>)
      requires Valid()
      reads this, Repr`forward, Repr`previous
      ensures Increasing(s)
    {
      LevelFacts(shape, node.Keys, lvl, 0);
      shape.levels[0]
    }

    constructor (maxLevs: nat)
      requires 1 <= maxLevs
      ensures Valid() && Keys() == [] && node == map[] && Repr == {} && this.maxLevs == maxLevs
    {
      this.maxLevs := maxLevs;
      head, tail, sz, lvl := null, null, 0, 1;
      shape := Shape(seq(maxLevs, _ => map[]), map[], seq(maxLevs, _ => []));
      node := map[];
      Repr := {};
    }

    /** A random height: any value from 1 to `maxLevs` may come back. */
    method RndLvl() returns (l: nat)
      requires 1 <= maxLevs
      ensures 1 <= l <= maxLevs
    {
      l := 1;
      while l < maxLevs
        invariant l <= maxLevs
      {
        var heads: bool := *;
        if !heads { return; }
        l := l + 1;
      }
    }

    /** What is known of the entry at position `p` of level `i`. */
    lemma EntryFacts(i: nat, p: nat)
      requires Valid() && i < maxLevs && p < |shape.levels[i]|
      ensures shape.levels[i][p] in node
      ensures node[shape.levels[i][p]] in Repr && node[shape.levels[i][p]].ts == shape.levels[i][p]
      ensures TiedEntry(shape, node, node[shape.levels[i][p]])
      ensures At(shape.fwd[i], shape.levels[i][p]) == Next(shape.levels[i], p)
      ensures p + 1 < |shape.levels[i]| ==> shape.levels[i][p + 1] in node
    {
      LevelFacts(shape, node.Keys, lvl, i);
      var k := shape.levels[i][p];
      assert shape.fwd[i][k] == Next(shape.levels[i], p);
      assert node[k] in Repr && node[k].ts == k;
    }

    /**
     The invariant read off the heap, level by level: an entry on level `i` points at the next one there, the last
     one at null, and every level begins at the head.
     */
    lemma ForwardPointers(i: nat, p: nat)
      requires Valid() && i < maxLevs && p < |shape.levels[i]|
      ensures var level := shape.levels[i];
              && level[p] in node && level[0] in node && node[level[0]] == head
              && |node[level[p]].forward| == maxLevs
              && (p + 1 < |level| ==> level[p + 1] in node && node[level[p]].forward[i] == node[level[p + 1]])
              && (p + 1 == |level| ==> node[level[p]].forward[i] == null)
    {
      EntryFacts(i, p);
      EntryFacts(i, 0);
      LevelFacts(shape, node.Keys, lvl, i);
      EntryFacts(0, 0);
    }

    /** An entry that is absent from a level holds null there, and what a level has, the level below has too. */
    lemma AbsentIsNull(i: nat, k: Time)
      requires Valid() && i < maxLevs && k in node
      ensures |node[k].forward| == maxLevs && (k !in shape.levels[i] ==> node[k].forward[i] == null)
      ensures k in shape.levels[i] && i > 0 ==> k in shape.levels[i - 1]
    {
      LevelFacts(shape, node.Keys, lvl, i);
      assert TiedEntry(shape, node, node[k]) && node[k].ts == k;
      assert node[k].forward[i] == Deref(node, At(shape.fwd[i], k));
      if k !in shape.levels[i] { assert shape.fwd[i][k] == Nil; }
    }

    /** Level 0 is doubly linked from head to tail and holds all `sz` entries. */
    lemma BackPointers(p: nat)
      requires Valid() && p < |Keys()|
      ensures |Keys()| == sz && Keys()[p] in node && Keys()[0] in node && Keys()[sz - 1] in node
      ensures node[Keys()[0]] == head && node[Keys()[sz - 1]] == tail
      ensures node[Keys()[p]].previous == if p == 0 then null else Deref(node, To(Keys()[p - 1]))
    {
      EntryFacts(0, p);
      EntryFacts(0, 0);
      EntryFacts(0, sz - 1);
      if p > 0 { EntryFacts(0, p - 1); }
      assert shape.prv[Keys()[p]] == Prev(shape.levels[0], p);
    }

    lemma NodeFacts()
      requires Valid()
      ensures Keyed(node, Repr)
      ensures Covers(Keys(), node.Keys)
      ensures forall j :: 0 <= j < |Keys()| ==> Keys()[j] in node
    {
      SortedFacts(shape, node.Keys, lvl, 0);
    }

    /** Where `k` stands among the keys, in terms of the two end pointers. */
    lemma KeyFacts(k: Time)
      requires Valid()
      ensures (head == null <==> Keys() == []) && (tail == null <==> Keys() == [])
      ensures head != null ==> head in Repr && head.ts == Keys()[0] && tail != null && tail.ts == Keys()[|Keys()| - 1]
      ensures forall n {:trigger Member(Keys(), n)} :: Member(Keys(), n) <==> n in node
      ensures head != null ==>
                (k <= head.ts <==> Rank(Keys(), k) == 0) && (tail.ts < k <==> Rank(Keys(), k) == |Keys()|)
      ensures k in node <==> Rank(Keys(), k) < |Keys()| && Keys()[Rank(Keys(), k)] == k
      ensures Rank(Keys(), k) < |Keys()| ==> k <= Keys()[Rank(Keys(), k)]
    {
      LevelFacts(shape, node.Keys, lvl, 0);
      SortedFacts(shape, node.Keys, lvl, 0);
      assert Member(Keys(), k) <==> k in node;
      RankFacts(Keys(), k);
      RemoveFacts(Keys(), k);
    }

    /** The keys beside the rank of `k`, in terms of the map alone. */
    lemma Beside(k: Time)
      requires Valid()
      ensures Keys() == [] <==> node == map[]
      ensures forall p :: 0 <= p < |Keys()| ==> Keys()[p] in node && node[Keys()[p]].ts == Keys()[p]
      ensures var s, r := Keys(), Rank(Keys(), k);
              && (r > 0 ==> s[r - 1] < k) && (r < |s| ==> k <= s[r])
              && (forall n :: n in node && n < k ==> r > 0 && n <= s[r - 1])
              && (forall n :: n in node && k <= n ==> r < |s| && s[r] <= n)
              && (forall n :: n in node ==> s != [] && s[0] <= n <= s[|s| - 1])
    {
      hide Rank;
      NodeFacts();
      KeyFacts(k);
      RankNeighbors(Keys(), k);
      forall n ensures n in node <==> n in Keys() {
        assert Member(Keys(), n) <==> n in node;
      }
    }

    /** The step from the last key below `k` to the first key not below it. */
    lemma StepFacts(k: Time)
      requires Valid() && 1 <= Rank(Keys(), k)
      ensures var r := Rank(Keys(), k);
              var x := Deref(node, To(Keys()[r - 1]));
              x != null && |x.forward| == maxLevs && x.ts == Keys()[r - 1] && (x == tail <==> r == |Keys()|) &&
              x.forward[0] == (if r < |Keys()| then Deref(node, To(Keys()[r])) else null) &&
              (r < |Keys()| ==> x.forward[0] != null && x.forward[0].ts == Keys()[r])
    {
      var r := Rank(Keys(), k);
      if r < |Keys()| { EntryFacts(0, r); }
      EntryFacts(0, r - 1);
      EntryFacts(0, |Keys()| - 1);
    }

    /** The step from the head to the entry after it. */
    lemma HeadStep()
      requires Valid() && head != null
      ensures |head.forward| == maxLevs
      ensures head.forward[0] != null ==> head.ts < head.forward[0].ts
    {
      EntryFacts(0, 0);
      LevelFacts(shape, node.Keys, lvl, 0);
      assert 2 <= |Keys()| ==> Before(Keys(), 0, 1);
    }

    /** Walks right on level `i` while the next key is below `k`. */
    method Walk(i: nat, from: Entry, k: Time) returns (x: Entry)
      requires Valid() && i < maxLevs
      requires from.ts in shape.levels[i] && from == Deref(node, To(from.ts))
      ensures x == Deref(node, To(x.ts))
      ensures if from.ts < k then IsPred(shape.levels[i], x.ts, k) else x == from
    {
      x := from;
      ghost var p: nat :| p < |shape.levels[i]| && shape.levels[i][p] == x.ts;
      EntryFacts(i, p);
      while x.forward[i] != null && x.forward[i].ts < k
        invariant p < |shape.levels[i]| && shape.levels[i][p] == x.ts
        invariant x == Deref(node, To(x.ts)) && (x.ts < k || x == from) && |x.forward| == maxLevs
        invariant from.ts <= x.ts
        decreases |shape.levels[i]| - p
      {
        EntryFacts(i, p);
        x := x.forward[i];
        p := p + 1;
        EntryFacts(i, p);
        assert shape.levels[i][p - 1] < shape.levels[i][p] by {
          LevelFacts(shape, node.Keys, lvl, i);
          assert Before(shape.levels[i], p - 1, p);
        }
      }
      EntryFacts(i, p);
      if p + 1 < |shape.levels[i]| { EntryFacts(i, p + 1); }
      LevelFacts(shape, node.Keys, lvl, i);
      if from.ts < k { PredAt(shape.levels[i], p, k); }
    }

    /**
     On each level, the last entry whose key is below `k`.  Above `lvl` that is the head, so those slots are set
     to it from the start.
     */
    method FindPreds(k: Time) returns (update: seq<Entry>)
      requires Valid() && head != null
      ensures |update| == maxLevs
      ensures forall i :: 0 <= i < maxLevs ==> update[i] == Deref(node, To(update[i].ts))
      ensures forall i {:trigger update[i]} :: 0 <= i < maxLevs ==>
                if head.ts < k then IsPred(shape.levels[i], update[i].ts, k) else update[i] == head
    {
      LevelFacts(shape, node.Keys, lvl, lvl - 1);
      var x: Entry := head;
      var i := lvl;
      update := seq(maxLevs, _ => x);
      forall l | lvl <= l < maxLevs && head.ts < k ensures IsPred(shape.levels[l], update[l].ts, k) {
        BarePred(shape, node.Keys, lvl, l, k);
      }
      while i > 0
        invariant 0 <= i <= lvl && |update| == maxLevs
        invariant x == Deref(node, To(x.ts)) && (if head.ts < k then x.ts < k else x == head)
        invariant 0 < i ==> x.ts in shape.levels[i - 1]
        invariant forall l :: 0 <= l < maxLevs ==> update[l] == Deref(node, To(update[l].ts))
        invariant forall l {:trigger update[l]} :: i <= l < maxLevs ==>
                    if head.ts < k then IsPred(shape.levels[l], update[l].ts, k) else update[l] == head
      {
        i := i - 1;
        if i > 0 { LevelFacts(shape, node.Keys, lvl, i - 1); }
        x := Walk(i, x, k);
        update := update[i := x];
      }
    }

    /** The entry before key `k`, wrapping to the last entry when `k` is at or before the head. */
    method ClosestPred(k: Time) returns (x: Entry?)
      requires Valid()
      ensures Keys() == [] ==> x == null
      ensures Keys() != [] ==>
                var r := Rank(Keys(), k);
                x == Deref(node, To(Keys()[if r == 0 then |Keys()| - 1 else r - 1]))
      ensures node == map[] <==> x == null
      ensures x != null ==> x.ts in node && node[x.ts] == x
      ensures x != null && (exists n :: n in node && n < k) ==> x.ts < k && forall n :: n in node && n < k ==> n <= x.ts
      ensures x != null && (forall n :: n in node ==> k <= n) ==> forall n :: n in node ==> n <= x.ts
    {
      KeyFacts(k);
      Beside(k);
      if head == null { return null; }
      if k <= head.ts { return tail; }
      var update := FindPreds(k);
      PredRank(shape.levels[0], update[0].ts, k);
      return update[0];
    }

    /** Agrees with looking `k` up in the map. */
    method Search(k: Time) returns (e: Entry?)
      requires Valid()
      ensures e == if k in node then node[k] else null
    {
      KeyFacts(k);
      if head == null { return null; }
      if k < head.ts { return null; }
      if k == head.ts { return head; }
      StepFacts(k);
      var x := ClosestPred(k);
      if x == null { return null; }
      e := x.forward[0];
      if e != null && e.ts == k { return e; }
      return null;
    }

    /** The first entry at or after `k`, wrapping to the head when `k` is past the last entry. */
    method ClosestSucc(k: Time) returns (x: Entry?)
      requires Valid()
      ensures Keys() == [] ==> x == null
      ensures Keys() != [] ==>
                var r := Rank(Keys(), k);
                x == Deref(node, To(Keys()[if r == |Keys()| then 0 else r]))
      ensures node == map[] <==> x == null
      ensures x != null ==> x.ts in node && node[x.ts] == x
      ensures x != null && (exists n :: n in node && k <= n) ==>
                k <= x.ts && forall n :: n in node && k <= n ==> x.ts <= n
      ensures x != null && (forall n :: n in node ==> n < k) ==> forall n :: n in node ==> x.ts <= n
    {
      KeyFacts(k);
      Beside(k);
      if head == null { return null; }
      if k <= head.ts { return head; }
      if k > tail.ts { return head; }
      StepFacts(k);
      x := ClosestPred(k);
      if x == null { return null; }
      if x == tail {
        x := head;
      } else {
        x := x.forward[0];
      }
    }

    /** The pointer writes of a new head: level by level, `elm` points at the old head or past it. */
    method ThreadHead(elm: Entry, newlvl: nat)
      requires 1 <= newlvl <= maxLevs && 1 <= lvl <= maxLevs
      requires elm != head && |elm.forward| == maxLevs
      requires head == null ==> lvl == 1
      requires head != null ==> |head.forward| == maxLevs && forall j :: lvl <= j < maxLevs ==> head.forward[j] == null
      modifies this`lvl, elm`forward, if head == null then {} else {head}`forward
      ensures |elm.forward| == maxLevs && lvl == if newlvl < old(lvl) then old(lvl) else newlvl
      ensures forall j :: 0 <= j < maxLevs ==>
                (elm.forward[j] == if j < newlvl then head else if head == null then null else old(head.forward)[j])
      ensures head != null ==> |head.forward| == maxLevs
      ensures head != null ==> forall j :: 0 <= j < maxLevs ==>
                head.forward[j] == if j < newlvl then old(head.forward)[j] else null
    {
      var i := 0;
      if newlvl < lvl {
        while i < newlvl
          invariant 0 <= i <= newlvl && |elm.forward| == maxLevs
          invariant forall j :: 0 <= j < i ==> elm.forward[j] == head
          modifies elm`forward
        {
          elm.forward := elm.forward[i := head];
          i := i + 1;
        }
        while i < lvl
          invariant newlvl <= i <= lvl && |elm.forward| == |head.forward| == maxLevs
          invariant forall j :: 0 <= j < i ==> elm.forward[j] == if j < newlvl then head else old(head.forward)[j]
          invariant forall j :: 0 <= j < maxLevs ==>
                      head.forward[j] == if newlvl <= j < i then null else old(head.forward)[j]
          modifies elm`forward, head`forward
        {
          elm.forward := elm.forward[i := head.forward[i]];
          head.forward := head.forward[i := null];
          i := i + 1;
        }
      } else {
        while i < newlvl
          invariant 0 <= i <= newlvl && |elm.forward| == maxLevs
          invariant forall j :: 0 <= j < i ==> elm.forward[j] == head
          modifies elm`forward
        {
          elm.forward := elm.forward[i := head];
          i := i + 1;
        }
        if head != null {
          i := lvl;
          while i < newlvl
            invariant lvl <= i <= newlvl && |head.forward| == maxLevs
            invariant forall j :: 0 <= j < maxLevs ==>
                        head.forward[j] == if lvl <= j < i then null else old(head.forward)[j]
            modifies head`forward
          {
            head.forward := head.forward[i := null];
            i := i + 1;
          }
        }
        lvl := newlvl;
      }
      i := lvl;
      while i < maxLevs
        invariant lvl <= i <= maxLevs && |elm.forward| == maxLevs
        invariant forall j :: 0 <= j < lvl ==> elm.forward[j] == if j < newlvl then head else old(head.forward)[j]
        invariant forall j :: lvl <= j < i ==> elm.forward[j] == null
        modifies elm`forward
      {
        elm.forward := elm.forward[i := null];
        i := i + 1;
      }
    }

    /** All the pointer writes of `InsertHead`. */
    method LinkHead(elm: Entry, newlvl: nat)
      requires Valid() && elm.ts !in node && |elm.forward| == maxLevs && 1 <= newlvl <= maxLevs
      modifies this`lvl, Repr`forward, Repr`previous, elm`forward, elm`previous
      ensures lvl == if newlvl < old(lvl) then old(lvl) else newlvl
      ensures Tied(Push(shape, elm.ts, newlvl), node[elm.ts := elm], Repr + {elm})
    {
      if head != null {
        EntryFacts(0, 0);
        forall i | lvl <= i < maxLevs ensures head.forward[i] == null {
          LevelFacts(shape, node.Keys, lvl, i);
          EntryFacts(i, 0);
        }
      }
      ThreadHead(elm, newlvl);
      elm.previous := null;
      if head != null { head.previous := elm; }
      PushTied(shape, node, Repr, old(lvl), head, elm, newlvl);
    }

    /** Puts `elm` in front of the list; the old head is cut (or grown) to a random height. */
    method InsertHead(elm: Entry)
      requires Valid() && elm.ts !in node && |elm.forward| == maxLevs
      requires head != null ==> elm.ts < head.ts
      modifies this, Repr`forward, Repr`previous, elm`forward, elm`previous
      ensures Valid() && Repr == old(Repr) + {elm}
      ensures node == old(node)[elm.ts := elm]
      ensures Keys() == [elm.ts] + old(Keys())
    {
      var newlvl := RndLvl();
      PushSound(shape, node.Keys, lvl, elm.ts, newlvl, if newlvl < lvl then lvl else newlvl);
      KeysAfter(node, elm, Repr);
      LinkHead(elm, newlvl);
      SetFields(elm, if tail == null then elm else tail, sz + 1, lvl, Push(shape, elm.ts, newlvl),
                node[elm.ts := elm], Repr + {elm});
    }

    /** The plain fields, and what they stand for, after an operation has rewired the pointers. */
    method SetFields(h: Entry?, t: Entry?, n: nat, l: nat, ghost sh: Shape, ghost nodes: map<Time, Entry>,
                     ghost repr: set<Entry>)
      modifies this
      ensures head == h && tail == t && sz == n && lvl == l
      ensures shape == sh && node == nodes && Repr == repr
    {
      head, tail, sz, lvl := h, t, n, l;
      shape, node, Repr := sh, nodes, repr;
    }

    /** Threads `elm` behind its predecessors on the lowest `newlvl` levels. */
    method ThreadInside(elm: Entry, update: seq<Entry>, newlvl: nat)
      requires 1 <= newlvl <= maxLevs == |update| == |elm.forward| && elm !in Repr
      requires forall e :: e in Repr ==> |e.forward| == maxLevs
      requires forall i :: 0 <= i < maxLevs ==> update[i] in Repr
      modifies Repr`forward, elm`forward
      ensures |elm.forward| == maxLevs && forall e :: e in Repr ==> |e.forward| == maxLevs
      ensures forall i :: 0 <= i < maxLevs ==> elm.forward[i] == if i < newlvl then old(update[i].forward[i]) else null
      ensures forall e, i {:trigger e.forward[i]} :: e in Repr && 0 <= i < maxLevs ==>
                e.forward[i] == if i < newlvl && e == update[i] then elm else old(e.forward[i])
    {
      var i := 0;
      while i < newlvl
        invariant 0 <= i <= newlvl && |elm.forward| == maxLevs && forall e :: e in Repr ==> |e.forward| == maxLevs
        invariant forall j :: 0 <= j < i ==> elm.forward[j] == old(update[j].forward[j])
        invariant forall e, j {:trigger e.forward[j]} :: e in Repr && 0 <= j < maxLevs ==>
                    e.forward[j] == if j < i && e == update[j] then elm else old(e.forward[j])
      {
        elm.forward := elm.forward[i := update[i].forward[i]];
        update[i].forward := update[i].forward[i := elm];
        i := i + 1;
      }
      while i < maxLevs
        invariant newlvl <= i <= maxLevs && |elm.forward| == maxLevs
        invariant forall j :: 0 <= j < i ==> elm.forward[j] == if j < newlvl then old(update[j].forward[j]) else null
        modifies elm`forward
      {
        elm.forward := elm.forward[i := null];
        i := i + 1;
      }
    }

    /** All the pointer writes of an insertion behind `update`. */
    method LinkInside(elm: Entry, update: seq<Entry>, newlvl: nat, ghost preds: seq<Time>)
      requires Valid() && elm.ts !in node && |elm.forward| == maxLevs && 1 <= newlvl <= maxLevs == |update| == |preds|
      requires forall i :: 0 <= i < maxLevs ==> update[i].ts == preds[i] && update[i] == Deref(node, To(preds[i]))
      requires PredsFound(shape, preds, elm.ts, newlvl)
      modifies Repr`forward, Repr`previous, elm`forward, elm`previous
      ensures Tied(Splice(shape, preds, elm.ts, newlvl), node[elm.ts := elm], Repr + {elm})
    {
      hide Chained, BackChained, Nested, Covers, LevelSound;
      forall e | e in Repr ensures TiedEntry(shape, node, e) {}
      var prev := update[0];
      var x := prev.forward[0];
      ThreadInside(elm, update, newlvl);
      if x != null { x.previous := elm; }
      elm.previous := prev;
      SpliceTied(shape, node, Repr, lvl, preds, elm, newlvl);
    }

    /** Adds `elm` unless its key is present already. */
    method Insert(elm: Entry) returns (ok: bool)
      requires Valid() && |elm.forward| == maxLevs
      modifies this, Repr`forward, Repr`previous, elm`forward, elm`previous
      ensures Valid()
      ensures ok <==> elm.ts !in old(node)
      ensures node == if ok then old(node)[elm.ts := elm] else old(node)
      ensures Repr == if ok then old(Repr) + {elm} else old(Repr)
      ensures Keys() == if ok then InsertKey(old(Keys()), elm.ts) else old(Keys())
    {
      KeyFacts(elm.ts);
      if head == null || elm.ts < head.ts {
        InsertHead(elm);
        return true;
      } else if elm.ts == head.ts {
        return false;
      }
      StepFacts(elm.ts);
      var update := FindPreds(elm.ts);
      PredRank(shape.levels[0], update[0].ts, elm.ts);
      var x := update[0].forward[0];
      if x == null || elm.ts < x.ts {
        InsertInside(elm, update, x);
        return true;
      }
      return false;
    }

    /** Both end pointers after an insertion behind the head. */
    lemma InsideEnds(elm: Entry)
      requires Valid() && head != null && head.ts < elm.ts && elm.ts !in node
      ensures var keys := InsertKey(Keys(), elm.ts); var node' := node[elm.ts := elm];
              && |keys| == sz + 1
              && head == Deref(node', To(keys[0]))
              && Deref(node', To(keys[sz])) == if Rank(Keys(), elm.ts) == |Keys()| then elm else tail
    {
      KeyFacts(elm.ts);
      InsertEnds(Keys(), elm.ts);
    }

    method InsertInside(elm: Entry, update: seq<Entry>, x: Entry?)
      requires Valid() && elm.ts !in node && |elm.forward| == maxLevs == |update| && head != null
      requires forall i :: 0 <= i < maxLevs ==> update[i] == Deref(node, To(update[i].ts))
      requires forall i {:trigger update[i]} :: 0 <= i < maxLevs ==> IsPred(shape.levels[i], update[i].ts, elm.ts)
      requires head.ts < elm.ts && (x == null <==> Rank(Keys(), elm.ts) == |Keys()|)
      modifies this, Repr`forward, Repr`previous, elm`forward, elm`previous
      ensures Valid() && Repr == old(Repr) + {elm}
      ensures node == old(node)[elm.ts := elm]
      ensures Keys() == InsertKey(old(Keys()), elm.ts)
    {
      hide Sound, Tied;
      ghost var preds := seq(maxLevs, i requires 0 <= i < |update| => update[i].ts);
      var newlvl := RndLvl();
      SpliceSound(shape, node.Keys, lvl, preds, elm.ts, newlvl);
      KeysAfter(node, elm, Repr);
      ghost var shape', node', repr' := Splice(shape, preds, elm.ts, newlvl), node[elm.ts := elm], Repr + {elm};
      var tail' := if x == null then elm else tail;
      InsideEnds(elm);
      LinkInside(elm, update, newlvl, preds);
      assert Tied(shape', node', repr');
      SetFields(head, tail', sz + 1, if newlvl > lvl then newlvl else lvl, shape', node', repr');
      assert Tied(shape', node', repr');
    }

    /** Lowers `lvl` past the levels that thread only the head. */
    method TrimLevels()
      requires Valid() && head != null
      modifies this`lvl
      ensures Valid() && lvl <= old(lvl)
      ensures |head.forward| == maxLevs && (lvl == 1 || head.forward[lvl - 1] != null)
      ensures forall i :: lvl <= i < old(lvl) ==> head.forward[i] == null
    {
      EntryFacts(0, 0);
      while lvl > 1 && head.forward[lvl - 1] == null
        invariant Valid() && head != null && |head.forward| == maxLevs && lvl <= old(lvl)
        invariant forall i :: lvl <= i < old(lvl) ==> head.forward[i] == null
        invariant TiedEntry(shape, node, head) && shape.levels[0] != [] && head.ts == shape.levels[0][0]
        modifies this`lvl
      {
        LinksClosed(shape, node.Keys, lvl, lvl - 1, head.ts);
        LowerSound(shape, node.Keys, lvl);
        lvl := lvl - 1;
      }
    }

    /** Lets the entry after the head take over every level on which the head was not already followed by it. */
    method UnthreadHead(next: Entry, oldHead: Entry)
      requires 1 <= lvl <= maxLevs && next != oldHead
      requires |next.forward| == |oldHead.forward| == maxLevs && oldHead.forward[0] == next
      requires forall i, j :: 0 <= i <= j < maxLevs && oldHead.forward[j] == next ==> oldHead.forward[i] == next
      modifies next`forward
      ensures |next.forward| == maxLevs
      ensures forall i :: 0 <= i < maxLevs ==>
                next.forward[i] == if i < lvl && oldHead.forward[i] != next then oldHead.forward[i]
                                   else old(next.forward[i])
    {
      var i: nat := lvl - 1;
      while true
        invariant i < lvl && |next.forward| == maxLevs
        invariant forall j :: i < j < lvl ==> oldHead.forward[j] != next
        invariant forall j :: 0 <= j < maxLevs ==>
                    next.forward[j] == if i < j < lvl then oldHead.forward[j] else old(next.forward[j])
        decreases i
      {
        if oldHead.forward[i] != next {
          next.forward := next.forward[i := oldHead.forward[i]];
        } else {
          break;
        }
        i := i - 1;
      }
    }

    /** What the head's pointers say about the entry after it, level by level. */
    lemma SecondEntry(i: nat)
      requires Valid() && 2 <= |Keys()| && i < maxLevs
      ensures var h, next := Keys()[0], Keys()[1];
              && head != null && head.ts == h && TiedEntry(shape, node, head)
              && next in node && node[next] in Repr && node[next].ts == next && TiedEntry(shape, node, node[next])
              && (head.forward[i] == node[next] <==> At(shape.fwd[i], h) == To(next))
              && (head.forward[i] == node[next] <==> next in shape.levels[i])
              && (lvl <= i ==> head.forward[i] == null && node[next].forward[i] == null)
    {
      SecondFacts(shape, node.Keys, lvl, i);
      EntryFacts(i, 0);
      EntryFacts(0, 1);
      EntryFacts(0, 0);
      LevelFacts(shape, node.Keys, lvl, i);
    }

    /** All the pointer writes of removing the head. */
    method UnlinkHead(next: Entry)
      requires Valid() && 2 <= |Keys()| && head != null && next == Deref(node, To(Keys()[1]))
      modifies Repr`forward, Repr`previous
      ensures Tied(Behead(shape), node - {shape.levels[0][0]}, Repr - {head})
    {
      SecondEntry(0);
      assert Before(Keys(), 0, 1);
      forall i | 0 <= i < maxLevs
        ensures head.forward[i] == next <==> At(shape.fwd[i], head.ts) == To(next.ts)
        ensures head.forward[i] == next <==> next.ts in shape.levels[i]
        ensures lvl <= i ==> head.forward[i] == null && next.forward[i] == null
      {
        SecondEntry(i);
      }
      assert forall i, j :: 0 <= i <= j < maxLevs && head.forward[j] == next ==> head.forward[i] == next;
      UnthreadHead(next, head);
      next.previous := null;
      BeheadTied(shape, node, Repr, lvl, next);
    }

    method RemoveHead(next: Entry)
      requires Valid() && 2 <= |Keys()| && head != null && next == Deref(node, To(Keys()[1]))
      modifies this, Repr`forward, Repr`previous
      ensures Valid()
      ensures node == old(node) - {old(head).ts} && Repr == old(Repr) - {old(head)}
      ensures Keys() == old(Keys())[1..]
    {
      BeheadSound(shape, node.Keys, lvl);
      SecondEntry(0);
      EntryFacts(0, |Keys()| - 1);
      assert Before(Keys(), 0, |Keys()| - 1);
      KeysAfter(node, head, Repr);
      ghost var h := head.ts;
      ghost var shape', node', repr' := Behead(shape), node - {h}, Repr - {head};
      UnlinkHead(next);
      assert Tied(shape', node', repr');
      SetFields(next, tail, sz - 1, lvl, shape', node', repr');
      assert Tied(shape', node', repr');
      TrimLevels();
    }

    /** Takes `x` off every level on which its predecessor points at it. */
    method UnthreadInside(x: Entry, update: seq<Entry>)
      requires 1 <= lvl <= maxLevs == |update| && x in Repr
      requires forall e :: e in Repr ==> |e.forward| == maxLevs
      requires forall i :: 0 <= i < maxLevs ==> update[i] in Repr && update[i] != x
      requires forall i, j :: 0 <= i <= j < maxLevs && update[j].forward[j] == x ==> update[i].forward[i] == x
      requires forall i :: lvl <= i < maxLevs ==> update[i].forward[i] != x
      modifies Repr`forward
      ensures forall e :: e in Repr ==> |e.forward| == maxLevs
      ensures forall e, i {:trigger e.forward[i]} :: e in Repr && 0 <= i < maxLevs ==>
                e.forward[i] == if e == update[i] && old(e.forward[i]) == x then old(x.forward[i])
                                else old(e.forward[i])
    {
      var i := 0;
      while i < lvl
        invariant 0 <= i <= lvl
        invariant forall e :: e in Repr ==> |e.forward| == maxLevs
        invariant forall e, j {:trigger e.forward[j]} :: e in Repr && 0 <= j < maxLevs ==>
                    e.forward[j] == if j < i && e == update[j] then old(x.forward[j]) else old(e.forward[j])
        invariant forall j :: 0 <= j < i ==> old(update[j].forward[j]) == x
      {
        if update[i].forward[i] != x { break; }
        update[i].forward := update[i].forward[i := x.forward[i]];
        i := i + 1;
      }
    }

    /** What the predecessors of `x` say about it. */
    lemma PredEntries(x: Entry, update: seq<Entry>, i: nat)
      requires Valid() && head != null && |update| == maxLevs && x in Repr && head.ts < x.ts && i < maxLevs
      requires update[i] == Deref(node, To(update[i].ts)) && IsPred(shape.levels[i], update[i].ts, x.ts)
      ensures update[i] in Repr && update[i] != x && |update[i].forward| == maxLevs
      ensures update[i].forward[i] == x <==> x.ts in shape.levels[i]
      ensures At(shape.fwd[i], update[i].ts) == To(x.ts) <==> x.ts in shape.levels[i]
      ensures lvl <= i ==> x.ts !in shape.levels[i]
    {
      PredPoints(shape, node.Keys, lvl, update[i].ts, x.ts, i);
      var r := Rank(shape.levels[i], x.ts);
      EntryFacts(i, r - 1);
      LevelFacts(shape, node.Keys, lvl, i);
    }

    /** All the pointer writes of removing `x` from inside the list. */
    method UnlinkInside(x: Entry, update: seq<Entry>, ghost preds: seq<Time>)
      requires Valid() && head != null && |update| == |preds| == maxLevs && x in Repr && head.ts < x.ts
      requires forall i :: 0 <= i < maxLevs ==> update[i].ts == preds[i] && update[i] == Deref(node, To(preds[i]))
      requires PredsFound(shape, preds, x.ts, maxLevs)
      modifies Repr`forward, Repr`previous
      ensures Tied(Unlink(shape, preds, x.ts), node - {x.ts}, Repr - {x})
    {
      forall e | e in Repr ensures TiedEntry(shape, node, e) {}
      forall i | 0 <= i < maxLevs
        ensures update[i] in Repr && update[i] != x && |update[i].forward| == maxLevs
        ensures update[i].forward[i] == x <==> x.ts in shape.levels[i]
        ensures At(shape.fwd[i], preds[i]) == To(x.ts) <==> x.ts in shape.levels[i]
        ensures lvl <= i ==> x.ts !in shape.levels[i]
      {
        PredEntries(x, update, i);
      }
      var next := x.forward[0];
      UnthreadInside(x, update);
      if next != null { next.previous := update[0]; }
      UnlinkTied(shape, node, Repr, lvl, preds, x.ts);
    }

    /** Both end pointers after a removal behind the head. */
    lemma RemovedEnds(x: Entry, prev: Entry)
      requires Valid() && head != null && head.ts < x.ts && x in Repr
      requires prev == Deref(node, To(prev.ts)) && IsPred(Keys(), prev.ts, x.ts)
      ensures var keys := RemoveKey(Keys(), x.ts); var node' := node - {x.ts};
              && |keys| == sz - 1 && 2 <= sz
              && head == Deref(node', To(keys[0]))
              && Deref(node', To(keys[sz - 2])) == if Rank(Keys(), x.ts) == sz - 1 then prev else tail
    {
      KeyFacts(x.ts);
      PredRank(Keys(), prev.ts, x.ts);
      EntryFacts(0, |Keys()| - 1);
      Ordered(Keys());
    }

    method RemoveInside(x: Entry, update: seq<Entry>)
      requires Valid() && head != null && |update| == maxLevs && x in Repr && head.ts < x.ts
      requires forall i :: 0 <= i < maxLevs ==> update[i] == Deref(node, To(update[i].ts))
      requires forall i {:trigger update[i]} :: 0 <= i < maxLevs ==> IsPred(shape.levels[i], update[i].ts, x.ts)
      requires |x.forward| == maxLevs && (x.forward[0] == null <==> Rank(Keys(), x.ts) == sz - 1)
      modifies this, Repr`forward, Repr`previous
      ensures Valid()
      ensures node == old(node) - {x.ts} && Repr == old(Repr) - {x}
      ensures Keys() == RemoveKey(old(Keys()), x.ts)
    {
      hide Sound, Tied, Chained, Nested;
      ghost var preds := seq(maxLevs, i requires 0 <= i < |update| => update[i].ts);
      UnlinkSound(shape, node.Keys, lvl, preds, x.ts);
      KeysAfter(node, x, Repr);
      RemovedEnds(x, update[0]);
      ghost var shape', node', repr' := Unlink(shape, preds, x.ts), node - {x.ts}, Repr - {x};
      var tail' := if x.forward[0] == null then update[0] else tail;
      UnlinkInside(x, update, preds);
      assert Tied(shape', node', repr');
      SetFields(head, tail', sz - 1, lvl, shape', node', repr');
      assert Tied(shape', node', repr');
      TrimLevels();
    }

    /** A head without a successor is the only entry; removing it empties the list. */
    method RemoveOnly()
      requires Valid() && head != null && |head.forward| == maxLevs && head.forward[0] == null
      modifies this
      ensures Valid()
      ensures node == old(node) - {old(head).ts} && Repr == old(Repr) - {old(head)}
      ensures |old(Keys())| == 1 && Keys() == []
    {
      EntryFacts(0, 0);
      KeyFacts(head.ts);
      forall n | n in node ensures n == head.ts {
        assert Member(Keys(), n);
      }
      assert node - {head.ts} == map[];
      assert Repr - {head} == {};
      SetFields(null, null, sz - 1, 1, Empty(maxLevs), map[], {});
    }

    /** Removes the entry with key `k` and returns it, or null when there is none. */
    method Remove(k: Time) returns (e: Entry?)
      requires Valid()
      modifies this, Repr`forward, Repr`previous
      ensures Valid()
      ensures e == if k in old(node) then old(node)[k] else null
      ensures node == old(node) - {k} && Repr == old(Repr) - (if e == null then {} else {e})
      ensures Keys() == RemoveKey(old(Keys()), k)
    {
      hide Chained, BackChained, Nested, Covers, LevelSound;
      KeyFacts(k);
      var oldhead := head;
      if head == null { return null; }
      EntryFacts(0, 0);
      if head.ts == k {
        var next := head.forward[0];
        if next == null {
          RemoveOnly();
        } else {
          RemoveHead(next);
        }
        return oldhead;
      }
      if head.ts < k { StepFacts(k); } else { HeadStep(); }
      var update := FindPreds(k);
      if head.ts < k { PredRank(shape.levels[0], update[0].ts, k); }
      var x := update[0].forward[0];
      if x != null && x.ts == k {
        EntryFacts(0, Rank(Keys(), k));
        if Rank(Keys(), k) + 1 < |Keys()| { EntryFacts(0, Rank(Keys(), k) + 1); }
        RemoveInside(x, update);
        return x;
      }
      return null;
    }
  }
}
