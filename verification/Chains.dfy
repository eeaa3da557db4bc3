/**
 The pointer structure of a skip list as plain values.

 Entries are named by their keys, which a list never repeats.  A `Shape` records every forward and backward
 link together with the keys threaded on each level; `Sound` says that the links really thread them.  Each
 operation of the list is a function on shapes, and a lemma shows that it keeps `Sound`.
 */
module Chains {
  import opened Events

  // ---------- Sorted keys: the reference the list is proved against ----------

  ghost predicate Increasing(s: seq<Time>) {
    forall i, j {:trigger Before(s, i, j)} :: 0 <= i < j < |s| ==> Before(s, i, j)
  }

  ghost predicate Before(s: seq<Time>, i: int, j: int)
    requires 0 <= i < j < |s|
  {
    s[i] < s[j]
  }

  /** `Increasing`, spelled out for a proof that compares keys by position. */
  lemma Ordered(s: seq<Time>)
    requires Increasing(s)
    ensures forall i, j :: 0 <= i < j < |s| ==> s[i] < s[j]
  {
    forall i, j | 0 <= i < j < |s| ensures s[i] < s[j] {
      assert Before(s, i, j);
    }
  }

  /** The number of keys below `k`, for sorted keys. */
  ghost function Rank(s: seq<Time>, k: Time): (r: nat)
    ensures r <= |s|
  {
    if s == [] then 0
    else if s[|s| - 1] < k then |s|
    else Rank(s[..|s| - 1], k)
  }

  lemma {:induction false} RankFacts(s: seq<Time>, k: Time)
    requires Increasing(s)
    ensures forall i :: 0 <= i < Rank(s, k) ==> s[i] < k
    ensures forall i :: Rank(s, k) <= i < |s| ==> k <= s[i]
  {
    Ordered(s);
    if s != [] && k <= s[|s| - 1] {
      RankFacts(s[..|s| - 1], k);
    }
  }

  /** What the keys beside a rank are among all keys. */
  lemma RankNeighbors(s: seq<Time>, k: Time)
    requires Increasing(s)
    ensures var r := Rank(s, k);
            && (r > 0 ==> s[r - 1] < k) && (r < |s| ==> k <= s[r])
            && (forall n :: n in s && n < k ==> r > 0 && n <= s[r - 1])
            && (forall n :: n in s && k <= n ==> r < |s| && s[r] <= n)
            && (forall n :: n in s ==> s[0] <= n <= s[|s| - 1])
  {
    Ordered(s);
    RankFacts(s, k);
  }

  ghost function InsertKey(s: seq<Time>, k: Time): seq<Time> {
    s[..Rank(s, k)] + [k] + s[Rank(s, k)..]
  }

  lemma InsertFacts(s: seq<Time>, k: Time)
    requires Increasing(s) && k !in s
    ensures Increasing(InsertKey(s, k))
    ensures forall n :: n in InsertKey(s, k) <==> n in s || n == k
  {
    Ordered(s);
    RankFacts(s, k);
  }

  ghost function RemoveKey(s: seq<Time>, k: Time): seq<Time> {
    var r := Rank(s, k);
    if r < |s| && s[r] == k then s[..r] + s[r + 1..] else s
  }

  lemma FindFacts(s: seq<Time>, k: Time)
    requires Increasing(s)
    ensures k in s <==> Rank(s, k) < |s| && s[Rank(s, k)] == k
  {
    RankFacts(s, k);
    if k in s {
      var p :| 0 <= p < |s| && s[p] == k;
      assert p == Rank(s, k) || Before(s, Rank(s, k), p);
    }
  }

  lemma RemoveFacts(s: seq<Time>, k: Time)
    requires Increasing(s)
    ensures Increasing(RemoveKey(s, k))
    ensures forall n :: n in RemoveKey(s, k) <==> n in s && n != k
    ensures k in s <==> Rank(s, k) < |s| && s[Rank(s, k)] == k
  {
    Ordered(s);
    RankFacts(s, k);
    var r := Rank(s, k);
    var t := RemoveKey(s, k);
    if r < |s| && s[r] == k {
      forall j | 0 <= j < |s| && j != r ensures s[j] in t {
        assert s[j] == t[if j < r then j else j - 1];
      }
    }
  }

  /** `x` is the last key of `s` below `k`. */
  ghost predicate IsPred(s: seq<Time>, x: Time, k: Time) {
    && x in s && x < k
    && forall n :: n in s && n < k ==> n <= x
  }

  lemma PredRank(s: seq<Time>, x: Time, k: Time)
    requires Increasing(s) && IsPred(s, x, k)
    ensures 1 <= Rank(s, k) && s[Rank(s, k) - 1] == x
  {
    Ordered(s);
    RankFacts(s, k);
    var r := Rank(s, k);
    var p :| 0 <= p < |s| && s[p] == x;
    assert p < r;
    assert s[r - 1] in s;
  }

  lemma PredAt(s: seq<Time>, p: nat, k: Time)
    requires Increasing(s) && p < |s| && s[p] < k && (p + 1 < |s| ==> k <= s[p + 1])
    ensures IsPred(s, s[p], k)
  {
    Ordered(s);
  }

  // ---------- Links ----------

  datatype Link = Nil | To(key: Time)

  /** The links of one level, of one direction. */
  type Links = map<Time, Link>

  ghost function At(links: Links, k: Time): Link {
    if k in links then links[k] else Nil
  }

  ghost function Next(s: seq<Time>, j: int): Link
    requires 0 <= j < |s|
  {
    if j + 1 < |s| then To(s[j + 1]) else Nil
  }

  ghost function Prev(s: seq<Time>, j: int): Link
    requires 0 <= j < |s|
  {
    if j == 0 then Nil else To(s[j - 1])
  }

  /** `links` threads exactly the keys of `s`, in order; every other entry holds null. */
  ghost predicate Chained(links: Links, s: seq<Time>) {
    && (forall j :: 0 <= j < |s| ==> s[j] in links)
    && (forall j {:trigger Next(s, j)} :: 0 <= j < |s| ==> links[s[j]] == Next(s, j))
    && (forall n {:trigger links[n]} :: n in links && n !in s ==> links[n] == Nil)
  }

  ghost predicate BackChained(links: Links, s: seq<Time>) {
    && (forall j :: 0 <= j < |s| ==> s[j] in links)
    && (forall j {:trigger Prev(s, j)} :: 0 <= j < |s| ==> links[s[j]] == Prev(s, j))
  }

  /** Every level holds only keys that the levels below it hold too. */
  ghost predicate Nested(ls: seq<seq<Time>>) {
    forall i, j, n {:trigger n in ls[i], n in ls[j]} :: 0 <= i <= j < |ls| && n in ls[j] ==> n in ls[i]
  }

  ghost predicate Member(s: seq<Time>, n: Time) {
    n in s
  }

  /** Every key of `all` is in `s`. */
  ghost predicate Covers(s: seq<Time>, all: set<Time>) {
    forall n {:trigger Member(s, n)} :: n in all ==> Member(s, n)
  }

  /** All the pointers of a list (`fwd` by level), and the keys threaded on each level. */
  datatype Shape = Shape(fwd: seq<Links>, prv: Links, levels: seq<seq<Time>>)

  /** Level `i`: sorted, chained, headed like level 0, and bare from `lvl` up. */
  ghost predicate LevelSound(links: Links, s: seq<Time>, base: seq<Time>, all: set<Time>, lvl: nat, i: nat) {
    && Increasing(s) && Chained(links, s) && links.Keys == all
    && (s == [] <==> base == [])
    && (s != [] ==> s[0] == base[0])
    && (lvl <= i ==> |s| <= 1)
  }

  ghost predicate Sound(sh: Shape, all: set<Time>, lvl: nat) {
    && 1 <= |sh.levels| == |sh.fwd|
    && (forall i {:trigger LevelSound(sh.fwd[i], sh.levels[i], sh.levels[0], all, lvl, i)} ::
          0 <= i < |sh.levels| ==> LevelSound(sh.fwd[i], sh.levels[i], sh.levels[0], all, lvl, i))
    && Nested(sh.levels)
    && Covers(sh.levels[0], all)
    && sh.prv.Keys == all && BackChained(sh.prv, sh.levels[0])
  }

  lemma SortedFacts(sh: Shape, all: set<Time>, lvl: nat, i: nat)
    requires Sound(sh, all, lvl) && i < |sh.levels|
    ensures Increasing(sh.levels[i]) && forall n :: n in sh.levels[i] ==> n in all
  {
    LevelFacts(sh, all, lvl, i);
  }

  lemma LevelFacts(sh: Shape, all: set<Time>, lvl: nat, i: nat)
    requires Sound(sh, all, lvl) && i < |sh.levels|
    ensures LevelSound(sh.fwd[i], sh.levels[i], sh.levels[0], all, lvl, i)
  {
  }

  /** No link leaves the list. */
  lemma LinksClosed(sh: Shape, all: set<Time>, lvl: nat, i: nat, k: Time)
    requires Sound(sh, all, lvl) && i < |sh.fwd|
    ensures At(sh.fwd[i], k).To? ==> At(sh.fwd[i], k).key in all
    ensures At(sh.prv, k).To? ==> At(sh.prv, k).key in all
  {
    LevelFacts(sh, all, lvl, i);
    if At(sh.fwd[i], k).To? {
      var j :| 0 <= j < |sh.levels[i]| && sh.levels[i][j] == k;
      assert sh.fwd[i][k] == Next(sh.levels[i], j);
    }
    LevelFacts(sh, all, lvl, 0);
    if At(sh.prv, k).To? {
      assert Member(sh.levels[0], k);
      var j :| 0 <= j < |sh.levels[0]| && sh.levels[0][j] == k;
      assert sh.prv[k] == Prev(sh.levels[0], j);
    }
  }

  /** On a level that threads the head alone, the head is the predecessor of every later key. */
  lemma BarePred(sh: Shape, all: set<Time>, lvl: nat, i: nat, k: Time)
    requires Sound(sh, all, lvl) && lvl <= i < |sh.levels|
    requires sh.levels[0] != [] && sh.levels[0][0] < k
    ensures IsPred(sh.levels[i], sh.levels[0][0], k)
  {
    LevelFacts(sh, all, lvl, i);
    LevelFacts(sh, all, lvl, 0);
  }

  // ---------- A new head ----------

  /** The links after `e` became the head of chain `s`; the old head stays on the level or is cut from it. */
  ghost function PushLink(links: Links, s: seq<Time>, e: Time, stays: bool): Links {
    if s == [] then links[e := Nil]
    else if stays then links[e := To(s[0])]
    else links[e := At(links, s[0])][s[0] := Nil]
  }

  ghost function PushLevel(s: seq<Time>, e: Time, stays: bool): seq<Time> {
    [e] + if stays || s == [] then s else s[1..]
  }

  lemma PushChained(links: Links, s: seq<Time>, e: Time, stays: bool)
    requires Chained(links, s) && e !in links && forall j :: 1 <= j < |s| ==> s[j] != s[0]
    ensures Chained(PushLink(links, s, e, stays), PushLevel(s, e, stays))
  {
    var t := PushLevel(s, e, stays);
    var links' := PushLink(links, s, e, stays);
    forall j | 0 <= j < |t| ensures links'[t[j]] == Next(t, j) {
      var k := if stays then j - 1 else j;
      if j == 0 {
        assert s != [] ==> links[s[0]] == Next(s, 0);
      } else {
        assert t[j] == s[k] && links[s[k]] == Next(s, k);
      }
    }
    forall n | n in links' && n !in t ensures links'[n] == Nil {
      assert forall m :: (if stays then 0 else 1) <= m < |s| ==> s[m] == t[if stays then m + 1 else m];
    }
  }

  ghost function Push(sh: Shape, e: Time, height: nat): (r: Shape)
    requires 1 <= |sh.levels| == |sh.fwd|
    ensures |r.levels| == |sh.levels| == |r.fwd|
  {
    Shape(
      seq(|sh.fwd|, i requires 0 <= i < |sh.fwd| => PushLink(sh.fwd[i], sh.levels[i], e, i < height)),
      if sh.levels[0] == [] then sh.prv[e := Nil] else sh.prv[e := Nil][sh.levels[0][0] := To(e)],
      seq(|sh.levels|, i requires 0 <= i < |sh.levels| => PushLevel(sh.levels[i], e, i < height)))
  }

  lemma PushNested(sh: Shape, all: set<Time>, lvl: nat, e: Time, height: nat)
    requires Sound(sh, all, lvl) && e !in all && 1 <= height
    ensures Nested(Push(sh, e, height).levels)
  {
    var ls := sh.levels;
    var r := Push(sh, e, height).levels;
    forall i, j, n | 0 <= i <= j < |ls| && n in r[j] ensures n in r[i] {
      LevelFacts(sh, all, lvl, i);
      LevelFacts(sh, all, lvl, j);
      Ordered(ls[j]);
      if n != e {
        assert n in ls[j] && n in ls[i];
        var p :| 0 <= p < |ls[i]| && ls[i][p] == n;
        if i < height {
          assert r[i][p + 1] == n;
        } else {
          var q :| 0 <= q < |ls[j][1..]| && ls[j][1..][q] == n;
          assert Before(ls[j], 0, q + 1);
          assert p != 0;
          assert r[i][p] == n;
        }
      }
    }
  }

  lemma PushLevelSound(sh: Shape, all: set<Time>, lvl: nat, e: Time, height: nat, lvl': nat, i: nat)
    requires Sound(sh, all, lvl) && e !in all && 1 <= height && i < |sh.levels|
    requires sh.levels[0] != [] ==> e < sh.levels[0][0]
    requires height <= lvl' && (sh.levels[0] != [] ==> lvl <= lvl')
    ensures var r := Push(sh, e, height); LevelSound(r.fwd[i], r.levels[i], r.levels[0], all + {e}, lvl', i)
  {
    var s := sh.levels[i];
    LevelFacts(sh, all, lvl, i);
    Ordered(s);
    assert s != [] ==> s[0] in sh.fwd[i];
    PushChained(sh.fwd[i], s, e, i < height);
  }

  lemma PushBack(sh: Shape, all: set<Time>, lvl: nat, e: Time, height: nat)
    requires Sound(sh, all, lvl) && e !in all && 1 <= height
    ensures var r := Push(sh, e, height);
            BackChained(r.prv, r.levels[0]) && Covers(r.levels[0], all + {e}) && r.prv.Keys == all + {e}
  {
    var r := Push(sh, e, height);
    var base := sh.levels[0];
    LevelFacts(sh, all, lvl, 0);
    Ordered(base);
    assert r.levels[0] == [e] + base;
    forall j | 0 <= j < |r.levels[0]| ensures r.prv[r.levels[0][j]] == Prev(r.levels[0], j) {
      if 1 <= j { assert sh.prv[base[j - 1]] == Prev(base, j - 1); }
    }
    forall n | n in all + {e} ensures Member(r.levels[0], n) {
      assert n in all ==> Member(base, n);
    }
  }

  /** A key below the head, pushed with any height, leaves a sound list. */
  lemma PushSound(sh: Shape, all: set<Time>, lvl: nat, e: Time, height: nat, lvl': nat)
    requires Sound(sh, all, lvl) && e !in all && 1 <= height
    requires sh.levels[0] != [] ==> e < sh.levels[0][0]
    requires height <= lvl' && (sh.levels[0] != [] ==> lvl <= lvl')
    ensures Sound(Push(sh, e, height), all + {e}, lvl')
    ensures Push(sh, e, height).levels[0] == [e] + sh.levels[0]
  {
    PushNested(sh, all, lvl, e, height);
    PushBack(sh, all, lvl, e, height);
    forall i | 0 <= i < |sh.levels|
      ensures var r := Push(sh, e, height); LevelSound(r.fwd[i], r.levels[i], r.levels[0], all + {e}, lvl', i)
    {
      PushLevelSound(sh, all, lvl, e, height, lvl', i);
    }
  }

  /** What `Push` records for one key; every link it keeps leads to an old key. */
  lemma PushAt(sh: Shape, all: set<Time>, lvl: nat, e: Time, height: nat, i: nat, k: Time)
    requires Sound(sh, all, lvl) && e !in all && 1 <= height && i < |sh.fwd|
    ensures var r := Push(sh, e, height); var base := sh.levels[0];
            At(r.fwd[i], k) ==
            if k == e then (if base == [] then Nil else if i < height then To(base[0]) else At(sh.fwd[i], base[0]))
            else if base != [] && k == base[0] && height <= i then Nil
            else At(sh.fwd[i], k)
    ensures var r := Push(sh, e, height); var base := sh.levels[0];
            At(r.prv, k) == if k == e then Nil else if base != [] && k == base[0] then To(e) else At(sh.prv, k)
    ensures At(sh.fwd[i], k) != To(e) && At(sh.prv, k) != To(e)
    ensures sh.levels[0] != [] ==> sh.levels[0][0] in all && At(sh.fwd[i], sh.levels[0][0]) != To(e)
  {
    LevelFacts(sh, all, lvl, 0);
    LevelFacts(sh, all, lvl, i);
    LinksClosed(sh, all, lvl, i, k);
    if sh.levels[0] != [] { LinksClosed(sh, all, lvl, i, sh.levels[0][0]); }
  }

  // ---------- A new key inside the list ----------

  ghost function SpliceLink(links: Links, p: Time, e: Time, rises: bool): Links {
    if rises then links[e := At(links, p)][p := To(e)] else links[e := Nil]
  }

  ghost function SpliceLevel(s: seq<Time>, e: Time, rises: bool): seq<Time>
  {
    if rises then InsertKey(s, e) else s
  }

  /** Position `r - 1` of the chain gets the new successor `e`. */
  lemma SpliceChainedAt(links: Links, s: seq<Time>, r: nat, e: Time)
    requires Chained(links, s) && 1 <= r <= |s| && e !in links
    requires forall j :: 0 <= j < |s| && j != r - 1 ==> s[j] != s[r - 1]
    ensures Chained(links[e := At(links, s[r - 1])][s[r - 1] := To(e)], s[..r] + [e] + s[r..])
  {
    var t := s[..r] + [e] + s[r..];
    var links' := links[e := At(links, s[r - 1])][s[r - 1] := To(e)];
    forall j | 0 <= j < |t| ensures t[j] in links' && links'[t[j]] == Next(t, j) {
      var k := if j < r then j else j - 1;
      assert links[s[k]] == Next(s, k);
      assert j != r ==> t[j] == s[k];
    }
    forall n | n in links' && n !in t ensures links'[n] == Nil {
      assert forall m :: 0 <= m < |s| ==> s[m] == t[if m < r then m else m + 1];
    }
  }

  lemma SpliceChained(links: Links, s: seq<Time>, p: Time, e: Time, rises: bool)
    requires Chained(links, s) && Increasing(s) && e !in links && e !in s
    requires rises ==> IsPred(s, p, e)
    ensures Chained(SpliceLink(links, p, e, rises), SpliceLevel(s, e, rises))
  {
    if rises {
      PredRank(s, p, e);
      assert forall j :: 0 <= j < |s| && j != Rank(s, e) - 1 ==> s[j] != s[Rank(s, e) - 1] by {
        Ordered(s);
      }
      SpliceChainedAt(links, s, Rank(s, e), e);
    } else {
      forall j | 0 <= j < |s| ensures links[e := Nil][s[j]] == Next(s, j) {
        assert links[s[j]] == Next(s, j);
      }
    }
  }

  /** The predecessors the search found are right, on every level the new key rises to. */
  ghost predicate PredsFound(sh: Shape, preds: seq<Time>, e: Time, height: nat) {
    && |preds| == |sh.levels| && height <= |sh.levels|
    && forall i {:trigger preds[i]} :: 0 <= i < height ==> IsPred(sh.levels[i], preds[i], e)
  }

  ghost function Splice(sh: Shape, preds: seq<Time>, e: Time, height: nat): (r: Shape)
    requires 1 <= |sh.levels| == |sh.fwd| == |preds|
    ensures |r.levels| == |sh.levels| == |r.fwd|
  {
    var next := At(sh.fwd[0], preds[0]);
    var prv := sh.prv[e := To(preds[0])];
    Shape(
      seq(|sh.fwd|, i requires 0 <= i < |sh.fwd| => SpliceLink(sh.fwd[i], preds[i], e, i < height)),
      if next.To? then prv[next.key := To(e)] else prv,
      seq(|sh.levels|, i requires 0 <= i < |sh.levels| => SpliceLevel(sh.levels[i], e, i < height)))
  }

  lemma BackSplicedAt(prv: Links, s: seq<Time>, r: nat, e: Time)
    requires BackChained(prv, s) && 1 <= r <= |s| && e !in prv
    requires forall j :: 0 <= j < |s| && j != r && r < |s| ==> s[j] != s[r]
    ensures var prv' := prv[e := To(s[r - 1])];
            BackChained(if r < |s| then prv'[s[r] := To(e)] else prv', s[..r] + [e] + s[r..])
  {
    var t := s[..r] + [e] + s[r..];
    var prv' := prv[e := To(s[r - 1])];
    prv' := if r < |s| then prv'[s[r] := To(e)] else prv';
    forall j | 0 <= j < |t| ensures t[j] in prv' && prv'[t[j]] == Prev(t, j) {
      var k := if j < r then j else j - 1;
      assert prv[s[k]] == Prev(s, k);
      assert j != r ==> t[j] == s[k];
    }
  }

  lemma SpliceBack(sh: Shape, all: set<Time>, lvl: nat, preds: seq<Time>, e: Time, height: nat)
    requires Sound(sh, all, lvl) && e !in all && 1 <= height && PredsFound(sh, preds, e, height)
    ensures var r := Splice(sh, preds, e, height);
            BackChained(r.prv, r.levels[0]) && Covers(r.levels[0], all + {e}) && r.prv.Keys == all + {e}
  {
    var r := Splice(sh, preds, e, height);
    var s := sh.levels[0];
    var p := Rank(s, e);
    SortedFacts(sh, all, lvl, 0);
    PredRank(s, preds[0], e);
    assert At(sh.fwd[0], s[p - 1]) == Next(s, p - 1) by {
      LevelFacts(sh, all, lvl, 0);
      assert sh.fwd[0][s[p - 1]] == Next(s, p - 1);
    }
    assert forall j :: 0 <= j < |s| && j != p && p < |s| ==> s[j] != s[p] by {
      Ordered(s);
    }
    BackSplicedAt(sh.prv, s, p, e);
    InsertFacts(s, e);
    forall n | n in all + {e} ensures Member(r.levels[0], n) {
      assert n in all ==> Member(s, n);
    }
    assert p < |s| ==> s[p] in sh.prv;
  }

  lemma SpliceHead(s: seq<Time>, p: Time, e: Time)
    requires Increasing(s) && e !in s && IsPred(s, p, e)
    ensures s != [] && InsertKey(s, e) != [] && InsertKey(s, e)[0] == s[0] && p in s
  {
    PredRank(s, p, e);
  }

  /** A new key spliced in behind the predecessors that the search found leaves a sound list. */
  lemma SpliceSound(sh: Shape, all: set<Time>, lvl: nat, preds: seq<Time>, e: Time, height: nat)
    requires Sound(sh, all, lvl) && e !in all && 1 <= height && PredsFound(sh, preds, e, height)
    ensures Sound(Splice(sh, preds, e, height), all + {e}, if lvl < height then height else lvl)
    ensures Splice(sh, preds, e, height).levels[0] == InsertKey(sh.levels[0], e)
  {
    var r := Splice(sh, preds, e, height);
    var lvl' := if lvl < height then height else lvl;
    SpliceBack(sh, all, lvl, preds, e, height);
    forall i, j, n | 0 <= i <= j < |sh.levels| && n in r.levels[j] ensures n in r.levels[i] {
      if n != e { assert n in sh.levels[j] && n in sh.levels[i]; }
    }
    forall i | 0 <= i < |sh.levels|
      ensures LevelSound(r.fwd[i], r.levels[i], r.levels[0], all + {e}, lvl', i)
    {
      SpliceLevelSound(sh, all, lvl, preds, e, height, i);
    }
  }

  lemma SpliceLevelSound(sh: Shape, all: set<Time>, lvl: nat, preds: seq<Time>, e: Time, height: nat, i: nat)
    requires Sound(sh, all, lvl) && e !in all && 1 <= height && PredsFound(sh, preds, e, height) && i < |sh.levels|
    ensures var r := Splice(sh, preds, e, height);
            LevelSound(r.fwd[i], r.levels[i], r.levels[0], all + {e}, if lvl < height then height else lvl, i)
  {
    LevelFacts(sh, all, lvl, i);
    SpliceChained(sh.fwd[i], sh.levels[i], preds[i], e, i < height);
    SortedFacts(sh, all, lvl, 0);
    InsertFacts(sh.levels[i], e);
    SpliceHead(sh.levels[0], preds[0], e);
    if i < height {
      SpliceHead(sh.levels[i], preds[i], e);
      assert preds[i] in sh.fwd[i];
    }
    assert Splice(sh, preds, e, height).levels[i] == SpliceLevel(sh.levels[i], e, i < height);
    assert Splice(sh, preds, e, height).fwd[i] == SpliceLink(sh.fwd[i], preds[i], e, i < height);
  }

  /** What `Splice` records for one key; every link it keeps leads to an old key. */
  lemma SpliceAt(sh: Shape, all: set<Time>, lvl: nat, preds: seq<Time>, e: Time, height: nat, i: nat, k: Time)
    requires Sound(sh, all, lvl) && e !in all && 1 <= height && PredsFound(sh, preds, e, height) && i < |sh.fwd|
    ensures var r := Splice(sh, preds, e, height);
            At(r.fwd[i], k) ==
            if k == e then (if i < height then At(sh.fwd[i], preds[i]) else Nil)
            else if i < height && k == preds[i] then To(e)
            else At(sh.fwd[i], k)
    ensures var r := Splice(sh, preds, e, height);
            At(r.prv, k) ==
            if k == e then To(preds[0]) else if At(sh.fwd[0], preds[0]) == To(k) then To(e) else At(sh.prv, k)
    ensures At(sh.fwd[i], k) != To(e) && At(sh.prv, k) != To(e)
    ensures preds[0] in all && (i < height ==> preds[i] in all && At(sh.fwd[i], preds[i]) != To(e))
    ensures At(sh.fwd[0], preds[0]) != To(e)
  {
    LevelFacts(sh, all, lvl, 0);
    LevelFacts(sh, all, lvl, i);
    LinksClosed(sh, all, lvl, i, k);
    LinksClosed(sh, all, lvl, i, preds[i]);
    LinksClosed(sh, all, lvl, 0, preds[0]);
  }

  // ---------- Removing the head ----------

  lemma DropFirst(links: Links, s: seq<Time>)
    requires Chained(links, s) && s != [] && forall j :: 1 <= j < |s| ==> s[j] != s[0]
    ensures Chained(links - {s[0]}, s[1..])
  {
    forall j | 0 <= j < |s| - 1 ensures (links - {s[0]})[s[1..][j]] == Next(s[1..], j) {
      assert links[s[j + 1]] == Next(s, j + 1);
    }
    forall n | n in links - {s[0]} && n !in s[1..] ensures links[n] == Nil {
      assert forall m :: 1 <= m < |s| ==> s[m] == s[1..][m - 1];
    }
  }

  lemma ReplaceFirst(links: Links, s: seq<Time>, next: Time)
    requires Chained(links, s) && s != [] && next in links && next !in s
    requires forall j :: 1 <= j < |s| ==> s[j] != s[0]
    ensures Chained(links[next := At(links, s[0])] - {s[0]}, [next] + s[1..])
  {
    var t := [next] + s[1..];
    var links' := links[next := At(links, s[0])] - {s[0]};
    assert forall m :: 1 <= m < |s| ==> t[m] == s[m];
    forall j | 0 <= j < |t| ensures t[j] in links' && links'[t[j]] == Next(t, j) {
      assert links[s[j]] == Next(s, j);
    }
    forall n | n in links' && n !in t ensures links'[n] == Nil {
      assert n !in s;
    }
  }

  ghost function BeheadLink(links: Links, h: Time, next: Time): Links {
    (if At(links, h) == To(next) then links else links[next := At(links, h)]) - {h}
  }

  ghost function BeheadLevel(s: seq<Time>, next: Time): seq<Time> {
    if s == [] then s else if next in s then s[1..] else [next] + s[1..]
  }

  /** The list without its head; the next entry takes over every level. */
  ghost function Behead(sh: Shape): (r: Shape)
    requires 1 <= |sh.levels| == |sh.fwd| && 2 <= |sh.levels[0]|
    ensures |r.levels| == |sh.levels| == |r.fwd|
  {
    var h, next := sh.levels[0][0], sh.levels[0][1];
    Shape(
      seq(|sh.fwd|, i requires 0 <= i < |sh.fwd| => BeheadLink(sh.fwd[i], h, next)),
      sh.prv[next := Nil] - {h},
      seq(|sh.levels|, i requires 0 <= i < |sh.levels| => BeheadLevel(sh.levels[i], next)))
  }

  /** On each level the second entry of the list is either second or absent. */
  lemma SecondFacts(sh: Shape, all: set<Time>, lvl: nat, i: nat)
    requires Sound(sh, all, lvl) && 2 <= |sh.levels[0]| && i < |sh.levels|
    ensures var s := sh.levels[i]; var h, next := sh.levels[0][0], sh.levels[0][1];
            && s != [] && s[0] == h && h < next && next in all
            && (next in s <==> At(sh.fwd[i], h) == To(next))
            && (next in s ==> 2 <= |s| && s[1] == next)
            && (next !in s && 2 <= |s| ==> next < s[1])
            && (forall j :: 1 <= j < |s| ==> s[j] != s[0])
  {
    var s := sh.levels[i];
    var base := sh.levels[0];
    LevelFacts(sh, all, lvl, 0);
    LevelFacts(sh, all, lvl, i);
    assert sh.fwd[i][s[0]] == Next(s, 0);
    Ordered(s);
    Ordered(base);
    if 2 <= |s| {
      assert s[1] in sh.levels[i] && s[1] in base;
      var p :| 0 <= p < |base| && base[p] == s[1];
      assert p != 0;
    }
  }

  lemma BeheadLevelSound(sh: Shape, all: set<Time>, lvl: nat, i: nat)
    requires Sound(sh, all, lvl) && 2 <= |sh.levels[0]| && i < |sh.levels|
    ensures var r := Behead(sh); LevelSound(r.fwd[i], r.levels[i], r.levels[0], all - {sh.levels[0][0]}, lvl, i)
  {
    var s := sh.levels[i];
    var h, next := sh.levels[0][0], sh.levels[0][1];
    SecondFacts(sh, all, lvl, i);
    SecondFacts(sh, all, lvl, 0);
    LevelFacts(sh, all, lvl, i);
    Ordered(s);
    if next in s {
      DropFirst(sh.fwd[i], s);
    } else {
      ReplaceFirst(sh.fwd[i], s, next);
    }
    assert Behead(sh).levels[i] == BeheadLevel(s, next);
  }

  lemma BeheadNested(sh: Shape, all: set<Time>, lvl: nat)
    requires Sound(sh, all, lvl) && 2 <= |sh.levels[0]|
    ensures Nested(Behead(sh).levels)
  {
    var ls := sh.levels;
    var next := ls[0][1];
    var r := Behead(sh).levels;
    forall i, j, n | 0 <= i <= j < |ls| && n in r[j] ensures n in r[i] {
      SecondFacts(sh, all, lvl, i);
      SecondFacts(sh, all, lvl, j);
      if n == next {
        assert r[i][0] == next;
      } else {
        var q :| 0 <= q < |r[j]| && r[j][q] == n;
        assert n in ls[j] && n in ls[i];
        var p :| 0 <= p < |ls[i]| && ls[i][p] == n;
        assert n != ls[j][0] by { assert n == ls[j][if next in ls[j] then q + 1 else q]; }
        assert p != 0;
        assert n == r[i][if next in ls[i] then p - 1 else p];
      }
    }
  }

  /** Removing the head leaves a sound list. */
  lemma BeheadSound(sh: Shape, all: set<Time>, lvl: nat)
    requires Sound(sh, all, lvl) && 2 <= |sh.levels[0]|
    ensures Sound(Behead(sh), all - {sh.levels[0][0]}, lvl)
    ensures Behead(sh).levels[0] == sh.levels[0][1..]
  {
    var r := Behead(sh);
    var base := sh.levels[0];
    SecondFacts(sh, all, lvl, 0);
    BeheadNested(sh, all, lvl);
    forall i | 0 <= i < |sh.levels|
      ensures LevelSound(r.fwd[i], r.levels[i], r.levels[0], all - {base[0]}, lvl, i)
    {
      BeheadLevelSound(sh, all, lvl, i);
    }
    LevelFacts(sh, all, lvl, 0);
    Ordered(base);
    var t := r.levels[0];
    forall j | 0 <= j < |t| ensures r.prv[t[j]] == Prev(t, j) {
      assert t[j] == base[j + 1] && sh.prv[base[j + 1]] == Prev(base, j + 1);
    }
    forall n | n in all - {base[0]} ensures Member(t, n) {
      assert Member(base, n);
      var p :| 0 <= p < |base| && base[p] == n;
      assert t[p - 1] == n;
    }
  }

  // ---------- Removing a key inside the list ----------

  lemma UnlinkAt(links: Links, s: seq<Time>, r: nat)
    requires Chained(links, s) && 1 <= r < |s|
    requires forall j :: 0 <= j < |s| ==> (j != r - 1 ==> s[j] != s[r - 1]) && (j != r ==> s[j] != s[r])
    ensures Chained(links[s[r - 1] := At(links, s[r])] - {s[r]}, s[..r] + s[r + 1..])
  {
    var t := s[..r] + s[r + 1..];
    var links' := links[s[r - 1] := At(links, s[r])] - {s[r]};
    assert links[s[r]] == Next(s, r);
    forall j | 0 <= j < |t| ensures t[j] in links' && links'[t[j]] == Next(t, j) {
      var k := if j < r then j else j + 1;
      assert t[j] == s[k] && links[s[k]] == Next(s, k);
    }
    forall n | n in links' && n !in t ensures links'[n] == Nil {
      assert forall m :: 0 <= m < |s| && m != r ==> s[m] == t[if m < r then m else m - 1];
    }
  }

  ghost function UnlinkLink(links: Links, p: Time, k: Time): Links {
    (if At(links, p) == To(k) then links[p := At(links, k)] else links) - {k}
  }

  /** The list without key `k`; `preds` are the keys before `k`. */
  ghost function Unlink(sh: Shape, preds: seq<Time>, k: Time): (r: Shape)
    requires 1 <= |sh.levels| == |sh.fwd| == |preds|
    ensures |r.levels| == |sh.levels| == |r.fwd|
  {
    var next := At(sh.fwd[0], k);
    Shape(
      seq(|sh.fwd|, i requires 0 <= i < |sh.fwd| => UnlinkLink(sh.fwd[i], preds[i], k)),
      (if next.To? then sh.prv[next.key := To(preds[0])] else sh.prv) - {k},
      seq(|sh.levels|, i requires 0 <= i < |sh.levels| => RemoveKey(sh.levels[i], k)))
  }

  /** The predecessor of `k` points at `k` exactly on the levels that hold `k`. */
  lemma PredPoints(sh: Shape, all: set<Time>, lvl: nat, p: Time, k: Time, i: nat)
    requires Sound(sh, all, lvl) && i < |sh.levels| && IsPred(sh.levels[i], p, k)
    ensures var s := sh.levels[i];
            && Increasing(s) && 1 <= Rank(s, k) && s[Rank(s, k) - 1] == p && p in sh.fwd[i] && s[0] <= p
            && (At(sh.fwd[i], p) == To(k) <==> k in s)
            && (k in s <==> Rank(s, k) < |s| && s[Rank(s, k)] == k)
  {
    LevelFacts(sh, all, lvl, i);
    PredRank(sh.levels[i], p, k);
    RemoveFacts(sh.levels[i], k);
    Ordered(sh.levels[i]);
    assert sh.fwd[i][p] == Next(sh.levels[i], Rank(sh.levels[i], k) - 1);
  }

  lemma UnlinkChained(links: Links, s: seq<Time>, p: Time, k: Time)
    requires Chained(links, s) && Increasing(s) && IsPred(s, p, k)
    ensures Chained(UnlinkLink(links, p, k), RemoveKey(s, k))
  {
    var r := Rank(s, k);
    PredRank(s, p, k);
    FindFacts(s, k);
    assert links[s[r - 1]] == Next(s, r - 1);
    if k in s {
      assert forall j :: 0 <= j < |s| ==> (j != r - 1 ==> s[j] != s[r - 1]) && (j != r ==> s[j] != s[r]) by {
        Ordered(s);
      }
      UnlinkAt(links, s, r);
    } else {
      forall j | 0 <= j < |s| ensures s[j] != k && links[s[j]] == Next(s, j) {
        assert s[j] in s;
      }
    }
  }

  /** A removal behind the head keeps the head. */
  lemma RemoveKeepsHead(s: seq<Time>, p: Time, k: Time)
    requires Increasing(s) && IsPred(s, p, k)
    ensures Increasing(RemoveKey(s, k)) && 1 <= |RemoveKey(s, k)| <= |s| && RemoveKey(s, k)[0] == s[0]
  {
    PredRank(s, p, k);
    RemoveFacts(s, k);
  }

  lemma UnlinkLevelSound(sh: Shape, all: set<Time>, lvl: nat, preds: seq<Time>, k: Time, i: nat)
    requires Sound(sh, all, lvl) && PredsFound(sh, preds, k, |sh.levels|) && i < |sh.levels|
    ensures var r := Unlink(sh, preds, k); LevelSound(r.fwd[i], r.levels[i], r.levels[0], all - {k}, lvl, i)
  {
    SortedFacts(sh, all, lvl, 0);
    LevelFacts(sh, all, lvl, i);
    RemoveKeepsHead(sh.levels[0], preds[0], k);
    RemoveKeepsHead(sh.levels[i], preds[i], k);
    UnlinkChained(sh.fwd[i], sh.levels[i], preds[i], k);
    assert preds[i] in sh.fwd[i];
    assert Unlink(sh, preds, k).levels[i] == RemoveKey(sh.levels[i], k);
    assert Unlink(sh, preds, k).fwd[i] == UnlinkLink(sh.fwd[i], preds[i], k);
  }

  lemma BackUnlinkedAt(prv: Links, s: seq<Time>, r: nat)
    requires BackChained(prv, s) && 1 <= r < |s|
    requires forall j :: 0 <= j < |s| ==> (j != r ==> s[j] != s[r]) && (j != r + 1 && r + 1 < |s| ==> s[j] != s[r + 1])
    ensures BackChained((if r + 1 < |s| then prv[s[r + 1] := To(s[r - 1])] else prv) - {s[r]}, s[..r] + s[r + 1..])
  {
    var t := s[..r] + s[r + 1..];
    var prv' := (if r + 1 < |s| then prv[s[r + 1] := To(s[r - 1])] else prv) - {s[r]};
    forall j | 0 <= j < |t| ensures t[j] in prv' && prv'[t[j]] == Prev(t, j) {
      var k := if j < r then j else j + 1;
      assert t[j] == s[k] && prv[s[k]] == Prev(s, k);
    }
  }

  lemma UnlinkBack(sh: Shape, all: set<Time>, lvl: nat, preds: seq<Time>, k: Time)
    requires Sound(sh, all, lvl) && PredsFound(sh, preds, k, |sh.levels|) && k in all
    ensures var r := Unlink(sh, preds, k);
            BackChained(r.prv, r.levels[0]) && Covers(r.levels[0], all - {k}) && r.prv.Keys == all - {k}
  {
    var s := sh.levels[0];
    assert Member(s, k);
    PredPoints(sh, all, lvl, preds[0], k, 0);
    var r := Rank(s, k);
    assert At(sh.fwd[0], k) == Next(s, r) by {
      LevelFacts(sh, all, lvl, 0);
      assert sh.fwd[0][s[r]] == Next(s, r);
    }
    RemoveFacts(s, k);
    assert forall j :: 0 <= j < |s| ==>
             (j != r ==> s[j] != s[r]) && (j != r + 1 && r + 1 < |s| ==> s[j] != s[r + 1])
    by {
      Ordered(s);
    }
    BackUnlinkedAt(sh.prv, s, r);
    forall n | n in all - {k} ensures Member(RemoveKey(s, k), n) {
      assert Member(s, n);
    }
    assert r + 1 < |s| ==> s[r + 1] in sh.prv;
  }

  /** Removing a key behind the predecessors that the search found leaves a sound list. */
  lemma UnlinkSound(sh: Shape, all: set<Time>, lvl: nat, preds: seq<Time>, k: Time)
    requires Sound(sh, all, lvl) && PredsFound(sh, preds, k, |sh.levels|) && k in all
    ensures Sound(Unlink(sh, preds, k), all - {k}, lvl)
    ensures Unlink(sh, preds, k).levels[0] == RemoveKey(sh.levels[0], k)
  {
    var r := Unlink(sh, preds, k);
    UnlinkBack(sh, all, lvl, preds, k);
    forall i, j, n | 0 <= i <= j < |sh.levels| && n in r.levels[j] ensures n in r.levels[i] {
      SortedFacts(sh, all, lvl, i);
      SortedFacts(sh, all, lvl, j);
      RemoveFacts(sh.levels[i], k);
      RemoveFacts(sh.levels[j], k);
      assert n in sh.levels[j] && n in sh.levels[i];
    }
    forall i | 0 <= i < |sh.levels|
      ensures LevelSound(r.fwd[i], r.levels[i], r.levels[0], all - {k}, lvl, i)
    {
      UnlinkLevelSound(sh, all, lvl, preds, k, i);
    }
  }

  /** A top level that threads the head alone can be dropped. */
  lemma LowerSound(sh: Shape, all: set<Time>, lvl: nat)
    requires Sound(sh, all, lvl) && 1 < lvl <= |sh.levels| && sh.levels[0] != []
    requires At(sh.fwd[lvl - 1], sh.levels[0][0]) == Nil
    ensures Sound(sh, all, lvl - 1)
  {
    forall i | 0 <= i < |sh.levels|
      ensures LevelSound(sh.fwd[i], sh.levels[i], sh.levels[0], all, lvl - 1, i)
    {
      LevelFacts(sh, all, lvl, i);
      assert sh.fwd[i][sh.levels[i][0]] == Next(sh.levels[i], 0);
    }
  }

  /** What `Behead` records for one surviving key; no link it keeps leads to the old head. */
  lemma BeheadAt(sh: Shape, all: set<Time>, lvl: nat, i: nat, k: Time)
    requires Sound(sh, all, lvl) && 2 <= |sh.levels[0]| && i < |sh.fwd| && k in all && k != sh.levels[0][0]
    ensures var r := Behead(sh); var h, next := sh.levels[0][0], sh.levels[0][1];
            && At(r.fwd[i], k) == (if k == next && At(sh.fwd[i], h) != To(next) then At(sh.fwd[i], h)
                                   else At(sh.fwd[i], k))
            && At(r.prv, k) == (if k == next then Nil else At(sh.prv, k))
            && At(sh.fwd[i], k) != To(h) && At(sh.fwd[i], h) != To(h) && At(r.prv, k) != To(h)
  {
    var h := sh.levels[0][0];
    SecondFacts(sh, all, lvl, i);
    LevelFacts(sh, all, lvl, i);
    LevelFacts(sh, all, lvl, 0);
    assert Member(sh.levels[0], k);
    var p :| 0 <= p < |sh.levels[0]| && sh.levels[0][p] == k;
    assert sh.prv[k] == Prev(sh.levels[0], p);
    assert p >= 2 ==> Before(sh.levels[0], 0, p - 1);
    if k in sh.levels[i] {
      var j :| 0 <= j < |sh.levels[i]| && sh.levels[i][j] == k;
      assert j + 1 < |sh.levels[i]| ==> Before(sh.levels[i], 0, j + 1);
      assert sh.fwd[i][k] == Next(sh.levels[i], j);
    }
    assert sh.fwd[i][h] == Next(sh.levels[i], 0);
    assert 2 <= |sh.levels[i]| ==> Before(sh.levels[i], 0, 1);
  }

  /** What `Unlink` records for one surviving key; no link it keeps leads to the removed key. */
  lemma UnlinkKeyAt(sh: Shape, all: set<Time>, lvl: nat, preds: seq<Time>, k: Time, i: nat, n: Time)
    requires Sound(sh, all, lvl) && PredsFound(sh, preds, k, |sh.levels|) && k in all
    requires i < |sh.fwd| && n in all && n != k
    ensures var r := Unlink(sh, preds, k);
            && At(r.fwd[i], n) == (if n == preds[i] && At(sh.fwd[i], n) == To(k) then At(sh.fwd[i], k)
                                   else At(sh.fwd[i], n))
            && At(r.prv, n) == (if At(sh.fwd[0], k) == To(n) then To(preds[0]) else At(sh.prv, n))
            && At(r.fwd[i], n) != To(k) && At(r.prv, n) != To(k)
  {
    PredPoints(sh, all, lvl, preds[i], k, i);
    UnlinkSound(sh, all, lvl, preds, k);
    LinksClosed(Unlink(sh, preds, k), all - {k}, lvl, i, n);
    LevelFacts(sh, all, lvl, i);
  }

  /** The list of no keys, with `n` levels. */
  ghost function Empty(n: nat): (r: Shape)
    requires 1 <= n
    ensures |r.levels| == n && r.levels[0] == [] && forall lvl :: Sound(r, {}, lvl)
  {
    var r := Shape(seq(n, _ => map[]), map[], seq(n, _ => []));
    assert forall lvl :: Sound(r, {}, lvl);
    r
  }

  /** A key below the first, or past the last, is inserted at that end. */
  lemma InsertEnds(s: seq<Time>, k: Time)
    requires Increasing(s) && k !in s
    ensures |InsertKey(s, k)| == |s| + 1
    ensures Rank(s, k) == 0 ==> InsertKey(s, k) == [k] + s
    ensures 1 <= Rank(s, k) ==> InsertKey(s, k)[0] == s[0]
    ensures InsertKey(s, k)[|s|] == if Rank(s, k) == |s| then k else s[|s| - 1]
  {
    RankFacts(s, k);
  }
}
