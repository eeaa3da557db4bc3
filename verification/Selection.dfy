/**
 The client's relay selection: a list of the best relays by delay with a cursor that probing moves around, and a
 circular list of candidates.  List nodes are objects and a cursor is a node, or null for the end of the list.
 */
module Selection {
  import opened Protocol

  const MAX_CAND_LEN := 20

  class RelayNode {
    const relay: EndPoint
    const delay: nat

    constructor (relay: EndPoint, delay: nat)
      ensures this.relay == relay && this.delay == delay
    {
      this.relay, this.delay := relay, delay;
    }
  }

  class Candidate {
    const at: EndPoint

    constructor (at: EndPoint)
      ensures this.at == at
    {
      this.at := at;
    }
  }

  // ---------- The best of everything seen ----------

  ghost predicate ByDelay(l: seq<RelayNode>) {
    forall i, j :: 0 <= i < j < |l| ==> l[i].delay <= l[j].delay
  }

  /** Sorted insertion, in front of the first node that is not faster. */
  ghost function Insert(x: RelayNode, l: seq<RelayNode>): seq<RelayNode> {
    if l == [] then [x]
    else if l[0].delay < x.delay then [l[0]] + Insert(x, l[1..])
    else [x] + l
  }

  ghost function Take(k: nat, l: seq<RelayNode>): seq<RelayNode> {
    if |l| <= k then l else l[..k]
  }

  /** Everything, the latest last, inserted in turn. */
  ghost function InsertAll(xs: seq<RelayNode>): seq<RelayNode> {
    if xs == [] then [] else Insert(xs[|xs| - 1], InsertAll(xs[..|xs| - 1]))
  }

  /** Inserting at the place the scan stops is sorted insertion. */
  lemma {:induction false} InsertAt(x: RelayNode, l: seq<RelayNode>, i: nat)
    requires i <= |l| && forall j :: 0 <= j < i ==> l[j].delay < x.delay
    requires i < |l| ==> x.delay <= l[i].delay
    ensures Insert(x, l) == l[..i] + [x] + l[i..]
  {
    if i > 0 {
      InsertAt(x, l[1..], i - 1);
      assert l[1..][..i - 1] == l[1..i] && l[1..][i - 1..] == l[i..];
      assert l[..i] == [l[0]] + l[1..i];
    }
  }

  /** Every sorted insertion happens at such a place. */
  lemma {:induction false} InsertPlace(x: RelayNode, l: seq<RelayNode>) returns (i: nat)
    ensures i <= |l| && Insert(x, l) == l[..i] + [x] + l[i..]
    ensures forall j :: 0 <= j < i ==> l[j].delay < x.delay
    ensures i < |l| ==> x.delay <= l[i].delay
  {
    if l == [] || x.delay <= l[0].delay {
      i := 0;
    } else {
      var k := InsertPlace(x, l[1..]);
      i := k + 1;
      forall j | 0 <= j < i ensures l[j].delay < x.delay {
        if j > 0 { assert l[j] == l[1..][j - 1]; }
      }
      InsertAt(x, l, i);
    }
  }

  lemma InsertFacts(x: RelayNode, l: seq<RelayNode>)
    ensures |Insert(x, l)| == |l| + 1 && multiset(Insert(x, l)) == multiset(l) + multiset{x}
    ensures ByDelay(l) ==> ByDelay(Insert(x, l))
  {
    var i := InsertPlace(x, l);
    assert l == l[..i] + l[i..];
    if ByDelay(l) { SplitSorted(x, l, i); }
  }

  lemma SplitSorted(x: RelayNode, l: seq<RelayNode>, i: nat)
    requires ByDelay(l) && i <= |l| && forall j :: 0 <= j < i ==> l[j].delay < x.delay
    requires i < |l| ==> x.delay <= l[i].delay
    ensures ByDelay(l[..i] + [x] + l[i..])
  {
    assert forall j :: i <= j < |l| ==> l[i].delay <= l[j].delay;
  }

  /** Cutting before inserting loses nothing that cutting afterwards would keep. */
  lemma {:induction false} TakeInsert(k: nat, x: RelayNode, l: seq<RelayNode>)
    ensures Take(k, Insert(x, Take(k, l))) == Take(k, Insert(x, l))
  {
    if l == [] || k == 0 {
    } else if l[0].delay < x.delay {
      TakeInsert(k - 1, x, l[1..]);
      assert Take(k, l) == [l[0]] + Take(k - 1, l[1..]);
      assert Take(k, l)[1..] == Take(k - 1, l[1..]);
      TakeCons(k, l[0], Insert(x, Take(k - 1, l[1..])));
      TakeCons(k, l[0], Insert(x, l[1..]));
    } else {
      TakeCons(k, x, Take(k, l));
      TakeCons(k, x, l);
      assert Take(k - 1, Take(k, l)) == Take(k - 1, l);
    }
  }

  lemma TakeCons(k: nat, a: RelayNode, l: seq<RelayNode>)
    requires 0 < k
    ensures Take(k, [a] + l) == [a] + Take(k - 1, l)
  {
  }

  lemma SortedNone()
    ensures ByDelay([])
  {
  }

  lemma {:induction false} InsertAllSorted(xs: seq<RelayNode>)
    ensures ByDelay(InsertAll(xs)) && multiset(InsertAll(xs)) == multiset(xs)
  {
    hide ByDelay, Insert;
    SortedNone();
    if xs != [] {
      InsertAllSorted(xs[..|xs| - 1]);
      InsertFacts(xs[|xs| - 1], InsertAll(xs[..|xs| - 1]));
      assert xs == xs[..|xs| - 1] + [xs[|xs| - 1]];
    }
  }

  /** What is kept is the best of everything: nothing that was cut is faster than anything kept. */
  lemma KeptAreBest(xs: seq<RelayNode>, k: nat)
    ensures var all := InsertAll(xs);
            && Take(k, all) <= all
            && forall i, j :: 0 <= i < |Take(k, all)| <= j < |all| ==> all[i].delay <= all[j].delay
  {
    InsertAllSorted(xs);
  }

  /** What becomes of a list when `x` joins it at place `i`, where the scan stopped. */
  lemma Joined(k: nat, x: RelayNode, l: seq<RelayNode>, i: nat)
    requires ByDelay(l) && Distinct(l) && |l| <= k && x !in l && i <= |l|
    requires forall j :: 0 <= j < i ==> l[j].delay < x.delay
    requires i < |l| ==> x.delay <= l[i].delay
    ensures var all := if i == |l| then l + [x] else l[..i] + [x] + l[i..];
            var cut := Take(k, Insert(x, l));
            && cut == (if k <= i then l else if |all| > k then all[..|all| - 1] else all)
            && ByDelay(cut) && Distinct(cut) && |cut| <= k
            && (forall n :: n in cut ==> n == x || n in l)
            && (forall n :: n in l ==> n in cut || (i < k < |all| && n == all[|all| - 1]))
            && (i < k < |all| ==> 2 <= |all| && all[|all| - 1] !in cut && all[0] in cut)
  {
    hide ByDelay, Insert;
    var all := l[..i] + [x] + l[i..];
    InsertAt(x, l, i);
    InsertFacts(x, l);
    SplitDistinct(x, l, i);
    if i == |l| { assert all == l + [x]; }
    CutFacts(k, all);
    if k <= i { assert Take(k, all) == l; }
  }

  lemma SplitDistinct(x: RelayNode, l: seq<RelayNode>, i: nat)
    requires Distinct(l) && x !in l && i <= |l|
    ensures var all := l[..i] + [x] + l[i..];
            Distinct(all) && (forall n :: n in l ==> n in all) && (forall n :: n in all ==> n == x || n in l)
  {
    var all := l[..i] + [x] + l[i..];
    forall n | n in l ensures n in all {
      var j :| 0 <= j < |l| && l[j] == n;
      assert all[if j < i then j else j + 1] == n;
    }
  }

  lemma CutFacts(k: nat, all: seq<RelayNode>)
    requires Distinct(all) && |all| <= k + 1
    ensures var cut := Take(k, all);
            && Distinct(cut) && |cut| <= k && (forall n :: n in cut ==> n in all)
            && (ByDelay(all) ==> ByDelay(cut))
            && (|all| == k + 1 ==> cut == all[..k] && all[k] !in cut)
            && (forall n :: n in all ==> n in cut || (|all| == k + 1 && n == all[k]))
            && (|all| <= k ==> cut == all)
  {
  }

  /** Replies keep the list the best of all replies. */
  lemma Replied(k: nat, x: RelayNode, l: seq<RelayNode>, xs: seq<RelayNode>)
    ensures l == Take(k, InsertAll(xs)) ==> Take(k, Insert(x, l)) == Take(k, InsertAll(xs + [x]))
  {
    assert (xs + [x])[..|xs|] == xs;
    TakeInsert(k, x, InsertAll(xs));
  }

  /**
   A relay list is sorted, distinct and not longer than asked for, and comes from replies.  While no relay was dropped
   it is exactly the best of all replies.
   */
  ghost predicate Listed(k: nat, l: seq<RelayNode>, replies: seq<RelayNode>, dropped: bool) {
    && ByDelay(l) && |l| <= k && Distinct(l)
    && (forall n :: n in l ==> n in replies)
    && (!dropped ==> l == Take(k, InsertAll(replies)))
  }

  /** `l` with `x` at place `i`. */
  function Spliced(l: seq<RelayNode>, x: RelayNode, i: nat): (r: seq<RelayNode>)
    requires i <= |l|
    ensures |r| == |l| + 1
  {
    if i == |l| then l + [x] else l[..i] + [x] + l[i..]
  }

  /** A cursor is the end or in its list. */
  ghost predicate Alive(c: RelayNode?, l: seq<RelayNode>) {
    c == null || c in l
  }

  lemma Slower(l: seq<RelayNode>, i: nat, delay: nat)
    requires ByDelay(l) && i <= |l| && (i < |l| ==> delay <= l[i].delay)
    ensures forall j :: i <= j < |l| ==> delay <= l[j].delay
  {
  }

  lemma CutAt(k: nat, x: RelayNode, l: seq<RelayNode>, i: nat)
    requires i <= |l| && forall j :: 0 <= j < i ==> l[j].delay < x.delay
    requires i < |l| ==> x.delay <= l[i].delay
    ensures var all := l[..i] + [x] + l[i..];
            Take(k, Insert(x, l)) == if |all| > k then all[..k] else all
  {
    InsertAt(x, l, i);
  }

  /** List and cursor after `x` is put at place `i`, if that is among the first `k`, and the end is cut. */
  ghost function Placed(k: nat, x: RelayNode, l: seq<RelayNode>, i: nat, c: RelayNode?): (seq<RelayNode>, RelayNode?)
    requires i <= |l|
  {
    var all := Spliced(l, x, i);
    if k <= i then (l, c)
    else if |all| > k then (all[..|all| - 1], if c == all[|all| - 1] then all[0] else c)
    else (all, c)
  }

  /** What a reply does to list and cursor. */
  lemma Reply(k: nat, x: RelayNode, l: seq<RelayNode>, i: nat, replies: seq<RelayNode>, dropped: bool, c: RelayNode?)
    requires Listed(k, l, replies, dropped) && x !in l && i <= |l| && Alive(c, l)
    requires forall j :: 0 <= j < i ==> l[j].delay < x.delay
    requires i < |l| ==> x.delay <= l[i].delay
    ensures var (l', c') := Placed(k, x, l, i, c);
            && l' == Take(k, Insert(x, l)) && Listed(k, l', replies + [x], dropped) && Alive(c', l')
            && l' == (var all := l[..i] + [x] + l[i..]; if |all| > k then all[..k] else all)
            && c' == if c == null || c in l' then c else if l' == [] then null else l'[0]
    ensures forall j :: i <= j < |l| ==> x.delay <= l[j].delay
  {
    hide Listed, Alive, ByDelay, Insert, Take, Distinct, Spliced;
    ListedFacts(k, l, replies, dropped);
    Listing(k, x, l, i, replies, dropped);
    Outlives(k, x, l, i, c);
    Slower(l, i, x.delay);
    CutAt(k, x, l, i);
    AliveFirst(Take(k, Insert(x, l)));
    AliveIff(c, Take(k, Insert(x, l)));
  }

  lemma ListedFacts(k: nat, l: seq<RelayNode>, replies: seq<RelayNode>, dropped: bool)
    requires Listed(k, l, replies, dropped)
    ensures ByDelay(l) && |l| <= k && Distinct(l)
  {
  }

  lemma AliveIff(c: RelayNode?, l: seq<RelayNode>)
    ensures Alive(c, l) <==> c == null || c in l
  {
  }

  lemma AliveFirst(l: seq<RelayNode>)
    ensures Alive(null, l) && (l != [] ==> Alive(l[0], l))
  {
  }

  lemma Listing(k: nat, x: RelayNode, l: seq<RelayNode>, i: nat, replies: seq<RelayNode>, dropped: bool)
    requires Listed(k, l, replies, dropped) && x !in l && i <= |l|
    requires forall j :: 0 <= j < i ==> l[j].delay < x.delay
    requires i < |l| ==> x.delay <= l[i].delay
    ensures Listed(k, Take(k, Insert(x, l)), replies + [x], dropped)
    ensures var all := Spliced(l, x, i);
            Take(k, Insert(x, l)) == if k <= i then l else if |all| > k then all[..|all| - 1] else all
  {
    hide ByDelay, InsertAll, Insert, Take, Distinct;
    Joined(k, x, l, i);
    Replied(k, x, l, replies);
  }

  /** A cursor outlives a reply unless it stands on what falls off the end, and then there is a beginning. */
  lemma Outlives(k: nat, x: RelayNode, l: seq<RelayNode>, i: nat, c: RelayNode?)
    requires ByDelay(l) && Distinct(l) && |l| <= k && x !in l && i <= |l| && Alive(c, l)
    requires forall j :: 0 <= j < i ==> l[j].delay < x.delay
    requires i < |l| ==> x.delay <= l[i].delay
    ensures var all := Spliced(l, x, i);
            var cut := Take(k, Insert(x, l));
            && (Alive(c, cut) <==> !(i < k < |all| && c == all[|all| - 1]))
            && (i < k < |all| ==> cut != [] && cut[0] == all[0])
  {
    hide ByDelay, Insert;
    Joined(k, x, l, i);
  }

  // ---------- Cursors ----------

  ghost predicate Distinct<T>(l: seq<T>) {
    forall i, j :: 0 <= i < j < |l| ==> l[i] != l[j]
  }

  /** Where a node stands; the end of the list for one that is not in it. */
  ghost function IndexOf<T>(l: seq<T>, x: T): (i: nat)
    ensures i <= |l| && (i < |l| <==> x in l) && (i < |l| ==> l[i] == x)
    ensures forall j :: 0 <= j < i ==> l[j] != x
  {
    if l == [] || l[0] == x then 0
    else
      var i := IndexOf(l[1..], x);
      assert forall j :: 0 < j < |l| ==> l[j] == l[1..][j - 1];
      i + 1
  }

  lemma DistinctNone<T>()
    ensures Distinct<T>([])
  {
  }

  lemma FrontDistinct<T>(front: seq<T>, back: seq<T>)
    requires Distinct(front) && Distinct(back) && forall i :: 0 <= i < |front| ==> front[i] !in back
    ensures Distinct(front + back) && (front + back)[|front|..] == back
    ensures front != [] ==> (front + back)[0] in front + back
  {
  }

  lemma IndexIs<T>(l: seq<T>, i: nat)
    requires Distinct(l) && i < |l|
    ensures IndexOf(l, l[i]) == i
  {
  }

  function Without(l: seq<RelayNode>, i: nat): (r: seq<RelayNode>)
    requires i < |l|
    ensures |r| == |l| - 1 && (i < |r| ==> r[i] == l[i + 1])
  {
    l[..i] + l[i + 1..]
  }

  function First(l: seq<RelayNode>): RelayNode? {
    if l == [] then null else l[0]
  }

  lemma Removed(k: nat, l: seq<RelayNode>, i: nat, replies: seq<RelayNode>, dropped: bool, c: RelayNode?)
    requires Listed(k, l, replies, dropped) && i < |l|
    ensures Listed(k, Without(l, i), replies, true) && IndexOf(l, l[i]) == i
    ensures Alive(null, Without(l, i)) && Alive(First(Without(l, i)), Without(l, i))
    ensures i + 1 < |l| ==> Alive(l[i + 1], Without(l, i))
    ensures Alive(c, l) && c != l[i] ==> Alive(c, Without(l, i))
  {
    hide InsertAll, Take, Distinct, ByDelay;
    IndexIs(l, i);
    WithoutMembers(l, i);
    WithoutSorted(l, i);
  }

  lemma WithoutMembers(l: seq<RelayNode>, i: nat)
    requires i < |l| && Distinct(l)
    ensures forall n :: n in Without(l, i) <==> n in l && n != l[i]
    ensures i + 1 < |l| ==> l[i + 1] != l[i]
  {
    var l' := Without(l, i);
    forall n ensures n in l' <==> n in l && n != l[i] {
      if n in l && n != l[i] {
        var j :| 0 <= j < |l| && l[j] == n;
        assert l'[if j < i then j else j - 1] == n;
      }
    }
  }

  lemma WithoutSorted(l: seq<RelayNode>, i: nat)
    requires i < |l| && Distinct(l) && ByDelay(l)
    ensures Distinct(Without(l, i)) && ByDelay(Without(l, i))
  {
  }

  class SimpleRlysltr {
    const relaynum: nat
    var relaylist: seq<RelayNode>
    var relayCursor: RelayNode?
    var candidates: seq<Candidate>
    var candidateCursor: Candidate
    /** Every reply, in order of arrival. */
    ghost var replies: seq<RelayNode>
    /** Whether a relay was ever taken off the list for its delay. */
    ghost var dropped: bool

    ghost predicate Valid()
      reads this
    {
      && Listed(relaynum, relaylist, replies, dropped) && Alive(relayCursor, relaylist)
      && Distinct(candidates) && candidates != [] && candidateCursor in candidates
    }

    constructor (relaynum: nat, boot: seq<Candidate>)
      requires boot != [] && Distinct(boot)
      ensures Valid() && this.relaynum == relaynum && relaylist == [] && candidates == boot && !dropped && replies == []
    {
      this.relaynum := relaynum;
      relaylist, relayCursor, replies, dropped := [], null, [], false;
      candidates, candidateCursor := boot, boot[0];
    }

    /** `++` on a cursor of the circular list: past the end is the beginning. */
    method NextRelay(c: RelayNode?) returns (n: RelayNode?)
      requires c == null || c in relaylist
      ensures n == null || n in relaylist
      ensures n == if c == null then (if relaylist == [] then null else relaylist[0])
                   else var i := IndexOf(relaylist, c); if i + 1 < |relaylist| then relaylist[i + 1] else null
    {
      if c == null { return if relaylist == [] then null else relaylist[0]; }
      var i := 0;
      while relaylist[i] != c
        invariant 0 <= i < |relaylist| && i <= IndexOf(relaylist, c)
        decreases |relaylist| - i
      {
        i := i + 1;
      }
      if i + 1 < |relaylist| { return relaylist[i + 1]; } else { return null; }
    }

    /** Moves both cursors one step around their circles. */
    method IncreaseIter()
      requires Valid()
      modifies this`relayCursor, this`candidateCursor
      ensures Valid()
      ensures var i := IndexOf(candidates, old(candidateCursor));
              candidateCursor == candidates[if i + 1 == |candidates| then 0 else i + 1]
      ensures relaylist == [] ==> relayCursor == null
      ensures relaylist != [] ==>
                var i := if old(relayCursor) == null then -1 else IndexOf(relaylist, old(relayCursor));
                relayCursor == relaylist[if i + 1 == |relaylist| then 0 else i + 1]
    {
      hide ByDelay, InsertAll, Insert, Take, Distinct;
      var i := 0;
      while candidates[i] != candidateCursor
        invariant 0 <= i < |candidates| && i <= IndexOf(candidates, candidateCursor)
        decreases |candidates| - i
      {
        i := i + 1;
      }
      candidateCursor := candidates[if i + 1 == |candidates| then 0 else i + 1];
      relayCursor := NextRelay(relayCursor);
      if relayCursor == null && relaylist != [] { relayCursor := relaylist[0]; }
    }

    /** New candidates go to the front, after the old ones are dropped if both would be too many. */
    method ProcessAdvice(advice: seq<EndPoint>)
      requires Valid()
      modifies this`candidates, this`candidateCursor
      ensures Valid()
      ensures advice == [] ==> candidates == old(candidates) && candidateCursor == old(candidateCursor)
      ensures advice != [] ==>
                && |candidates| >= |advice| && candidateCursor == candidates[0]
                && (forall i :: 0 <= i < |advice| ==> candidates[i].at == advice[i])
                && candidates[|advice|..] == if |old(candidates)| + |advice| > 20 then [] else old(candidates)
      ensures |old(candidates)| <= 20 && |advice| <= 20 ==> |candidates| <= 20
    {
      hide Listed, Alive, Distinct;
      if advice == [] { return; }
      var kept := if |candidates| + |advice| > MAX_CAND_LEN then [] else candidates;
      DistinctNone<Candidate>();
      var added := Candidates(advice);
      FrontDistinct(added, kept);
      candidates := added + kept;
      candidateCursor := candidates[0];
    }

    /** A new list node for each piece of advice. */
    static method Candidates(advice: seq<EndPoint>) returns (added: seq<Candidate>)
      ensures |added| == |advice| && Distinct(added)
      ensures forall j :: 0 <= j < |added| ==> fresh(added[j]) && added[j].at == advice[j]
    {
      added := [];
      var i := 0;
      while i < |advice|
        invariant 0 <= i <= |advice| && |added| == i && Distinct(added)
        invariant forall j :: 0 <= j < i ==> fresh(added[j]) && added[j].at == advice[j]
      {
        var c := new Candidate(advice[i]);
        added := added + [c];
        i := i + 1;
      }
    }

    /**
     A relay whose delay is too long leaves the list, at its first occurrence; a cursor on it moves on, around the
     end, and a cursor at the end goes to the beginning.
     */
    method DropRelay(addr: Word) returns (ghost at: nat)
      requires Valid()
      modifies this`relaylist, this`relayCursor, this`dropped
      ensures Valid()
      ensures at <= |old(relaylist)| && forall j :: 0 <= j < at ==> old(relaylist)[j].relay.addr != addr
      ensures at == |old(relaylist)| ==>
                relaylist == old(relaylist) && relayCursor == old(relayCursor) && dropped == old(dropped)
      ensures at < |old(relaylist)| ==>
                && old(relaylist)[at].relay.addr == addr
                && relaylist == old(relaylist)[..at] + old(relaylist)[at + 1..]
                && relayCursor == if old(relayCursor) != null && old(relayCursor) != old(relaylist)[at]
                                  then old(relayCursor)
                                  else if old(relayCursor) != null && at < |relaylist| then relaylist[at]
                                  else if relaylist == [] then null else relaylist[0]
    {
      hide Listed, Alive, Distinct;
      var i := 0;
      while i < |relaylist|
        invariant 0 <= i <= |relaylist| && forall j :: 0 <= j < i ==> relaylist[j].relay.addr != addr
      {
        if relaylist[i].relay.addr == addr { break; }
        i := i + 1;
      }
      at := i;
      if i < |relaylist| {
        Removed(relaynum, relaylist, i, replies, dropped, relayCursor);
        if relayCursor == relaylist[i] { relayCursor := NextRelay(relayCursor); }
        relaylist := Without(relaylist, i);
        if relayCursor == null { relayCursor := First(relaylist); }
        dropped := true;
      }
    }

    /** Where a delay belongs among the first `relaynum`. */
    method Scan(delay: nat) returns (i: nat)
      requires |relaylist| <= relaynum
      ensures i <= |relaylist| && forall j :: 0 <= j < i ==> relaylist[j].delay < delay
      ensures i < |relaylist| ==> delay <= relaylist[i].delay
    {
      i := 0;
      while i < relaynum && i < |relaylist|
        invariant 0 <= i <= |relaylist| && forall j :: 0 <= j < i ==> relaylist[j].delay < delay
      {
        if relaylist[i].delay >= delay { break; }
        i := i + 1;
      }
    }

    /** The last relay falls off; a cursor on it goes back to the beginning. */
    method DropLast()
      requires relaylist != []
      modifies this`relaylist, this`relayCursor
      ensures relaylist == old(relaylist)[..|old(relaylist)| - 1]
      ensures relayCursor == if old(relayCursor) == old(relaylist)[|old(relaylist)| - 1] then old(relaylist)[0]
                             else old(relayCursor)
    {
      if relayCursor == relaylist[|relaylist| - 1] { relayCursor := relaylist[0]; }
      relaylist := relaylist[..|relaylist| - 1];
    }

    /**
     A relay granted bandwidth joins the list where its delay belongs, among the first `relaynum`; what falls off the
     end takes the cursor, if it stood there, back to the beginning.
     */
    method ProcessBwReply(relay: EndPoint, delay: nat) returns (node: RelayNode, ghost at: nat)
      requires Valid()
      modifies this`relaylist, this`relayCursor, this`replies
      ensures Valid() && fresh(node) && node.relay == relay && node.delay == delay
      ensures replies == old(replies) + [node]
      ensures at <= |old(relaylist)| <= relaynum && forall j :: 0 <= j < at ==> old(relaylist)[j].delay < delay
      ensures forall j :: at <= j < |old(relaylist)| ==> delay <= old(relaylist)[j].delay
      ensures var all := old(relaylist)[..at] + [node] + old(relaylist)[at..];
              relaylist == if |all| > relaynum then all[..relaynum] else all
      ensures relaylist == Take(relaynum, Insert(node, old(relaylist)))
      ensures relayCursor == if old(relayCursor) == null || old(relayCursor) in relaylist then old(relayCursor)
                             else if relaylist == [] then null else relaylist[0]
    {
      hide Listed, Alive, Insert, Take, Distinct, Spliced;
      node := new RelayNode(relay, delay);
      ListedFacts(relaynum, relaylist, replies, dropped);
      var i := Scan(delay);
      at := i;
      ghost var c := relayCursor;
      Reply(relaynum, node, relaylist, i, replies, dropped, c);
      Place(node, i);
      replies := replies + [node];
    }

    /** Puts `node` at place `i`, if that is among the first `relaynum`, and drops what is then too many. */
    method Place(node: RelayNode, i: nat)
      requires i <= |relaylist| <= relaynum
      modifies this`relaylist, this`relayCursor
      ensures (relaylist, relayCursor) == Placed(relaynum, node, old(relaylist), i, old(relayCursor))
    {
      hide Spliced;
      if i < relaynum { relaylist := Spliced(relaylist, node, i); }
      if |relaylist| > relaynum { DropLast(); }
    }
  }
}
