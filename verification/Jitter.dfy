/**
 The player's two-path reorder buffer: a sorted list of frames that came directly and a map, the bench, of frames
 that came through a relay.  Together they are proved to be one set of frames that gives up its least member.
 */
module Jitter {
  import opened Options

  const LAST_NUMBER := 65535
  const STAMPS := 0x1_0000_0000
  /** The timestamp that asks for everything, playable or not. */
  const ALL: Stamp := 0xffff_ffff

  type Number = x: int | 0 <= x <= LAST_NUMBER
  type Stamp = x: int | 0 <= x < STAMPS
  type Int32 = x: int | -0x8000_0000 <= x < 0x8000_0000

  datatype Frame = Frame(number: Number, ts: Stamp, payload: seq<bv8>)

  type Frames = map<Number, Frame>

  /** The largest number of milliseconds a timestamp converts to. */
  const LONGEST := 4294968

  /** RTP clock ticks to milliseconds, as the player rounds them. */
  function ConvertTimestamp(ts: Stamp): Stamp {
    if ts == 0 then 0
    else if ts % 3000 == 0 then ts / 1000 - 2
    else ts / 1000 + 1
  }

  /** A frame is far enough behind the newest one of the list; the sum wraps at 32 bits. */
  predicate Playable(ts: Stamp, minLength: Int32, newest: Stamp) {
    (ConvertTimestamp(ts) + minLength) % STAMPS <= newest
  }

  /**
   A converted unit is a thousand ticks: full thousands are rounded up to the next one, except that multiples of 3000
   lose two.
   */
  lemma TicksToMillis(ts: Stamp)
    ensures ts > 0 && ts % 3000 == 0 ==> 1000 * ConvertTimestamp(ts) as int == ts - 2000
    ensures ts % 3000 != 0 ==> ts < 1000 * ConvertTimestamp(ts) as int <= ts + 1000
    ensures ConvertTimestamp(0) == 0
    ensures ts - 2000 <= 1000 * ConvertTimestamp(ts) as int <= ts + 1000
  {
    var q: int, m: int := ts / 1000, ts / 3000;
    assert 1000 * q <= ts < 1000 * q + 1000;
    if ts % 3000 == 0 {
      assert ts == 3000 * m;
      assert q == 3 * m;
    }
  }

  /** The wrapped sum decides what the plain sum says, whatever the length. */
  lemma PlayableIff(ts: Stamp, minLength: Int32, newest: Stamp)
    requires newest <= LONGEST
    ensures Playable(ts, minLength, newest) <==> 0 <= ConvertTimestamp(ts) + minLength <= newest
    ensures ConvertTimestamp(ts) <= LONGEST
  {
    var c := ConvertTimestamp(ts);
    assert ts / 1000 <= 4294967;
    if c + minLength < 0 {
      assert (c + minLength) % STAMPS == c + minLength + STAMPS;
    } else {
      assert (c + minLength) % STAMPS == c + minLength;
    }
  }

  /** When a frame is far enough behind itself: never for a positive length. */
  lemma SelfPlayableIff(ts: Stamp, minLength: Int32)
    ensures ConvertTimestamp(ts) <= LONGEST && ConvertTimestamp(ALL) == LONGEST
    ensures Playable(ts, minLength, ConvertTimestamp(ts)) <==> minLength <= 0 <= ConvertTimestamp(ts) + minLength
  {
    var c := ConvertTimestamp(ts);
    assert ts / 1000 <= 4294967;
    if c + minLength < 0 {
      assert (c + minLength) % STAMPS == c + minLength + STAMPS;
    } else {
      assert (c + minLength) % STAMPS == c + minLength;
    }
  }

  /** The lengths for which some frame is far enough behind itself. */
  lemma SomeSelfPlayableIff(minLength: Int32)
    ensures (exists ts: Stamp :: Playable(ts, minLength, ConvertTimestamp(ts))) <==> -LONGEST <= minLength <= 0
  {
    hide Playable, ConvertTimestamp;
    forall ts: Stamp ensures Playable(ts, minLength, ConvertTimestamp(ts)) ==> -LONGEST <= minLength <= 0 {
      SelfPlayableIff(ts, minLength);
    }
    SelfPlayableIff(ALL, minLength);
  }

  // ---------- What the two containers stand for ----------

  ghost predicate Ascending(b: seq<Frame>) {
    forall i, j :: 0 <= i < j < |b| ==> b[i].number < b[j].number
  }

  ghost predicate Has(b: seq<Frame>, n: Number) {
    exists i :: 0 <= i < |b| && b[i].number == n
  }

  ghost predicate Keyed(m: Frames) {
    forall n :: n in m ==> m[n].number == n
  }

  ghost predicate Least(m: Frames, n: Number) {
    n in m && forall k :: k in m ==> n <= k
  }

  ghost predicate IsLeast(m: Frames, f: Frame) {
    Least(m, f.number) && m[f.number] == f
  }

  /**
   `live` is what list and bench stand for: the list's frames, and the bench's frames not below the deadline that
   the list does not have.
   */
  ghost predicate Shows(live: Frames, b: seq<Frame>, bench: Frames, deadline: Number) {
    && Ascending(b) && Keyed(bench)
    && (forall i :: 0 <= i < |b| ==> deadline <= b[i].number && b[i].number in live && live[b[i].number] == b[i])
    && (forall n :: n in bench && deadline <= n ==> n in live && (Has(b, n) || live[n] == bench[n]))
    && (forall n :: n in live ==> deadline <= n && live[n].number == n && (Has(b, n) || n in bench))
  }

  lemma ShowsUnique(live: Frames, live': Frames, b: seq<Frame>, bench: Frames, deadline: Number)
    requires Shows(live, b, bench, deadline) && Shows(live', b, bench, deadline)
    ensures live == live'
  {
    forall n | n in live ensures n in live' && live[n] == live'[n] {
      if Has(b, n) { var i :| 0 <= i < |b| && b[i].number == n; }
    }
    forall n | n in live' ensures n in live {
      if Has(b, n) { var i :| 0 <= i < |b| && b[i].number == n; }
    }
  }

  lemma HasTail(b: seq<Frame>)
    requires Ascending(b) && b != []
    ensures Ascending(b[1..])
    ensures forall n {:trigger Has(b[1..], n)} {:trigger Has(b, n)} :: Has(b, n) <==> Has(b[1..], n) || n == b[0].number
    ensures !Has(b[1..], b[0].number)
  {
    forall n | Has(b, n) && n != b[0].number ensures Has(b[1..], n) {
      var i :| 0 <= i < |b| && b[i].number == n;
      assert b[1..][i - 1] == b[i];
    }
  }

  lemma HasAll(b: seq<Frame>)
    ensures forall i :: 0 <= i < |b| ==> Has(b, b[i].number)
  {
  }

  ghost function Insert(b: seq<Frame>, at: nat, f: Frame): seq<Frame>
    requires at <= |b|
  {
    b[..at] + [f] + b[at..]
  }

  lemma InsertKeeps(b: seq<Frame>, at: nat, f: Frame)
    requires Ascending(b) && at <= |b|
    requires forall i :: 0 <= i < at ==> b[i].number < f.number
    requires forall i :: at <= i < |b| ==> f.number < b[i].number
    ensures var b' := Insert(b, at, f);
            && Ascending(b')
            && (forall i :: 0 <= i < |b'| ==> b'[i] == f || b'[i] in b)
            && (forall n {:trigger Has(b', n)} :: Has(b', n) <==> Has(b, n) || n == f.number)
  {
    var b' := Insert(b, at, f);
    forall n ensures Has(b', n) <==> Has(b, n) || n == f.number {
      assert b'[at] == f;
      if Has(b, n) {
        var i :| 0 <= i < |b| && b[i].number == n;
        assert b'[if i < at then i else i + 1] == b[i];
      }
    }
  }

  /** A new frame enters the list: it replaces any copy the bench may have. */
  lemma ShowsInsert(live: Frames, b: seq<Frame>, bench: Frames, deadline: Number, at: nat, f: Frame)
    requires Shows(live, b, bench, deadline) && at <= |b| && deadline <= f.number
    requires forall i :: 0 <= i < at ==> b[i].number < f.number
    requires forall i :: at <= i < |b| ==> f.number < b[i].number
    ensures Shows(live[f.number := f], Insert(b, at, f), bench, deadline)
  {
    InsertKeeps(b, at, f);
    var b', live' := Insert(b, at, f), live[f.number := f];
    forall i | 0 <= i < |b'|
      ensures deadline <= b'[i].number && b'[i].number in live' && live'[b'[i].number] == b'[i]
    {
      assert b'[i] == if i < at then b[i] else if i == at then f else b[i - 1];
    }
    assert Has(b', f.number);
  }

  /** A relayed frame enters the bench, unless its number is there already. */
  lemma ShowsRelayed(live: Frames, b: seq<Frame>, bench: Frames, deadline: Number, f: Frame)
    requires Shows(live, b, bench, deadline) && deadline <= f.number
    ensures Shows(if f.number in live then live else live[f.number := f], b,
                  if f.number in bench then bench else bench[f.number := f], deadline)
  {
    hide Has;
    HasAll(b);
  }

  lemma ShowsFacts(live: Frames, b: seq<Frame>, bench: Frames, deadline: Number)
    requires Shows(live, b, bench, deadline)
    ensures Ascending(b) && Keyed(bench)
    ensures forall n :: n in live ==> deadline <= n && live[n].number == n
    ensures forall n :: n in bench && deadline <= n && !Has(b, n) ==> n in live && live[n] == bench[n]
    ensures b != [] ==> b[0].number in live && live[b[0].number] == b[0]
  {
  }

  /** Dropping from the bench what the list has, or what is below the deadline, changes nothing. */
  lemma ShowsErase(live: Frames, b: seq<Frame>, bench: Frames, deadline: Number, n: Number)
    requires Shows(live, b, bench, deadline)
    requires Has(b, n) || n < deadline
    ensures Shows(live, b, bench - {n}, deadline)
  {
  }

  /** Moving a frame that only the bench has to the list changes nothing. */
  lemma ShowsMove(live: Frames, b: seq<Frame>, bench: Frames, deadline: Number, at: nat, n: Number)
    requires Shows(live, b, bench, deadline) && n in bench && deadline <= n && at <= |b|
    requires forall i :: 0 <= i < at ==> b[i].number < n
    requires forall i :: at <= i < |b| ==> n < b[i].number
    ensures Shows(live, Insert(b, at, bench[n]), bench - {n}, deadline)
  {
    var f := bench[n];
    ShowsInsert(live, b, bench, deadline, at, f);
    InsertKeeps(b, at, f);
    assert !Has(b, n);
    assert live[f.number := f] == live;
    ShowsErase(live, Insert(b, at, f), bench, deadline, n);
  }

  /** What is left of `live` when its least frame has left list and bench; `bench` is what it left on the bench. */
  ghost function Rest(live: Frames, bench: Frames, n: Number): Frames {
    if n < LAST_NUMBER then live - {n} else bench
  }

  function After(n: Number): Number {
    if n < LAST_NUMBER then n + 1 else 0
  }

  lemma ShowsTakeFront(live: Frames, b: seq<Frame>, bench: Frames, deadline: Number)
    requires Shows(live, b, bench, deadline) && b != [] && Least(live, b[0].number)
    ensures Shows(Rest(live, bench, b[0].number), b[1..], bench, After(b[0].number))
    ensures b[0].number == LAST_NUMBER ==> b[1..] == []
  {
    hide Has;
    HasTail(b);
    var n := b[0].number;
    assert |b| > 1 ==> b[0].number < b[1].number;
    if n < LAST_NUMBER {
      forall i | 0 <= i < |b[1..]| ensures n < b[1..][i].number && b[1..][i] == b[i + 1] {}
    }
  }

  lemma ShowsTakeBench(live: Frames, b: seq<Frame>, bench: Frames, deadline: Number, n: Number)
    requires Shows(live, b, bench, deadline) && n in bench && Least(live, n) && !Has(b, n)
    ensures Shows(Rest(live, bench - {n}, n), b, bench - {n}, After(n))
    ensures n == LAST_NUMBER ==> b == []
  {
    hide Has;
    HasAll(b);
    if b != [] { assert b[0].number in live && Has(b, b[0].number); }
  }

  /** When the last number is the least one, everything else on the bench is below the deadline. */
  lemma BenchStale(live: Frames, b: seq<Frame>, bench: Frames, deadline: Number, n: Number)
    requires Shows(live, b, bench, deadline) && Least(live, n) && n == LAST_NUMBER
    ensures bench - {n} == map k | k in bench && k < deadline :: bench[k]
  {
    hide Has;
    assert forall k :: k in live ==> n <= k;
    assert n in live && deadline <= n;
  }

  lemma ShowsFront(live: Frames, b: seq<Frame>, bench: Frames, deadline: Number)
    requires Shows(live, b, bench, deadline)
    ensures b != [] ==> deadline <= b[0].number && Has(b, b[0].number)
  {
  }

  /** The front of the list is the least live frame when the bench has nothing between the deadline and it. */
  lemma LeastFront(live: Frames, b: seq<Frame>, bench: Frames, deadline: Number)
    requires Shows(live, b, bench, deadline) && b != []
    requires forall n :: deadline <= n < b[0].number ==> n !in bench
    ensures Least(live, b[0].number) && live[b[0].number] == b[0]
  {
    forall n | n in live ensures b[0].number <= n {
      if Has(b, n) { var i :| 0 <= i < |b| && b[i].number == n; }
    }
  }

  /** Otherwise the first bench frame from the deadline on is. */
  lemma LeastBench(live: Frames, b: seq<Frame>, bench: Frames, deadline: Number, n: Number)
    requires Shows(live, b, bench, deadline) && b != [] && n in bench && deadline <= n < b[0].number
    requires forall k :: deadline <= k < n ==> k !in bench
    ensures Least(live, n) && live[n] == bench[n] && !Has(b, n)
    ensures forall i :: 0 <= i < |b| ==> n < b[i].number
  {
    forall k | k in live ensures n <= k {
      if Has(b, k) { var i :| 0 <= i < |b| && b[i].number == k; }
    }
  }

  lemma ShowsEmpty(live: Frames, b: seq<Frame>, bench: Frames, deadline: Number)
    requires Shows(live, b, bench, deadline)
    ensures b == [] && bench == map[] ==> live == map[]
    ensures b != [] ==> live != map[]
  {
    if b == [] && live != map[] {
      var n :| n in live;
      assert !Has(b, n);
    }
    if b != [] { assert b[0].number in live; }
  }

  lemma ShowsEmptied(live: Frames, b: seq<Frame>, bench: Frames, deadline: Number)
    requires Shows(live, b, bench, deadline)
    ensures live == map[] ==> b == []
  {
    if b != [] { assert b[0].number in live; }
  }

  // ---------- The books ----------

  /**
   From one delivery of the last sequence number to the next: delivery is strictly increasing, hence at most once,
   it stays below the deadline, and every number taken in is delivered, live or lost, and in only one of these ways.
   */
  ghost predicate Accounted(delivered: seq<Frame>, accepted: set<Number>, lost: set<Number>, live: Frames,
                            deadline: Number) {
    && Ascending(delivered)
    && (forall i :: 0 <= i < |delivered| ==> delivered[i].number < deadline)
    && (forall n :: n in live ==> deadline <= n)
    && (forall n :: n in accepted <==> n in live || Has(delivered, n) || n in lost)
    && (forall n :: n in lost ==> n < deadline && !Has(delivered, n))
  }

  /** What waits on the bench below the deadline was given up when the first direct frame came. */
  ghost predicate StaleLost(bench: Frames, deadline: Number, lost: set<Number>) {
    forall n :: n in bench && n < deadline ==> n in lost
  }

  lemma StaleTake(live: Frames, b: seq<Frame>, bench: Frames, deadline: Number, lost: set<Number>, n: Number)
    requires Shows(live, b, bench, deadline) && Least(live, n) && StaleLost(bench, deadline, lost)
    ensures StaleLost(bench - {n}, After(n), lost)
  {
    hide Has;
    forall k | k in bench && k != n && k < After(n) ensures k in lost {
      assert deadline <= k ==> k in live;
    }
  }

  lemma StaleFirst(live: Frames, bench: Frames, lost: set<Number>, n: Number)
    requires Shows(live, [], bench, 0)
    ensures StaleLost(bench, n, lost + Below(live, n))
  {
    hide Has;
    forall k | k in bench && k < n ensures k in Below(live, n) {
      assert k in live;
    }
  }

  lemma StaleAdd(bench: Frames, deadline: Number, lost: set<Number>, f: Frame)
    requires StaleLost(bench, deadline, lost) && deadline <= f.number
    ensures StaleLost(bench[f.number := f], deadline, lost)
  {
  }

  lemma AccountedAdd(delivered: seq<Frame>, accepted: set<Number>, lost: set<Number>, live: Frames, deadline: Number,
                     f: Frame)
    requires Accounted(delivered, accepted, lost, live, deadline) && deadline <= f.number
    ensures Accounted(delivered, accepted + {f.number}, lost, live[f.number := f], deadline)
    ensures f.number in live ==> Accounted(delivered, accepted + {f.number}, lost, live, deadline)
  {
    hide Has;
  }

  ghost function Below(live: Frames, n: Number): set<Number> {
    set k | k in live && k < n
  }

  ghost function From(live: Frames, n: Number): Frames {
    map k | k in live && n <= k :: live[k]
  }

  lemma AccountedFirst(accepted: set<Number>, lost: set<Number>, live: Frames, f: Frame)
    requires Accounted([], accepted, lost, live, 0)
    ensures Accounted([], accepted + {f.number}, lost + Below(live, f.number),
                      From(live, f.number)[f.number := f], f.number)
  {
  }

  lemma ShowsFirst(live: Frames, bench: Frames, f: Frame)
    requires Shows(live, [], bench, 0)
    ensures Shows(From(live, f.number)[f.number := f], [f], bench, f.number)
  {
    assert [f][0].number == f.number;
    assert Has([f], f.number);
    forall k ensures !Has([], k) {}
  }

  lemma AccountedTake(delivered: seq<Frame>, accepted: set<Number>, lost: set<Number>, live: Frames, deadline: Number,
                      f: Frame)
    requires Accounted(delivered, accepted, lost, live, deadline) && Least(live, f.number) && f.number < LAST_NUMBER
    ensures Accounted(delivered + [f], accepted, lost, live - {f.number}, f.number + 1)
  {
    var delivered' := delivered + [f];
    forall n ensures Has(delivered', n) <==> Has(delivered, n) || n == f.number {
      assert delivered'[|delivered|] == f;
      if Has(delivered, n) {
        var i :| 0 <= i < |delivered| && delivered[i].number == n;
        assert delivered'[i] == delivered[i];
      }
    }
  }

  lemma AccountedRestart(b: seq<Frame>, bench: Frames, live: Frames)
    requires Shows(live, b, bench, 0)
    ensures Accounted([], live.Keys, {}, live, 0) && StaleLost(bench, 0, {})
  {
    hide Shows;
  }

  /**
   Over the whole run: a number is followed by a larger one unless it is the last one, and the current numbering
   began with the first frame or right behind a last number.
   */
  ghost predicate Restarts(delivered: seq<Frame>, epoch: nat) {
    && epoch <= |delivered|
    && (epoch > 0 ==> delivered[epoch - 1].number == LAST_NUMBER)
    && (forall i :: 0 <= i < |delivered| - 1 ==>
          delivered[i].number == LAST_NUMBER || delivered[i].number < delivered[i + 1].number)
  }

  lemma RestartsTake(delivered: seq<Frame>, epoch: nat, accepted: set<Number>, lost: set<Number>, live: Frames,
                     deadline: Number, f: Frame)
    requires Restarts(delivered, epoch) && deadline <= f.number
    requires Accounted(delivered[epoch..], accepted, lost, live, deadline)
    ensures Restarts(delivered + [f], epoch) && (delivered + [f])[epoch..] == delivered[epoch..] + [f]
    ensures f.number == LAST_NUMBER ==> Restarts(delivered + [f], |delivered| + 1)
  {
    hide Has;
    var n := |delivered| - epoch;
    if n > 0 { assert delivered[epoch..][n - 1].number < deadline; }
  }

  /**
   The books: the frames that list and bench stand for, the deadline, what `Read` has returned in order, how much of
   that was returned before the numbers last began again, and the sequence numbers of the current numbering that
   were taken in and that were given up when the first direct frame set the deadline.
   */
  datatype Books = Books(live: Frames, deadline: Number, delivered: seq<Frame>, epoch: nat,
                               accepted: set<Number>, lost: set<Number>)

  /** What delivering `f` does to the books: the last number begins a new numbering with what is stale. */
  ghost function Deliver(s: Books, f: Frame, stale: Frames): Books {
    var live := Rest(s.live, stale, f.number);
    if f.number < LAST_NUMBER then
      s.(live := live, deadline := After(f.number), delivered := s.delivered + [f])
    else
      Books(live, After(f.number), s.delivered + [f], |s.delivered| + 1, live.Keys, {})
  }

  ghost predicate Kept(s: Books, bench: Frames) {
    && Restarts(s.delivered, s.epoch) && (s.epoch > 0 ==> s.lost == {})
    && Accounted(s.delivered[s.epoch..], s.accepted, s.lost, s.live, s.deadline)
    && StaleLost(bench, s.deadline, s.lost)
  }

  lemma KeptFacts(s: Books, bench: Frames)
    requires Kept(s, bench)
    ensures forall n :: n in bench && n < s.deadline ==> n in s.lost
    ensures s.epoch > 0 ==> s.lost == {}
  {
  }

  lemma KeptErase(s: Books, bench: Frames, n: Number)
    requires Kept(s, bench)
    ensures Kept(s, bench - {n})
  {
    hide Accounted, Restarts;
  }

  /** The books when a frame is taken in; it joins the live ones when there was none of its number or it is direct. */
  ghost function Accept(s: Books, f: Frame, direct: bool): Books {
    s.(accepted := s.accepted + {f.number},
       live := if direct || f.number !in s.live then s.live[f.number := f] else s.live)
  }

  lemma KeptAccept(s: Books, bench: Frames, f: Frame, direct: bool)
    requires Kept(s, bench) && s.deadline <= f.number
    ensures Kept(Accept(s, f, direct), bench) && Kept(Accept(s, f, direct), bench[f.number := f])
  {
    hide Accounted;
    AccountedAdd(s.delivered[s.epoch..], s.accepted, s.lost, s.live, s.deadline, f);
    StaleAdd(bench, s.deadline, s.lost, f);
  }

  /** The books when the first direct frame sets the deadline. */
  ghost function AcceptFirst(s: Books, f: Frame): Books {
    s.(live := From(s.live, f.number)[f.number := f], deadline := f.number, accepted := s.accepted + {f.number},
       lost := s.lost + Below(s.live, f.number))
  }

  lemma KeptFirst(s: Books, bench: Frames, f: Frame)
    requires Kept(s, bench) && Shows(s.live, [], bench, 0) && s.delivered == [] && s.deadline == 0
    ensures Kept(AcceptFirst(s, f), bench)
  {
    hide Shows, Accounted, StaleLost;
    AccountedFirst(s.accepted, s.lost, s.live, f);
    StaleFirst(s.live, bench, s.lost, f.number);
  }

  lemma KeptDeliver(s: Books, b: seq<Frame>, b': seq<Frame>, bench: Frames, f: Frame)
    requires Kept(s, bench) && s.deadline <= f.number && Least(s.live, f.number)
    requires Shows(s.live, b, bench, s.deadline)
    requires Shows(Rest(s.live, bench - {f.number}, f.number), b', bench - {f.number}, After(f.number))
    ensures Kept(Deliver(s, f, bench - {f.number}), bench - {f.number})
  {
    hide Shows, Accounted, StaleLost, Has, Least;
    RestartsTake(s.delivered, s.epoch, s.accepted, s.lost, s.live, s.deadline, f);
    if f.number < LAST_NUMBER {
      StaleTake(s.live, b, bench, s.deadline, s.lost, f.number);
      AccountedTake(s.delivered[s.epoch..], s.accepted, s.lost, s.live, s.deadline, f);
    } else {
      var stale := bench - {f.number};
      AccountedRestart(b', stale, stale);
      assert (s.delivered + [f])[|s.delivered| + 1..] == [];
    }
  }

  // ---------- The buffer ----------

  /** The list after a delivery: a delivered frame leaves it from the front, if it was there. */
  function ListWithout(b: seq<Frame>, r: Option<Frame>): seq<Frame> {
    if r.Some? && b != [] && b[0] == r.value then b[1..] else b
  }

  class JitterBuffer {
    const minLength: Int32
    var buffer: seq<Frame>
    var bench: Frames
    var received: nat
    var deadline: Number
    /** The frames that list and bench stand for. */
    ghost var live: Frames
    /** What `Read` has returned, in order, and how much of it was returned before the numbers last began again. */
    ghost var delivered: seq<Frame>
    ghost var epoch: nat
    /**
     The sequence numbers of the current numbering: those taken in, and those given up when the first direct frame
     set the deadline.
     */
    ghost var accepted: set<Number>
    ghost var lost: set<Number>

    ghost predicate Valid()
      reads this
    {
      && Shows(live, buffer, bench, deadline)
      && (received == 0 ==> buffer == [] && deadline == 0 && delivered == [])
      && Kept(State(), bench)
    }

    ghost function State(): Books
      reads this
    {
      Books(live, deadline, delivered, epoch, accepted, lost)
    }

    /** Bench frames below the deadline; they come back to life when the numbers wrap around. */
    ghost function Stale(): Frames
      reads this
    {
      map n | n in bench && n < deadline :: bench[n]
    }

    constructor (minLength: Int32)
      ensures Valid() && buffer == [] && bench == map[] && received == 0
      ensures State() == Books(map[], 0, [], 0, {}, {})
      ensures this.minLength == minLength
    {
      this.minLength := minLength;
      buffer, bench, received, deadline := [], map[], 0, 0;
      live, delivered, epoch, accepted, lost := map[], [], 0, {}, {};
    }

    /** Walks the list from the back to where `f` belongs, and puts it there unless its number is taken. */
    method InsertSorted(f: Frame) returns (added: bool, ghost at: nat)
      requires Ascending(buffer)
      modifies this`buffer, this`received
      ensures added <==> !Has(old(buffer), f.number)
      ensures !added ==> buffer == old(buffer) && received == old(received)
      ensures added ==> at <= |old(buffer)| && buffer == Insert(old(buffer), at, f) && received == old(received) + 1
      ensures added ==> forall i :: 0 <= i < at ==> old(buffer)[i].number < f.number
      ensures added ==> forall i :: at <= i < |old(buffer)| ==> f.number < old(buffer)[i].number
    {
      var it := |buffer| - 1;
      while it != -1
        invariant -1 <= it < |buffer|
        invariant forall i :: it < i < |buffer| ==> f.number < buffer[i].number
        decreases it
      {
        if buffer[it].number <= f.number { break; }
        it := it - 1;
      }
      at := it + 1;
      if it == -1 || buffer[it].number < f.number {
        added := true;
        buffer := buffer[..it + 1] + [f] + buffer[it + 1..];
        received := received + 1;
      } else {
        added := false;
        assert Has(buffer, f.number);
      }
    }

    /**
     A frame comes in.  A direct frame replaces a relayed copy that still waits; a relayed frame replaces nothing.
     The very first direct frame sets the deadline and gives up what the bench has below it.
     */
    method Write(f: Frame, path: int) returns (result: int)
      requires Valid()
      modifies this
      ensures Valid() && delivered == old(delivered) && epoch == old(epoch)
      ensures path == 0 && old(received) == 0 ==>
                && result == 1 && deadline == f.number
                && live == From(old(live), f.number)[f.number := f]
                && lost == old(lost) + Below(old(live), f.number)
      ensures path == 0 && old(received) != 0 ==>
                && deadline == old(deadline) && lost == old(lost)
                && result == (if deadline <= f.number && !Has(old(buffer), f.number) then 1 else 0)
                && live == if result == 1 then old(live)[f.number := f] else old(live)
      ensures path != 0 ==>
                && deadline == old(deadline) && lost == old(lost)
                && result == (if deadline <= f.number then 1 else 0)
                && live == if result == 1 && f.number !in old(live) then old(live)[f.number := f] else old(live)
      ensures accepted == if result == 1 then old(accepted) + {f.number} else old(accepted)
      ensures received == if path == 0 && result == 1 then old(received) + 1 else old(received)
      ensures path != 0 || result == 0 ==> buffer == old(buffer)
      ensures bench == if path != 0 && result == 1 && f.number !in old(bench) then old(bench)[f.number := f]
                       else old(bench)
      ensures path == 0 && result == 1 ==> exists at :: 0 <= at <= |old(buffer)| && buffer == Insert(old(buffer), at, f)
    {
      hide Shows, Kept, Has;
      if path != 0 {
        if f.number < deadline { return 0; }
        ShowsRelayed(live, buffer, bench, deadline, f);
        KeptAccept(State(), bench, f, false);
        if f.number !in bench { bench := bench[f.number := f]; }
        if f.number !in live { live := live[f.number := f]; }
        accepted := accepted + {f.number};
        return 1;
      }
      if received == 0 {
        WriteFirst(f);
        assert buffer == Insert([], 0, f);
        return 1;
      }
      if f.number < deadline { return 0; }
      ghost var b := buffer;
      assert Ascending(b) by { ShowsFacts(live, b, bench, deadline); }
      var added, at := InsertSorted(f);
      if added {
        ShowsInsert(live, b, bench, deadline, at, f);
        KeptAccept(State(), bench, f, true);
        live := live[f.number := f];
        accepted := accepted + {f.number};
        return 1;
      }
      return 0;
    }

    method WriteFirst(f: Frame)
      requires Valid() && received == 0
      modifies this
      ensures Valid() && received == 1 && buffer == [f] && deadline == f.number
      ensures delivered == old(delivered) && epoch == old(epoch)
      ensures live == From(old(live), f.number)[f.number := f]
      ensures lost == old(lost) + Below(old(live), f.number)
      ensures accepted == old(accepted) + {f.number} && bench == old(bench)
    {
      hide Shows, Kept, Has;
      ShowsFirst(live, bench, f);
      KeptFirst(State(), bench, f);
      assert buffer + [f] == [f];
      buffer := buffer + [f];
      deadline := f.number;
      received := received + 1;
      lost := lost + Below(live, f.number);
      live := From(live, f.number)[f.number := f];
      accepted := accepted + {f.number};
    }

    /** Moves the whole bench into the list, smallest number first. */
    method MergeBench()
      requires Valid()
      modifies this`buffer, this`bench, this`received
      ensures Valid() && bench == map[]
    {
      hide Shows, Kept, Has;
      while bench != map[]
        invariant Valid() && live == old(live)
        decreases bench.Keys
      {
        ShowsFacts(live, buffer, bench, deadline);
        ghost var least := LeastKey(bench);
        var n :| n in bench && forall k :: k in bench ==> n <= k;
        var f := bench[n];
        if f.number >= deadline {
          ghost var b := buffer;
          var added, at := InsertSorted(f);
          if added {
            ShowsMove(live, b, bench, deadline, at, n);
          } else {
            ShowsErase(live, b, bench, deadline, n);
          }
        } else {
          ShowsErase(live, buffer, bench, deadline, n);
        }
        KeptErase(State(), bench, n);
        bench := bench - {n};
      }
    }

    /** Looks for the smallest number on the bench from `from` up to, but not including, `to`. */
    method SearchBench(from: Number, to: Number) returns (i: Number, found: bool)
      requires from <= to
      ensures from <= i <= to && (found <==> i < to) && (found ==> i in bench)
      ensures forall n :: from <= n < i ==> n !in bench
    {
      i := from;
      while i < to
        invariant from <= i <= to
        invariant forall n :: from <= n < i ==> n !in bench
      {
        if i in bench { return i, true; }
        i := i + 1;
      }
      return i, false;
    }

    /** Takes the frame at the front of the list, the least one. */
    method TakeFront() returns (f: Frame)
      requires Valid() && buffer != [] && Least(live, buffer[0].number) && buffer[0].number !in bench
      modifies this
      ensures Valid() && f == old(buffer)[0] && State() == Deliver(old(State()), f, old(Stale()))
      ensures buffer == old(buffer)[1..] && bench == old(bench) && received == old(received)
      ensures f.number == LAST_NUMBER ==> buffer == []
    {
      hide Shows, Kept, Has;
      f := buffer[0];
      ShowsTakeFront(live, buffer, bench, deadline);
      ShowsFront(live, buffer, bench, deadline);
      assert bench - {f.number} == bench;
      KeptDeliver(State(), buffer, buffer[1..], bench, f);
      if f.number == LAST_NUMBER { BenchStale(live, buffer, bench, deadline, f.number); }
      ghost var s := Deliver(State(), f, bench);
      deadline := After(f.number);
      buffer := buffer[1..];
      Record(s);
    }

    /** Takes frame `n` off the bench, the least one. */
    method TakeBench(n: Number) returns (f: Frame)
      requires Valid() && n in bench && Least(live, n) && !Has(buffer, n) && received > 0 && live[n] == bench[n]
      modifies this
      ensures Valid() && f == old(bench)[n] && f.number == n && State() == Deliver(old(State()), f, old(Stale()))
      ensures buffer == old(buffer) && bench == old(bench) - {n} && received == old(received)
      ensures n == LAST_NUMBER ==> buffer == []
    {
      hide Shows, Kept, Has;
      f := bench[n];
      ShowsFacts(live, buffer, bench, deadline);
      ShowsTakeBench(live, buffer, bench, deadline, n);
      KeptDeliver(State(), buffer, buffer, bench, f);
      if n == LAST_NUMBER { BenchStale(live, buffer, bench, deadline, n); }
      ghost var s := Deliver(State(), f, bench - {n});
      deadline := After(n);
      bench := bench - {n};
      Record(s);
    }

    /** Writes new books. */
    ghost method Record(s: Books)
      requires received > 0 && s.deadline == deadline && Shows(s.live, buffer, bench, deadline) && Kept(s, bench)
      modifies this`live, this`delivered, this`epoch, this`accepted, this`lost
      ensures Valid() && State() == s
    {
      live, delivered, epoch, accepted, lost := s.live, s.delivered, s.epoch, s.accepted, s.lost;
    }

    /** The oldest live frame is played when it is far enough behind the newest one in the list. */
    ghost predicate Due(f: Frame, timestamp: Stamp, newest: Stamp) {
      timestamp == ALL || Playable(f.ts, minLength, newest)
    }

    /** The least live frame is not due. */
    ghost predicate Waits(m: Frames, timestamp: Stamp, newest: Stamp) {
      forall n :: Least(m, n) ==> !Due(m[n], timestamp, newest)
    }

    lemma WaitsFacts(m: Frames, n: Number, timestamp: Stamp, newest: Stamp)
      requires Least(m, n)
      ensures Waits(m, timestamp, newest) <==> !Due(m[n], timestamp, newest)
    {
    }

    /** In a timed read a frame waits unless its time, put forward by the length, is within that of the newest. */
    lemma WaitsIff(m: Frames, timestamp: Stamp, newest: Stamp)
      requires newest <= LONGEST
      ensures timestamp != ALL ==> forall n :: Least(m, n) ==>
                (Waits(m, timestamp, newest) <==> !(0 <= ConvertTimestamp(m[n].ts) + minLength <= newest))
    {
      forall n | timestamp != ALL && Least(m, n)
        ensures Waits(m, timestamp, newest) <==> !(0 <= ConvertTimestamp(m[n].ts) + minLength <= newest)
      {
        hide Playable, ConvertTimestamp, Least;
        LeastUnique(m, n);
        PlayableIff(m[n].ts, minLength, newest);
      }
    }

    /**
     Looks ahead: `finished` says whether the next frame must wait.  A next frame that only the bench has moves to
     the front of the list.
     */
    method LookAhead(timestamp: Stamp, newest: Stamp) returns (finished: bool)
      requires Valid()
      modifies this`buffer, this`bench, this`received
      ensures Valid()
      ensures (buffer == [] <==> old(buffer) == []) && (old(bench) == map[] ==> bench == map[])
      ensures buffer == old(buffer) || (buffer != [] && buffer[1..] == old(buffer))
      ensures finished <==> old(buffer) == [] || Waits(live, timestamp, newest)
      ensures timestamp != ALL && newest <= LONGEST && old(buffer) != [] ==> forall n :: Least(live, n) ==>
                (!finished <==> 0 <= ConvertTimestamp(live[n].ts) + minLength <= newest)
    {
      hide Shows, Kept, Has, Playable, Waits, Least, ConvertTimestamp;
      if newest <= LONGEST { WaitsIff(live, timestamp, newest); }
      if buffer == [] { return true; }
      ShowsFacts(live, buffer, bench, deadline);
      ShowsFront(live, buffer, bench, deadline);
      var i, found := SearchBench(deadline, buffer[0].number);
      if !found {
        LeastFront(live, buffer, bench, deadline);
        WaitsFacts(live, buffer[0].number, timestamp, newest);
        ShowsErase(live, buffer, bench, deadline, i);
        KeptErase(State(), bench, i);
        bench := bench - {i};
        finished := !(timestamp == ALL || Playable(buffer[0].ts, minLength, newest));
      } else {
        LeastBench(live, buffer, bench, deadline, i);
        WaitsFacts(live, i, timestamp, newest);
        finished := !(timestamp == ALL || Playable(bench[i].ts, minLength, newest));
        ShowsMove(live, buffer, bench, deadline, 0, i);
        assert buffer[..0] + [bench[i]] + buffer[0..] == [bench[i]] + buffer;
        buffer := [bench[i]] + buffer;
        received := received + 1;
        KeptErase(State(), bench, i);
        bench := bench - {i};
      }
    }

    /** The frame `Read` offers when the list is not empty: the least live one, if it is due. */
    method TakeLeast(timestamp: Stamp, newest: Stamp) returns (r: Option<Frame>)
      requires Valid() && buffer != []
      modifies this
      ensures Valid() && State() == if r.Some? then Deliver(old(State()), r.value, old(Stale())) else old(State())
      ensures buffer == ListWithout(old(buffer), r)
      ensures r.None? <==> Waits(old(live), timestamp, newest)
      ensures r.Some? ==> IsLeast(old(live), r.value) && Due(r.value, timestamp, newest)
      ensures r.Some? && r.value.number == LAST_NUMBER ==> buffer == [] && old(buffer) == [r.value]
      ensures old(bench) == map[] ==> bench == map[]
    {
      hide Shows, Kept, Has, Playable, Waits, Least;
      ShowsFacts(live, buffer, bench, deadline);
      ShowsFront(live, buffer, bench, deadline);
      if buffer[0].number == deadline {
        LeastFront(live, buffer, bench, deadline);
        r := OfferFront(timestamp, newest);
      } else if deadline in bench {
        LeastBench(live, buffer, bench, deadline, deadline);
        r := OfferBench(deadline, timestamp, newest);
        if r.Some? { received := received + 1; }
      } else {
        // the expected frame is lost: the least one there is takes its place
        var i, found := SearchBench(deadline + 1, buffer[0].number);
        if !found {
          LeastFront(live, buffer, bench, deadline);
          r := OfferFront(timestamp, newest);
        } else {
          LeastBench(live, buffer, bench, deadline, i);
          r := OfferBench(i, timestamp, newest);
        }
      }
    }

    method OfferFront(timestamp: Stamp, newest: Stamp) returns (r: Option<Frame>)
      requires Valid() && buffer != [] && Least(live, buffer[0].number) && live[buffer[0].number] == buffer[0]
      modifies this
      ensures Valid() && (old(bench) == map[] ==> bench == map[])
      ensures r == if Due(old(buffer)[0], timestamp, newest) then Some(old(buffer)[0]) else None
      ensures buffer == ListWithout(old(buffer), r)
      ensures r.None? <==> Waits(old(live), timestamp, newest)
      ensures State() == if r.Some? then Deliver(old(State()), r.value, old(Stale())) else old(State())
      ensures r.Some? && r.value.number == LAST_NUMBER ==> buffer == []
    {
      hide Shows, Kept, Has, Playable, Waits, Least;
      HasAll(buffer);
      WaitsFacts(live, buffer[0].number, timestamp, newest);
      ShowsErase(live, buffer, bench, deadline, buffer[0].number);
      KeptErase(State(), bench, buffer[0].number);
      bench := bench - {buffer[0].number};
      assert Stale() == old(Stale()) by { ShowsFront(live, buffer, bench, deadline); }
      if timestamp == ALL || Playable(buffer[0].ts, minLength, newest) {
        var f := TakeFront();
        r := Some(f);
      } else {
        r := None;
      }
    }

    method OfferBench(n: Number, timestamp: Stamp, newest: Stamp) returns (r: Option<Frame>)
      requires Valid() && buffer != [] && n in bench && Least(live, n) && live[n] == bench[n] && !Has(buffer, n)
      modifies this
      ensures Valid() && buffer == old(buffer) && (r.Some? ==> r.value.number == n)
      ensures r == if Due(old(bench)[n], timestamp, newest) then Some(old(bench)[n]) else None
      ensures r.None? <==> Waits(old(live), timestamp, newest)
      ensures State() == if r.Some? then Deliver(old(State()), r.value, old(Stale())) else old(State())
      ensures r.Some? && r.value.number == LAST_NUMBER ==> buffer == []
    {
      hide Shows, Kept, Has, Playable, Waits;
      WaitsFacts(live, n, timestamp, newest);
      if timestamp == ALL || Playable(bench[n].ts, minLength, newest) {
        var f := TakeBench(n);
        r := Some(f);
      } else {
        r := None;
      }
    }

    /** One read: the least live frame is taken or must wait, and the next one is looked at. */
    method Next(timestamp: Stamp) returns (r: Option<Frame>, finished: bool)
      requires Valid()
      modifies this
      ensures Valid() && (r.None? ==> State() == old(State()) && finished)
      ensures r.Some? ==> IsLeast(old(live), r.value)
      ensures r.Some? ==>
                State() == Deliver(old(State()), r.value, if timestamp == ALL then map[] else old(Stale()))
      ensures timestamp != ALL ==>
                var rest := ListWithout(old(buffer), r); buffer == rest || (buffer != [] && buffer[1..] == rest)
      ensures timestamp == ALL ==> bench == map[] && (r.None? <==> old(live) == map[])
      ensures timestamp == ALL ==> (finished <==> live == map[])
      ensures timestamp != ALL ==>
                (r.None? <==> old(buffer) == [] || Waits(old(live), timestamp, Newest(old(buffer))))
      ensures timestamp != ALL && r.Some? ==>
                (finished <==> buffer == [] || Waits(live, timestamp, Newest(old(buffer))))
      ensures r.Some? && r.value.number == LAST_NUMBER ==>
                live == map[] || (timestamp != ALL && old(epoch) == 0 && live.Keys <= old(lost))
      ensures minLength > 0 && r.Some? && r.value.number == LAST_NUMBER ==> timestamp == ALL && live == map[]
      ensures timestamp != ALL && r.Some? && r.value.number == LAST_NUMBER ==>
                old(buffer) == [r.value] && minLength <= 0 <= ConvertTimestamp(r.value.ts) + minLength
    {
      hide Shows, Kept, Has, Playable, Waits, Least;
      KeptFacts(State(), bench);
      SelfPlayableIff(if buffer == [] then 0 else buffer[0].ts, minLength);
      if timestamp == ALL && bench != map[] { MergeBench(); }
      if buffer == [] {
        ShowsEmpty(live, buffer, bench, deadline);
        return None, true;
      }
      var newest := ConvertTimestamp(buffer[|buffer| - 1].ts);
      ShowsFacts(live, buffer, bench, deadline);
      ghost var least := LeastKey(live);
      WaitsFacts(live, least, timestamp, newest);
      r := TakeLeast(timestamp, newest);
      if r.None? { return None, true; }
      finished := LookAhead(timestamp, newest);
      ShowsEmpty(live, buffer, bench, deadline);
      if live != map[] {
        least := LeastKey(live);
        WaitsFacts(live, least, timestamp, newest);
      }
    }

    /**
     Returns the least live frame and removes exactly that one, or returns nothing: with an empty list (an explicit
     flush first moves the bench into it) or when the least frame is not due.  `finished` says that the next frame
     must wait.  Delivering the last sequence number restarts the numbers at 0.  In a flush that leaves nothing
     live.  In a timed read it brings back the bench frames below the deadline, which were all given up for the
     first direct frame, but for a positive length no timed read delivers the last number.
     */
    method Read(timestamp: Stamp) returns (r: Option<Frame>, finished: bool)
      requires Valid()
      modifies this
      ensures Valid() && (r.None? ==> State() == old(State()) && finished)
      ensures r.Some? ==> IsLeast(old(live), r.value)
      ensures r.Some? ==>
                State() == Deliver(old(State()), r.value, if timestamp == ALL then map[] else old(Stale()))
      ensures timestamp != ALL ==>
                var rest := ListWithout(old(buffer), r); buffer == rest || (buffer != [] && buffer[1..] == rest)
      ensures timestamp == ALL ==> bench == map[] && (r.None? <==> old(live) == map[])
      ensures timestamp == ALL ==> (finished <==> live == map[])
      ensures timestamp != ALL ==>
                (r.None? <==> old(buffer) == [] || Waits(old(live), timestamp, Newest(old(buffer))))
      ensures timestamp != ALL && r.Some? ==>
                (finished <==> buffer == [] || Waits(live, timestamp, Newest(old(buffer))))
      ensures timestamp != ALL && old(buffer) != [] ==>
                var last := old(buffer)[|old(buffer)| - 1].ts;
                && (forall n :: Least(old(live), n) ==>
                      (r.Some? <==>
                         0 <= ConvertTimestamp(old(live)[n].ts) + minLength <= ConvertTimestamp(last)))
                && (r.Some? && buffer != [] ==> forall n :: Least(live, n) ==>
                      (!finished <==> 0 <= ConvertTimestamp(live[n].ts) + minLength <= ConvertTimestamp(last)))
      ensures r.Some? ==>
                var n := r.value.number;
                && n in old(live) && old(live)[n] == r.value && (forall k :: k in old(live) ==> n <= k)
                && delivered == old(delivered) + [r.value]
                && (n < 65535 ==> live == old(live) - {n} && deadline == n + 1)
                && (n == 65535 ==> deadline == 0)
      ensures r.None? ==> live == old(live) && delivered == old(delivered) && deadline == old(deadline)
      ensures r.Some? && r.value.number == LAST_NUMBER ==>
                live == map[] || (timestamp != ALL && old(epoch) == 0 && live.Keys <= old(lost))
      ensures minLength > 0 && r.Some? && r.value.number == LAST_NUMBER ==> timestamp == ALL && live == map[]
      ensures timestamp != ALL && r.Some? && r.value.number == LAST_NUMBER ==>
                old(buffer) == [r.value] && minLength <= 0 <= ConvertTimestamp(r.value.ts) + minLength
    {
      hide Valid, Playable, Waits, Least, IsLeast, ConvertTimestamp, Deliver;
      ghost var newest := Newest(buffer);
      if buffer != [] { PlayableIff(buffer[|buffer| - 1].ts, minLength, 0); }
      WaitsIff(live, timestamp, newest);
      r, finished := Next(timestamp);
      WaitsIff(live, timestamp, newest);
      if r.Some? { DeliverFacts(old(live), old(State()), r.value, if timestamp == ALL then map[] else old(Stale())); }
    }

    /** Flushes: reads without regard to time until nothing is left. */
    method Drain() returns (out: seq<Frame>)
      requires Valid()
      modifies this
      ensures Valid() && buffer == [] && bench == map[] && live == map[]
      ensures Ascending(out) && delivered == old(delivered) + out
      ensures forall n :: n in old(live) <==> Has(out, n)
      ensures forall i :: 0 <= i < |out| ==> out[i].number in old(live) && out[i] == old(live)[out[i].number]
    {
      hide Shows, Kept, Has, Playable, Waits, Least, Drained, Rest;
      out := [];
      var finished := false;
      DrainStart(live);
      while !finished
        invariant Valid() && delivered == old(delivered) + out && Drained(old(live), out, live)
        invariant finished ==> live == map[] && bench == map[]
        decreases |live| + if finished then 0 else 1
      {
        ghost var before := live;
        var r;
        r, finished := Read(ALL);
        if r.Some? {
          DrainStep(old(live), out, before, r.value);
          RestAll(before, r.value.number);
          out := out + [r.value];
        }
      }
      DrainEnd(old(live), out);
      ShowsEmptied(live, buffer, bench, deadline);
    }
  }

  /**
   A direct frame that is newer than everything in the list, and at least `minLength` newer than the least live one,
   makes the next timed read return that least one.
   */
  method PlayOut(j: JitterBuffer, f: Frame, ghost least: Frame) returns (r: Option<Frame>, finished: bool)
    requires j.Valid() && j.received > 0 && IsLeast(j.live, least) && least.number < f.number
    requires forall i :: 0 <= i < |j.buffer| ==> j.buffer[i].number < f.number
    requires 0 <= ConvertTimestamp(least.ts) + j.minLength <= ConvertTimestamp(f.ts)
    modifies j
    ensures j.Valid() && r == Some(least)
  {
    hide Shows, Kept, Playable, ConvertTimestamp;
    ShowsFacts(j.live, j.buffer, j.bench, j.deadline);
    var result := j.Write(f, 0);
    assert result == 1;
    ShowsFacts(j.live, j.buffer, j.bench, j.deadline);
    LastInserted(old(j.buffer), j.buffer, f);
    assert IsLeast(j.live, least);
    r, finished := j.Read(0);
    LeastUnique(old(j.live)[f.number := f], least.number);
  }

  lemma LastInserted(b: seq<Frame>, b': seq<Frame>, f: Frame)
    requires Ascending(b') && exists at :: 0 <= at <= |b| && b' == Insert(b, at, f)
    requires forall i :: 0 <= i < |b| ==> b[i].number < f.number
    ensures b' != [] && b'[|b'| - 1] == f
  {
    var at :| 0 <= at <= |b| && b' == Insert(b, at, f);
    assert b'[at] == f;
    assert forall i :: 0 <= i < |b'| && i != at ==> b'[i] in b;
    assert b'[at].number <= b'[|b'| - 1].number;
  }

  /** In ticks: three units more than the length are enough, three units less are not. */
  lemma TicksDecide(ts: Stamp, minLength: Int32, last: Stamp)
    requires 0 <= minLength
    ensures ts + 1000 * (minLength + 3) <= last ==> ConvertTimestamp(ts) + minLength <= ConvertTimestamp(last)
    ensures last < ts + 1000 * (minLength - 3) ==> ConvertTimestamp(last) < ConvertTimestamp(ts) + minLength
  {
    hide ConvertTimestamp;
    TicksToMillis(ts);
    TicksToMillis(last);
  }

  /**
   For every length that lets a frame be due against itself a timed read can deliver the last number, and then a
   relayed frame that the first direct frame had given up is live again.  `Read` says that it takes such a length.
   */
  method Revive(minLength: Int32) returns (j: JitterBuffer, r: Option<Frame>)
    requires -LONGEST <= minLength <= 0
    ensures fresh(j) && j.Valid() && j.minLength == minLength
    ensures r == Some(Frame(LAST_NUMBER, ALL, [])) && j.delivered == [r.value]
    ensures j.live == map[5 := Frame(5, 0, [])] && j.deadline == 0
  {
    hide Shows, Kept, Has, Playable;
    var relayed, direct := Frame(5, 0, []), Frame(LAST_NUMBER, ALL, []);
    SelfPlayableIff(ALL, minLength);
    j := new JitterBuffer(minLength);
    var _ := j.Write(relayed, 1);
    var _ := j.Write(direct, 0);
    assert j.bench == map[5 := relayed];
    assert 5 in j.Stale() && j.Stale()[5] == relayed;
    assert j.Stale() == map[5 := relayed];
    assert j.live == map[LAST_NUMBER := direct];
    assert Least(j.live, LAST_NUMBER);
    var finished;
    r, finished := j.Read(0);
  }

  /** What a delivery does, in terms of the frames: the least one leaves, and the next number is expected. */
  lemma DeliverFacts(live: Frames, s: Books, f: Frame, stale: Frames)
    requires s.live == live && IsLeast(live, f)
    ensures var n, s' := f.number, Deliver(s, f, stale);
            && n in live && live[n] == f && (forall k :: k in live ==> n <= k)
            && s'.delivered == s.delivered + [f]
            && (n < 65535 ==> s'.live == live - {n} && s'.deadline == n + 1)
            && (n == 65535 ==> s'.deadline == 0)
  {
  }

  ghost function Newest(b: seq<Frame>): Stamp {
    if b == [] then 0 else ConvertTimestamp(b[|b| - 1].ts)
  }

  /** `out` came out of `live0` in order, and `live` is what remains. */
  ghost predicate Drained(live0: Frames, out: seq<Frame>, live: Frames) {
    && Ascending(out)
    && (forall n :: n in live ==> n in live0 && live[n] == live0[n])
    && (forall n {:trigger Has(out, n)} :: n in live0 <==> n in live || Has(out, n))
    && (forall i :: 0 <= i < |out| ==> out[i].number in live0 && out[i] == live0[out[i].number])
    && (forall i, n :: 0 <= i < |out| && n in live ==> out[i].number < n)
  }

  lemma DrainStart(live: Frames)
    ensures Drained(live, [], live)
  {
  }

  lemma DrainEnd(live0: Frames, out: seq<Frame>)
    requires Drained(live0, out, map[])
    ensures Ascending(out) && forall n :: n in live0 <==> Has(out, n)
    ensures forall i :: 0 <= i < |out| ==> out[i].number in live0 && out[i] == live0[out[i].number]
  {
    hide Has;
    assert forall n {:trigger Has(out, n)} :: n in live0 <==> Has(out, n);
  }

  /** With nothing stale on the bench, the last number is taken like any other. */
  lemma RestAll(live: Frames, n: Number)
    requires Least(live, n)
    ensures Rest(live, map[], n) == live - {n} && |live - {n}| < |live|
  {
    assert live == (live - {n})[n := live[n]];
  }

  lemma DrainStep(live0: Frames, out: seq<Frame>, live: Frames, f: Frame)
    requires Drained(live0, out, live) && Least(live, f.number) && f == live[f.number]
    ensures Drained(live0, out + [f], live - {f.number})
  {
    forall n ensures Has(out + [f], n) <==> Has(out, n) || n == f.number {
      assert (out + [f])[|out|] == f;
      if Has(out, n) {
        var i :| 0 <= i < |out| && out[i].number == n;
        assert (out + [f])[i] == out[i];
      }
    }
  }

  lemma LeastUnique(m: Frames, n: Number)
    requires Least(m, n)
    ensures forall k :: Least(m, k) ==> k == n
  {
  }

  lemma LeastKey(m: Frames) returns (n: Number)
    requires m != map[]
    ensures Least(m, n)
  {
    var k :| k in m;
    n := LeastFrom(m, k);
  }

  lemma LeastFrom(m: Frames, k: Number) returns (n: Number)
    requires k in m
    ensures Least(m, n)
    decreases k
  {
    n := k;
    if i :| i in m && i < k { n := LeastFrom(m, i); }
  }
}
