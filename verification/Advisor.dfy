/**
 One proxy's relay advice: inquiries that wait for knowledge, the knowledge cache, and what each message makes the
 proxy send.
 */
module Advisor {
  import opened Clocks
  import opened Events
  import opened Protocol

  /** Seconds that knowledge stays in the cache. */
  const CACHE_LIFE := 120

  /** An inquiry on its way.  `origin` names the client request it descends from; nothing reads it. */
  datatype Request = Request(origin: nat, inquiry: Inquiry)
  datatype Task = Task(stamp: Time, request: Request)
  datatype Entry = Entry(stamp: Time, asns: set<Short>)

  datatype Packet =
    | Advice(origin: nat, source: EndPoint, destination: EndPoint, relays: seq<EndPoint>)
    | Forward(proxy: EndPoint, request: Request)
    | AskDatabase(inquiry: Inquiry)

  datatype State = State(tasks: seq<Task>, cache: map<AsnPair, Entry>)

  /** A new state and what was sent on the way. */
  datatype Outcome = Outcome(state: State, sent: seq<Packet>)

  // ---------- Choosing relays ----------

  /** The neighbours of known autonomous systems, the last ones first, at most `limit`. */
  function Relays(neighbors: seq<EndPoint>, asns: set<Short>, limit: nat): (r: seq<EndPoint>)
    ensures |r| <= limit
  {
    if neighbors == [] || limit == 0 then []
    else
      var n := |neighbors| - 1;
      if neighbors[n].asn in asns then [neighbors[n]] + Relays(neighbors[..n], asns, limit - 1)
      else Relays(neighbors[..n], asns, limit)
  }

  lemma RelaysStep(neighbors: seq<EndPoint>, i: nat, asns: set<Short>, limit: nat)
    requires i < |neighbors| && 0 < limit
    ensures Relays(neighbors[..i + 1], asns, limit) ==
            if neighbors[i].asn in asns then [neighbors[i]] + Relays(neighbors[..i], asns, limit - 1)
            else Relays(neighbors[..i], asns, limit)
  {
    assert neighbors[..i + 1][..i] == neighbors[..i];
  }

  lemma Assoc(a: seq<EndPoint>, b: seq<EndPoint>, c: seq<EndPoint>)
    ensures (a + b) + c == a + (b + c)
  {
  }

  lemma RelaysEnd(neighbors: seq<EndPoint>, asns: set<Short>, limit: nat)
    ensures Relays([], asns, limit) == [] && Relays(neighbors, asns, 0) == []
  {
  }

  lemma AsnIn(neighbors: seq<EndPoint>, i: nat)
    requires i < |neighbors|
    ensures neighbors[i].asn in AsnsOf(neighbors)
  {
  }

  lemma SomeRelay(neighbors: seq<EndPoint>)
    requires neighbors != []
    ensures Relays(neighbors, AsnsOf(neighbors), MAX_ADVICED_RELAYS) != []
  {
    assert neighbors[|neighbors| - 1].asn in AsnsOf(neighbors);
  }

  /** Relays are neighbours that match, and a list that stays below the limit has all of them. */
  lemma {:induction false} RelaysMatch(neighbors: seq<EndPoint>, asns: set<Short>, limit: nat)
    ensures forall i :: 0 <= i < |Relays(neighbors, asns, limit)| ==>
              Relays(neighbors, asns, limit)[i] in neighbors && Relays(neighbors, asns, limit)[i].asn in asns
    ensures |Relays(neighbors, asns, limit)| < limit ==>
              forall i :: 0 <= i < |neighbors| && neighbors[i].asn in asns ==>
                neighbors[i] in Relays(neighbors, asns, limit)
  {
    if neighbors != [] && limit != 0 {
      var n := |neighbors| - 1;
      var one := if neighbors[n].asn in asns then 1 else 0;
      RelaysMatch(neighbors[..n], asns, limit - one);
      var rest := Relays(neighbors[..n], asns, limit - one);
      assert Relays(neighbors, asns, limit) == neighbors[|neighbors| - one..] + rest;
      forall i | 0 <= i < |rest| ensures rest[i] in neighbors {
        assert rest[i] in neighbors[..n];
      }
      if |rest| + one < limit {
        forall i | 0 <= i < n && neighbors[i].asn in asns ensures neighbors[i] in rest {
          assert neighbors[..n][i] == neighbors[i];
        }
      }
    }
  }

  /**
   Where relays come from: their places among the neighbours go down, and a matching neighbour that is left out stands
   in front of all of them, when the limit is reached.
   */
  lemma {:induction false} RelaysPlaces(neighbors: seq<EndPoint>, asns: set<Short>, limit: nat) returns (at: seq<nat>)
    ensures |at| == |Relays(neighbors, asns, limit)|
    ensures forall k :: 0 <= k < |at| ==> at[k] < |neighbors| && Relays(neighbors, asns, limit)[k] == neighbors[at[k]]
    ensures forall k, l :: 0 <= k < l < |at| ==> at[l] < at[k]
    ensures forall j :: 0 <= j < |neighbors| && neighbors[j].asn in asns && j !in at ==>
              |at| == limit && forall k :: 0 <= k < |at| ==> j < at[k]
  {
    if neighbors == [] || limit == 0 {
      at := [];
    } else {
      var n := |neighbors| - 1;
      if neighbors[n].asn in asns {
        var rest := RelaysPlaces(neighbors[..n], asns, limit - 1);
        at := [n] + rest;
      } else {
        at := RelaysPlaces(neighbors[..n], asns, limit);
      }
    }
  }

  /** A lower limit only cuts the list. */
  lemma {:induction false} RelaysCut(neighbors: seq<EndPoint>, asns: set<Short>, limit: nat, more: nat)
    requires limit <= more
    ensures Relays(neighbors, asns, limit) == AtMost(limit, Relays(neighbors, asns, more))
  {
    if neighbors != [] && limit != 0 {
      var n := |neighbors| - 1;
      if neighbors[n].asn in asns {
        RelaysCut(neighbors[..n], asns, limit - 1, more - 1);
      } else {
        RelaysCut(neighbors[..n], asns, limit, more);
      }
    }
  }

  /** How many neighbours match. */
  function Matching(neighbors: seq<EndPoint>, asns: set<Short>): nat {
    if neighbors == [] then 0
    else Matching(neighbors[..|neighbors| - 1], asns) + if neighbors[|neighbors| - 1].asn in asns then 1 else 0
  }

  lemma {:induction false} RelaysSize(neighbors: seq<EndPoint>, asns: set<Short>, limit: nat)
    ensures var m := Matching(neighbors, asns); |Relays(neighbors, asns, limit)| == if m <= limit then m else limit
  {
    if neighbors != [] && limit != 0 {
      var n := |neighbors| - 1;
      RelaysSize(neighbors[..n], asns, if neighbors[n].asn in asns then limit - 1 else limit);
    }
  }

  /** What is left of a list of relays in a packet. */
  function Carried(relays: seq<EndPoint>): (r: seq<EndPoint>)
    ensures |r| <= MAX_ADVICED_RELAYS
  {
    AtMost(MAX_ADVICED_RELAYS, relays)
  }

  // ---------- The reference: one message, one outcome ----------

  /** The answer to one inquiry: the advice, and the inquiry sent on while relays are missing and it may live on. */
  function Answer(r: Request, relays: seq<EndPoint>, neighbors: seq<EndPoint>): seq<Packet>
    requires neighbors != []
  {
    var q := r.inquiry;
    [Advice(r.origin, q.source, q.destination, relays)] +
    if |relays| < q.demand && q.ttl > 0 then
      [Forward(neighbors[|neighbors| - 1], r.(inquiry := q.(demand := q.demand - |relays|)))]
    else []
  }

  function OnInquiry(s: State, r: Request, neighbors: seq<EndPoint>, now: Time): Outcome {
    if neighbors == [] || r.inquiry.demand == 0 then Outcome(s, [])
    else
      var r' := r.(inquiry := r.inquiry.(ttl := Decremented(r.inquiry.ttl)));
      if Key(r.inquiry) in s.cache then
        Outcome(s, Answer(r', Relays(neighbors, s.cache[Key(r.inquiry)].asns, r.inquiry.demand), neighbors))
      else
        Outcome(s.(tasks := s.tasks + [Task(now, r')]), [AskDatabase(r.inquiry)])
  }

  /**
   What knowledge that arrives offers to a waiting task, and what the cache it entered offers to a later inquiry for
   the same: in the packets the second is the first, cut to the demand.
   */
  lemma CacheAfterFilter(s: State, r: Request, asns: set<Short>, neighbors: seq<EndPoint>, now: Time, later: Time)
    requires neighbors != [] && r.inquiry.demand > 0
    requires Relays(neighbors, asns, MAX_ADVICED_RELAYS) != []
    ensures var relays := Relays(neighbors, asns, MAX_ADVICED_RELAYS);
            var sent := OnInquiry(OnFilter(s, Key(r.inquiry), asns, neighbors, now).state, r, neighbors, later).sent;
            sent != [] && sent[0].Advice? && Carried(sent[0].relays) == AtMost(r.inquiry.demand, Carried(relays))
  {
    var d := r.inquiry.demand;
    hide Relays;
    if d <= MAX_ADVICED_RELAYS {
      RelaysCut(neighbors, asns, d, MAX_ADVICED_RELAYS);
    } else {
      RelaysCut(neighbors, asns, MAX_ADVICED_RELAYS, d);
    }
  }

  /**
   An inquiry answered from the cache and sent on asks for what the client still lacks exactly when at most 20
   neighbours match: the packet holds 20 of them, and the demand goes down by all.
   */
  lemma CachedDemandIff(s: State, r: Request, neighbors: seq<EndPoint>, now: Time)
    requires neighbors != [] && Key(r.inquiry) in s.cache && Decremented(r.inquiry.ttl) > 0
    requires Matching(neighbors, s.cache[Key(r.inquiry)].asns) < r.inquiry.demand
    ensures var matching := Matching(neighbors, s.cache[Key(r.inquiry)].asns);
            var sent := OnInquiry(s, r, neighbors, now).sent;
            && |sent| == 2 && sent[0].Advice? && sent[1].Forward?
            && sent[1].request.inquiry.demand == r.inquiry.demand - matching
            && (sent[1].request.inquiry.demand == r.inquiry.demand - |Carried(sent[0].relays)| <==>
                  matching <= MAX_ADVICED_RELAYS)
  {
    hide Relays, Matching;
    RelaysSize(neighbors, s.cache[Key(r.inquiry)].asns, r.inquiry.demand);
  }

  /** 21 neighbours of one autonomous system. */
  function Crowd(): (neighbors: seq<EndPoint>)
    ensures |neighbors| == 21
  {
    seq(21, i requires 0 <= i < 21 => EndPoint(7, 9, i, 0))
  }

  lemma {:induction false} MatchingAll(neighbors: seq<EndPoint>, asns: set<Short>)
    requires forall i :: 0 <= i < |neighbors| ==> neighbors[i].asn in asns
    ensures Matching(neighbors, asns) == |neighbors|
  {
    if neighbors != [] { MatchingAll(neighbors[..|neighbors| - 1], asns); }
  }

  /** Of 24 relays asked for the client gets 20 and the next proxy is asked for 3. */
  lemma Shortchanged(s: State, r: Request, now: Time)
    requires Key(r.inquiry) in s.cache && s.cache[Key(r.inquiry)].asns == {7}
    requires r.inquiry.demand == 24 && r.inquiry.ttl == MAX_TTL
    ensures var sent := OnInquiry(s, r, Crowd(), now).sent;
            |sent| == 2 && sent[0].Advice? && |Carried(sent[0].relays)| == 20 &&
            sent[1].Forward? && sent[1].request.inquiry.demand == 3
  {
    hide Relays, Matching;
    MatchingAll(Crowd(), {7});
    CachedDemandIff(s, r, Crowd(), now);
    RelaysSize(Crowd(), {7}, 24);
  }

  /** The tasks that knowledge about `key` leaves waiting. */
  function Waiting(tasks: seq<Task>, key: AsnPair): seq<Task> {
    if tasks == [] then []
    else
      var n := |tasks| - 1;
      Waiting(tasks[..n], key) + if Key(tasks[n].request.inquiry) == key then [] else [tasks[n]]
  }

  /** The answers to the tasks that knowledge about `key` settles, in queue order. */
  function Answers(tasks: seq<Task>, key: AsnPair, relays: seq<EndPoint>, neighbors: seq<EndPoint>): seq<Packet>
    requires neighbors != []
  {
    if tasks == [] then []
    else
      var n := |tasks| - 1;
      Answers(tasks[..n], key, relays, neighbors) +
      if Key(tasks[n].request.inquiry) == key then Answer(tasks[n].request, relays, neighbors) else []
  }

  /** Knowledge `asns` about `key` arrives; knowledge that matches no neighbour is ignored. */
  function OnFilter(s: State, key: AsnPair, asns: set<Short>, neighbors: seq<EndPoint>, now: Time): Outcome {
    var relays := Relays(neighbors, asns, MAX_ADVICED_RELAYS);
    if neighbors == [] || relays == [] then Outcome(s, [])
    else
      Outcome(State(Waiting(s.tasks, key), s.cache[key := Entry(now, asns)]),
              Answers(s.tasks, key, relays, neighbors))
  }

  /** Answers to waiting tasks never have more relays than a packet holds, so what is sent on is what is missing. */
  lemma SettledDemand(t: Task, asns: set<Short>, neighbors: seq<EndPoint>)
    requires neighbors != []
    ensures var relays := Relays(neighbors, asns, MAX_ADVICED_RELAYS);
            var sent := Answer(t.request, relays, neighbors);
            && sent[0].Advice?
            && (|sent| == 2 ==> sent[1].Forward? && sent[1].request.inquiry.demand
                                                    == t.request.inquiry.demand - |Carried(sent[0].relays)|)
  {
    hide Relays;
    RelaysSize(neighbors, asns, MAX_ADVICED_RELAYS);
  }

  /** A random advice for a task that nothing answered in time. */
  predicate Guess(p: Packet, t: Task, neighbors: seq<EndPoint>) {
    && p.Advice?
    && p.origin == t.request.origin
    && p.source == t.request.inquiry.source && p.destination == t.request.inquiry.destination
    && 0 < |p.relays| <= MAX_ADVICED_RELAYS
    && (forall i :: 0 <= i < |p.relays| ==> p.relays[i] in neighbors)
    && (2 * t.request.inquiry.demand as int >= |neighbors| ==>
          p.relays == Relays(neighbors, AsnsOf(neighbors), MAX_ADVICED_RELAYS))
  }

  function AsnsOf(neighbors: seq<EndPoint>): set<Short> {
    set n | n in neighbors :: n.asn
  }

  /** Only a draw can leave a task without an advice, and only when it asked for less than half of the neighbours. */
  predicate MayStaySilent(t: Task, neighbors: seq<EndPoint>) {
    neighbors == [] || 2 * t.request.inquiry.demand as int < |neighbors|
  }

  /**
   Each of `tasks` gets at most one random advice, in queue order; a demand for half of the neighbours or more gets
   one.
   */
  predicate Guesses(sent: seq<Packet>, tasks: seq<Task>, neighbors: seq<EndPoint>)
    decreases |tasks|
  {
    if tasks == [] then sent == []
    else
      var n, m := |tasks| - 1, |sent| - 1;
      || (MayStaySilent(tasks[n], neighbors) && Guesses(sent, tasks[..n], neighbors))
      || (sent != [] && Guess(sent[m], tasks[n], neighbors) && Guesses(sent[..m], tasks[..n], neighbors))
  }

  /**
   The periodic update between clock readings `from` and `to`: the oldest tasks leave, exactly those stamped before
   the second `stop` in which the update stopped looking, and old knowledge leaves the cache.
   */
  ghost predicate Updated(s: State, neighbors: seq<EndPoint>, from: Time, stop: Time, to: Time, o: Outcome) {
    && from <= stop <= to
    && (exists n: nat :: Retired(s.tasks, n, stop, o.state.tasks, o.sent, neighbors))
    && (forall k :: k in o.state.cache ==>
          k in s.cache && o.state.cache[k] == s.cache[k] && from <= s.cache[k].stamp + CACHE_LIFE)
    && (forall k :: k in s.cache && to <= s.cache[k].stamp + CACHE_LIFE ==> k in o.state.cache)
  }

  /** The `n` oldest of `tasks`, those from before `stop`, leave with at most one random advice each. */
  ghost predicate Retired(tasks: seq<Task>, n: nat, stop: Time, rest: seq<Task>, sent: seq<Packet>,
                          neighbors: seq<EndPoint>) {
    n <= |tasks| && Expired(tasks, n, stop) && rest == tasks[n..] && Guesses(sent, tasks[..n], neighbors)
  }

  ghost predicate Expired(tasks: seq<Task>, n: nat, stop: Time)
    requires n <= |tasks|
  {
    && (forall i :: 0 <= i < n ==> tasks[i].stamp < stop)
    && (n < |tasks| ==> stop <= tasks[n].stamp)
  }

  /** At most one random advice for a task. */
  ghost predicate OneGuess(sent: seq<Packet>, t: Task, neighbors: seq<EndPoint>) {
    || (sent == [] && MayStaySilent(t, neighbors))
    || (|sent| == 1 && Guess(sent[0], t, neighbors))
  }

  lemma GuessesNone(neighbors: seq<EndPoint>)
    ensures Guesses([], [], neighbors)
  {
  }

  lemma GuessesNext(sent: seq<Packet>, all: seq<Task>, n: nat, neighbors: seq<EndPoint>, p: seq<Packet>)
    requires n < |all| && Guesses(sent, all[..n], neighbors) && OneGuess(p, all[n], neighbors)
    ensures Guesses(sent + p, all[..n + 1], neighbors)
  {
    hide Guess, MayStaySilent;
    assert all[..n + 1][..n] == all[..n];
    if p == [] {
      assert sent + p == sent;
    } else {
      assert (sent + p)[..|sent|] == sent;
    }
  }

  lemma SettleNone(key: AsnPair, relays: seq<EndPoint>, neighbors: seq<EndPoint>)
    requires neighbors != []
    ensures Waiting([], key) == [] && Answers([], key, relays, neighbors) == []
  {
  }

  /** The erased task is the first one not yet looked at. */
  lemma EraseAt(kept: seq<Task>, rest: seq<Task>)
    requires rest != []
    ensures var all := kept + rest;
            && all[|kept|] == rest[0] && all[..|kept|] + all[|kept| + 1..] == kept + rest[1..]
            && all == kept + [rest[0]] + rest[1..]
  {
  }

  lemma SettleStep(tasks: seq<Task>, i: nat, key: AsnPair, relays: seq<EndPoint>, neighbors: seq<EndPoint>)
    requires i < |tasks| && neighbors != []
    ensures var waiting, answers := Waiting(tasks[..i], key), Answers(tasks[..i], key, relays, neighbors);
            var waiting', answers' := Waiting(tasks[..i + 1], key), Answers(tasks[..i + 1], key, relays, neighbors);
            if Key(tasks[i].request.inquiry) == key
            then waiting' == waiting && answers' == answers + Answer(tasks[i].request, relays, neighbors)
            else waiting' == waiting + [tasks[i]] && answers' == answers
  {
    hide Key, Answer;
    assert tasks[..i + 1][..i] == tasks[..i];
    var waiting, answers := Waiting(tasks[..i], key), Answers(tasks[..i], key, relays, neighbors);
    assert waiting + [] == waiting && answers + [] == answers;
  }

  /** What the random draw is compared with. */
  function Ratio(demand: Byte, neighbors: nat): (r: real)
    requires 0 < neighbors
    ensures 2 * demand >= neighbors ==> r >= 1.0
  {
    2.0 * demand as real / neighbors as real
  }

  lemma RatioIs(demand: Byte, neighbors: nat)
    requires 0 < neighbors
    ensures Ratio(demand, neighbors) * neighbors as real == 2.0 * demand as real
  {
  }

  // ---------- What every message keeps ----------

  ghost predicate ByStamp(tasks: seq<Task>) {
    forall i, j :: 0 <= i <= j < |tasks| ==> tasks[i].stamp <= tasks[j].stamp
  }

  /** The queue is sorted by time, nothing in it is from the future, and nothing in it could be answered now. */
  ghost predicate Orderly(s: State, now: Time) {
    && ByStamp(s.tasks)
    && (forall i :: 0 <= i < |s.tasks| ==> s.tasks[i].stamp <= now)
    && (forall i :: 0 <= i < |s.tasks| ==> Key(s.tasks[i].request.inquiry) !in s.cache)
  }

  lemma InquiryKeepsOrder(s: State, r: Request, neighbors: seq<EndPoint>, before: Time, now: Time)
    requires Orderly(s, before) && before <= now
    ensures Orderly(OnInquiry(s, r, neighbors, now).state, now)
  {
  }

  /** Where a waiting task stood in the queue. */
  lemma {:induction false} WaitingFacts(tasks: seq<Task>, key: AsnPair)
    ensures forall i :: 0 <= i < |Waiting(tasks, key)| ==>
              Waiting(tasks, key)[i] in tasks && Key(Waiting(tasks, key)[i].request.inquiry) != key
    ensures forall i :: 0 <= i < |tasks| && Key(tasks[i].request.inquiry) != key ==> tasks[i] in Waiting(tasks, key)
  {
    if tasks != [] {
      var n := |tasks| - 1;
      WaitingFacts(tasks[..n], key);
      forall i | 0 <= i < n && Key(tasks[i].request.inquiry) != key ensures tasks[i] in Waiting(tasks, key) {
        assert tasks[..n][i] == tasks[i];
      }
    }
  }

  lemma {:induction false} WaitingSorted(tasks: seq<Task>, key: AsnPair)
    requires ByStamp(tasks)
    ensures ByStamp(Waiting(tasks, key))
  {
    if tasks != [] {
      var n := |tasks| - 1;
      WaitingSorted(tasks[..n], key);
      WaitingFacts(tasks[..n], key);
    }
  }

  lemma FilterKeepsOrder(s: State, key: AsnPair, asns: set<Short>, neighbors: seq<EndPoint>, before: Time, now: Time)
    requires Orderly(s, before) && before <= now
    ensures Orderly(OnFilter(s, key, asns, neighbors, now).state, now)
  {
    WaitingFacts(s.tasks, key);
    WaitingSorted(s.tasks, key);
    forall i | 0 <= i < |Waiting(s.tasks, key)|
      ensures Waiting(s.tasks, key)[i].stamp <= now && Key(Waiting(s.tasks, key)[i].request.inquiry) !in s.cache
    {
      var j :| 0 <= j < |s.tasks| && s.tasks[j] == Waiting(s.tasks, key)[i];
    }
  }

  lemma DropSorted(tasks: seq<Task>, n: nat, from: Time)
    requires ByStamp(tasks) && n <= |tasks| && (n < |tasks| ==> from <= tasks[n].stamp)
    ensures ByStamp(tasks[n..]) && forall i :: 0 <= i < |tasks[n..]| ==>
              tasks[n..][i] == tasks[n + i] && from <= tasks[n..][i].stamp
  {
  }

  lemma OrderlyRest(s: State, s': State, before: Time, stop: Time, to: Time, n: nat)
    requires Orderly(s, before) && before <= to
    requires n <= |s.tasks| && Expired(s.tasks, n, stop) && s'.tasks == s.tasks[n..]
    requires forall k :: k in s'.cache ==> k in s.cache
    ensures Orderly(s', to) && Left(s.tasks, stop, s'.tasks)
  {
    hide ByStamp;
    DropSorted(s.tasks, n, stop);
    forall i | 0 <= i < |s.tasks| ensures s.tasks[i].stamp < stop <==> i < n {
      if n <= i { assert s'.tasks[i - n] == s.tasks[i]; }
    }
  }

  /** `rest` is the tail of `tasks` that begins with the first one not from before `stop`; all behind it are not. */
  ghost predicate Left(tasks: seq<Task>, stop: Time, rest: seq<Task>) {
    && |rest| <= |tasks| && rest == tasks[|tasks| - |rest|..]
    && forall i :: 0 <= i < |tasks| ==> (tasks[i].stamp < stop <==> i < |tasks| - |rest|)
  }

  lemma LeftFacts(tasks: seq<Task>, stop: Time, rest: seq<Task>)
    requires Left(tasks, stop, rest)
    ensures |rest| <= |tasks| && rest == tasks[|tasks| - |rest|..]
    ensures forall i :: 0 <= i < |tasks| ==> (tasks[i].stamp < stop <==> i < |tasks| - |rest|)
  {
  }

  /**
   After an update that began at `from` exactly the tasks from before the second `stop` in which it stopped are gone,
   and no knowledge older than its life remains.
   */
  lemma UpdateClears(s: State, neighbors: seq<EndPoint>, from: Time, stop: Time, to: Time, o: Outcome, before: Time)
    requires Orderly(s, before) && before <= from && Updated(s, neighbors, from, stop, to, o)
    ensures Orderly(o.state, to) && from <= stop <= to && Left(s.tasks, stop, o.state.tasks)
    ensures forall i :: 0 <= i < |s.tasks| ==>
              (s.tasks[i].stamp < stop <==> i < |s.tasks| - |o.state.tasks|)
    ensures forall k :: k in o.state.cache ==> from <= o.state.cache[k].stamp + 120
  {
    hide Guesses, Orderly, Left, Expired;
    var n: nat :| Retired(s.tasks, n, stop, o.state.tasks, o.sent, neighbors);
    OrderlyRest(s, o.state, before, stop, to, n);
    LeftFacts(s.tasks, stop, o.state.tasks);
  }

  // ---------- The conversation with the database ----------

  /** The questions among what was sent, in order. */
  function Questions(sent: seq<Packet>): seq<Inquiry> {
    if sent == [] then []
    else
      var p := sent[|sent| - 1];
      Questions(sent[..|sent| - 1]) + if p.AskDatabase? then [p.inquiry] else []
  }

  /** The inquiries of tasks as they were received: with the time to live that they had then. */
  function Received(tasks: seq<Task>): seq<Inquiry> {
    if tasks == [] then []
    else
      var q := tasks[|tasks| - 1].request.inquiry;
      Received(tasks[..|tasks| - 1]) + [q.(ttl := (q.ttl + 1) % 256)]
  }

  lemma {:induction false} QuestionsConcat(a: seq<Packet>, b: seq<Packet>)
    ensures Questions(a + b) == Questions(a) + Questions(b)
    decreases |b|
  {
    if b == [] {
      assert a + b == a;
    } else {
      assert (a + b)[..|a + b| - 1] == a + b[..|b| - 1];
      QuestionsConcat(a, b[..|b| - 1]);
    }
  }

  lemma QuestionsAnswer(r: Request, relays: seq<EndPoint>, neighbors: seq<EndPoint>)
    requires neighbors != []
    ensures Questions(Answer(r, relays, neighbors)) == []
  {
    var sent := Answer(r, relays, neighbors);
    assert sent == [sent[0]] + sent[1..];
    QuestionsConcat([sent[0]], sent[1..]);
    assert [sent[0]][..0] == [] && (sent[1..] != [] ==> sent[1..][..0] == []);
  }

  lemma {:induction false} QuestionsAnswers(tasks: seq<Task>, key: AsnPair, relays: seq<EndPoint>,
                                            neighbors: seq<EndPoint>)
    requires neighbors != []
    ensures Questions(Answers(tasks, key, relays, neighbors)) == []
  {
    if tasks != [] {
      hide Answer;
      var n := |tasks| - 1;
      QuestionsAnswers(tasks[..n], key, relays, neighbors);
      QuestionsAnswer(tasks[n].request, relays, neighbors);
      QuestionsConcat(Answers(tasks[..n], key, relays, neighbors),
                      if Key(tasks[n].request.inquiry) == key then Answer(tasks[n].request, relays, neighbors) else []);
    }
  }

  lemma {:induction false} QuestionsGuesses(sent: seq<Packet>, tasks: seq<Task>, neighbors: seq<EndPoint>)
    requires Guesses(sent, tasks, neighbors)
    ensures Questions(sent) == []
    decreases |tasks|
  {
    if tasks != [] {
      var n, m := |tasks| - 1, |sent| - 1;
      if sent != [] && Guess(sent[m], tasks[n], neighbors) && Guesses(sent[..m], tasks[..n], neighbors) {
        QuestionsGuesses(sent[..m], tasks[..n], neighbors);
      } else {
        QuestionsGuesses(sent, tasks[..n], neighbors);
      }
    }
  }

  lemma AskOnce(sent: seq<Packet>, history: seq<Task>, q: Inquiry, t: Task)
    requires Questions(sent) == Received(history) && t.request.inquiry == q.(ttl := Decremented(q.ttl))
    ensures Questions(sent + [AskDatabase(q)]) == Received(history + [t])
  {
    assert (sent + [AskDatabase(q)])[..|sent|] == sent && (history + [t])[..|history|] == history;
  }

  /** What is received of a list of tasks is asked at the same place. */
  lemma {:induction false} ReceivedAt(history: seq<Task>, t: Task)
    requires t in history
    ensures t.request.inquiry.(ttl := (t.request.inquiry.ttl + 1) % 256) in Received(history)
  {
    var n := |history| - 1;
    if t != history[n] {
      assert t in history[..n];
      ReceivedAt(history[..n], t);
    } else {
      var r := Received(history);
      assert r[|r| - 1] == t.request.inquiry.(ttl := (t.request.inquiry.ttl + 1) % 256);
    }
  }

  lemma {:induction false} QuestionSent(sent: seq<Packet>, q: Inquiry)
    requires q in Questions(sent)
    ensures AskDatabase(q) in sent
  {
    var n := |sent| - 1;
    if sent[n] != AskDatabase(q) {
      assert q in Questions(sent[..n]);
      QuestionSent(sent[..n], q);
      assert AskDatabase(q) in sent[..n];
    }
  }

  // ---------- What knowledge settles ----------

  predicate AsksAbout(q: Inquiry, key: AsnPair) {
    q.source.asn == key.src && q.destination.asn == key.dst
  }

  lemma OrderlyLater(s: State, now: Time)
    requires Orderly(s, now)
    ensures forall later :: now <= later ==> Orderly(s, later)
  {
  }

  function Advised(sent: seq<Packet>): nat {
    if sent == [] then 0 else Advised(sent[..|sent| - 1]) + if sent[|sent| - 1].Advice? then 1 else 0
  }

  lemma {:induction false} AdvisedConcat(a: seq<Packet>, b: seq<Packet>)
    ensures Advised(a + b) == Advised(a) + Advised(b)
    decreases |b|
  {
    if b == [] {
      assert a + b == a;
    } else {
      assert (a + b)[..|a + b| - 1] == a + b[..|b| - 1];
      AdvisedConcat(a, b[..|b| - 1]);
    }
  }

  lemma AnswerAdvises(r: Request, relays: seq<EndPoint>, neighbors: seq<EndPoint>)
    requires neighbors != []
    ensures var sent := Answer(r, relays, neighbors);
            Advised(sent) == 1 && sent[0] == Advice(r.origin, r.inquiry.source, r.inquiry.destination, relays)
  {
    var sent := Answer(r, relays, neighbors);
    assert sent == [sent[0]] + sent[1..];
    AdvisedConcat([sent[0]], sent[1..]);
    assert [sent[0]][..0] == [] && (sent[1..] != [] ==> sent[1..][..0] == []);
  }

  /** `p` is the advice for the client of `t`, or the inquiry sent on to `last` for what it still lacks. */
  ghost predicate Serves(p: Packet, t: Task, relays: seq<EndPoint>, last: EndPoint) {
    var q := t.request.inquiry;
    || p == Advice(t.request.origin, q.source, q.destination, relays)
    || (&& |relays| < q.demand && q.ttl > 0
        && p == Forward(last, t.request.(inquiry := q.(demand := q.demand - |relays|))))
  }

  /** An answer is what serves the task, and nothing else. */
  lemma AnswerServes(t: Task, relays: seq<EndPoint>, neighbors: seq<EndPoint>)
    requires neighbors != []
    ensures forall p :: p in Answer(t.request, relays, neighbors) <==> Serves(p, t, relays, neighbors[|neighbors| - 1])
  {
  }

  /** Each task that asks about the key leaves with what serves it, and nothing else is sent. */
  lemma {:induction false} AnswersSettle(tasks: seq<Task>, key: AsnPair, relays: seq<EndPoint>,
                                         neighbors: seq<EndPoint>)
    requires neighbors != []
    ensures Advised(Answers(tasks, key, relays, neighbors)) + |Waiting(tasks, key)| == |tasks|
    ensures forall i, p :: 0 <= i < |tasks| && Key(tasks[i].request.inquiry) == key &&
                           Serves(p, tasks[i], relays, neighbors[|neighbors| - 1]) ==>
              p in Answers(tasks, key, relays, neighbors)
    ensures forall p :: p in Answers(tasks, key, relays, neighbors) ==>
              exists i :: 0 <= i < |tasks| && Key(tasks[i].request.inquiry) == key &&
                          Serves(p, tasks[i], relays, neighbors[|neighbors| - 1])
  {
    hide Answer, Answers, Waiting, Key, Advised, Serves;
    NoAdvice();
    SettleNone(key, relays, neighbors);
    if tasks != [] {
      var n := |tasks| - 1;
      var last, before := neighbors[|neighbors| - 1], Answers(tasks[..n], key, relays, neighbors);
      assert tasks[..n + 1] == tasks;
      SettleStep(tasks, n, key, relays, neighbors);
      AnswersSettle(tasks[..n], key, relays, neighbors);
      if Key(tasks[n].request.inquiry) == key {
        var mine := Answer(tasks[n].request, relays, neighbors);
        AnswerAdvises(tasks[n].request, relays, neighbors);
        AdvisedConcat(before, mine);
        AnswerServes(tasks[n], relays, neighbors);
      }
      forall p | p in Answers(tasks, key, relays, neighbors)
        ensures exists i ::
                  0 <= i < |tasks| && Key(tasks[i].request.inquiry) == key && Serves(p, tasks[i], relays, last)
      {
        if p in before {
          var i :| 0 <= i < n && Key(tasks[..n][i].request.inquiry) == key && Serves(p, tasks[..n][i], relays, last);
          assert tasks[..n][i] == tasks[i];
        } else {
          assert Key(tasks[n].request.inquiry) == key && Serves(p, tasks[n], relays, last);
        }
      }
      forall i, p | 0 <= i < n && Key(tasks[i].request.inquiry) == key && Serves(p, tasks[i], relays, last)
        ensures p in before
      {
        assert tasks[..n][i] == tasks[i];
      }
    }
  }

  /** Everything sent serves a task that asks about the key. */
  ghost predicate OnlyServes(sent: seq<Packet>, tasks: seq<Task>, key: AsnPair, relays: seq<EndPoint>, last: EndPoint) {
    forall p :: p in sent ==>
      exists i :: 0 <= i < |tasks| && AsksAbout(tasks[i].request.inquiry, key) && Serves(p, tasks[i], relays, last)
  }

  lemma Behind(sent: seq<Packet>, more: seq<Packet>)
    ensures sent <= sent + more && (sent + more)[|sent|..] == more
  {
  }

  /** The same for clients and keys spelled out, with the tasks that stay. */
  lemma FilterSettles(tasks: seq<Task>, key: AsnPair, relays: seq<EndPoint>, neighbors: seq<EndPoint>)
    requires neighbors != []
    ensures var left, sent := Waiting(tasks, key), Answers(tasks, key, relays, neighbors);
            && (forall i :: 0 <= i < |left| ==> left[i] in tasks && !AsksAbout(left[i].request.inquiry, key))
            && (forall i :: 0 <= i < |tasks| ==>
                  var r := tasks[i].request;
                  var q := r.inquiry;
                  if AsksAbout(q, key) then
                    && Advice(r.origin, q.source, q.destination, relays) in sent
                    && (|relays| < q.demand && q.ttl > 0 ==>
                          Forward(neighbors[|neighbors| - 1], r.(inquiry := q.(demand := q.demand - |relays|))) in sent)
                  else tasks[i] in left)
            && OnlyServes(sent, tasks, key, relays, neighbors[|neighbors| - 1]) && Advised(sent) + |left| == |tasks|
  {
    hide Waiting, Answers, Advised;
    WaitingFacts(tasks, key);
    AnswersSettle(tasks, key, relays, neighbors);
    forall p | p in Answers(tasks, key, relays, neighbors)
      ensures exists i :: 0 <= i < |tasks| && AsksAbout(tasks[i].request.inquiry, key) &&
                          Serves(p, tasks[i], relays, neighbors[|neighbors| - 1])
    {
      var i :| 0 <= i < |tasks| && Key(tasks[i].request.inquiry) == key &&
               Serves(p, tasks[i], relays, neighbors[|neighbors| - 1]);
      assert AsksAbout(tasks[i].request.inquiry, key);
    }
  }

  lemma NoAdvice()
    ensures Advised([]) == 0
  {
  }

  // ---------- What random advice is worth ----------

  /** Random advice goes to clients of tasks that leave, each at most once; a demand for half has it. */
  lemma {:induction false} GuessesServe(sent: seq<Packet>, tasks: seq<Task>, neighbors: seq<EndPoint>)
    requires Guesses(sent, tasks, neighbors)
    ensures |sent| <= |tasks| && Advised(sent) == |sent|
    ensures forall p :: p in sent ==>
              p.Advice? && 0 < |p.relays| <= 20 && forall i :: 0 <= i < |p.relays| ==> p.relays[i] in neighbors
    ensures forall i :: 0 <= i < |tasks| ==>
              var q := tasks[i].request.inquiry;
              var all := Relays(neighbors, set n | n in neighbors :: n.asn, 20);
              neighbors != [] && 2 * q.demand as int >= |neighbors| ==>
                Advice(tasks[i].request.origin, q.source, q.destination, all) in sent
    decreases |tasks|
  {
    if tasks != [] {
      hide Relays;
      var n, m := |tasks| - 1, |sent| - 1;
      if MayStaySilent(tasks[n], neighbors) && Guesses(sent, tasks[..n], neighbors) {
        GuessesServe(sent, tasks[..n], neighbors);
      } else {
        GuessesServe(sent[..m], tasks[..n], neighbors);
      }
    }
  }

  // ---------- The proxy ----------

  class AdvanceRldvr {
    var tasks: seq<Task>
    var cache: map<AsnPair, Entry>
    /** Everything sent so far. */
    var outbox: seq<Packet>
    /** Every task ever queued, in order. */
    ghost var history: seq<Task>

    function Contents(): State
      reads this
    {
      State(tasks, cache)
    }

    /** The queue is orderly, and the database was asked once for every task ever queued, as it was received. */
    ghost predicate Valid(time: Clock)
      reads this, time
    {
      && time.Valid() && Orderly(Contents(), time.last)
      && Questions(outbox) == Received(history) && (forall i :: 0 <= i < |tasks| ==> tasks[i] in history)
    }

    /** For every waiting task the inquiry that came in went to the database. */
    lemma NoneUnasked(time: Clock)
      requires Valid(time)
      ensures forall i :: 0 <= i < |tasks| ==>
                var q := tasks[i].request.inquiry; AskDatabase(q.(ttl := (q.ttl + 1) % 256)) in outbox
    {
      forall i | 0 <= i < |tasks|
        ensures var q := tasks[i].request.inquiry; AskDatabase(q.(ttl := (q.ttl + 1) % 256)) in outbox
      {
        var q := tasks[i].request.inquiry;
        ReceivedAt(history, tasks[i]);
        QuestionSent(outbox, q.(ttl := (q.ttl + 1) % 256));
      }
    }

    constructor (time: Clock)
      requires time.Valid()
      ensures Valid(time) && Contents() == State([], map[]) && outbox == [] && history == []
    {
      tasks, cache, outbox, history := [], map[], [], [];
    }

    /** The matching neighbours, from the back of the list. */
    method ChooseRelays(neighbors: seq<EndPoint>, asns: set<Short>, limit: nat) returns (relays: seq<EndPoint>)
      requires 0 < limit
      ensures relays == Relays(neighbors, asns, limit)
    {
      hide Relays;
      relays := [];
      var i := |neighbors|;
      assert neighbors[..i] == neighbors;
      while i > 0
        invariant 0 <= i <= |neighbors| && |relays| < limit
        invariant Relays(neighbors, asns, limit) == relays + Relays(neighbors[..i], asns, limit - |relays|)
      {
        i := i - 1;
        RelaysStep(neighbors, i, asns, limit - |relays|);
        if neighbors[i].asn in asns {
          Assoc(relays, [neighbors[i]], Relays(neighbors[..i], asns, limit - |relays| - 1));
          relays := relays + [neighbors[i]];
          RelaysEnd(neighbors[..i], asns, 0);
          if |relays| >= limit { return; }
        }
      }
      assert neighbors[..i] == [];
      RelaysEnd([], asns, limit - |relays|);
    }

    method SendAnswer(r: Request, relays: seq<EndPoint>, neighbors: seq<EndPoint>)
      requires neighbors != []
      modifies this`outbox
      ensures outbox == old(outbox) + Answer(r, relays, neighbors)
    {
      var q := r.inquiry;
      outbox := outbox + [Advice(r.origin, q.source, q.destination, relays)];
      if |relays| < q.demand && q.ttl > 0 {
        var last := neighbors[|neighbors| - 1];
        outbox := outbox + [Forward(last, r.(inquiry := q.(demand := q.demand - |relays|)))];
      }
    }

    /**
     An inquiry that asks for nothing, or that comes to a proxy without neighbours, is dropped.  Any other is advised on
     at once from the cache, and perhaps sent on, or joins the queue while the database is asked once, with the
     inquiry as it came in.
     */
    method ProcessInquiry(r: Request, neighbors: seq<EndPoint>, time: Clock)
      requires Valid(time)
      modifies this, time
      ensures Valid(time) && old(time.last) <= time.last
      ensures neighbors == [] || r.inquiry.demand == 0 ==>
                tasks == old(tasks) && cache == old(cache) && outbox == old(outbox)
      ensures neighbors != [] && r.inquiry.demand != 0 ==>
                var q := r.inquiry;
                var key := AsnPair(q.source.asn, q.destination.asn);
                && cache == old(cache)
                && (key in cache ==>
                      var relays, left := Relays(neighbors, cache[key].asns, q.demand), (q.ttl + 255) % 256;
                      && tasks == old(tasks)
                      && outbox == old(outbox) + [Advice(r.origin, q.source, q.destination, relays)] +
                         if |relays| < q.demand && left > 0 then
                           [Forward(neighbors[|neighbors| - 1],
                                    r.(inquiry := q.(ttl := left, demand := q.demand - |relays|)))]
                         else [])
                && (key !in cache ==>
                      && outbox == old(outbox) + [AskDatabase(q)]
                      && tasks == old(tasks) + [Task(time.last, r.(inquiry := q.(ttl := (q.ttl + 255) % 256)))])
      ensures Outcome(Contents(), outbox) ==
              var o := OnInquiry(old(Contents()), r, neighbors, time.last); Outcome(o.state, old(outbox) + o.sent)
    {
      hide Relays, Questions, Received, ByStamp;
      if neighbors == [] { return; }
      if r.inquiry.demand == 0 { return; }
      var r' := r.(inquiry := r.inquiry.(ttl := Decremented(r.inquiry.ttl)));
      var key := Key(r'.inquiry);
      if key in cache {
        var relays := ChooseRelays(neighbors, cache[key].asns, r'.inquiry.demand);
        ghost var sent := Answer(r', relays, neighbors);
        QuestionsAnswer(r', relays, neighbors);
        QuestionsConcat(outbox, sent);
        SendAnswer(r', relays, neighbors);
      } else {
        ghost var before := time.last;
        var now := time.Now();
        InquiryKeepsOrder(Contents(), r, neighbors, before, now);
        AskOnce(outbox, history, r.inquiry, Task(now, r'));
        tasks := tasks + [Task(now, r')];
        history := history + [Task(now, r')];
        outbox := outbox + [AskDatabase(r.inquiry)];
      }
    }

    /** Knowledge that matches a neighbour enters the cache and settles the tasks that wait for it. */
    method Settle(key: AsnPair, asns: set<Short>, neighbors: seq<EndPoint>, time: Clock)
      requires Valid(time)
      modifies this, time
      ensures Valid(time) && old(time.last) <= time.last
      ensures Outcome(Contents(), outbox) ==
              var o := OnFilter(old(Contents()), key, asns, neighbors, time.last);
              Outcome(o.state, old(outbox) + o.sent)
    {
      hide Relays, Answers, Waiting, Questions, Received, Orderly;
      if neighbors == [] { return; }
      ghost var before := time.last;
      OrderlyLater(Contents(), before);
      var now := time.Now();
      var relays := ChooseRelays(neighbors, asns, MAX_ADVICED_RELAYS);
      if relays == [] { return; }
      FilterKeepsOrder(Contents(), key, asns, neighbors, before, now);
      WaitingFacts(tasks, key);
      QuestionsAnswers(tasks, key, relays, neighbors);
      QuestionsConcat(outbox, Answers(tasks, key, relays, neighbors));
      cache := cache[key := Entry(now, asns)];
      AnswerTasks(key, relays, neighbors);
    }

    /**
     Knowledge that matches a neighbour enters the cache; every waiting task for its key leaves with one advice to the
     client that asked, and is sent on to the last neighbour when it lacks relays and may live on; the other tasks
     stay, and nothing else is sent.  Other knowledge changes nothing.
     */
    method ProcessFilter(key: AsnPair, asns: set<Short>, neighbors: seq<EndPoint>, time: Clock)
      requires Valid(time)
      modifies this, time
      ensures Valid(time) && old(time.last) <= time.last
      ensures neighbors == [] || Relays(neighbors, asns, MAX_ADVICED_RELAYS) == [] ==>
                tasks == old(tasks) && cache == old(cache) && outbox == old(outbox)
      ensures neighbors != [] && Relays(neighbors, asns, MAX_ADVICED_RELAYS) != [] ==>
                var relays := Relays(neighbors, asns, MAX_ADVICED_RELAYS);
                && cache == old(cache)[key := Entry(time.last, asns)] && old(outbox) <= outbox
                && (forall i :: 0 <= i < |tasks| ==>
                      tasks[i] in old(tasks) && !AsksAbout(tasks[i].request.inquiry, key))
                && (forall i :: 0 <= i < |old(tasks)| ==>
                      var r := old(tasks)[i].request;
                      var q := r.inquiry;
                      if AsksAbout(q, key) then
                        && Advice(r.origin, q.source, q.destination, relays) in outbox[|old(outbox)|..]
                        && (|relays| < q.demand && q.ttl > 0 ==>
                              Forward(neighbors[|neighbors| - 1], r.(inquiry := q.(demand := q.demand - |relays|)))
                              in outbox[|old(outbox)|..])
                      else old(tasks)[i] in tasks)
                && OnlyServes(outbox[|old(outbox)|..], old(tasks), key, relays, neighbors[|neighbors| - 1])
                && Advised(outbox) == Advised(old(outbox)) + (|old(tasks)| - |tasks|)
      ensures Outcome(Contents(), outbox) ==
              var o := OnFilter(old(Contents()), key, asns, neighbors, time.last);
              Outcome(o.state, old(outbox) + o.sent)
    {
      hide Valid, Relays, Answers, Waiting, Advised, AsksAbout, Serves, OnlyServes;
      ghost var relays := Relays(neighbors, asns, MAX_ADVICED_RELAYS);
      Settle(key, asns, neighbors, time);
      if neighbors != [] && relays != [] {
        FilterSettles(old(tasks), key, relays, neighbors);
        AdvisedConcat(old(outbox), Answers(old(tasks), key, relays, neighbors));
        Behind(old(outbox), Answers(old(tasks), key, relays, neighbors));
      }
    }

    /** Answers and erases every task that asks about `key`. */
    method AnswerTasks(key: AsnPair, relays: seq<EndPoint>, neighbors: seq<EndPoint>)
      requires neighbors != []
      modifies this`tasks, this`outbox
      ensures tasks == Waiting(old(tasks), key)
      ensures outbox == old(outbox) + Answers(old(tasks), key, relays, neighbors)
    {
      hide Waiting, Answers, Answer, Key;
      assert tasks[..0] == [];
      SettleNone(key, relays, neighbors);
      ghost var all := tasks;
      ghost var done := 0;
      var i := 0;
      while i < |tasks|
        invariant 0 <= done <= |all| && 0 <= i <= |tasks|
        invariant tasks == Waiting(all[..done], key) + all[done..] && i == |Waiting(all[..done], key)|
        invariant outbox == old(outbox) + Answers(all[..done], key, relays, neighbors)
        decreases |all| - done
      {
        ghost var kept := Waiting(all[..done], key);
        EraseAt(kept, all[done..]);
        SettleStep(all, done, key, relays, neighbors);
        if Key(tasks[i].request.inquiry) != key {
          i := i + 1;
        } else {
          SendAnswer(tasks[i].request, relays, neighbors);
          tasks := tasks[..i] + tasks[i + 1..];
        }
        done := done + 1;
      }
      assert all[..done] == all;
    }

    /** A random choice among the neighbours; with a demand of half of them or more it takes every one. */
    method GuessRelays(neighbors: seq<EndPoint>, demand: Byte) returns (relays: seq<EndPoint>)
      requires neighbors != []
      ensures |relays| <= MAX_ADVICED_RELAYS
      ensures forall i :: 0 <= i < |relays| ==> relays[i] in neighbors
      ensures 2 * demand as int >= |neighbors| ==>
                relays == Relays(neighbors, AsnsOf(neighbors), MAX_ADVICED_RELAYS) && relays != []
    {
      hide Ratio, Relays, AsnsOf;
      var ratio := Ratio(demand, |neighbors|);
      ghost var asns := AsnsOf(neighbors);
      SomeRelay(neighbors);
      relays := [];
      var i := |neighbors|;
      assert neighbors[..i] == neighbors;
      while i > 0
        invariant 0 <= i <= |neighbors| && |relays| < MAX_ADVICED_RELAYS
        invariant forall j :: 0 <= j < |relays| ==> relays[j] in neighbors
        invariant 2 * demand >= |neighbors| ==>
                    Relays(neighbors, asns, MAX_ADVICED_RELAYS)
                    == relays + Relays(neighbors[..i], asns, MAX_ADVICED_RELAYS - |relays|)
      {
        i := i - 1;
        RelaysStep(neighbors, i, asns, MAX_ADVICED_RELAYS - |relays|);
        assert neighbors[i].asn in asns by { AsnIn(neighbors, i); }
        var rnd: real :| 0.0 <= rnd <= 1.0;
        if rnd <= ratio {
          Assoc(relays, [neighbors[i]], Relays(neighbors[..i], asns, MAX_ADVICED_RELAYS - |relays| - 1));
          relays := relays + [neighbors[i]];
          RelaysEnd(neighbors[..i], asns, 0);
          if |relays| >= MAX_ADVICED_RELAYS { return; }
        }
      }
      assert neighbors[..i] == [];
      RelaysEnd([], asns, MAX_ADVICED_RELAYS - |relays|);
    }

    /** The random advice for one task, if the draw leaves any relay. */
    method SendGuess(t: Task, neighbors: seq<EndPoint>) returns (ghost sent: seq<Packet>)
      modifies this`outbox
      ensures outbox == old(outbox) + sent && OneGuess(sent, t, neighbors)
    {
      hide Relays, AsnsOf;
      sent := [];
      if neighbors == [] { return; }
      var q := t.request.inquiry;
      var relays := GuessRelays(neighbors, q.demand);
      if |relays| > 0 {
        sent := [Advice(t.request.origin, q.source, q.destination, relays)];
        outbox := outbox + [Advice(t.request.origin, q.source, q.destination, relays)];
      }
    }

    /** Takes the oldest tasks off the queue until one is not from before the current second. */
    method Retire(neighbors: seq<EndPoint>, time: Clock) returns (ghost n: nat, ghost sent: seq<Packet>)
      requires time.Valid()
      modifies this`tasks, this`outbox, time
      ensures time.Valid() && old(time.last) <= time.last
      ensures Retired(old(tasks), n, time.last, tasks, sent, neighbors) && outbox == old(outbox) + sent
    {
      hide Guesses, OneGuess;
      n, sent := 0, [];
      GuessesNone(neighbors);
      assert tasks[..n] == [];
      while tasks != []
        invariant n <= |old(tasks)| && tasks == old(tasks)[n..]
        invariant time.Valid() && old(time.last) <= time.last
        invariant forall i :: 0 <= i < n ==> old(tasks)[i].stamp < time.last
        invariant outbox == old(outbox) + sent && Guesses(sent, old(tasks)[..n], neighbors)
        decreases |tasks|
      {
        var now := time.Now();
        if tasks[0].stamp >= now { break; }
        ghost var p := SendGuess(tasks[0], neighbors);
        GuessesNext(sent, old(tasks), n, neighbors, p);
        sent := sent + p;
        tasks := tasks[1..];
        n := n + 1;
      }
    }

    /** Retires the oldest tasks and forgets old knowledge. */
    method Refresh(neighbors: seq<EndPoint>, time: Clock)
      returns (ghost from: Time, ghost stop: Time, ghost n: nat, ghost sent: seq<Packet>)
      requires Valid(time)
      modifies this, time
      ensures Valid(time) && old(time.last) <= from <= stop <= time.last && outbox == old(outbox) + sent
      ensures Updated(old(Contents()), neighbors, from, stop, time.last, Outcome(Contents(), sent))
      ensures Retired(old(tasks), n, stop, tasks, sent, neighbors)
      ensures Left(old(tasks), stop, tasks)
    {
      hide Orderly, Left, Guesses, Expired, Questions, Received;
      var seed := time.Now();
      from := seed;
      n, sent := Retire(neighbors, time);
      stop := time.last;
      ghost var all := old(tasks);
      QuestionsGuesses(sent, all[..n], neighbors);
      QuestionsConcat(old(outbox), sent);
      assert Retired(all, n, stop, tasks, sent, neighbors);
      Forget(time, from);
      UpdateClears(old(Contents()), neighbors, from, stop, time.last, Outcome(Contents(), sent), old(time.last));
    }

    /**
     The periodic update: the tasks that leave get at most one random advice each, and one for sure if they asked for
     half of the neighbours or more; knowledge leaves the cache when it is older than 120 seconds.
     */
    method Update(neighbors: seq<EndPoint>, time: Clock)
      returns (ghost from: Time, ghost stop: Time, ghost sent: seq<Packet>)
      requires Valid(time)
      modifies this, time
      ensures Valid(time) && old(time.last) <= from <= stop <= time.last && outbox == old(outbox) + sent
      ensures Updated(old(Contents()), neighbors, from, stop, time.last, Outcome(Contents(), sent))
      ensures |tasks| <= |old(tasks)| && tasks == old(tasks)[|old(tasks)| - |tasks|..]
      ensures forall i :: 0 <= i < |old(tasks)| ==> (old(tasks)[i].stamp < stop <==> i < |old(tasks)| - |tasks|)
      ensures |sent| <= |old(tasks)| - |tasks|
      ensures forall i :: 0 <= i < |old(tasks)| - |tasks| ==>
                var q := old(tasks)[i].request.inquiry;
                var all := Relays(neighbors, set n | n in neighbors :: n.asn, 20);
                neighbors != [] && 2 * q.demand as int >= |neighbors| ==>
                  Advice(old(tasks)[i].request.origin, q.source, q.destination, all) in sent
      ensures forall k :: k in cache ==> k in old(cache) && cache[k] == old(cache)[k] && from <= cache[k].stamp + 120
      ensures forall k :: k in old(cache) && time.last <= old(cache)[k].stamp + 120 ==> k in cache
    {
      hide Valid, Left, Guesses, Expired, Relays;
      ghost var n;
      from, stop, n, sent := Refresh(neighbors, time);
      GuessesServe(sent, old(tasks)[..n], neighbors);
      LeftFacts(old(tasks), stop, tasks);
      assert forall i :: 0 <= i < n ==> old(tasks)[..n][i] == old(tasks)[i];
    }

    /** Drops the knowledge that has outlived its time, one cache entry after the other. */
    method Forget(time: Clock, ghost from: Time)
      requires time.Valid() && from <= time.last
      modifies this`cache, time
      ensures time.Valid() && old(time.last) <= time.last
      ensures forall k :: k in cache ==>
                k in old(cache) && cache[k] == old(cache)[k] && from <= cache[k].stamp + CACHE_LIFE
      ensures forall k :: k in old(cache) && time.last <= old(cache)[k].stamp + CACHE_LIFE ==> k in cache
    {
      var rest := cache.Keys;
      while rest != {}
        invariant time.Valid() && old(time.last) <= time.last && rest <= cache.Keys
        invariant forall k :: k in cache ==> k in old(cache) && cache[k] == old(cache)[k]
        invariant forall k :: k in cache && k !in rest ==> from <= cache[k].stamp + CACHE_LIFE
        invariant forall k :: k in old(cache) && k !in cache ==> old(cache)[k].stamp + CACHE_LIFE < time.last
        decreases |rest|
      {
        var k :| k in rest;
        rest := rest - {k};
        var now := time.Now();
        if cache[k].stamp + CACHE_LIFE < now { cache := cache - {k}; }
      }
    }
  }
}
