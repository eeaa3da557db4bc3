/**
 A network of advising proxies and the inquiries in flight between them, under any interleaving of clients, losses,
 database knowledge and timers, without duplication.
 */
module Network {
  import opened Advisor
  import opened Events
  import opened Protocol

  datatype Letter = Letter(to: EndPoint, request: Request)
  datatype Host = Host(at: EndPoint, state: State)

  /** `advices` and `handled` record every advice sent and the origin of every inquiry that reached a proxy. */
  datatype Net = Net(hosts: seq<Host>, flight: seq<Letter>, asked: set<nat>, advices: seq<Packet>, handled: seq<nat>)

  datatype Action =
    | Ask(to: EndPoint, request: Request)
    | Lose(i: nat)
    | Deliver(i: nat, h: nat, neighbors: seq<EndPoint>, now: Time)
    | Know(h: nat, key: AsnPair, asns: set<Short>, neighbors: seq<EndPoint>, now: Time)
    | Refresh(h: nat, neighbors: seq<EndPoint>, from: Time, stop: Time, until: Time, outcome: Outcome)

  function Without(flight: seq<Letter>, i: nat): seq<Letter>
    requires i < |flight|
  {
    flight[..i] + flight[i + 1..]
  }

  /** The inquiries among the packets a proxy sent. */
  function Letters(sent: seq<Packet>): seq<Letter> {
    if sent == [] then []
    else
      var p := sent[|sent| - 1];
      Letters(sent[..|sent| - 1]) + if p.Forward? then [Letter(p.proxy, p.request)] else []
  }

  function Advices(sent: seq<Packet>): seq<Packet> {
    if sent == [] then []
    else
      var p := sent[|sent| - 1];
      Advices(sent[..|sent| - 1]) + if p.Advice? then [p] else []
  }

  /** Host `h` moves to the outcome's state and what it sent goes out. */
  function Effect(n: Net, h: nat, o: Outcome): Net
    requires h < |n.hosts|
  {
    n.(hosts := n.hosts[h := n.hosts[h].(state := o.state)],
       flight := n.flight + Letters(o.sent),
       advices := n.advices + Advices(o.sent))
  }

  ghost predicate Step(n: Net, a: Action, n': Net) {
    match a
    case Ask(to, r) =>
      && r.origin !in n.asked && r.inquiry.ttl == MAX_TTL
      && n' == n.(asked := n.asked + {r.origin}, flight := n.flight + [Letter(to, r)])
    case Lose(i) =>
      i < |n.flight| && n' == n.(flight := Without(n.flight, i))
    case Deliver(i, h, neighbors, now) =>
      && i < |n.flight| && h < |n.hosts|
      && n.hosts[h].at.addr == n.flight[i].to.addr && n.hosts[h].at.port == n.flight[i].to.port
      && var r := n.flight[i].request;
         n' == Effect(n.(flight := Without(n.flight, i), handled := n.handled + [r.origin]), h,
                      OnInquiry(n.hosts[h].state, r, neighbors, now))
    case Know(h, key, asns, neighbors, now) =>
      h < |n.hosts| && n' == Effect(n, h, OnFilter(n.hosts[h].state, key, asns, neighbors, now))
    case Refresh(h, neighbors, from, stop, until, outcome) =>
      h < |n.hosts| && Updated(n.hosts[h].state, neighbors, from, stop, until, outcome) && n' == Effect(n, h, outcome)
  }

  ghost predicate Init(n: Net) {
    && n.flight == [] && n.asked == {} && n.advices == [] && n.handled == []
    && forall h :: 0 <= h < |n.hosts| ==> n.hosts[h].state == State([], map[])
  }

  ghost predicate IsRun(run: seq<Net>, actions: seq<Action>) {
    && |run| == |actions| + 1
    && Init(run[0])
    && forall i :: 0 <= i < |actions| ==> Step(run[i], actions[i], run[i + 1])
  }

  // ---------- Time to live and demand ----------

  /** An inquiry in flight can be decremented without wrapping, and one that was forwarded still asks for relays. */
  ghost predicate GoodLetter(l: Letter) {
    1 <= l.request.inquiry.ttl <= MAX_TTL && (l.request.inquiry.ttl < MAX_TTL ==> 1 <= l.request.inquiry.demand)
  }

  ghost predicate GoodTask(t: Task) {
    t.request.inquiry.ttl < MAX_TTL && 1 <= t.request.inquiry.demand
  }

  ghost predicate GoodLetters(ls: seq<Letter>) {
    forall i :: 0 <= i < |ls| ==> GoodLetter(ls[i])
  }

  ghost predicate GoodTasks(ts: seq<Task>) {
    forall i :: 0 <= i < |ts| ==> GoodTask(ts[i])
  }

  lemma {:induction false} LettersConcat(a: seq<Packet>, b: seq<Packet>)
    ensures Letters(a + b) == Letters(a) + Letters(b) && Advices(a + b) == Advices(a) + Advices(b)
    decreases |b|
  {
    if b == [] {
      assert a + b == a;
    } else {
      assert (a + b)[..|a + b| - 1] == a + b[..|b| - 1];
      LettersConcat(a, b[..|b| - 1]);
    }
  }

  lemma NothingSent(o: nat, extra: nat)
    ensures Letters([]) == [] && Output([], o, extra) == 0 && Load([], o, extra) == 0 && Posted([]) == []
  {
  }

  /** An answer is one advice and at most one inquiry, which asks for as many less as were chosen. */
  lemma AnswerShape(r: Request, relays: seq<EndPoint>, neighbors: seq<EndPoint>)
    requires neighbors != []
    ensures var q := r.inquiry;
            var sent := Answer(r, relays, neighbors);
            && Advices(sent) == [Advice(r.origin, q.source, q.destination, relays)]
            && Letters(sent) == if |relays| < q.demand && q.ttl > 0 then
                                  [Letter(neighbors[|neighbors| - 1], r.(inquiry := q.(demand := q.demand - |relays|)))]
                                else []
  {
    var q := r.inquiry;
    var a := Advice(r.origin, q.source, q.destination, relays);
    var sent := Answer(r, relays, neighbors);
    assert Letters([a]) == [] && Advices([a]) == [a] by { assert [a][..0] == []; }
    if |sent| == 2 { assert sent[..1] == [a]; }
  }

  lemma AnswerGood(r: Request, relays: seq<EndPoint>, neighbors: seq<EndPoint>)
    requires neighbors != [] && r.inquiry.ttl < MAX_TTL
    ensures GoodLetters(Letters(Answer(r, relays, neighbors)))
  {
    hide Answer, Letters;
    AnswerShape(r, relays, neighbors);
  }

  lemma {:induction false} AnswersGood(tasks: seq<Task>, key: AsnPair, relays: seq<EndPoint>, neighbors: seq<EndPoint>)
    requires neighbors != [] && GoodTasks(tasks)
    ensures GoodLetters(Letters(Answers(tasks, key, relays, neighbors))) && GoodTasks(Waiting(tasks, key))
  {
    hide Answer, Letters, GoodLetter;
    NothingSent(0, 0);
    if tasks != [] {
      var n := |tasks| - 1;
      AnswersGood(tasks[..n], key, relays, neighbors);
      assert GoodTask(tasks[n]);
      AnswerGood(tasks[n].request, relays, neighbors);
      var sent := Answers(tasks[..n], key, relays, neighbors);
      LettersConcat(sent, Answer(tasks[n].request, relays, neighbors));
      assert sent + [] == sent;
    }
  }

  lemma InquiryGood(s: State, r: Request, neighbors: seq<EndPoint>, now: Time)
    requires GoodTasks(s.tasks) && 1 <= r.inquiry.ttl <= MAX_TTL
    ensures GoodLetters(Letters(OnInquiry(s, r, neighbors, now).sent))
    ensures GoodTasks(OnInquiry(s, r, neighbors, now).state.tasks)
  {
    var r' := r.(inquiry := r.inquiry.(ttl := Decremented(r.inquiry.ttl)));
    if neighbors != [] && r.inquiry.demand != 0 && Key(r.inquiry) in s.cache {
      AnswerShape(r', Relays(neighbors, s.cache[Key(r.inquiry)].asns, r.inquiry.demand), neighbors);
    } else {
      assert Letters([AskDatabase(r.inquiry)]) == [] by { assert [AskDatabase(r.inquiry)][..0] == []; }
    }
  }

  lemma {:induction false} GuessesShape(sent: seq<Packet>, tasks: seq<Task>, neighbors: seq<EndPoint>)
    requires Guesses(sent, tasks, neighbors)
    ensures Letters(sent) == [] && Advices(sent) == sent
    decreases |tasks|
  {
    if tasks != [] {
      var n, m := |tasks| - 1, |sent| - 1;
      if MayStaySilent(tasks[n], neighbors) && Guesses(sent, tasks[..n], neighbors) {
        GuessesShape(sent, tasks[..n], neighbors);
      } else {
        GuessesShape(sent[..m], tasks[..n], neighbors);
      }
    }
  }

  // ---------- The potential of a client's request ----------

  /** Hops left in `rs` for request `o`, plus `extra` for each of its entries. */
  ghost function Load(rs: seq<Request>, o: nat, extra: nat): nat {
    if rs == [] then 0
    else
      var r := rs[|rs| - 1];
      Load(rs[..|rs| - 1], o, extra) + if r.origin == o then r.inquiry.ttl + extra else 0
  }

  ghost function Posted(ls: seq<Letter>): seq<Request> {
    seq(|ls|, i requires 0 <= i < |ls| => ls[i].request)
  }

  ghost function Queued(ts: seq<Task>): seq<Request> {
    seq(|ts|, i requires 0 <= i < |ts| => ts[i].request)
  }

  ghost function HostLoad(hosts: seq<Host>, o: nat, extra: nat): nat {
    if hosts == [] then 0
    else HostLoad(hosts[..|hosts| - 1], o, extra) + Load(Queued(hosts[|hosts| - 1].state.tasks), o, extra)
  }

  ghost function AdviceCount(ps: seq<Packet>, o: nat): nat {
    if ps == [] then 0
    else
      var p := ps[|ps| - 1];
      AdviceCount(ps[..|ps| - 1], o) + if p.Advice? && p.origin == o then 1 else 0
  }

  ghost function Count(s: seq<nat>, o: nat): nat {
    if s == [] then 0 else Count(s[..|s| - 1], o) + if s[|s| - 1] == o then 1 else 0
  }

  lemma {:induction false} LoadConcat(a: seq<Request>, b: seq<Request>, o: nat, extra: nat)
    ensures Load(a + b, o, extra) == Load(a, o, extra) + Load(b, o, extra)
    decreases |b|
  {
    if b == [] {
      assert a + b == a;
    } else {
      assert (a + b)[..|a + b| - 1] == a + b[..|b| - 1];
      LoadConcat(a, b[..|b| - 1], o, extra);
    }
  }

  lemma {:induction false} AdviceCountConcat(a: seq<Packet>, b: seq<Packet>, o: nat)
    ensures AdviceCount(a + b, o) == AdviceCount(a, o) + AdviceCount(b, o)
    decreases |b|
  {
    if b == [] {
      assert a + b == a;
    } else {
      assert (a + b)[..|a + b| - 1] == a + b[..|b| - 1];
      AdviceCountConcat(a, b[..|b| - 1], o);
    }
  }

  lemma LoadOne(r: Request, o: nat, extra: nat)
    ensures Load([r], o, extra) == if r.origin == o then r.inquiry.ttl + extra else 0
  {
    assert [r][..0] == [];
  }

  lemma AdviceCountOne(p: Packet, o: nat)
    ensures AdviceCount([p], o) == if p.Advice? && p.origin == o then 1 else 0
  {
    assert [p][..0] == [];
  }

  lemma {:induction false} HostLoadUpdate(hosts: seq<Host>, h: nat, s: State, o: nat, extra: nat)
    requires h < |hosts|
    ensures HostLoad(hosts[h := hosts[h].(state := s)], o, extra) + Load(Queued(hosts[h].state.tasks), o, extra)
            == HostLoad(hosts, o, extra) + Load(Queued(s.tasks), o, extra)
  {
    var n := |hosts| - 1;
    var hosts' := hosts[h := hosts[h].(state := s)];
    if h == n {
      assert hosts'[..n] == hosts[..n];
    } else {
      assert hosts'[..n] == hosts[..n][h := hosts[h].(state := s)];
      HostLoadUpdate(hosts[..n], h, s, o, extra);
    }
  }

  /** What an outcome sends, in hops for request `o` and, if `extra` is 1, in advices. */
  ghost function Output(sent: seq<Packet>, o: nat, extra: nat): nat {
    Load(Posted(Letters(sent)), o, 0) + if extra == 1 then AdviceCount(Advices(sent), o) else 0
  }

  lemma OutputConcat(a: seq<Packet>, b: seq<Packet>, o: nat, extra: nat)
    ensures Output(a + b, o, extra) == Output(a, o, extra) + Output(b, o, extra)
  {
    LettersConcat(a, b);
    assert Posted(Letters(a) + Letters(b)) == Posted(Letters(a)) + Posted(Letters(b));
    LoadConcat(Posted(Letters(a)), Posted(Letters(b)), o, 0);
    AdviceCountConcat(Advices(a), Advices(b), o);
  }

  /** Answering uses up a queued request's hops: one advice costs the extra unit, one forward the rest. */
  lemma AnswerOutput(r: Request, relays: seq<EndPoint>, neighbors: seq<EndPoint>, o: nat, extra: nat)
    requires neighbors != [] && extra <= 1
    ensures Output(Answer(r, relays, neighbors), o, extra) <= Load([r], o, extra)
  {
    AnswerShape(r, relays, neighbors);
    var q := r.inquiry;
    LoadOne(r, o, extra);
    AdviceCountOne(Advice(r.origin, q.source, q.destination, relays), o);
    if |relays| < q.demand && q.ttl > 0 {
      var r2 := r.(inquiry := q.(demand := q.demand - |relays|));
      assert Posted([Letter(neighbors[|neighbors| - 1], r2)]) == [r2];
      LoadOne(r2, o, 0);
    }
  }

  lemma {:induction false} AnswersOutput(tasks: seq<Task>, key: AsnPair, relays: seq<EndPoint>,
                                         neighbors: seq<EndPoint>, o: nat, extra: nat)
    requires neighbors != [] && extra <= 1
    ensures Load(Queued(Waiting(tasks, key)), o, extra) + Output(Answers(tasks, key, relays, neighbors), o, extra)
            <= Load(Queued(tasks), o, extra)
  {
    if tasks != [] {
      var n := |tasks| - 1;
      AnswersOutput(tasks[..n], key, relays, neighbors, o, extra);
      var r := tasks[n].request;
      assert Queued(tasks) == Queued(tasks[..n]) + [r];
      LoadConcat(Queued(tasks[..n]), [r], o, extra);
      if Key(r.inquiry) == key {
        OutputConcat(Answers(tasks[..n], key, relays, neighbors), Answer(r, relays, neighbors), o, extra);
        AnswerOutput(r, relays, neighbors, o, extra);
        assert Waiting(tasks, key) == Waiting(tasks[..n], key);
      } else {
        assert Answers(tasks, key, relays, neighbors) == Answers(tasks[..n], key, relays, neighbors);
        assert Queued(Waiting(tasks, key)) == Queued(Waiting(tasks[..n], key)) + [r];
        LoadConcat(Queued(Waiting(tasks[..n], key)), [r], o, extra);
      }
    }
  }

  lemma {:induction false} GuessesOutput(sent: seq<Packet>, tasks: seq<Task>, neighbors: seq<EndPoint>, o: nat)
    requires Guesses(sent, tasks, neighbors)
    ensures AdviceCount(sent, o) <= Load(Queued(tasks), o, 1)
    decreases |tasks|
  {
    if tasks != [] {
      var n, m := |tasks| - 1, |sent| - 1;
      var r := tasks[n].request;
      assert Queued(tasks) == Queued(tasks[..n]) + [r];
      LoadConcat(Queued(tasks[..n]), [r], o, 1);
      LoadOne(r, o, 1);
      if MayStaySilent(tasks[n], neighbors) && Guesses(sent, tasks[..n], neighbors) {
        GuessesOutput(sent, tasks[..n], neighbors, o);
      } else {
        GuessesOutput(sent[..m], tasks[..n], neighbors, o);
      }
    }
  }

  /** Handling an inquiry turns its hops into at most as much. */
  lemma InquiryOutput(s: State, r: Request, neighbors: seq<EndPoint>, now: Time, o: nat, extra: nat)
    requires extra <= 1 && 1 <= r.inquiry.ttl
    ensures var out := OnInquiry(s, r, neighbors, now);
            Load(Queued(out.state.tasks), o, extra) + Output(out.sent, o, extra)
            <= Load(Queued(s.tasks), o, extra) + if r.origin == o then r.inquiry.ttl - 1 + extra else 0
  {
    var r' := r.(inquiry := r.inquiry.(ttl := Decremented(r.inquiry.ttl)));
    LoadOne(r', o, extra);
    if neighbors == [] || r.inquiry.demand == 0 {
      assert Output([], o, extra) == 0;
    } else if Key(r.inquiry) in s.cache {
      AnswerOutput(r', Relays(neighbors, s.cache[Key(r.inquiry)].asns, r.inquiry.demand), neighbors, o, extra);
    } else {
      assert Letters([AskDatabase(r.inquiry)]) == [] && Advices([AskDatabase(r.inquiry)]) == [] by {
        assert [AskDatabase(r.inquiry)][..0] == [];
      }
      assert Queued(s.tasks + [Task(now, r')]) == Queued(s.tasks) + [r'];
      LoadConcat(Queued(s.tasks), [r'], o, extra);
    }
  }

  lemma GoodTail(ts: seq<Task>, n: nat)
    requires n <= |ts|
    ensures GoodTasks(ts) ==> GoodTasks(ts[n..])
  {
  }

  lemma UpdateOutput(s: State, neighbors: seq<EndPoint>, from: Time, stop: Time, to: Time, out: Outcome, o: nat,
                     extra: nat)
    requires Updated(s, neighbors, from, stop, to, out) && extra <= 1
    ensures Load(Queued(out.state.tasks), o, extra) + Output(out.sent, o, extra) <= Load(Queued(s.tasks), o, extra)
    ensures Letters(out.sent) == []
    ensures GoodTasks(s.tasks) ==> GoodTasks(out.state.tasks)
  {
    hide Load, Guesses, Letters, Advices, AdviceCount, Expired, GoodTasks;
    NothingSent(o, 0);
    var n: nat :| Retired(s.tasks, n, stop, out.state.tasks, out.sent, neighbors);
    assert Queued(s.tasks) == Queued(s.tasks[..n]) + Queued(s.tasks[n..]);
    LoadConcat(Queued(s.tasks[..n]), Queued(s.tasks[n..]), o, extra);
    GuessesShape(out.sent, s.tasks[..n], neighbors);
    GuessesOutput(out.sent, s.tasks[..n], neighbors, o);
    GoodTail(s.tasks, n);
  }

  // ---------- The whole network ----------

  /** Hops in flight and in queues for request `o`, plus what it has cost so far: advices, or inquiries handled. */
  ghost function Budget(n: Net, o: nat, extra: nat): nat {
    Load(Posted(n.flight), o, 0) + HostLoad(n.hosts, o, extra) +
    if extra == 1 then AdviceCount(n.advices, o) else Count(n.handled, o)
  }

  ghost predicate Good(n: Net) {
    && GoodLetters(n.flight)
    && (forall h :: 0 <= h < |n.hosts| ==> GoodTasks(n.hosts[h].state.tasks))
    && forall o, extra {:trigger Budget(n, o, extra)} ::
         extra <= 1 ==> Budget(n, o, extra) <= if o in n.asked then MAX_TTL as nat else 0
  }

  /** A host's outcome changes the budget by exactly what it kept and sent. */
  lemma EffectBudget(n: Net, h: nat, out: Outcome, o: nat, extra: nat)
    requires h < |n.hosts| && extra <= 1
    ensures Budget(Effect(n, h, out), o, extra) + Load(Queued(n.hosts[h].state.tasks), o, extra)
            == Budget(n, o, extra) + Load(Queued(out.state.tasks), o, extra) + Output(out.sent, o, extra)
  {
    HostLoadUpdate(n.hosts, h, out.state, o, extra);
    assert Posted(n.flight + Letters(out.sent)) == Posted(n.flight) + Posted(Letters(out.sent));
    LoadConcat(Posted(n.flight), Posted(Letters(out.sent)), o, 0);
    AdviceCountConcat(n.advices, Advices(out.sent), o);
  }

  lemma WithoutLoad(flight: seq<Letter>, i: nat, o: nat)
    requires i < |flight|
    ensures Load(Posted(flight), o, 0) == Load(Posted(Without(flight, i)), o, 0) + Load([flight[i].request], o, 0)
  {
    var a, b := Posted(flight[..i]), Posted(flight[i + 1..]);
    assert Posted(flight) == (a + [flight[i].request]) + b;
    assert Posted(Without(flight, i)) == a + b;
    LoadConcat(a + [flight[i].request], b, o, 0);
    LoadConcat(a, [flight[i].request], o, 0);
    LoadConcat(a, b, o, 0);
  }

  lemma {:induction false} InitBudget(hosts: seq<Host>, o: nat, extra: nat)
    requires forall h :: 0 <= h < |hosts| ==> hosts[h].state == State([], map[])
    ensures HostLoad(hosts, o, extra) == 0
  {
    if hosts != [] {
      InitBudget(hosts[..|hosts| - 1], o, extra);
      assert Queued(hosts[|hosts| - 1].state.tasks) == [];
    }
  }

  lemma InitGood(n: Net)
    requires Init(n)
    ensures Good(n)
  {
    forall o, extra: nat | extra <= 1 ensures Budget(n, o, extra) == 0 {
      InitBudget(n.hosts, o, extra);
      assert Posted(n.flight) == [];
    }
  }

  /** No step raises the budget of any request, except that asking opens it. */
  lemma StepBudget(n: Net, a: Action, n': Net, o: nat, extra: nat)
    requires Step(n, a, n') && GoodLetters(n.flight) && extra <= 1
    ensures Budget(n', o, extra) <= Budget(n, o, extra) + if a.Ask? && a.request.origin == o then MAX_TTL as nat else 0
  {
    hide Load, HostLoad, OnInquiry, Updated, Output, Letters, Advices, Answers, Waiting, Relays;
    match a
    case Ask(to, r) =>
      assert Posted(n.flight + [Letter(to, r)]) == Posted(n.flight) + [r];
      LoadConcat(Posted(n.flight), [r], o, 0);
      LoadOne(r, o, 0);
    case Lose(i) =>
      WithoutLoad(n.flight, i, o);
    case Deliver(i, h, neighbors, now) =>
      var r := n.flight[i].request;
      assert GoodLetter(n.flight[i]);
      WithoutLoad(n.flight, i, o);
      LoadOne(r, o, 0);
      var taken := n.(flight := Without(n.flight, i), handled := n.handled + [r.origin]);
      assert taken.handled[..|n.handled|] == n.handled;
      EffectBudget(taken, h, OnInquiry(n.hosts[h].state, r, neighbors, now), o, extra);
      InquiryOutput(n.hosts[h].state, r, neighbors, now, o, extra);
    case Know(h, key, asns, neighbors, now) =>
      var s := n.hosts[h].state;
      EffectBudget(n, h, OnFilter(s, key, asns, neighbors, now), o, extra);
      NothingSent(o, extra);
      if neighbors != [] {
        AnswersOutput(s.tasks, key, Relays(neighbors, asns, MAX_ADVICED_RELAYS), neighbors, o, extra);
      }
    case Refresh(h, neighbors, from, stop, until, outcome) =>
      EffectBudget(n, h, outcome, o, extra);
      UpdateOutput(n.hosts[h].state, neighbors, from, stop, until, outcome, o, extra);
  }

  /** Every step keeps times to live in 1 to 4 in flight and demands above zero. */
  lemma StepLetters(n: Net, a: Action, n': Net)
    requires Step(n, a, n') && GoodLetters(n.flight)
    requires forall h :: 0 <= h < |n.hosts| ==> GoodTasks(n.hosts[h].state.tasks)
    ensures GoodLetters(n'.flight)
    ensures forall h :: 0 <= h < |n'.hosts| ==> GoodTasks(n'.hosts[h].state.tasks)
  {
    match a
    case Ask(to, r) =>
    case Lose(i) =>
    case Deliver(i, h, neighbors, now) =>
      assert GoodLetter(n.flight[i]);
      InquiryGood(n.hosts[h].state, n.flight[i].request, neighbors, now);
    case Know(h, key, asns, neighbors, now) =>
      if neighbors != [] {
        AnswersGood(n.hosts[h].state.tasks, key, Relays(neighbors, asns, MAX_ADVICED_RELAYS), neighbors);
      }
    case Refresh(h, neighbors, from, stop, until, outcome) =>
      UpdateOutput(n.hosts[h].state, neighbors, from, stop, until, outcome, 0, 0);
  }

  lemma StepGood(n: Net, a: Action, n': Net)
    requires Step(n, a, n') && Good(n)
    ensures Good(n')
  {
    StepLetters(n, a, n');
    forall o, extra: nat | extra <= 1
      ensures Budget(n', o, extra) <= if o in n'.asked then MAX_TTL as nat else 0
    {
      StepBudget(n, a, n', o, extra);
      assert Budget(n, o, extra) <= if o in n.asked then MAX_TTL as nat else 0;
    }
  }

  /**
   In every reachable state of every run: an inquiry in flight has a time to live of 1 to 4, so decrementing never
   wraps, and a forwarded one asks for at least one relay; one client request is handled by at most four proxies and
   yields at most four advices, whatever is lost and in whatever order messages arrive.
   */
  lemma {:induction false} RunSafe(run: seq<Net>, actions: seq<Action>, i: nat, o: nat)
    requires IsRun(run, actions) && i < |run|
    ensures Good(run[i])
    ensures forall j :: 0 <= j < |run[i].flight| ==>
              var q := run[i].flight[j].request.inquiry; 1 <= q.ttl <= 4 && (q.ttl < 4 ==> 1 <= q.demand)
    ensures AdviceCount(run[i].advices, o) <= 4 && Count(run[i].handled, o) <= 4
    ensures o !in run[i].asked ==> AdviceCount(run[i].advices, o) == 0 && Count(run[i].handled, o) == 0
    decreases i
  {
    if i == 0 {
      InitGood(run[0]);
    } else {
      RunSafe(run, actions, i - 1, o);
      StepGood(run[i - 1], actions[i - 1], run[i]);
    }
    assert Budget(run[i], o, 0) <= if o in run[i].asked then MAX_TTL as nat else 0;
    assert Budget(run[i], o, 1) <= if o in run[i].asked then MAX_TTL as nat else 0;
  }

  // ---------- The bounds are reached ----------

  /** A proxy that knows itself as its only neighbour, with knowledge about its own autonomous system. */
  ghost function Mirror(): EndPoint {
    EndPoint(7, 9, 1, 0)
  }

  ghost function Bounced(o: nat, k: Byte): Request
    requires k <= 4
  {
    Request(o, Inquiry(4 - k, 10 - k, Mirror(), Mirror(), Mirror()))
  }

  /** After `k` hops of request `o`, each of which yielded one advice of one relay. */
  ghost function Hopped(o: nat, k: Byte): Net
    requires k <= 4
  {
    var e := Mirror();
    Net([Host(e, State([], map[AsnPair(7, 7) := Entry(0, {7})]))],
        if k < 4 then [Letter(e, Bounced(o, k))] else [],
        {o}, seq(k, _ => Advice(o, e, e, [e])), seq(k, _ => o))
  }

  lemma OneRelay(limit: nat)
    requires 0 < limit
    ensures Relays([Mirror()], {7}, limit) == [Mirror()]
  {
    assert [Mirror()][..0] == [];
  }

  /** What the proxy makes of a request: one advice, and the request back to itself while hops are left. */
  lemma Answered(s: State, o: nat, k: Byte)
    requires k < 4 && s.cache == map[AsnPair(7, 7) := Entry(0, {7})]
    ensures var e := Mirror();
            var out := OnInquiry(s, Bounced(o, k), [e], 0);
            && out.state == s && Advices(out.sent) == [Advice(o, e, e, [e])]
            && Letters(out.sent) == if k < 3 then [Letter(e, Bounced(o, k + 1))] else []
  {
    hide Relays, Answer, Letters, Advices;
    var e, r := Mirror(), Bounced(o, k);
    OneRelay(10 - k);
    AnswerShape(r.(inquiry := r.inquiry.(ttl := Decremented(r.inquiry.ttl))), [e], [e]);
  }

  lemma More<T>(x: T, k: nat)
    ensures seq(k + 1, _ => x) == seq(k, _ => x) + [x]
  {
  }

  lemma Hop(o: nat, k: Byte)
    requires k < 4
    ensures Step(Hopped(o, k), Deliver(0, 0, [Mirror()], 0), Hopped(o, k + 1))
  {
    hide OnInquiry, Letters, Advices, Bounced;
    var e, n := Mirror(), Hopped(o, k);
    Answered(n.hosts[0].state, o, k);
    More(o, k);
    More(Advice(o, e, e, [e]), k);
    assert Bounced(o, k).origin == o by { FromClient(o, k); }
    var out := OnInquiry(n.hosts[0].state, Bounced(o, k), [e], 0);
    var taken := n.(flight := Without(n.flight, 0), handled := n.handled + [o]);
    assert taken.flight == [];
    assert Effect(taken, 0, out).hosts == n.hosts;
    assert Effect(taken, 0, out).flight == Hopped(o, k + 1).flight;
  }

  lemma FromClient(o: nat, k: Byte)
    requires k <= 4
    ensures Bounced(o, k).origin == o && Bounced(o, k).inquiry.ttl == 4 - k
  {
  }

  lemma {:induction false} CountAll(o: nat, k: nat)
    ensures Count(seq(k, _ => o), o) == k
    ensures AdviceCount(seq(k, _ => Advice(o, Mirror(), Mirror(), [Mirror()])), o) == k
  {
    if k > 0 {
      CountAll(o, k - 1);
      assert seq(k, _ => o)[..k - 1] == seq(k - 1, _ => o);
      var p := Advice(o, Mirror(), Mirror(), [Mirror()]);
      assert seq(k, _ => p)[..k - 1] == seq(k - 1, _ => p);
    }
  }

  /** No bound below four holds: a request of any client can be handled four times and yield four advices. */
  lemma FourReached(o: nat) returns (run: seq<Net>, actions: seq<Action>)
    ensures IsRun(run, actions) && run != []
    ensures AdviceCount(run[|run| - 1].advices, o) == 4 && Count(run[|run| - 1].handled, o) == 4
  {
    hide Step, Relays;
    var e, d := Mirror(), Deliver(0, 0, [Mirror()], 0);
    var known := Hopped(o, 0).(asked := {}, flight := []);
    var start := known.(hosts := [Host(e, State([], map[]))]);
    Learned(o, start, known);
    Hop(o, 0);
    Hop(o, 1);
    Hop(o, 2);
    Hop(o, 3);
    CountAll(o, 4);
    run := [start, known, Hopped(o, 0), Hopped(o, 1), Hopped(o, 2), Hopped(o, 3), Hopped(o, 4)];
    actions := [Know(0, AsnPair(7, 7), {7}, [e], 0), Ask(e, Bounced(o, 0)), d, d, d, d];
  }

  /** The first two steps: knowledge arrives, the client asks. */
  lemma Learned(o: nat, start: Net, known: Net)
    requires known == Hopped(o, 0).(asked := {}, flight := [])
    requires start == known.(hosts := [Host(Mirror(), State([], map[]))])
    ensures Step(start, Know(0, AsnPair(7, 7), {7}, [Mirror()], 0), known)
    ensures Step(known, Ask(Mirror(), Bounced(o, 0)), Hopped(o, 0))
  {
    hide Relays;
    OneRelay(20);
    NothingSent(o, 0);
    var out := OnFilter(State([], map[]), AsnPair(7, 7), {7}, [Mirror()], 0);
    assert out == Outcome(State([], map[AsnPair(7, 7) := Entry(0, {7})]), []);
    assert Effect(start, 0, out).hosts == known.hosts;
  }
}
