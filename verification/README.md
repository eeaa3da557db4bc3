# CORS: a verified model

CORS is an overlay relay network.  A client library picks relay nodes and sends a stream over several paths at once;
a proxy keeps a table of neighbours, advises clients about relays and forwards streams within a bandwidth budget; a
player puts what arrives back in order.  This project models the stateful parts of that system in Dafny and proves
what they are for.

Code that changes things in place is modelled in place: the skip list is heap nodes with `forward` and `previous`
pointers, the joiner's queue is a doubly linked list, buffers of the wire code are arrays, lists and maps that the
original mutates are fields of classes.  Every such method is proved against a specification function or relation,
and the properties are proved about those.  `Options` and `Protocol` hold what the other modules share.

| module | component | main results |
|---|---|---|
| `Chains`, `SkipLists` | `skiplist.h` | the pointer structure is a sorted map under insert, remove and search, for any random heights and any number of levels |
| `StableQueue`, `Runs`, `EventQueues`, `Clocks` | `eventqueue.cpp` | the bucketed queue is a stable sorted list; whatever callbacks insert meanwhile, a run fires exactly what is due, each event once and first in first out; when it fires in order of time; when it ends |
| `Timers` | the probe, save and update timers | exactly one of each is pending between runs, each due within its interval, when intervals are positive; what happens when they are not |
| `Jitter` | `jitter2.cpp` | list and bench are one set of frames with delete-min; exactly when a timed read plays a frame; delivery increases from one wrap of the numbers to the next |
| `Advisor`, `Network` | `advancerldvr.cpp` | per-proxy queue and cache invariants; the database is asked for every task that waits; in a whole network one request costs at most four hops and four advices, and some cost as much |
| `Neighbors` | `simplenbmtr.cpp` | map and list stay in bijection; round robin; a whole exchange of ping and pong between two proxies |
| `Selection` | `simplerlysltr.cpp` | the relay list is the best of all replies; cursors stay alive |
| `Ledger`, `Forwarder` | `simplefwd.cpp` | the bandwidth total, and exactly when what is granted stays within the bandwidth; in-place packet edits; data goes on exactly for the session that was reserved |
| `Bytes`, `Wire`, `Cuts` | `corsprotocol.cpp` | the four packets round-trip, and what readers make of packets that are cut |
| `DataPath` | `simplempathmanager.cpp` | a mesh packet arrives intact over every path that carries it |
| `GoodRelays` | `statmpathmanager.cpp` | good and bad relays stay apart |
| `AnnexB`, `Framing` | `myplayer.c` | frames are the maximal runs of equal timestamps, and a decoder that scans them for start codes finds the payloads in order |

## Where a property fails

The model follows the code.  These are the places where what the code promises, or seems to, does not hold in
general, each with the exact condition that is proved.

- The relay's total of granted bandwidth has 16 bits, so it wraps.  The grants of the sessions in its table are within
  `MAX_FWD_BW` in every run exactly when the table holds at most 32 sessions (`Ledger.NeverOversubscribesIff`); with
  33 sessions of 65535 each they are not.  A full table still answers a reservation that it does not take with a
  grant.  When these answers count as promises too, no table is small enough: for every table size, everything
  promised is within the bandwidth in all runs of at most n reservations exactly when n is at most 32
  (`Ledger.PromisesWithinIff`).  With 32-bit accumulators neither would ever exceed it
  (`Ledger.WideNeverOversubscribes`).
- A reservation that finds the table full is still charged to the total and never taken back.  A step leaks exactly
  when it reserves for a new session, the table is full and the grant is not zero (`Ledger.LeakStep`), a run has
  leaked nothing exactly when none of its operations did that (`Ledger.LeakFreeIff`), and the total is that of the
  live grants exactly when what leaked is zero in its width (`Ledger.EvenIff`).  For every table size there is a run
  that ends with no session and a total of 1 (`Ledger.OverfillLeaks`).
- Bandwidth is written with the 16-bit swap and read with the 32-bit one: the client reads the true value exactly
  when it is zero (`Forwarder.BandwidthSeenIff`).
- A pong carries the number its prober expects exactly when the ping did not carry 249: the prober starts again at 0,
  the responder answers 250 (`Neighbors.SeqAgrees`; for a whole exchange, `Neighbors.Exchange`).
- AS numbers in pong records are swapped by the responder and not swapped back by the prober.  A neighbour learned in
  an exchange has every field right except the AS number, which is right exactly when its two bytes are equal
  (`Neighbors.LearnedTaught`, `Neighbors.Exchange`).  A responder with a neighbour of AS number 1 teaches its prober
  256 (`Neighbors.MislearnAsn`).
- A configuration file gives a table in order, with map and list in bijection, exactly when it has a usable line and
  no two usable lines have the same address (`Neighbors.SimpleNbmtr.constructor`).
- When the frame with sequence number 65535 is delivered, numbering starts again at 0.  In a flush that leaves nothing
  live.  A timed read that delivers it makes bench frames below the deadline live again, and these were all given up
  for the first direct frame; but a timed read can deliver it only against itself, with a minimum length that is not
  positive (`Jitter.JitterBuffer.Read`, `Jitter.SelfPlayableIff`).  The lengths with which that can happen are those
  from -4294968 to 0 (`Jitter.SomeSelfPlayableIff`), and for each of them it does (`Jitter.Revive`); the players of
  the repository use 5.
- A run fires in order of time exactly when no callback adds an event earlier than the one it runs for
  (`Runs.RunInOrderIff`).  A run ends when callbacks add nothing due at the clock's last reading
  (`EventQueues.EventQueue.Run`).  The timers do so exactly when each interval is positive or so negative that the
  new timer is refused as past (`Timers.QuietIff`); with any other interval and a still clock a timer of the same
  kind is still pending and due after any number of turns (`Timers.NeverEnds`).
- The frame joiner's `size_in_queue` is the number of bytes queued exactly while the last call brought a block, or
  found an empty queue whose size was right (`Framing.BlockQueue.Join`): after the last flush of any transmission
  that had a block it keeps its old value although nothing is queued (`Framing.Play`).  The next block overwrites it.
- Readers of control packets check that each field begins within the packet, not that it ends there.  A packet of
  which only a part arrived is refused exactly when its last field does not begin in that part: up to byte 27 of an
  inquiry, 50 of a probe, and the beginning of the last entry of a list.  Otherwise it is read as it was written
  exactly when the buffer happens to hold the rest (`Cuts.InquiryCutIff`, `Cuts.AdviceCutIff`, `Cuts.ReportCutIff`,
  `Cuts.ProbeCutIff`).  Every packet cut within its last field is misread from some buffer (`Cuts.InquiryMisread`,
  `Cuts.AdviceMisread`, `Cuts.ReportMisread`, `Cuts.ProbeMisread`).
- An advisor that answers from its cache and sends the inquiry on lowers the demand by all the relays it chose, of
  which a packet carries 20.  The demand sent on is what the client still lacks exactly when at most 20 neighbours match
  (`Advisor.CachedDemandIff`); of 24 relays asked for a client may get 20 while the next proxy is asked for 3
  (`Advisor.Shortchanged`).  Answers to waiting tasks always have it right (`Advisor.SettledDemand`).
- The comment on `closestpred` (skiplist.h:95-98) says that a key before the head yields the last element; the code
  does so for the head's own key too (`SkipLists.SkipList.ClosestPred`).

## Model

| member | source | states |
|---|---|---|
| `SkipLists.SkipList.Insert` | CORS/src/proxy/skiplist.h:156-208 | insertion with any random height adds exactly the new key to the map and its place in the order, and refuses a key that is there, keeping the whole pointer invariant |
| `SkipLists.SkipList.Remove` | CORS/src/proxy/skiplist.h:210-270 | removal takes out exactly the entry of the key, or nothing, and keeps the invariant; cutting the head never counts below level 0 |
| `SkipLists.SkipList.Search` | CORS/src/proxy/skiplist.h:114-131 | search is map lookup |
| `SkipLists.SkipList.ClosestPred` | CORS/src/proxy/skiplist.h:99-112 | the entry with the largest key below the given one; with none below, the one with the largest key of all |
| `SkipLists.SkipList.ClosestSucc` | CORS/src/proxy/skiplist.h:137-154 | the entry with the smallest key not below the given one; with none, the one with the smallest key of all |
| `SkipLists.SkipList.RndLvl` | CORS/src/proxy/skiplist.h:46-52 | a random height is between 1 and the number of levels |
| `SkipLists.SkipList.InsertHead` | CORS/src/proxy/skiplist.h:55-90 | a new head takes over every level, whatever height the old head is cut or grown to |
| `SkipLists.SkipList.UnthreadHead` | CORS/src/proxy/skiplist.h:224-230 | the second entry takes over the head's links; the countdown over levels stops before it could pass level 0 |
| `SkipLists.SkipList.TrimLevels` | CORS/src/proxy/skiplist.h:233-234 | the level count drops to the highest level that still threads more than the head: the levels dropped held the head alone, and the top one kept does not unless it is the lowest |
| `SkipLists.SkipList.ForwardPointers` | CORS/src/proxy/skiplist.h:55-270 | on every level each entry points at the next one of that level, and every level starts at the head |
| `SkipLists.SkipList.AbsentIsNull` | CORS/src/proxy/skiplist.h:55-270 | an entry absent from a level holds null there, and each level is part of the one below |
| `SkipLists.SkipList.BackPointers` | CORS/src/proxy/skiplist.h:55-270 | level 0 is doubly linked from head to tail and has `sz` entries |
| `Chains.PushSound` | CORS/src/proxy/skiplist.h:55-90 | putting a key in front of every level keeps the pointer structure sound |
| `Chains.RankNeighbors` | CORS/src/proxy/skiplist.h:99-154 | the keys on both sides of a rank are the nearest ones below and not below the key |
| `Chains.SpliceSound` | CORS/src/proxy/skiplist.h:181-202 | threading a key into its lowest levels keeps it sound |
| `Chains.BeheadSound` | CORS/src/proxy/skiplist.h:215-236 | removing the first key keeps it sound |
| `Chains.UnlinkSound` | CORS/src/proxy/skiplist.h:251-265 | removing a later key from all its levels keeps it sound |
| `StableQueue.AddListed` | CORS/src/proxy/eventqueue.cpp:77-93 | adding an event to its bucket, new or old, is stable insertion into one list ordered by time |
| `StableQueue.FirstListed` | CORS/src/proxy/eventqueue.cpp:51-54 | the first bucket is the front of that list and removing it leaves the rest |
| `StableQueue.FirstInFirstOut` | CORS/src/proxy/eventqueue.cpp:77-93 | events of one timestamp stay in the order in which they were added |
| `StableQueue.ScheduleAllInOrder` | CORS/src/proxy/eventqueue.cpp:77-93 | stable insertion keeps the list in order and loses nothing |
| `StableQueue.SchedulePastAll` | CORS/src/proxy/eventqueue.cpp:53-62 | insertions of later events commute with having taken the front away |
| `StableQueue.FairIsMultiset` | CORS/src/proxy/eventqueue.cpp:48-93 | two lists with the same events of every timestamp in the same order are the same multiset |
| `StableQueue.FairSchedule` | CORS/src/proxy/eventqueue.cpp:77-93 | whatever is inserted, and whatever was taken off meanwhile, each timestamp stays first in first out |
| `StableQueue.CountMultiset` | CORS/src/proxy/eventqueue.cpp:77-93 | equal multisets hold equally many events of every sort |
| `EventQueues.EventQueue.AddEvent` | CORS/src/proxy/eventqueue.cpp:77-93 | an event in the past is refused, any other is scheduled once; inserting a bucket never fails |
| `EventQueues.EventQueue.NothingLost` | CORS/src/proxy/eventqueue.cpp:48-105 | at all times, for all callbacks: accepted = fired + in hand + pending, as multisets |
| `EventQueues.EventQueue.AppendEvent` | CORS/src/proxy/eventqueue.cpp:95-105 | an appended event goes one second behind everything pending and is never refused |
| `EventQueues.EventQueue.GetIdleTime` | CORS/src/proxy/eventqueue.cpp:65-75 | the proxy may sleep exactly until the first pending event, 60 seconds without one |
| `EventQueues.EventQueue.TakeFirst` | CORS/src/proxy/eventqueue.cpp:51-54 | the first bucket holds the first pending events, all of its timestamp |
| `EventQueues.EventQueue.Fire` | CORS/src/proxy/eventqueue.cpp:55-58 | one event fires and its callback, which may add anything, adds exactly its future events and has the others refused |
| `EventQueues.EventQueue.FireAll` | CORS/src/proxy/eventqueue.cpp:55-58 | the events of a removed bucket fire in order, all of them, whatever their callbacks insert |
| `EventQueues.EventQueue.RunSome` | CORS/src/proxy/eventqueue.cpp:48-63 | for all callbacks, any number of turns of the loop keeps the law of a run and stops early only when nothing is due |
| `EventQueues.EventQueue.Run` | CORS/src/proxy/eventqueue.cpp:48-63 | a run keeps the law, leaves nothing due, and ends when callbacks add nothing that is due at the clock's last reading |
| `Runs.LawStep` | CORS/src/proxy/eventqueue.cpp:55-58 | for all callbacks, firing one event keeps the law: nothing early, nothing lost, each timestamp first in first out, and one sorted list when no callback adds something earlier |
| `Runs.RunFiresWhatIsDue` | CORS/src/proxy/eventqueue.cpp:48-63 | for all callbacks, a run that is over has fired exactly the events due among the old and the accepted ones, each once, none early, each timestamp first in first out |
| `Runs.RunInOrderIff` | CORS/src/proxy/eventqueue.cpp:48-63 | a run fires in order of time if and only if no callback adds an event earlier than the one it runs for; then it fires the due front of one stably sorted list |
| `Runs.AcceptedOrRefused` | CORS/src/proxy/eventqueue.cpp:77-93 | what a callback adds is accepted or refused, nothing else |
| `Runs.QuietStep` | CORS/src/proxy/eventqueue.cpp:48-63 | callbacks that add nothing due leave the number of due events alone, the measure by which a run ends |
| `Runs.PerpetualStep` | CORS/src/proxy/eventqueue.cpp:48-63 | events that always add one of their kind never get fewer |
| `Timers.RearmFutureOnly` | CORS/src/proxy/simplenbmtr.h:60-86 | the timers schedule strictly into the future if and only if every interval is positive |
| `Timers.QuietIff` | CORS/src/proxy/simplenbmtr.h:60-86 | the timers add nothing due at a reading if and only if each interval is positive or reaches back before the clock's start |
| `Timers.NeverEnds` | CORS/src/proxy/eventqueue.cpp:48-63 | with an interval of zero or less that does not, and a still clock, a timer of that kind is still pending and due after any number of turns |
| `Timers.SpawnedOfKind` | CORS/src/proxy/advancerldvr.h:126-141 | firings spawn as many timers of each kind as they fire |
| `Timers.RunKeepsTimers` | CORS/src/proxy/eventqueue.cpp:48-63 | a run keeps the number of pending timers of each kind |
| `Timers.RunKeepsSoon` | CORS/src/proxy/simplenbmtr.h:60-86 | after a run every timer is due within its own interval |
| `Timers.Start` | CORS/src/proxy/simplenbmtr.cpp:135-141 | start offers one timer of each kind, due its own interval after a reading, of which those before the clock's start are refused; with positive intervals exactly one of each is armed |
| `Timers.ThreeTimers` | CORS/src/proxy/simplenbmtr.cpp:135-141 | what is armed is three timers, one of each kind, each due within its own interval |
| `Timers.Serve` | CORS/src/proxy/corsproxy.cpp:56-88 | over any number of rounds three timers are pending between runs, one of each kind and due within its own interval; none is ever refused, and none that was due is left behind |
| `Jitter.ShowsUnique` | CORS/src/test/jitter2.cpp:61-252 | list, bench and deadline stand for exactly one set of frames |
| `Jitter.ShowsInsert` | CORS/src/test/jitter2.cpp:96-108 | a direct frame enters the set, replacing a relayed copy |
| `Jitter.ShowsMove` | CORS/src/test/jitter2.cpp:119-130 | moving a frame from bench to list changes nothing |
| `Jitter.LeastFront` | CORS/src/test/jitter2.cpp:190-201 | the list's front is the least live frame when the bench has nothing in between |
| `Jitter.LeastBench` | CORS/src/test/jitter2.cpp:165-187 | otherwise the first bench frame from the deadline on is |
| `Jitter.ShowsTakeFront` | CORS/src/test/jitter2.cpp:157-159 | taking the front removes exactly the least frame |
| `Jitter.ShowsTakeBench` | CORS/src/test/jitter2.cpp:202-206 | taking a bench frame removes exactly the least frame |
| `Jitter.AccountedTake` | CORS/src/test/jitter2.cpp:154-213 | within one numbering delivery stays strictly increasing and below the deadline; every number taken in is delivered, live or lost, in only one of these ways |
| `Jitter.RestartsTake` | CORS/src/test/jitter2.cpp:154-213 | over the whole run a delivered number is followed by a larger one, unless it is the last number there is |
| `Jitter.KeptDeliver` | CORS/src/test/jitter2.cpp:154-213 | delivering keeps the books across every wrap of the numbers: the last number opens a new account with what is live then |
| `Jitter.TicksToMillis` | CORS/src/test/jitter2.cpp:254-262 | a thousand ticks make a unit, rounded up, and multiples of 3000 lose two |
| `Jitter.TicksDecide` | CORS/src/test/jitter2.cpp:156 | three units more than the length are always enough for a frame to be due, three less never are |
| `Jitter.PlayableIff` | CORS/src/test/jitter2.cpp:156 | the wrapped sum is within the newest time if and only if the plain sum is and is not negative |
| `Jitter.JitterBuffer.WaitsIff` | CORS/src/test/jitter2.cpp:156-169 | in a timed read the least live frame waits unless its converted time plus the length is within that of the newest |
| `Jitter.SelfPlayableIff` | CORS/src/test/jitter2.cpp:155 | a frame is due against itself if and only if the minimum length is not positive and not below minus its own time |
| `Jitter.SomeSelfPlayableIff` | CORS/src/test/jitter2.cpp:254-262 | some frame is due against itself if and only if the minimum length lies between -4294968 and 0 |
| `Jitter.JitterBuffer.InsertSorted` | CORS/src/test/jitter2.cpp:96-108 | the walk from the back puts a frame where it belongs, unless its number is there |
| `Jitter.JitterBuffer.Write` | CORS/src/test/jitter2.cpp:61-109 | which frames are accepted on either path and how the set of live frames changes; the first direct frame sets the deadline |
| `Jitter.JitterBuffer.MergeBench` | CORS/src/test/jitter2.cpp:116-132 | emptying the bench into the list changes nothing |
| `Jitter.JitterBuffer.LookAhead` | CORS/src/test/jitter2.cpp:215-250 | `finished` says whether the next frame must wait, which in a timed read is whether its converted time plus the length is not within the newest one; preparing the next read changes nothing |
| `Jitter.JitterBuffer.Read` | CORS/src/test/jitter2.cpp:111-252 | a read returns the least live frame and removes exactly it; a timed read of a non-empty list does so if and only if that frame's converted time plus the length is within that of the last frame, and `finished` says the same of the next one; with a positive minimum length numbers wrap only in a flush, which leaves nothing live |
| `Jitter.PlayOut` | CORS/src/test/jitter2.cpp:61-213 | once a direct frame that is newer by at least the length stands last, the next timed read returns the least live frame |
| `Jitter.Revive` | CORS/src/test/jitter2.cpp:147-213 | for every minimum length from -4294968 to 0 there is a timed read that delivers 65535 and brings a given-up frame back |
| `Jitter.JitterBuffer.Drain` | CORS/src/test/streamdump.cpp:245-273 | flushing ends with list and bench empty and returns every live frame once, in increasing order |
| `Advisor.RelaysMatch` | CORS/src/proxy/advancerldvr.cpp:111-125 | advised relays are matching neighbours, and all of them when the list stays below its limit |
| `Advisor.RelaysPlaces` | CORS/src/proxy/advancerldvr.cpp:111-125 | advised relays are the last matching neighbours, the last one first |
| `Advisor.CacheAfterFilter` | CORS/src/proxy/advancerldvr.cpp:109-263 | what the cache offers for knowledge is what the filter offered when it arrived, cut to the demand, as the packets carry them |
| `Advisor.CachedDemandIff` | CORS/src/proxy/advancerldvr.cpp:109-174 | an inquiry answered from the cache and sent on asks for what the client still lacks if and only if at most 20 neighbours match |
| `Advisor.Shortchanged` | CORS/src/proxy/advancerldvr.cpp:153 | with 21 matching neighbours and a demand of 24 the client gets 20 and the next proxy is asked for 3 |
| `Advisor.SettledDemand` | CORS/src/proxy/advancerldvr.cpp:274-322 | an answer to a waiting task sends on exactly what is missing |
| `Advisor.InquiryKeepsOrder` | CORS/src/proxy/advancerldvr.cpp:105-180 | handling an inquiry keeps the task queue sorted and free of tasks the cache could answer |
| `Advisor.FilterKeepsOrder` | CORS/src/proxy/advancerldvr.cpp:271-328 | so does new knowledge, whose tasks all leave |
| `Advisor.UpdateClears` | CORS/src/proxy/advancerldvr.cpp:332-396 | after an update exactly the tasks from before the second in which it stopped are gone, and no knowledge older than 120 seconds remains |
| `Advisor.AdvanceRldvr.ProcessInquiry` | CORS/src/proxy/advancerldvr.cpp:77-195 | an inquiry for nothing, or to a proxy without neighbours, is dropped; any other either gets its advice at once, and is sent on to the last neighbour exactly when relays are missing and it may live on, or joins the queue with exactly one question to the database, the inquiry as it came in |
| `Advisor.AdvanceRldvr.NoneUnasked` | CORS/src/proxy/advancerldvr.cpp:176-187 | at all times, for every task that waits, the database was asked with the inquiry as it was received, before its time to live was lowered |
| `Advisor.AskOnce` | CORS/src/proxy/advancerldvr.cpp:176-187 | queueing a task with its question keeps questions and tasks ever queued in step, one to one and in order |
| `Advisor.AdvanceRldvr.ProcessFilter` | CORS/src/proxy/advancerldvr.cpp:215-330 | knowledge that matches a neighbour enters the cache; every task it concerns leaves with one advice to its client, and is sent on exactly when it lacks relays and may live on; other tasks stay and nothing else is sent; other knowledge changes nothing |
| `Advisor.AnswersSettle` | CORS/src/proxy/advancerldvr.cpp:274-328 | every task about the key gets all that serves it, nothing else is sent, and there is one advice for each task that leaves |
| `Advisor.AdvanceRldvr.AnswerTasks` | CORS/src/proxy/advancerldvr.cpp:274-328 | erasing while walking answers each matching task once and leaves the others in order |
| `Advisor.AdvanceRldvr.GuessRelays` | CORS/src/proxy/advancerldvr.cpp:343-360 | a random advice has at most 20 neighbours, and all of the last 20 when half of the neighbours or more are asked for |
| `Advisor.GuessesServe` | CORS/src/proxy/advancerldvr.cpp:337-380 | random advice goes to tasks that leave, each at most once, with neighbours only; a task that asked for half of the neighbours gets the last 20 of them |
| `Advisor.AdvanceRldvr.Update` | CORS/src/proxy/advancerldvr.cpp:332-396 | exactly the tasks stamped before the second in which it stops leave, each with at most one advice, and with one for sure if it asked for half of the neighbours; knowledge leaves only when older than 120 seconds |
| `Network.AnswerShape` | CORS/src/proxy/advancerldvr.cpp:126-174 | an answer is one advice and at most one inquiry, whose demand is lower by the number of relays chosen |
| `Network.InquiryOutput` | CORS/src/proxy/advancerldvr.cpp:99-192 | handling an inquiry uses up one of its hops |
| `Network.AnswersOutput` | CORS/src/proxy/advancerldvr.cpp:274-328 | answering tasks creates no hops and pays for each advice |
| `Network.UpdateOutput` | CORS/src/proxy/advancerldvr.cpp:332-383 | random advices are paid for by the tasks that leave, and nothing is forwarded |
| `Network.StepBudget` | CORS/src/proxy/advancerldvr.cpp:77-396 | no step of the network raises a request's budget of hops and advices |
| `Network.StepLetters` | CORS/src/proxy/advancerldvr.cpp:99-192 | every step keeps times to live in flight between 1 and 4 and the demand of forwarded inquiries above zero |
| `Network.RunSafe` | CORS/src/proxy/advancerldvr.cpp:77-396 | in every state of every run one client request has been handled by at most four proxies and has yielded at most four advices, times to live in flight are 1 to 4, so no decrement wraps, and forwarded inquiries ask for at least one relay |
| `Network.FourReached` | CORS/src/proxy/advancerldvr.cpp:77-396 | no smaller bounds hold: for every request there is a run in which four proxies handle it and four advices are sent |
| `Neighbors.LinkedSize` | CORS/src/proxy/simplenbmtr.cpp:198-199 | map and list have the same size |
| `Neighbors.RoundRobin` | CORS/src/proxy/simplenbmtr.cpp:182-240 | with no arrivals the first n-1 probes go to the first n-1 of n neighbours in turn, whatever is evicted |
| `Neighbors.SeqAgrees` | CORS/src/proxy/simplenbmtr.cpp:219-223 | the responder's number is the one the prober expects if and only if the ping did not carry 249 |
| `Neighbors.OfferedFacts` | CORS/src/proxy/simplenbmtr.cpp:292-313 | a pong offers the smaller of the number asked for and the number of other neighbours, all distinct and none the peer |
| `Neighbors.OfferedPlaces` | CORS/src/proxy/simplenbmtr.cpp:292-313 | the offer is the neighbours at the last places that are not the peer's, the last one first |
| `Neighbors.PlaceLeftOut` | CORS/src/proxy/simplenbmtr.cpp:292-313 | a place that is wanted and left out lies in front of all that are taken, and then the limit is reached |
| `Neighbors.LearnedIsLongest` | CORS/src/proxy/simplenbmtr.cpp:381-401 | the receiver learns exactly the longest prefix of records with unknown and pairwise distinct addresses |
| `Neighbors.ExchangeAll` | CORS/src/proxy/simplenbmtr.cpp:292-401 | a receiver that knows none of the offered neighbours learns all of them |
| `Neighbors.LearnedTaught` | CORS/src/proxy/simplenbmtr.cpp:292-401 | what is learned is the front of what is offered with every field right, and the AS number right if and only if its two bytes are equal |
| `Neighbors.PingReadsBack` | CORS/src/proxy/simplenbmtr.cpp:185-229 | the 15 bytes of a ping: type 0, stamp, count, number and address at their places |
| `Neighbors.RecordsReadBack` | CORS/src/proxy/simplenbmtr.cpp:381-401 | the records of a pong are read from whatever buffer it was received into |
| `Neighbors.RecordAt` | CORS/src/proxy/simplenbmtr.cpp:298-308 | each record is read back from its place in the message with every field intact |
| `Neighbors.PongReadsBack` | CORS/src/proxy/simplenbmtr.cpp:263-316 | a pong has type 1, the ping's stamp, its next number and the true record count, and its records from byte 21 on |
| `Neighbors.PongFieldsReadBack` | CORS/src/proxy/simplenbmtr.cpp:275-290 | probed address, mask and AS number are read back as the responder has them |
| `Neighbors.PongEchoes` | CORS/src/proxy/simplenbmtr.cpp:263-316 | a pong repeats the ping byte by byte, but for type, count and number |
| `Neighbors.LocatedIsFirst` | CORS/src/proxy/simplenbmtr.cpp:278-290 | the mask and AS number reported are those of the first interface with the probed address, or a full mask and 0 when there is none |
| `Neighbors.IntraOctets` | CORS/src/utils/utilfunc.cpp:45-68 | private addresses are 10/8, 172.16/12, 192.168/16 and 169.254/16 |
| `Neighbors.UsableIff` | CORS/src/proxy/simplenbmtr.cpp:69-72 | which lines are used, with the address in dotted notation |
| `Neighbors.ChosenIff` | CORS/src/proxy/simplenbmtr.cpp:64-83 | exactly the usable lines become neighbours |
| `Neighbors.IndexedLinkedIff` | CORS/src/proxy/simplenbmtr.cpp:74-75 | filling map and list side by side links the two if and only if no address comes twice |
| `Neighbors.SimpleNbmtr.constructor` | CORS/src/proxy/simplenbmtr.cpp:64-83 | the list holds the usable lines of the configuration in order; the table is in order if and only if there is one and no address comes twice |
| `Neighbors.SimpleNbmtr.Probe` | CORS/src/proxy/simplenbmtr.cpp:182-251 | which pings leave, to whom, with which number and count, who moves to the back and exactly when the old back is evicted; oracles stay, the list is never empty, numbers stay below 250 |
| `Neighbors.SimpleNbmtr.ProcessPing` | CORS/src/proxy/simplenbmtr.cpp:253-331 | an unknown peer joins in front; the pong repeats the ping byte by byte over what the buffer held, with the next number, carries mask and AS number of the first interface with the probed address, or a full mask and 0, and holds exactly the offered records |
| `Neighbors.SimpleNbmtr.OfferRecords` | CORS/src/proxy/simplenbmtr.cpp:292-313 | the bytes written are the records of the offered neighbours |
| `Neighbors.SimpleNbmtr.ProcessPong` | CORS/src/proxy/simplenbmtr.cpp:333-401 | exactly which pongs are accepted, and what changes then, with the records read from the whole receive buffer |
| `Neighbors.SimpleNbmtr.Learn` | CORS/src/proxy/simplenbmtr.cpp:381-401 | the loop with its stuck pointer prepends exactly the learned records, as new objects |
| `Neighbors.Exchange` | CORS/src/proxy/simplenbmtr.cpp:182-401 | a probe and its answer between two proxies: accepted if and only if the ping did not carry 249; then the prober has the responder's true mask and AS number and has learned its neighbours, all of them if it knew none, with AS numbers right if and only if their bytes are equal |
| `Neighbors.MislearnAsn` | CORS/src/proxy/simplenbmtr.cpp:303 | a responder's neighbour of AS number 1 is learned as 256 |
| `Selection.InsertAt` | CORS/src/client/simplerlysltr.cpp:651-665 | inserting where the scan stops is sorted insertion |
| `Selection.TakeInsert` | CORS/src/client/simplerlysltr.cpp:651-671 | cutting the list before an insertion loses nothing that cutting afterwards would keep |
| `Selection.KeptAreBest` | CORS/src/client/simplerlysltr.cpp:651-671 | nothing that was cut is faster than anything kept |
| `Selection.Joined` | CORS/src/client/simplerlysltr.cpp:651-671 | the list stays sorted, distinct and within its limit, and at most its last entry falls off |
| `Selection.Outlives` | CORS/src/client/simplerlysltr.cpp:666-671 | a cursor outlives a reply if and only if it does not stand on what falls off the end |
| `Selection.SimpleRlysltr.IncreaseIter` | CORS/src/client/simplerlysltr.cpp:92-108 | both cursors move one step around their circles and stay alive |
| `Selection.SimpleRlysltr.ProcessAdvice` | CORS/src/client/simplerlysltr.cpp:370-380 | advice goes in front of the candidates, which are never empty and never more than 20; the cursor is alive |
| `Selection.SimpleRlysltr.DropRelay` | CORS/src/client/simplerlysltr.cpp:594-607 | the first relay of the address leaves; a cursor on it moves on, and one at the end, or moved there, goes to the first relay left |
| `Selection.SimpleRlysltr.ProcessBwReply` | CORS/src/client/simplerlysltr.cpp:643-672 | the reply joins in front of the first relay that is not faster and the list is cut to its limit; while no relay is dropped it is the best of all replies; the cursor stays unless its relay fell off, and then goes to the first |
| `Ledger.RunSound` | CORS/src/proxy/simplefwd.cpp:119-251 | through every mix of operations the total is, in its width, the live grants plus the leaked ones, and the table keeps its limit |
| `Ledger.Granted` | CORS/src/proxy/simplefwd.cpp:201-203 | a grant never exceeds the request, and charging it keeps the total within the maximum |
| `Ledger.ReserveGrants` | CORS/src/proxy/simplefwd.cpp:199-226 | a request of sixteen bits is granted in full, and the session holds the grant if it had an entry or the table has room |
| `Ledger.WideGrantIsMost` | CORS/src/proxy/simplefwd.cpp:201-203 | with 32 bits a grant is the smaller of the request and what is left |
| `Ledger.WideNeverOversubscribes` | CORS/src/proxy/simplefwd.cpp:172-251 | with 32-bit accumulators the total is everything promised, in the table or answered to refused sessions, and within the bandwidth |
| `Ledger.NeverOversubscribesIff` | CORS/src/proxy/simplefwd.h:104-105 | with the declared 16 bits the grants of the sessions in the table are within the bandwidth, in every run, if and only if the table holds at most 32 sessions |
| `Ledger.PromisesWithinIff` | CORS/src/proxy/simplefwd.cpp:199-226 | whatever the table size, grants in the table and grants answered to refused sessions together are within the bandwidth in every run of at most n reservations if and only if n is at most 32 |
| `Ledger.LeakStep` | CORS/src/proxy/simplefwd.cpp:199-217 | a step leaks if and only if it reserves for a new session, the table is full and something is granted |
| `Ledger.LeakFreeIff` | CORS/src/proxy/simplefwd.cpp:199-217 | a run has leaked nothing if and only if none of its operations did that |
| `Ledger.EvenIff` | CORS/src/proxy/simplefwd.cpp:199-217 | the total is that of the live grants if and only if what leaked is zero in the total's width |
| `Ledger.LeakRemains` | CORS/src/proxy/simplefwd.cpp:199-217 | with no session left the total is what was charged to sessions the full table refused |
| `Ledger.OverfillLeaks` | CORS/src/proxy/simplefwd.cpp:199-217 | for every table size some run ends with no session and a total of 1 |
| `Forwarder.BandwidthSeenIff` | CORS/src/proxy/simplefwd.cpp:158-159 | the bandwidth a client reads is the low half shifted up: right if and only if it is zero |
| `Forwarder.KeyRead` | CORS/src/proxy/simplefwd.cpp:182-184 | the bytes that name a session are the probe's source port and address and then its destination port and address |
| `Forwarder.EditedIsProbe` | CORS/src/proxy/simplefwd.cpp:154-161 | editing the bytes changes type, time to live, bandwidth and load of the packet and nothing else |
| `Forwarder.SimpleFwd.ProcessProbe` | CORS/src/proxy/simplefwd.cpp:153-166 | the probe goes to its destination with the rest of the bandwidth and the number of sessions in it |
| `Forwarder.SimpleFwd.ProcessReserve` | CORS/src/proxy/simplefwd.cpp:172-229 | the session from the probe's source to its destination enters the table if it is there already or there is room, nothing else in the table changes, sixteen-bit requests are granted in full, and the packet goes on with the grant |
| `Forwarder.SimpleFwd.ProcessRelease` | CORS/src/proxy/simplefwd.cpp:232-251 | a release takes the session from the probe's source to its destination, and its grant, out of the ledger and nothing else |
| `Forwarder.SimpleFwd.UpdateHmap` | CORS/src/proxy/simplefwd.cpp:119-146 | erasing while walking removes exactly the sessions silent for longer than the timeout, and their grants |
| `Forwarder.SimpleFwd.ProcessData` | CORS/src/proxy/simplefwd.cpp:257-292 | data of a known session goes on with the true source in it, other data goes nowhere |
| `Forwarder.ReserveThenData` | CORS/src/proxy/simplefwd.cpp:172-292 | after a reservation, data from the probe's source for the probe's destination goes there with the true source in it exactly when the table takes the session, and else nowhere |
| `Forwarder.ReleaseThenData` | CORS/src/proxy/simplefwd.cpp:232-292 | after a release it goes nowhere |
| `Wire.InquiryRoundTrip` | CORS/src/common/corsprotocol.cpp:64-133 | an inquiry is read back as it was written, whatever the buffer holds behind it |
| `Wire.AdviceRoundTrip` | CORS/src/common/corsprotocol.cpp:194-275 | an advice is read back with the first 20 of its relays |
| `Wire.ReportRoundTrip` | CORS/src/common/corsprotocol.cpp:342-422 | a report is read back with the first 20 of its entries |
| `Wire.ProbeRoundTrip` | CORS/src/common/corsprotocol.cpp:488-577 | a probe of any of the seven kinds is read back as it was written |
| `Wire.ProbeFields` | CORS/src/common/corsprotocol.h:320-356 | every field of a probe stands at the offset that in-place edits use |
| `Wire.EndPointPlaces` | CORS/src/common/corsprotocol.h:80-90 | the twelve bytes of an end point: AS number, port, address and mask, least significant bytes first |
| `Wire.NetPlaces` | CORS/src/common/corsprotocol.cpp:516-521 | bandwidth and load are written with the most significant byte first |
| `Wire.InquiryFields` | CORS/src/common/corsprotocol.cpp:64-92 | every field of an inquiry stands at its offset |
| `Wire.AdviceFields` | CORS/src/common/corsprotocol.cpp:194-227 | every field and every relay of an advice stands at its offset |
| `Wire.ReportFields` | CORS/src/common/corsprotocol.cpp:342-375 | every field and every entry of a report stands at its offset |
| `Wire.SerializeInquiry` | CORS/src/common/corsprotocol.cpp:64-92 | the buffer filled through the moving offset is the inquiry's layout |
| `Wire.SerializeAdvice` | CORS/src/common/corsprotocol.cpp:194-227 | the buffer filled is the layout of an advice, list and all |
| `Wire.DeserializeInquiry` | CORS/src/common/corsprotocol.cpp:100-133 | reading through the moving offset refuses exactly the packets that end before a field begins, and else yields the fields |
| `Wire.DeserializeAdvice` | CORS/src/common/corsprotocol.cpp:234-275 | reading an advice refuses exactly those that end before a field or a listed relay begins, and else yields the fields |
| `Wire.SerializeReport` | CORS/src/common/corsprotocol.cpp:342-375 | the buffer filled is the report's layout with its first 20 entries |
| `Wire.DeserializeReport` | CORS/src/common/corsprotocol.cpp:382-422 | reading a report refuses exactly those that end before a field or a listed entry begins, and else yields the fields |
| `Wire.SerializeProbe` | CORS/src/common/corsprotocol.cpp:488-523 | the buffer filled is the layout of a probe |
| `Wire.DeserializeProbe` | CORS/src/common/corsprotocol.cpp:530-577 | reading a probe refuses exactly those that end before a field begins, and else yields the fields with bandwidth and load turned into host order |
| `Cuts.InquiryWritten` | CORS/src/common/corsprotocol.cpp:64-133 | writing an inquiry that was read gives its bytes back |
| `Cuts.AdviceWritten` | CORS/src/common/corsprotocol.cpp:194-275 | writing an advice of at most 20 relays that was read gives its bytes back |
| `Cuts.ReportWritten` | CORS/src/common/corsprotocol.cpp:342-422 | writing a report of at most 20 entries that was read gives its bytes back |
| `Cuts.ProbeWritten` | CORS/src/common/corsprotocol.cpp:488-577 | writing a probe that was read gives its bytes back |
| `Cuts.InquiryCutIff` | CORS/src/common/corsprotocol.cpp:100-133 | an inquiry that arrived in part is refused if and only if no more than 27 bytes did, and read as written if and only if more did and the buffer holds the rest |
| `Cuts.AdviceCutIff` | CORS/src/common/corsprotocol.cpp:234-275 | the same for an advice, with the beginning of its last relay as the limit |
| `Cuts.ReportCutIff` | CORS/src/common/corsprotocol.cpp:382-422 | the same for a report, with the beginning of its last entry as the limit |
| `Cuts.ProbeCutIff` | CORS/src/common/corsprotocol.cpp:530-577 | the same for a probe, with 50 bytes as the limit |
| `Cuts.InquiryMisread` | CORS/src/common/corsprotocol.cpp:123-126 | every inquiry cut within its last field is read as another one from some buffer |
| `Cuts.AdviceMisread` | CORS/src/common/corsprotocol.cpp:260-267 | so is every advice |
| `Cuts.ReportMisread` | CORS/src/common/corsprotocol.cpp:407-414 | so is every report |
| `Cuts.ProbeMisread` | CORS/src/common/corsprotocol.cpp:566-570 | so is every probe |
| `DataPath.RelayEdit` | CORS/src/proxy/simplefwd.cpp:276 | a relay's edit turns a packet for the destination into a packet from the source |
| `DataPath.ParseDirect` | CORS/src/client/simplempathmanager.cpp:167-181 | a direct packet is parsed to its payload, the peer and flag 0 |
| `DataPath.ParseIndirect` | CORS/src/client/simplempathmanager.cpp:182-203 | a relayed packet is parsed to its payload, the source in its header and flag 1 |
| `DataPath.SendMesh` | CORS/src/client/simplempathmanager.cpp:63-110 | one direct copy and one copy for each relay leave, all with the payload intact although they share a buffer, with type 14, version 3 and the direct bit on the first copy only |
| `DataPath.Through` | CORS/src/proxy/simplefwd.cpp:257-292 | a copy reaches the destination exactly when its relay holds the session |
| `DataPath.Mesh` | CORS/src/client/simplempathmanager.cpp:63-204 | over any number of relays the destination gets the payload and the true source from every path that carries it |
| `DataPath.ReserveAll` | CORS/src/proxy/simplefwd.cpp:172-229 | after one reservation at each relay a relay holds the session if it did before or had room |
| `DataPath.ReservedMesh` | CORS/src/client/simplempathmanager.cpp:63-204 | reservations and then a transmission: the destination gets the payload and the true source over every relay that held the session or had room for it |
| `Framing.GroupsAreMaximal` | player/myplayer.c:108-121 | the runs of equal timestamps are maximal and together are the input |
| `Framing.StreamsConcat` | player/myplayer.c:128-149 | all frames one after the other are the framing of the whole input |
| `AnnexB.CodesInPlace` | player/myplayer.c:132-138 | every unit of a stream has its start code, and behind it its payload, at its place |
| `AnnexB.UnframeStream` | player/myplayer.c:128-149 | scanning a stream for start codes gives the payloads back in order, when no payload has 0, 0, 1 in it |
| `Framing.BlockQueue.Begin` | player/myplayer.c:95-106 | the first block of a run sets the size |
| `Framing.BlockQueue.Append` | player/myplayer.c:109-121 | a block of the same timestamp is linked in and its framed size added |
| `Framing.BlockQueue.Flush` | player/myplayer.c:123-150 | the queue leaves as one frame: in front of each payload stand zeros and a final 1, three zeros with the mark and two without, and a decoder gets the payloads back in order when none has 0, 0, 1 in it; copying ends exactly at the frame's end, and the size left behind is wrong |
| `Framing.BlockQueue.Join` | player/myplayer.c:89-164 | a frame leaves exactly when a run ends; the size stays right if and only if a block came or the empty queue had it right |
| `Framing.Play` | player/myplayer.c:89-164 | the frames of a transmission are its maximal runs, and a decoder of all of them gets back the payloads of all blocks in order when none has 0, 0, 1 in it; the queue ends with a right size only if there was no block |
| `GoodRelays.SortedOut` | CORS/src/client/statmpathmanager.cpp:275-292 | sorting out keeps good relays distinct, listed and apart from the bad ones |
| `GoodRelays.Sorts` | CORS/src/client/statmpathmanager.cpp:275-292 | a relay in use stays if and only if it is listed with little enough loss, and turns bad if and only if it is listed with too much |
| `GoodRelays.JoinedFacts` | CORS/src/client/statmpathmanager.cpp:299-322 | adding relays keeps that and leaves no listed relay out |
| `GoodRelays.StatMpathManager.SortOut` | CORS/src/client/statmpathmanager.cpp:275-292 | erasing while walking keeps, turns bad or drops each relay as it should, and the sum is the bandwidth of the rest |
| `GoodRelays.StatMpathManager.AddRelays` | CORS/src/client/statmpathmanager.cpp:299-322 | relays join in list order and no more than the requirement needs |
| `GoodRelays.StatMpathManager.GetRequirement` | CORS/src/client/statmpathmanager.cpp:263-325 | true if and only if bandwidth and count are met; false means every listed relay is good or bad; exactly the relays in use that are listed with too much loss turn bad, those with little enough stay, and all others chosen come from the list; a bad relay is not chosen again and stays bad |

## Left out

- Sockets, select, threads, locks and logging: a locked section is one step, sending appends to an outbox.
- Clocks and random numbers: `time` is a nondecreasing input, a random height or draw is any value.
- `EventQueues.EventQueue.Run`: asks that callbacks add nothing due at the clock's last reading; without that a run need not end, and `RunSome` says what any number of its turns do.
- `Jitter.JitterBuffer.Write`: the count of received frames is unbounded, the original's `int` is not modelled.
- `Neighbors.SimpleNbmtr.ProcessPing`: of the message buffer only the front, which keeps old bytes, is a field; a reply is a value of any size, where the original's buffer has 2048 bytes.
- `Neighbors.SimpleNbmtr.ProcessPong`: the records a pong claims lie in the receive buffer, behind which the original would read on; the measured round-trip time is not kept, nothing reads it but `save`.
- `Wire.DeserializeInquiry`, `Wire.DeserializeAdvice`, `Wire.DeserializeReport` and `Wire.DeserializeProbe`: a field that begins within the packet lies in the buffer; of a packet cut in a field the rest comes from the buffer behind it.
- `Forwarder.SimpleFwd.ProcessReserve`: control packets are well formed; the log and the packet counters are not kept.
- `GoodRelays.StatMpathManager.GetRequirement`: the bandwidth sum is unbounded, the original's `int` is not modelled; loss rates are inputs.
- `Selection.SimpleRlysltr.ProcessBwReply`: the number of relays asked for is fixed.
- The reservation a client sends after a good probe, and the probe loop's packets.
- `timeval` is taken as eight bytes, as the offsets noted beside the packet layouts say; probes carry it as two words, pings as raw bytes.
- Round-robin sending on relays, which does not copy the payload (simplempathmanager.cpp:124-136).
- `save`, the text of configuration files (lines come parsed), interface discovery, AS lookup, the database behind the advisors, report forwarding.
- The other advisors, the single-path jitter buffer, and the header parsing of `ParseRTP`.
