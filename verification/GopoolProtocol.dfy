/** The goroutine pool as an interleaved step system (pkg/gopool/pool.go, worker.go).

    Every CtxGo call and every worker goroutine has its own program counter; one
    step is one access to shared memory. The task list is only touched under
    taskLock; taskCount and workerCount are separate atomics that anybody may
    read or write between two steps of anybody else. */
module GopoolProtocol {
  import opened MapSums

  /** Who holds taskLock. */
  datatype Holder = Nobody | Caller(call: nat) | Worker(worker: nat)

  /** Where a CtxGo call is. Its task is identified with the call. */
  datatype CallerPc =
    | WantLock   // before taskLock.Lock()
    | Locked     // holds the lock, task not yet in the list
    | Linked     // holds the lock, task in the list
    | Unlocked   // before AddInt32(&taskCount, 1)
    | Counted    // before the test of taskCount against ScaleThreshold
    | TestCap    // before the first WorkerCount read
    | CompareCap(seen: int)  // that many workers read, before the read of cap
    | TestZero   // before the second WorkerCount read, compared with 0
    | Spawn      // decided to spawn, before incWorkerCount
    | Start      // worker counted, its goroutine not yet started

  /** Where a worker goroutine is. */
  datatype WorkerPc =
    | Top              // before taskLock.Lock()
    | Holding          // holds the lock, taskHead not yet read
    | Popped(t: nat)   // holds the lock, t unlinked, taskCount not yet decremented
    | Took(t: nat)     // holds the lock, taskCount decremented
    | Empty            // holds the lock, saw an empty list
    | Closed           // holds the lock, workerCount decremented
    | Run(t: nat)      // lock released, before t.f()
    | Recycle(t: nat)  // t.f() returned or panicked and was recovered

  datatype State = State(
    cap: int, threshold: int,
    queue: seq<nat>, lock: Holder, taskCount: int, workerCount: int,
    callers: map<nat, CallerPc>, workers: map<nat, WorkerPc>,
    calls: set<nat>,       // history: every CtxGo call ever made
    enqueued: seq<nat>,    // history: tasks in the order they entered the list
    dequeued: seq<nat>,    // history: tasks in the order they left the list
    ran: seq<nat>)         // history: tasks whose function was called

  datatype Step =
    | Call(c: nat)                 // a new CtxGo call
    | SetCap(cap: int)
    | CallerStep(c: nat, w: nat)   // w names the goroutine if this step starts one
    | WorkerStep(w: nat)

  ghost predicate Initial(s: State) {
    && s.queue == s.enqueued == s.dequeued == s.ran == [] && s.lock == Nobody
    && s.taskCount == s.workerCount == 0
    && s.callers == map[] && s.workers == map[] && s.calls == {}
  }

  predicate CallerHolds(pc: CallerPc) { pc.Locked? || pc.Linked? }

  predicate WorkerHolds(pc: WorkerPc) { pc.Holding? || pc.Popped? || pc.Took? || pc.Empty? || pc.Closed? }

  predicate Enabled(s: State, a: Step) {
    match a
    case Call(c) => c !in s.calls
    case SetCap(_) => true
    case CallerStep(c, w) =>
      c in s.callers && (s.callers[c].WantLock? ==> s.lock.Nobody?) && (s.callers[c].Start? ==> w !in s.workers)
    case WorkerStep(w) => w in s.workers && (s.workers[w].Top? ==> s.lock.Nobody?)
  }

  function Do(s: State, a: Step): State
    requires Enabled(s, a)
  {
    match a
    case Call(c) => s.(calls := s.calls + {c}, callers := s.callers[c := WantLock])
    case SetCap(cap) => s.(cap := cap)
    case CallerStep(c, w) => DoCaller(s, c, w)
    case WorkerStep(w) => DoWorker(s, w)
  }

  /** One step of CtxGo (pool.go lines 115-139). */
  function DoCaller(s: State, c: nat, w: nat): State
    requires Enabled(s, CallerStep(c, w))
  {
    match s.callers[c]
    case WantLock => s.(lock := Caller(c), callers := s.callers[c := Locked])
    case Locked => s.(queue := s.queue + [c], enqueued := s.enqueued + [c], callers := s.callers[c := Linked])
    case Linked => s.(lock := Nobody, callers := s.callers[c := Unlocked])
    case Unlocked => s.(taskCount := s.taskCount + 1, callers := s.callers[c := Counted])
    case Counted => s.(callers := s.callers[c := if s.taskCount >= s.threshold then TestCap else TestZero])
    case TestCap => s.(callers := s.callers[c := CompareCap(s.workerCount)])
    case CompareCap(seen) => s.(callers := s.callers[c := if seen < s.cap then Spawn else TestZero])
    case TestZero => if s.workerCount == 0 then s.(callers := s.callers[c := Spawn]) else s.(callers := s.callers - {c})
    case Spawn => s.(workerCount := s.workerCount + 1, callers := s.callers[c := Start])
    case Start => s.(callers := s.callers - {c}, workers := s.workers[w := Top])
  }

  /** One step of worker.run (worker.go lines 39-77). */
  function DoWorker(s: State, w: nat): State
    requires Enabled(s, WorkerStep(w))
  {
    match s.workers[w]
    case Top => s.(lock := Worker(w), workers := s.workers[w := Holding])
    case Holding =>
      if s.queue == [] then s.(workers := s.workers[w := Empty]) else
        s.(queue := s.queue[1..], dequeued := s.dequeued + [s.queue[0]], workers := s.workers[w := Popped(s.queue[0])])
    case Popped(t) => s.(taskCount := s.taskCount - 1, workers := s.workers[w := Took(t)])
    case Took(t) => s.(lock := Nobody, workers := s.workers[w := Run(t)])
    case Empty => s.(workerCount := s.workerCount - 1, workers := s.workers[w := Closed])
    case Closed => s.(lock := Nobody, workers := s.workers - {w})
    case Run(t) => s.(ran := s.ran + [t], workers := s.workers[w := Recycle(t)])
    case Recycle(_) => s.(workers := s.workers[w := Top])
  }

  // ---------------------------------------------------------------- weights

  function Uncounted(pc: CallerPc): nat { if pc.Linked? || pc.Unlocked? then 1 else 0 }
  function Starting(pc: CallerPc): nat { if pc.Start? then 1 else 0 }

  /** The call has decided to spawn, or may do so at the read of a cap of at most this. */
  predicate MaySpawn(pc: CallerPc, cap: int) { pc.Spawn? || (pc.CompareCap? && pc.seen < cap) }

  function Decided(cap: int): CallerPc -> nat { pc => if MaySpawn(pc, cap) then 1 else 0 }

  function Undecremented(pc: WorkerPc): nat { if pc.Popped? then 1 else 0 }
  function Live(pc: WorkerPc): nat { if pc.Closed? then 0 else 1 }

  /** The worker will look at the list again before it exits. */
  predicate WillLook(pc: WorkerPc) { !pc.Empty? && !pc.Closed? }

  /** The call has linked its task and has not yet finished deciding about a worker. */
  predicate InFlight(pc: CallerPc) { !pc.WantLock? && !pc.Locked? }

  /** The task that has left the list and whose function has not been called yet, or -1. */
  function Carried(pc: WorkerPc): int { if pc.Popped? || pc.Took? || pc.Run? then pc.t else -1 }

  // -------------------------------------------------------------- invariant

  ghost predicate LockInv(lock: Holder, callers: map<nat, CallerPc>, workers: map<nat, WorkerPc>) {
    && (forall c | c in callers :: CallerHolds(callers[c]) <==> lock == Caller(c))
    && (forall w | w in workers :: WorkerHolds(workers[w]) <==> lock == Worker(w))
    && (lock.Caller? ==> lock.call in callers)
    && (lock.Worker? ==> lock.worker in workers)
  }

  ghost predicate CountInv(s: State) {
    && s.taskCount + MapSum(s.callers, Uncounted) == |s.queue| + MapSum(s.workers, Undecremented)
    && s.workerCount == MapSum(s.workers, Live) + MapSum(s.callers, Starting)
  }

  /** Some goroutine is bound to look at the list, or to start one that will. */
  ghost predicate SomebodyWillLook(callers: map<nat, CallerPc>, workers: map<nat, WorkerPc>) {
    || (exists w :: w in workers && WillLook(workers[w]))
    || (exists c :: c in callers && InFlight(callers[c]))
  }

  ghost predicate WakeInv(s: State) {
    && (forall w | w in s.workers && !WillLook(s.workers[w]) :: s.queue == [])
    && (s.queue != [] ==> SomebodyWillLook(s.callers, s.workers))
  }

  ghost predicate Distinct(q: seq<nat>) { forall i, j | 0 <= i < j < |q| :: q[i] != q[j] }

  ghost predicate ListInv(calls: set<nat>, callers: map<nat, CallerPc>, enqueued: seq<nat>) {
    && Distinct(enqueued)
    && (forall c | c in callers :: c in calls && (InFlight(callers[c]) <==> c in enqueued))
    && (forall c | c in calls :: c in callers || c in enqueued)
    && (forall t | t in enqueued :: t in calls)
  }

  ghost predicate RunInv(dequeued: seq<nat>, ran: seq<nat>, workers: map<nat, WorkerPc>) {
    && Distinct(ran)
    && (forall t | t in ran :: t in dequeued)
    && (forall t | t in dequeued :: t in ran || exists w :: w in workers && Carried(workers[w]) == t)
    && (forall w | w in workers && Carried(workers[w]) >= 0 ::
          Carried(workers[w]) in dequeued && Carried(workers[w]) !in ran)
    && (forall v, w | v in workers && w in workers && Carried(workers[v]) == Carried(workers[w]) >= 0 :: v == w)
  }

  ghost predicate Inv(s: State) {
    && LockInv(s.lock, s.callers, s.workers)
    && CountInv(s)
    && WakeInv(s)
    && s.enqueued == s.dequeued + s.queue
    && ListInv(s.calls, s.callers, s.enqueued)
    && RunInv(s.dequeued, s.ran, s.workers)
  }

  // ------------------------------------------------------- lock and counters

  lemma LockMovedByCaller(lock: Holder, lock': Holder, callers: map<nat, CallerPc>, callers': map<nat, CallerPc>,
                          workers: map<nat, WorkerPc>, c: nat)
    requires LockInv(lock, callers, workers) && AgreeOff(callers, callers', c)
    requires (c in callers' && CallerHolds(callers'[c])) <==> lock' == Caller(c)
    requires lock' == lock || (lock.Nobody? && lock' == Caller(c)) || (lock == Caller(c) && lock'.Nobody?)
    ensures LockInv(lock', callers', workers)
  {
  }

  lemma LockMovedByWorker(lock: Holder, lock': Holder, callers: map<nat, CallerPc>,
                          workers: map<nat, WorkerPc>, workers': map<nat, WorkerPc>, w: nat)
    requires LockInv(lock, callers, workers) && AgreeOff(workers, workers', w)
    requires (w in workers' && WorkerHolds(workers'[w])) <==> lock' == Worker(w)
    requires lock' == lock || (lock.Nobody? && lock' == Worker(w)) || (lock == Worker(w) && lock'.Nobody?)
    ensures LockInv(lock', callers, workers')
  {
  }

  lemma LockPreservedByCaller(s: State, c: nat, w: nat)
    requires LockInv(s.lock, s.callers, s.workers) && Enabled(s, CallerStep(c, w))
    ensures var s' := DoCaller(s, c, w); LockInv(s'.lock, s'.callers, s'.workers)
  {
    var s' := DoCaller(s, c, w);
    LockMovedByCaller(s.lock, s'.lock, s.callers, s'.callers, s.workers, c);
    LockMovedByWorker(s'.lock, s'.lock, s'.callers, s.workers, s'.workers, w);
  }

  lemma LockPreservedByWorker(s: State, w: nat)
    requires LockInv(s.lock, s.callers, s.workers) && Enabled(s, WorkerStep(w))
    ensures var s' := DoWorker(s, w); LockInv(s'.lock, s'.callers, s'.workers)
  {
    var s' := DoWorker(s, w);
    LockMovedByWorker(s.lock, s'.lock, s.callers, s.workers, s'.workers, w);
  }

  lemma CallerSums(m: map<nat, CallerPc>, m': map<nat, CallerPc>, c: nat)
    requires AgreeOff(m, m', c)
    ensures MapSum(m', Uncounted) - (if c in m' then Uncounted(m'[c]) else 0)
         == MapSum(m, Uncounted) - (if c in m then Uncounted(m[c]) else 0)
    ensures MapSum(m', Starting) - (if c in m' then Starting(m'[c]) else 0)
         == MapSum(m, Starting) - (if c in m then Starting(m[c]) else 0)
  {
    MapSumChange(m, m', c, Uncounted);
    MapSumChange(m, m', c, Starting);
  }

  lemma DecidedSums(m: map<nat, CallerPc>, m': map<nat, CallerPc>, c: nat, cap: int)
    requires AgreeOff(m, m', c)
    ensures MapSum(m', Decided(cap)) - (if MaySpawnAt(m', c, cap) then 1 else 0)
         == MapSum(m, Decided(cap)) - (if MaySpawnAt(m, c, cap) then 1 else 0)
  {
    MapSumChange(m, m', c, Decided(cap));
  }

  lemma WorkerSums(m: map<nat, WorkerPc>, m': map<nat, WorkerPc>, w: nat)
    requires AgreeOff(m, m', w)
    ensures MapSum(m', Undecremented) - (if w in m' then Undecremented(m'[w]) else 0)
         == MapSum(m, Undecremented) - (if w in m then Undecremented(m[w]) else 0)
    ensures MapSum(m', Live) - (if w in m' then Live(m'[w]) else 0)
         == MapSum(m, Live) - (if w in m then Live(m[w]) else 0)
  {
    MapSumChange(m, m', w, Undecremented);
    MapSumChange(m, m', w, Live);
  }

  lemma StartPreservesCount(s: State, c: nat, w: nat)
    requires CountInv(s) && Enabled(s, CallerStep(c, w)) && s.callers[c].Start?
    ensures CountInv(DoCaller(s, c, w))
  {
    var s' := DoCaller(s, c, w);
    CallerSums(s.callers, s'.callers, c);
    WorkerSums(s.workers, s'.workers, w);
  }

  lemma CountPreservedByCaller(s: State, c: nat, w: nat)
    requires CountInv(s) && Enabled(s, CallerStep(c, w))
    ensures CountInv(DoCaller(s, c, w))
  {
    if s.callers[c].Start? {
      StartPreservesCount(s, c, w);
    } else {
      CallerSums(s.callers, DoCaller(s, c, w).callers, c);
    }
  }

  /** What one worker moving or leaving does to the two sums. */
  lemma WorkerMoved(workers: map<nat, WorkerPc>, w: nat, workers': map<nat, WorkerPc>, undecremented: int, live: int)
    requires w in workers && AgreeOff(workers, workers', w)
    requires undecremented == (if w in workers' then Undecremented(workers'[w]) else 0) - Undecremented(workers[w])
    requires live == (if w in workers' then Live(workers'[w]) else 0) - Live(workers[w])
    ensures MapSum(workers', Undecremented) == MapSum(workers, Undecremented) + undecremented
    ensures MapSum(workers', Live) == MapSum(workers, Live) + live
  {
    WorkerSums(workers, workers', w);
  }

  lemma CountPreservedByWorker(s: State, w: nat)
    requires CountInv(s) && Enabled(s, WorkerStep(w))
    ensures CountInv(DoWorker(s, w))
  {
    var workers' := DoWorker(s, w).workers;
    match s.workers[w]
    case Holding => WorkerMoved(s.workers, w, workers', if s.queue == [] then 0 else 1, 0);
    case Popped(_) => WorkerMoved(s.workers, w, workers', -1, 0);
    case Empty => WorkerMoved(s.workers, w, workers', 0, -1);
    case _ => WorkerMoved(s.workers, w, workers', 0, 0);
  }

  // ------------------------------------------------------------- lost wakeup

  /** A caller gives up only on a positive workerCount; whoever that counts will
      still look at the list, unless it saw the list empty and it still is. */
  lemma PositiveCountMeansSomebody(s: State)
    requires Inv(s) && s.workerCount > 0 && s.queue != []
    ensures (exists w :: w in s.workers && WillLook(s.workers[w]))
            || (exists c :: c in s.callers && s.callers[c].Start?)
  {
    if MapSum(s.workers, Live) > 0 {
      var w := MapSumPositive(s.workers, Live);
      assert w in s.workers && WillLook(s.workers[w]);
    } else {
      var c := MapSumPositive(s.callers, Starting);
      assert c in s.callers && s.callers[c].Start?;
    }
  }

  /** A caller leaves on a positive workerCount. */
  lemma WakePreservedByLeaving(s: State, c: nat, w: nat)
    requires Inv(s) && Enabled(s, CallerStep(c, w)) && s.callers[c].TestZero? && s.workerCount != 0 && s.queue != []
    ensures SomebodyWillLook(s.callers - {c}, s.workers)
  {
    PositiveCountMeansSomebody(s);
    if v :| v in s.workers && WillLook(s.workers[v]) {
    } else {
      var d :| d in s.callers && s.callers[d].Start?;
      assert d in s.callers - {c} && InFlight((s.callers - {c})[d]);
    }
  }

  lemma WakePreservedByStart(s: State, c: nat, w: nat)
    requires Enabled(s, CallerStep(c, w)) && s.callers[c].Start?
    ensures SomebodyWillLook(s.callers - {c}, s.workers[w := Top])
  {
    var workers := s.workers[w := Top];
    assert w in workers && WillLook(workers[w]);
  }

  lemma WakePreservedByDeciding(s: State, c: nat, w: nat)
    requires WakeInv(s) && Enabled(s, CallerStep(c, w)) && !s.callers[c].Start?
    requires s.callers[c].TestZero? ==> s.workerCount == 0
    ensures DoCaller(s, c, w).queue != [] ==> SomebodyWillLook(DoCaller(s, c, w).callers, s.workers)
  {
    var s' := DoCaller(s, c, w);
    assert c in s'.callers;
    if s'.queue != [] && !InFlight(s'.callers[c]) { SomebodyElse(s, s', c); }
  }

  lemma WakePreservedByCaller(s: State, c: nat, w: nat)
    requires Inv(s) && Enabled(s, CallerStep(c, w))
    ensures WakeInv(DoCaller(s, c, w))
  {
    if s.callers[c].Start? {
      WakePreservedByStart(s, c, w);
    } else if s.callers[c].TestZero? && s.workerCount != 0 {
      if s.queue != [] { WakePreservedByLeaving(s, c, w); }
    } else {
      WakePreservedByDeciding(s, c, w);
    }
    WorkersSeeNothing(s, c, w);
  }

  /** A worker that has seen the list empty still holds the lock, so no caller is linking. */
  lemma WorkersSeeNothing(s: State, c: nat, w: nat)
    requires WakeInv(s) && LockInv(s.lock, s.callers, s.workers) && Enabled(s, CallerStep(c, w))
    ensures var s' := DoCaller(s, c, w); forall v | v in s'.workers && !WillLook(s'.workers[v]) :: s'.queue == []
  {
    var s' := DoCaller(s, c, w);
    forall v | v in s'.workers && !WillLook(s'.workers[v]) ensures s'.queue == [] {
      assert v in s.workers && s.lock == Worker(v) && s.queue == [];
      assert s.callers[c].Locked? ==> s.lock == Caller(c);
    }
  }

  lemma SomebodyElse(s: State, s': State, c: nat)
    requires WakeInv(s) && s.queue != [] && s'.workers == s.workers && AgreeOff(s.callers, s'.callers, c)
    requires c in s.callers ==> !InFlight(s.callers[c])
    ensures SomebodyWillLook(s'.callers, s'.workers)
  {
    if d :| d in s.callers && InFlight(s.callers[d]) {
      assert d in s'.callers && InFlight(s'.callers[d]);
    }
  }

  lemma WakePreservedByWorker(s: State, w: nat)
    requires Inv(s) && Enabled(s, WorkerStep(w))
    ensures WakeInv(DoWorker(s, w))
  {
    var s' := DoWorker(s, w);
    if s'.queue != [] {
      assert s.queue != [] && WillLook(s.workers[w]);
      assert w in s'.workers && WillLook(s'.workers[w]);
    }
  }

  // ------------------------------------------------------- tasks: exactly once

  lemma ListMoved(calls: set<nat>, callers: map<nat, CallerPc>, callers': map<nat, CallerPc>, enqueued: seq<nat>,
                  c: nat)
    requires ListInv(calls, callers, enqueued) && AgreeOff(callers, callers', c) && c in callers
    requires if c in callers' then InFlight(callers[c]) == InFlight(callers'[c]) else InFlight(callers[c])
    ensures ListInv(calls, callers', enqueued)
  {
  }

  lemma ListPreservedByCaller(s: State, c: nat, w: nat)
    requires ListInv(s.calls, s.callers, s.enqueued) && Enabled(s, CallerStep(c, w))
    ensures var s' := DoCaller(s, c, w); ListInv(s'.calls, s'.callers, s'.enqueued)
  {
    if !s.callers[c].Locked? {
      ListMoved(s.calls, s.callers, DoCaller(s, c, w).callers, s.enqueued, c);
    }
  }

  lemma RunKeep(d: seq<nat>, r: seq<nat>, workers: map<nat, WorkerPc>, w: nat, pc: WorkerPc)
    requires RunInv(d, r, workers) && Carried(pc) == if w in workers then Carried(workers[w]) else -1
    ensures RunInv(d, r, workers[w := pc])
  {
    var workers' := workers[w := pc];
    forall t | t in d && t !in r
      ensures exists v :: v in workers' && Carried(workers'[v]) == t
    {
      var v :| v in workers && Carried(workers[v]) == t;
      assert v in workers' && Carried(workers'[v]) == t;
    }
  }

  lemma RunTake(d: seq<nat>, r: seq<nat>, workers: map<nat, WorkerPc>, w: nat, pc: WorkerPc)
    requires RunInv(d, r, workers) && w in workers && Carried(workers[w]) == -1
    requires Carried(pc) >= 0 && Carried(pc) !in d
    ensures RunInv(d + [Carried(pc)], r, workers[w := pc])
  {
    var workers' := workers[w := pc];
    forall t | t in d + [Carried(pc)] && t !in r
      ensures exists v :: v in workers' && Carried(workers'[v]) == t
    {
      if t in d {
        var v :| v in workers && Carried(workers[v]) == t;
        assert v in workers' && Carried(workers'[v]) == t;
      } else {
        assert w in workers' && Carried(workers'[w]) == t;
      }
    }
  }

  lemma RunDone(d: seq<nat>, r: seq<nat>, workers: map<nat, WorkerPc>, w: nat, pc: WorkerPc)
    requires RunInv(d, r, workers) && w in workers && Carried(workers[w]) >= 0 && Carried(pc) == -1
    ensures RunInv(d, r + [Carried(workers[w])], workers[w := pc])
  {
    var workers' := workers[w := pc];
    forall t | t in d && t !in r + [Carried(workers[w])]
      ensures exists v :: v in workers' && Carried(workers'[v]) == t
    {
      var v :| v in workers && Carried(workers[v]) == t;
      assert v in workers' && Carried(workers'[v]) == t;
    }
  }

  lemma RunExit(d: seq<nat>, r: seq<nat>, workers: map<nat, WorkerPc>, w: nat)
    requires RunInv(d, r, workers) && w in workers && Carried(workers[w]) == -1
    ensures RunInv(d, r, workers - {w})
  {
    var workers' := workers - {w};
    forall t | t in d && t !in r
      ensures exists v :: v in workers' && Carried(workers'[v]) == t
    {
      var v :| v in workers && Carried(workers[v]) == t;
      assert v in workers' && Carried(workers'[v]) == t;
    }
  }

  lemma HeadIsFresh(s: State)
    requires Inv(s) && s.queue != []
    ensures s.queue[0] !in s.dequeued
  {
    assert s.enqueued[|s.dequeued|] == s.queue[0];
    assert forall i | 0 <= i < |s.dequeued| :: s.enqueued[i] == s.dequeued[i];
  }

  lemma RunPreservedByLooking(s: State, w: nat)
    requires Inv(s) && Enabled(s, WorkerStep(w)) && s.workers[w].Holding?
    ensures var s' := DoWorker(s, w); RunInv(s'.dequeued, s'.ran, s'.workers)
  {
    if s.queue != [] {
      HeadIsFresh(s);
      RunTake(s.dequeued, s.ran, s.workers, w, Popped(s.queue[0]));
    } else {
      RunKeep(s.dequeued, s.ran, s.workers, w, Empty);
    }
  }

  lemma RunPreservedByWorker(s: State, w: nat)
    requires Inv(s) && Enabled(s, WorkerStep(w))
    ensures var s' := DoWorker(s, w); RunInv(s'.dequeued, s'.ran, s'.workers)
  {
    match s.workers[w]
    case Holding => RunPreservedByLooking(s, w);
    case Run(_) => RunDone(s.dequeued, s.ran, s.workers, w, DoWorker(s, w).workers[w]);
    case Closed => RunExit(s.dequeued, s.ran, s.workers, w);
    case _ => RunKeep(s.dequeued, s.ran, s.workers, w, DoWorker(s, w).workers[w]);
  }

  lemma ListPreservedByWorker(s: State, w: nat)
    requires s.enqueued == s.dequeued + s.queue && Enabled(s, WorkerStep(w))
    ensures var s' := DoWorker(s, w);
            s'.enqueued == s'.dequeued + s'.queue && s'.calls == s.calls && s'.callers == s.callers
            && s'.enqueued == s.enqueued
  {
    if s.queue != [] { assert s.queue == [s.queue[0]] + s.queue[1..]; }
  }

  lemma RunPreservedByCaller(s: State, c: nat, w: nat)
    requires RunInv(s.dequeued, s.ran, s.workers) && s.enqueued == s.dequeued + s.queue
    requires Enabled(s, CallerStep(c, w))
    ensures var s' := DoCaller(s, c, w);
            RunInv(s'.dequeued, s'.ran, s'.workers) && s'.enqueued == s'.dequeued + s'.queue
  {
    if s.callers[c].Start? { RunKeep(s.dequeued, s.ran, s.workers, w, Top); }
    if s.callers[c].Locked? { assert s.dequeued + s.queue + [c] == s.dequeued + (s.queue + [c]); }
  }

  lemma PreservedByCall(s: State, c: nat)
    requires Inv(s) && Enabled(s, Call(c))
    ensures Inv(Do(s, Call(c)))
  {
    var s' := Do(s, Call(c));
    LockMovedByCaller(s.lock, s'.lock, s.callers, s'.callers, s.workers, c);
    CallerSums(s.callers, s'.callers, c);
    if s.queue != [] { SomebodyElse(s, s', c); }
  }

  lemma PreservedByCaller(s: State, c: nat, w: nat)
    requires Inv(s) && Enabled(s, CallerStep(c, w))
    ensures Inv(DoCaller(s, c, w))
  {
    LockPreservedByCaller(s, c, w);
    CountPreservedByCaller(s, c, w);
    ListPreservedByCaller(s, c, w);
    WakePreservedByCaller(s, c, w);
    RunPreservedByCaller(s, c, w);
  }

  lemma PreservedByWorker(s: State, w: nat)
    requires Inv(s) && Enabled(s, WorkerStep(w))
    ensures Inv(DoWorker(s, w))
  {
    var s' := DoWorker(s, w);
    assert LockInv(s'.lock, s'.callers, s'.workers) by { LockPreservedByWorker(s, w); }
    assert CountInv(s') by { CountPreservedByWorker(s, w); }
    assert WakeInv(s') by { WakePreservedByWorker(s, w); }
    assert RunInv(s'.dequeued, s'.ran, s'.workers) by { RunPreservedByWorker(s, w); }
    ListPreservedByWorker(s, w);
  }

  lemma Preserved(s: State, a: Step)
    requires Inv(s) && Enabled(s, a)
    ensures Inv(Do(s, a))
  {
    match a
    case Call(c) => PreservedByCall(s, c);
    case SetCap(_) =>
    case CallerStep(c, w) => PreservedByCaller(s, c, w);
    case WorkerStep(w) => PreservedByWorker(s, w);
  }

  // ------------------------------------------------------------- whole runs

  /** A run: from an empty pool, any finite interleaving of enabled steps. */
  ghost predicate IsRun(trace: seq<State>) {
    && trace != [] && Initial(trace[0])
    && forall i | 0 <= i < |trace| - 1 :: IsStep(trace[i], trace[i + 1])
  }

  ghost predicate IsStep(s: State, s': State) { exists a :: Enabled(s, a) && s' == Do(s, a) }

  lemma {:induction false} InvHolds(trace: seq<State>, i: nat)
    requires IsRun(trace) && i < |trace|
    ensures Inv(trace[i])
  {
    if i > 0 {
      InvHolds(trace, i - 1);
      assert IsStep(trace[i - 1], trace[i - 1 + 1]);
      var a :| Enabled(trace[i - 1], a) && trace[i] == Do(trace[i - 1], a);
      Preserved(trace[i - 1], a);
    }
  }

  /** No lost wakeup: whenever the list is not empty, a worker that has not yet seen it
      empty is alive, or a call that has linked its task is still deciding. */
  lemma NoStrandedTask(trace: seq<State>, i: nat)
    requires IsRun(trace) && i < |trace| && trace[i].queue != []
    ensures (exists w :: w in trace[i].workers && WillLook(trace[i].workers[w]))
         || (exists c :: c in trace[i].callers && InFlight(trace[i].callers[c]))
  {
    InvHolds(trace, i);
  }

  /** Tasks leave the list in the order they entered it, and none runs twice or unsubmitted. */
  lemma FifoAndAtMostOnce(trace: seq<State>, i: nat)
    requires IsRun(trace) && i < |trace|
    ensures trace[i].enqueued == trace[i].dequeued + trace[i].queue
    ensures Distinct(trace[i].enqueued) && Distinct(trace[i].ran)
    ensures forall t | t in trace[i].ran :: t in trace[i].dequeued && t in trace[i].calls
  {
    InvHolds(trace, i);
    assert forall t | t in trace[i].dequeued :: t in trace[i].enqueued;
  }

  ghost predicate Quiescent(s: State) { s.callers == map[] && s.workers == map[] }

  lemma {:induction false} SameElements(a: seq<nat>, b: seq<nat>)
    requires Distinct(a) && Distinct(b) && forall t :: t in a <==> t in b
    ensures multiset(a) == multiset(b)
  {
    forall t ensures multiset(a)[t] == multiset(b)[t] {
      DistinctCount(a, t);
      DistinctCount(b, t);
    }
  }

  lemma {:induction false} DistinctCount(q: seq<nat>, t: nat)
    requires Distinct(q)
    ensures multiset(q)[t] == if t in q then 1 else 0
  {
    if q != [] {
      DistinctCount(q[1..], t);
      assert q == [q[0]] + q[1..];
    }
  }

  lemma QuiescentMeansAllRan(s: State)
    requires Inv(s) && Quiescent(s)
    ensures s.queue == [] && multiset(s.ran) == multiset(s.enqueued)
    ensures Distinct(s.ran) && forall c :: c in s.calls <==> c in s.ran
  {
    assert s.dequeued == s.enqueued;
    SameElements(s.ran, s.enqueued);
  }

  /** With no call in flight and no worker left, every submitted task has run exactly once. */
  lemma AllRanExactlyOnce(trace: seq<State>, i: nat)
    requires IsRun(trace) && i < |trace| && Quiescent(trace[i])
    ensures trace[i].queue == []
    ensures multiset(trace[i].ran) == multiset(trace[i].enqueued)
    ensures Distinct(trace[i].ran) && forall c :: c in trace[i].calls <==> c in trace[i].ran
  {
    InvHolds(trace, i);
    QuiescentMeansAllRan(trace[i]);
  }

  /** taskCount lags the list by the linked-but-uncounted calls and leads it by a worker between
      unlinking and decrementing; workerCount is the workers not closed plus those about to start. */
  lemma CountersExact(trace: seq<State>, i: nat)
    requires IsRun(trace) && i < |trace|
    ensures var s := trace[i];
      && s.taskCount == |s.queue| - MapSum(s.callers, Uncounted) + MapSum(s.workers, Undecremented)
      && s.workerCount == MapSum(s.workers, Live) + MapSum(s.callers, Starting)
  {
    InvHolds(trace, i);
  }

  // ------------------------------------------------------------ worker bound

  function Ceiling(cap: int, callers: nat): int { (if cap > 1 then cap else 1) + callers - 1 }

  ghost predicate BoundInv(s: State, cap: int, callers: nat) {
    && s.workerCount + MapSum(s.callers, Decided(cap)) <= Ceiling(cap, callers)
    && 0 <= s.workerCount
  }

  /** A call that has not decided leaves room for the others. */
  lemma OthersDecided(m: map<nat, CallerPc>, c: nat, cap: int)
    requires c in m && !MaySpawn(m[c], cap)
    ensures MapSum(m, Decided(cap)) <= |m| - 1
  {
    MapSumSplit(m, c, Decided(cap));
    MapSumAtMost(m - {c}, Decided(cap));
    assert (m - {c}).Keys == m.Keys - {c};
  }

  /** Call c is there and has decided to spawn, or may still do so. */
  predicate MaySpawnAt(callers: map<nat, CallerPc>, c: nat, cap: int) { c in callers && MaySpawn(callers[c], cap) }

  /** A call that may spawn counts for one worker at most; one that may not changes no count, and comes to that only
      if it has seen fewer workers than cap, or none. */
  lemma SpawnStep(s: State, c: nat, w: nat, cap: int)
    requires Enabled(s, CallerStep(c, w)) && s.cap <= cap
    ensures var s' := DoCaller(s, c, w);
            if MaySpawnAt(s.callers, c, cap)
            then s'.workerCount + (if MaySpawnAt(s'.callers, c, cap) then 1 else 0) <= s.workerCount + 1
            else s'.workerCount == s.workerCount
                 && (MaySpawnAt(s'.callers, c, cap) ==> s.workerCount < cap || s.workerCount == 0)
  {
  }

  lemma BoundPreservedByCaller(s: State, c: nat, w: nat, cap: int, callers: nat)
    requires BoundInv(s, cap, callers) && Enabled(s, CallerStep(c, w)) && s.cap <= cap && |s.callers| <= callers
    ensures var s' := DoCaller(s, c, w);
            s'.workerCount + MapSum(s'.callers, Decided(cap)) <= Ceiling(cap, callers)
  {
    var s' := DoCaller(s, c, w);
    SpawnStep(s, c, w, cap);
    DecidedSums(s.callers, s'.callers, c, cap);
    BoundAfter(s.callers, s'.callers, c, cap, callers, s.workerCount, s'.workerCount);
  }

  lemma BoundAfter(m: map<nat, CallerPc>, m': map<nat, CallerPc>, c: nat, cap: int, callers: nat, workers: int,
                   workers': int)
    requires c in m && |m| <= callers && workers + MapSum(m, Decided(cap)) <= Ceiling(cap, callers)
    requires MapSum(m', Decided(cap)) - (if MaySpawnAt(m', c, cap) then 1 else 0)
          == MapSum(m, Decided(cap)) - (if MaySpawnAt(m, c, cap) then 1 else 0)
    requires if MaySpawnAt(m, c, cap)
             then workers' + (if MaySpawnAt(m', c, cap) then 1 else 0) <= workers + 1
             else workers' == workers && (MaySpawnAt(m', c, cap) ==> workers < cap || workers == 0)
    ensures workers' + MapSum(m', Decided(cap)) <= Ceiling(cap, callers)
  {
    if !MaySpawnAt(m, c, cap) { OthersDecided(m, c, cap); }
  }

  lemma BoundPreservedByCall(s: State, c: nat, cap: int, callers: nat)
    requires BoundInv(s, cap, callers) && LockInv(s.lock, s.callers, s.workers) && Enabled(s, Call(c))
    ensures var s' := Do(s, Call(c));
            s'.workerCount == s.workerCount && MapSum(s'.callers, Decided(cap)) <= MapSum(s.callers, Decided(cap))
  {
    DecidedSums(s.callers, Do(s, Call(c)).callers, c, cap);
  }

  lemma BoundPreserved(s: State, a: Step, cap: int, callers: nat)
    requires Inv(s) && BoundInv(s, cap, callers) && Enabled(s, a)
    requires s.cap <= cap && |s.callers| <= callers
    ensures BoundInv(Do(s, a), cap, callers)
  {
    assert Do(s, a).workerCount >= 0 by { Preserved(s, a); }
    match a
    case Call(c) => BoundPreservedByCall(s, c, cap, callers);
    case SetCap(_) =>
    case CallerStep(c, w) => BoundPreservedByCaller(s, c, w, cap, callers);
    case WorkerStep(w) =>
  }

  /** With cap at most C and at most N calls in progress at any time,
      there are never more than max(C, 1) + N - 1 workers. */
  lemma {:induction false} WorkerBound(trace: seq<State>, i: nat, cap: int, callers: nat)
    requires IsRun(trace) && i < |trace| && callers >= 1
    requires forall j | 0 <= j <= i :: trace[j].cap <= cap && |trace[j].callers| <= callers
    ensures BoundInv(trace[i], cap, callers)
    ensures trace[i].workerCount <= Ceiling(cap, callers)
  {
    if i > 0 {
      WorkerBound(trace, i - 1, cap, callers);
      InvHolds(trace, i - 1);
      assert IsStep(trace[i - 1], trace[i - 1 + 1]);
      var a :| Enabled(trace[i - 1], a) && trace[i] == Do(trace[i - 1], a);
      BoundPreserved(trace[i - 1], a, cap, callers);
    }
  }

  // --------------------------------------------------------------- liveness

  function CallerWork(pc: CallerPc): nat {
    match pc
    case WantLock => 20 case Locked => 19 case Linked => 12 case Unlocked => 11 case Counted => 10
    case TestCap => 9 case CompareCap(_) => 8 case TestZero => 7 case Spawn => 6 case Start => 5
  }

  function WorkerWork(pc: WorkerPc): nat {
    match pc
    case Top => 4 case Holding => 3 case Popped(_) => 8 case Took(_) => 7 case Empty => 2
    case Closed => 1 case Run(_) => 6 case Recycle(_) => 5
  }

  /** An upper bound on the steps left if no new call is made. */
  ghost function Work(s: State): nat {
    6 * |s.queue| + MapSum(s.callers, CallerWork) + MapSum(s.workers, WorkerWork)
  }

  lemma WorkChange(s: State, s': State, c: nat, w: nat)
    requires AgreeOff(s.callers, s'.callers, c) && AgreeOff(s.workers, s'.workers, w)
    ensures Work(s') - 6 * |s'.queue| - (if c in s'.callers then CallerWork(s'.callers[c]) else 0)
                                      - (if w in s'.workers then WorkerWork(s'.workers[w]) else 0)
         == Work(s) - 6 * |s.queue| - (if c in s.callers then CallerWork(s.callers[c]) else 0)
                                    - (if w in s.workers then WorkerWork(s.workers[w]) else 0)
  {
    MapSumChange(s.callers, s'.callers, c, CallerWork);
    MapSumChange(s.workers, s'.workers, w, WorkerWork);
  }

  predicate Internal(a: Step) { a.CallerStep? || a.WorkerStep? }

  lemma CallerWorkShrinks(s: State, c: nat, w: nat)
    requires Enabled(s, CallerStep(c, w))
    ensures Work(DoCaller(s, c, w)) < Work(s) && DoCaller(s, c, w).calls == s.calls
  {
    if s.callers[c].Start? { StartWorkShrinks(s, c, w); } else { WorkChange(s, DoCaller(s, c, w), c, w); }
  }

  lemma StartWorkShrinks(s: State, c: nat, w: nat)
    requires Enabled(s, CallerStep(c, w)) && s.callers[c].Start?
    ensures Work(DoCaller(s, c, w)) < Work(s)
  {
    WorkChange(s, DoCaller(s, c, w), c, w);
  }

  lemma WorkerWorkShrinks(s: State, w: nat)
    requires Enabled(s, WorkerStep(w))
    ensures Work(DoWorker(s, w)) < Work(s) && DoWorker(s, w).calls == s.calls
  {
    WorkChange(s, DoWorker(s, w), 0, w);
  }

  /** Nothing deadlocks: while a call or a worker is left, some goroutine can move. */
  lemma SomethingEnabled(s: State) returns (a: Step)
    requires Inv(s) && !Quiescent(s)
    ensures Internal(a) && Enabled(s, a)
  {
    var w := FreshWorker(s.workers.Keys);
    match s.lock
    case Caller(c) => a := CallerStep(c, w);
    case Worker(v) => a := WorkerStep(v);
    case Nobody =>
      if c :| c in s.callers {
        a := CallerStep(c, w);
      } else {
        var v :| v in s.workers;
        a := WorkerStep(v);
      }
  }

  lemma FreshWorker(used: set<nat>) returns (w: nat)
    ensures w !in used
  {
    w := AboveAll(used);
  }

  lemma {:induction false} AboveAll(used: set<nat>) returns (w: nat)
    ensures forall v | v in used :: v < w
  {
    if used == {} { return 0; }
    var v :| v in used;
    var above := AboveAll(used - {v});
    w := if v < above then above else v + 1;
    assert forall u | u in used :: u == v || u in used - {v};
  }

  /** Steps applied one after the other, all of them enabled and none a new call. */
  ghost predicate Drains(s: State, steps: seq<Step>, end: State)
    decreases |steps|
  {
    if steps == [] then s == end else
      Internal(steps[0]) && Enabled(s, steps[0]) && Drains(Do(s, steps[0]), steps[1..], end)
  }

  ghost predicate Stuck(s: State) { forall a :: Internal(a) ==> !Enabled(s, a) }

  lemma StuckMeansAllRan(s: State)
    requires Inv(s) && Stuck(s)
    ensures Quiescent(s) && Distinct(s.ran) && forall c :: c in s.calls <==> c in s.ran
  {
    if !Quiescent(s) { var a := SomethingEnabled(s); }
    QuiescentMeansAllRan(s);
  }

  lemma InternalStep(s: State, a: Step)
    requires Inv(s) && Internal(a) && Enabled(s, a)
    ensures Inv(Do(s, a)) && Do(s, a).calls == s.calls && Work(Do(s, a)) < Work(s)
  {
    Preserved(s, a);
    if a.CallerStep? { CallerWorkShrinks(s, a.c, a.w); } else { WorkerWorkShrinks(s, a.w); }
  }

  /** Once calls stop, every schedule ends after a bounded number of steps, and wherever
      it cannot go on, every task ever submitted has run exactly once. */
  lemma {:induction false} EveryScheduleDrains(s: State, steps: seq<Step>, end: State)
    requires Inv(s) && Drains(s, steps, end)
    ensures |steps| <= Work(s)
    ensures Stuck(end) ==> Quiescent(end) && Distinct(end.ran) && forall c :: c in s.calls <==> c in end.ran
    decreases |steps|
  {
    if steps == [] {
      if Stuck(end) { StuckMeansAllRan(end); }
    } else {
      InternalStep(s, steps[0]);
      EveryScheduleDrains(Do(s, steps[0]), steps[1..], end);
    }
  }

  /** The same, for any point of any run. */
  lemma TasksDrainAfterLastCall(trace: seq<State>, i: nat, steps: seq<Step>, end: State)
    requires IsRun(trace) && i < |trace| && Drains(trace[i], steps, end)
    ensures |steps| <= Work(trace[i])
    ensures Stuck(end) ==> Quiescent(end) && Distinct(end.ran) && forall c :: c in trace[i].calls <==> c in end.ran
  {
    InvHolds(trace, i);
    EveryScheduleDrains(trace[i], steps, end);
  }
}
