/** How many workers the goroutine pool starts: why a call leaves without starting one, and how far the pool
    grows while tasks do not return (pkg/gopool/pool.go lines 128-138). */
module GopoolGrowth {
  import opened MapSums
  import opened GopoolProtocol

  predicate At(s: State, c: nat, pc: CallerPc) { c in s.callers && s.callers[c] == pc }

  // ------------------------------------------------- what a call has read by then

  /** In state j the call reads taskCount. */
  ghost predicate ReadTasks(trace: seq<State>, j: nat, c: nat) {
    j + 1 < |trace| && At(trace[j], c, Counted) && !At(trace[j + 1], c, Counted)
  }

  /** In state j the call reads workerCount for the first time. */
  ghost predicate ReadWorkers(trace: seq<State>, j: nat, c: nat) {
    j + 1 < |trace| && At(trace[j], c, TestCap) && !At(trace[j + 1], c, TestCap)
  }

  /** In state j the call, having read that many workers, reads cap. */
  ghost predicate ReadCap(trace: seq<State>, j: nat, c: nat, seen: int) {
    j + 1 < |trace| && At(trace[j], c, CompareCap(seen)) && !At(trace[j + 1], c, CompareCap(seen))
  }

  /** In state j the call reads workerCount for the second time. */
  ghost predicate ReadAgain(trace: seq<State>, j: nat, c: nat) {
    j + 1 < |trace| && At(trace[j], c, TestZero) && !At(trace[j + 1], c, TestZero)
  }

  predicate HasRead(s: State, c: nat) { c in s.callers && s.callers[c].CompareCap? }

  /** Where call c was before a step, given where it is after it. */
  ghost predicate Came(s: State, s': State, c: nat) {
    && (At(s', c, TestCap) ==> At(s, c, TestCap) || (At(s, c, Counted) && s.taskCount >= s.threshold))
    && (HasRead(s', c) ==> At(s, c, s'.callers[c]) || (At(s, c, TestCap) && s.workerCount == s'.callers[c].seen))
    && (At(s', c, TestZero) ==>
          || At(s, c, TestZero) || (At(s, c, Counted) && s.taskCount < s.threshold)
          || (HasRead(s, c) && s.callers[c].seen >= s.cap))
    && (At(s', c, Spawn) ==>
          || At(s, c, Spawn) || (At(s, c, TestZero) && s.workerCount == 0)
          || (HasRead(s, c) && s.callers[c].seen < s.cap))
    && (c in s.callers && c !in s'.callers ==> At(s, c, Start) || (At(s, c, TestZero) && s.workerCount != 0))
  }

  lemma CameTo(s: State, a: Step, c: nat)
    requires Enabled(s, a)
    ensures Came(s, Do(s, a), c)
  {
    match a
    case Call(_) =>
    case SetCap(_) =>
    case CallerStep(d, w) => CallerCameTo(s, d, w, c);
    case WorkerStep(w) => assert DoWorker(s, w).callers == s.callers;
  }

  lemma CallerCameTo(s: State, d: nat, w: nat, c: nat)
    requires Enabled(s, CallerStep(d, w))
    ensures Came(s, DoCaller(s, d, w), c)
  {
    if c != d { assert c in DoCaller(s, d, w).callers <==> c in s.callers; }
  }

  /** What matters of a run for call c. */
  ghost predicate CallRun(trace: seq<State>, c: nat) {
    && trace != [] && trace[0].callers == map[]
    && forall i | 0 <= i < |trace| - 1 :: Came(trace[i], trace[i + 1], c)
  }

  lemma RunIsCallRun(trace: seq<State>, c: nat)
    requires IsRun(trace)
    ensures CallRun(trace, c)
  {
    forall i | 0 <= i < |trace| - 1 ensures Came(trace[i], trace[i + 1], c) {
      assert IsStep(trace[i], trace[i + 1]);
      var a :| Enabled(trace[i], a) && trace[i + 1] == Do(trace[i], a);
      CameTo(trace[i], a, c);
    }
  }

  lemma CameHere(trace: seq<State>, i: nat, c: nat)
    requires CallRun(trace, c) && i < |trace| && c in trace[i].callers
    ensures i > 0 && Came(trace[i - 1], trace[i], c)
  {
    assert i > 0;
    assert Came(trace[i - 1], trace[i - 1 + 1], c);
  }

  /** A call that goes on to cap has read a taskCount of at least threshold. */
  lemma {:induction false} ReadEnough(trace: seq<State>, i: nat, c: nat) returns (j: nat)
    requires CallRun(trace, c) && i < |trace| && At(trace[i], c, TestCap)
    ensures j < i && ReadTasks(trace, j, c) && trace[j].taskCount >= trace[j].threshold
  {
    CameHere(trace, i, c);
    if At(trace[i - 1], c, TestCap) { j := ReadEnough(trace, i - 1, c); } else { j := i - 1; }
  }

  /** And what it compares with cap is a workerCount it has read after that. */
  lemma {:induction false} ReadBoth(trace: seq<State>, i: nat, c: nat) returns (j: nat, k: nat)
    requires CallRun(trace, c) && i < |trace| && HasRead(trace[i], c)
    ensures j < k < i && ReadTasks(trace, j, c) && trace[j].taskCount >= trace[j].threshold
    ensures ReadWorkers(trace, k, c) && trace[k].workerCount == trace[i].callers[c].seen
  {
    CameHere(trace, i, c);
    if At(trace[i - 1], c, trace[i].callers[c]) {
      j, k := ReadBoth(trace, i - 1, c);
    } else {
      j := ReadEnough(trace, i - 1, c);
      k := i - 1;
    }
  }

  /** The call read a taskCount below threshold in state j. */
  ghost predicate FewTasks(trace: seq<State>, j: nat, c: nat) {
    ReadTasks(trace, j, c) && trace[j].taskCount < trace[j].threshold
  }

  /** The call read enough tasks in state j, then a workerCount in state k, and then a cap in state l. */
  ghost predicate Compared(trace: seq<State>, j: nat, k: nat, l: nat, c: nat) {
    && j < k < l && ReadTasks(trace, j, c) && trace[j].taskCount >= trace[j].threshold
    && ReadWorkers(trace, k, c) && ReadCap(trace, l, c, trace[k].workerCount)
  }

  /** Before state i the call found too few tasks, or as many workers as cap or more. */
  ghost predicate NotNeeded(trace: seq<State>, i: nat, j: nat, k: nat, l: nat, c: nat) {
    || (j < i && FewTasks(trace, j, c))
    || (l < i && Compared(trace, j, k, l, c) && trace[k].workerCount >= trace[l].cap)
  }

  lemma {:induction false} ReadNotNeeded(trace: seq<State>, i: nat, c: nat) returns (j: nat, k: nat, l: nat)
    requires CallRun(trace, c) && i < |trace| && At(trace[i], c, TestZero)
    ensures NotNeeded(trace, i, j, k, l, c)
  {
    CameHere(trace, i, c);
    if At(trace[i - 1], c, TestZero) {
      j, k, l := ReadNotNeeded(trace, i - 1, c);
    } else if At(trace[i - 1], c, Counted) {
      j, k, l := i - 1, 0, 0;
    } else {
      j, k := ReadBoth(trace, i - 1, c);
      l := i - 1;
    }
  }

  /** A call either starts a worker, or it leaves having read too few tasks, or no fewer workers than a cap
      it read later; and in the end it read a positive workerCount. */
  lemma LeavesExactly(trace: seq<State>, i: nat, c: nat) returns (j: nat, k: nat, l: nat)
    requires IsRun(trace) && i + 1 < |trace| && c in trace[i].callers && c !in trace[i + 1].callers
    ensures At(trace[i], c, Start) ||
            (ReadAgain(trace, i, c) && trace[i].workerCount > 0 && NotNeeded(trace, i, j, k, l, c))
  {
    j, k, l := 0, 0, 0;
    RunIsCallRun(trace, c);
    assert Came(trace[i], trace[i + 1], c);
    CountNotNegative(trace, i);
    if !At(trace[i], c, Start) { j, k, l := ReadNotNeeded(trace, i, c); }
  }

  lemma CountNotNegative(trace: seq<State>, i: nat)
    requires IsRun(trace) && i < |trace|
    ensures trace[i].workerCount >= 0
  {
    InvHolds(trace, i);
  }

  /** Before state i the call found enough tasks and fewer workers than cap, or no worker at all. */
  ghost predicate Needed(trace: seq<State>, i: nat, j: nat, k: nat, l: nat, m: nat, c: nat) {
    || (l < i && Compared(trace, j, k, l, c) && trace[k].workerCount < trace[l].cap)
    || (m < i && ReadAgain(trace, m, c) && trace[m].workerCount == 0 && NotNeeded(trace, m, j, k, l, c))
  }

  lemma {:induction false} ReadNeeded(trace: seq<State>, i: nat, c: nat) returns (j: nat, k: nat, l: nat, m: nat)
    requires CallRun(trace, c) && i < |trace| && At(trace[i], c, Spawn)
    ensures Needed(trace, i, j, k, l, m, c)
  {
    CameHere(trace, i, c);
    m := i - 1;
    if At(trace[i - 1], c, Spawn) {
      j, k, l, m := ReadNeeded(trace, i - 1, c);
    } else if At(trace[i - 1], c, TestZero) {
      j, k, l := ReadNotNeeded(trace, i - 1, c);
    } else {
      j, k := ReadBoth(trace, i - 1, c);
      l := i - 1;
    }
  }

  /** And it starts one only if it read enough tasks and fewer workers than a cap it read later, or else no
      worker at all. */
  lemma SpawnsExactly(trace: seq<State>, i: nat, c: nat) returns (j: nat, k: nat, l: nat, m: nat)
    requires IsRun(trace) && i < |trace| && At(trace[i], c, Spawn)
    ensures Needed(trace, i, j, k, l, m, c)
  {
    RunIsCallRun(trace, c);
    j, k, l, m := ReadNeeded(trace, i, c);
  }

  // ------------------------------------- one call after the other, no task returning

  /** The worker has taken a task off the list and not yet returned from it. */
  function Busy(pc: WorkerPc): nat { if pc.Popped? || pc.Took? || pc.Run? then 1 else 0 }

  function Linking(pc: CallerPc): nat { if InFlight(pc) then 1 else 0 }

  function Max(a: int, b: int): int { if a > b then a else b }

  function Min(a: int, b: int): int { if a < b then a else b }

  /** The calls that are over. */
  function Over(s: State): int { |s.calls| - |s.callers| }

  ghost predicate NoneReturned(workers: map<nat, WorkerPc>) {
    forall w | w in workers :: workers[w].Top? || workers[w].Holding? || Busy(workers[w]) == 1
  }

  /** The numbers of a state in which one call, if any, is under way: linked and uncounted say whether its task is
      in the list and not yet counted, starting whether its worker is counted and not yet there. */
  ghost predicate Numbers(s: State, cap: int, linked: nat, uncounted: nat, starting: nat) {
    && Over(s) >= 0 && |s.workers| == Min(Over(s), Max(cap, 1))
    && s.workerCount == |s.workers| + starting
    && |s.dequeued| == MapSum(s.workers, Busy) && |s.dequeued| + |s.queue| == Over(s) + linked
    && s.taskCount == |s.queue| - uncounted + MapSum(s.workers, Undecremented)
  }

  /** What the call under way has found out. */
  predicate Deciding(s: State, pc: CallerPc, cap: int) {
    match pc
    case CompareCap(seen) => seen == |s.workers|
    case TestZero => |s.workers| >= cap
    case Spawn => Over(s) < Max(cap, 1)
    case Start => Over(s) < Max(cap, 1)
    case _ => true
  }

  /** The call under way is at pc. */
  ghost predicate GrowthWith(s: State, cap: int, pc: CallerPc) {
    NoneReturned(s.workers) && Numbers(s, cap, Linking(pc), Uncounted(pc), Starting(pc)) && Deciding(s, pc, cap)
  }

  /** No call is under way. */
  ghost predicate GrowthIdle(s: State, cap: int) { NoneReturned(s.workers) && Numbers(s, cap, 0, 0, 0) }

  ghost predicate GrowthInv(s: State, cap: int) {
    && (s.callers == map[] ==> GrowthIdle(s, cap))
    && (forall c | c in s.callers :: GrowthWith(s, cap, s.callers[c]))
  }

  lemma OnlyCall(callers: map<nat, CallerPc>, c: nat)
    requires c in callers && |callers| <= 1
    ensures callers == map[c := callers[c]]
  {
    assert |callers.Keys - {c}| == 0;
    forall d | d in callers ensures d == c { assert d !in callers.Keys - {c}; }
  }

  /** Not every worker is busy. */
  lemma BusyAtMost(workers: map<nat, WorkerPc>)
    ensures MapSum(workers, Busy) <= |workers|
    ensures forall w | w in workers && Busy(workers[w]) == 0 :: MapSum(workers, Busy) < |workers|
  {
    MapSumAtMost(workers, Busy);
    forall w | w in workers && Busy(workers[w]) == 0 ensures MapSum(workers, Busy) < |workers| {
      MapSumSplit(workers, w, Busy);
      MapSumAtMost(workers - {w}, Busy);
      assert (workers - {w}).Keys == workers.Keys - {w};
    }
  }

  lemma WorkerChanged(workers: map<nat, WorkerPc>, w: nat, pc: WorkerPc)
    ensures var workers' := workers[w := pc];
            && MapSum(workers', Busy) == MapSum(workers, Busy) + Busy(pc)
                                       - (if w in workers then Busy(workers[w]) else 0)
            && MapSum(workers', Undecremented) == MapSum(workers, Undecremented) + Undecremented(pc)
                                                - (if w in workers then Undecremented(workers[w]) else 0)
            && |workers'| == |workers| + if w in workers then 0 else 1
  {
    MapSumChange(workers, workers[w := pc], w, Busy);
    MapSumChange(workers, workers[w := pc], w, Undecremented);
    assert workers[w := pc].Keys == workers.Keys + {w};
  }

  /** The numbers once w is at another place, having taken a task, and counted it, or not. */
  lemma NumbersMoved(s: State, s': State, w: nat, pc: WorkerPc, cap: int, linked: nat, uncounted: nat, starting: nat)
    requires Numbers(s, cap, linked, uncounted, starting) && w in s.workers && s'.workers == s.workers[w := pc]
    requires Over(s') == Over(s) && s'.workerCount == s.workerCount
    requires |s'.dequeued| - |s.dequeued| == |s.queue| - |s'.queue| == Busy(pc) - Busy(s.workers[w])
    requires s'.taskCount - s.taskCount ==
               |s'.queue| - |s.queue| + Undecremented(pc) - Undecremented(s.workers[w])
    ensures Numbers(s', cap, linked, uncounted, starting)
  {
    WorkerChanged(s.workers, w, pc);
  }

  /** A worker that looks finds a task. */
  lemma LooksAtTask(s: State, w: nat, cap: int, linked: nat, uncounted: nat, starting: nat)
    requires Numbers(s, cap, linked, uncounted, starting) && w in s.workers && s.workers[w].Holding?
    ensures s.queue != []
  {
    BusyAtMost(s.workers);
  }

  lemma NumbersByWorker(s: State, w: nat, cap: int, linked: nat, uncounted: nat, starting: nat)
    requires Numbers(s, cap, linked, uncounted, starting) && NoneReturned(s.workers)
    requires Enabled(s, WorkerStep(w)) && !s.workers[w].Run?
    ensures var s' := DoWorker(s, w); Numbers(s', cap, linked, uncounted, starting) && NoneReturned(s'.workers)
  {
    if s.workers[w].Holding? { LooksAtTask(s, w, cap, linked, uncounted, starting); }
    var s' := DoWorker(s, w);
    NumbersMoved(s, s', w, s'.workers[w], cap, linked, uncounted, starting);
  }

  lemma GrowthByWorker(s: State, w: nat, cap: int)
    requires GrowthInv(s, cap) && Enabled(s, WorkerStep(w)) && !s.workers[w].Run?
    ensures GrowthInv(DoWorker(s, w), cap)
  {
    var s' := DoWorker(s, w);
    assert s'.callers == s.callers;
    if s.callers == map[] { NumbersByWorker(s, w, cap, 0, 0, 0); }
    forall c | c in s'.callers ensures GrowthWith(s', cap, s'.callers[c]) {
      GrowthWithByWorker(s, w, cap, s.callers[c]);
    }
  }

  lemma GrowthWithByWorker(s: State, w: nat, cap: int, pc: CallerPc)
    requires GrowthWith(s, cap, pc) && Enabled(s, WorkerStep(w)) && !s.workers[w].Run?
    ensures GrowthWith(DoWorker(s, w), cap, pc)
  {
    NumbersByWorker(s, w, cap, Linking(pc), Uncounted(pc), Starting(pc));
    assert |DoWorker(s, w).workers| == |s.workers|;
  }

  lemma GrowthByStart(s: State, c: nat, w: nat, cap: int)
    requires s.callers == map[c := Start] && GrowthWith(s, cap, Start) && Enabled(s, CallerStep(c, w))
    ensures GrowthInv(DoCaller(s, c, w), cap)
  {
    assert DoCaller(s, c, w).callers == map[];
    WorkerChanged(s.workers, w, Top);
  }

  /** The call up to its first read. */
  lemma GrowthByLinking(s: State, c: nat, w: nat, cap: int)
    requires c in s.callers && GrowthWith(s, cap, s.callers[c]) && Enabled(s, CallerStep(c, w))
    requires s.callers[c].WantLock? || s.callers[c].Locked? || s.callers[c].Linked? || s.callers[c].Unlocked?
    ensures GrowthWith(DoCaller(s, c, w), cap, DoCaller(s, c, w).callers[c])
  {
  }

  /** All tasks but those of busy workers are in the list and counted, so that the call reads one at least. */
  lemma GrowthByReading(s: State, c: nat, w: nat, cap: int)
    requires c in s.callers && GrowthWith(s, cap, s.callers[c]) && Enabled(s, CallerStep(c, w))
    requires s.cap == cap && s.threshold <= 1
    requires s.callers[c].Counted? || s.callers[c].TestCap? || s.callers[c].CompareCap? || s.callers[c].Spawn?
    ensures GrowthWith(DoCaller(s, c, w), cap, DoCaller(s, c, w).callers[c])
  {
    BusyAtMost(s.workers);
  }

  lemma GrowthByLeaving(s: State, c: nat, w: nat, cap: int)
    requires s.callers == map[c := TestZero] && GrowthWith(s, cap, TestZero)
    ensures GrowthInv(DoCaller(s, c, w), cap)
  {
    var s' := DoCaller(s, c, w);
    assert if s.workerCount == 0 then s'.callers == map[c := Spawn] else s'.callers == map[];
  }

  lemma GrowthByCaller(s: State, c: nat, w: nat, cap: int)
    requires GrowthInv(s, cap) && |s.callers| <= 1 && Enabled(s, CallerStep(c, w)) && s.cap == cap && s.threshold <= 1
    ensures GrowthInv(DoCaller(s, c, w), cap)
  {
    OnlyCall(s.callers, c);
    var pc := s.callers[c];
    if pc.Start? {
      GrowthByStart(s, c, w, cap);
    } else if pc.TestZero? {
      GrowthByLeaving(s, c, w, cap);
    } else {
      GrowthByMoving(s, c, w, cap);
    }
  }

  lemma GrowthByMoving(s: State, c: nat, w: nat, cap: int)
    requires c in s.callers && s.callers == map[c := s.callers[c]] && GrowthWith(s, cap, s.callers[c])
    requires Enabled(s, CallerStep(c, w)) && s.cap == cap && s.threshold <= 1
    requires !s.callers[c].Start? && !s.callers[c].TestZero?
    ensures GrowthInv(DoCaller(s, c, w), cap)
  {
    var pc, s' := s.callers[c], DoCaller(s, c, w);
    assert s'.callers == map[c := s'.callers[c]];
    if pc.WantLock? || pc.Locked? || pc.Linked? || pc.Unlocked? {
      GrowthByLinking(s, c, w, cap);
    } else {
      GrowthByReading(s, c, w, cap);
    }
  }

  lemma GrowthByCall(s: State, c: nat, cap: int)
    requires GrowthInv(s, cap) && c !in s.callers && Enabled(s, Call(c)) && |Do(s, Call(c)).callers| <= 1
    ensures GrowthInv(Do(s, Call(c)), cap)
  {
    var s' := Do(s, Call(c));
    OnlyCall(s'.callers, c);
    assert s.callers == map[];
    assert |s'.calls| == |s.calls| + 1;
  }

  lemma GrowthByStep(s: State, a: Step, cap: int)
    requires GrowthInv(s, cap) && Enabled(s, a) && |s.callers| <= 1 && |Do(s, a).callers| <= 1
    requires s.cap == cap == Do(s, a).cap && s.threshold <= 1 && Do(s, a).ran == []
    requires a.Call? ==> a.c !in s.callers
    ensures GrowthInv(Do(s, a), cap)
  {
    match a
    case Call(c) => GrowthByCall(s, c, cap);
    case SetCap(_) =>
    case CallerStep(c, w) => GrowthByCaller(s, c, w, cap);
    case WorkerStep(w) => GrowthByWorker(s, w, cap);
  }

  lemma RanAndThreshold(s: State, a: Step)
    requires Enabled(s, a)
    ensures s.ran <= Do(s, a).ran && Do(s, a).threshold == s.threshold
  {
  }

  /** Before and after: one call at most, that cap, a threshold of at most 1, and no task has returned. */
  predicate Quiet(s: State, cap: int) { |s.callers| <= 1 && s.cap == cap && s.threshold <= 1 && s.ran == [] }

  ghost predicate Grows(s: State, s': State, cap: int) {
    && (Quiet(s', cap) && |s.callers| <= 1 && s.cap == cap ==> Quiet(s, cap))
    && (Quiet(s', cap) && Quiet(s, cap) && GrowthInv(s, cap) ==> GrowthInv(s', cap))
  }

  lemma GrowsByStep(s: State, a: Step, cap: int)
    requires Inv(s) && Enabled(s, a)
    ensures Grows(s, Do(s, a), cap)
  {
    RanAndThreshold(s, a);
    if Quiet(Do(s, a), cap) && Quiet(s, cap) && GrowthInv(s, cap) { GrowthByStep(s, a, cap); }
  }

  ghost predicate GrowthRun(trace: seq<State>, cap: int) {
    trace != [] && GrowthInv(trace[0], cap) && forall i | 0 <= i < |trace| - 1 :: Grows(trace[i], trace[i + 1], cap)
  }

  lemma RunIsGrowthRun(trace: seq<State>, cap: int)
    requires IsRun(trace)
    ensures GrowthRun(trace, cap)
  {
    forall i | 0 <= i < |trace| - 1 ensures Grows(trace[i], trace[i + 1], cap) {
      InvHolds(trace, i);
      assert IsStep(trace[i], trace[i + 1]);
      var a :| Enabled(trace[i], a) && trace[i + 1] == Do(trace[i], a);
      GrowsByStep(trace[i], a, cap);
    }
  }

  lemma {:induction false} GrowthHolds(trace: seq<State>, i: nat, cap: int)
    requires GrowthRun(trace, cap) && i < |trace| && Quiet(trace[i], cap)
    requires forall j | 0 <= j <= i :: trace[j].cap == cap && |trace[j].callers| <= 1
    ensures GrowthInv(trace[i], cap)
  {
    if i > 0 {
      assert Grows(trace[i - 1], trace[i - 1 + 1], cap);
      GrowthHolds(trace, i - 1, cap);
    }
  }

  /** With a threshold of at most 1 and cap fixed, calls made one after the other, whose tasks have not returned,
      leave exactly one worker each, up to max(cap, 1); and no worker is without a task to take. */
  lemma GrowsExactly(trace: seq<State>, i: nat, cap: int)
    requires IsRun(trace) && i < |trace| && trace[i].ran == [] && trace[i].threshold <= 1
    requires forall j | 0 <= j <= i :: trace[j].cap == cap && |trace[j].callers| <= 1
    requires trace[i].callers == map[]
    ensures var n := |trace[i].calls|;
            trace[i].workerCount == |trace[i].workers| == if n <= cap || n <= 1 then n else if cap > 1 then cap else 1
    ensures |trace[i].dequeued| + |trace[i].queue| == |trace[i].calls|
    ensures |trace[i].dequeued| <= |trace[i].workers| <= |trace[i].dequeued| + |trace[i].queue|
  {
    RunIsGrowthRun(trace, cap);
    GrowthHolds(trace, i, cap);
    BusyAtMost(trace[i].workers);
  }
}
