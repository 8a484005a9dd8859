/** The two-level fallback queue of the scheduler client over whole runs: callers of EnqueueTask
    and the one flusher goroutine, interleaved (pkg/scheduler/submit_buffer.go).

    A step is one critical section of the memory queue (FallbackMem) or of the disk queue
    (FallbackDisk), one SubmitTask call of the flusher, or a crash with restart. */
module FallbackQueue {
  import opened FallbackMem
  import opened FallbackDisk

  /** Where the flusher goroutine is. */
  datatype Phase = Idle | Sending1 | PuttingBack | Draining2 | Sending2

  datatype Outcome = Accepted | Retriable | Rejected

  datatype State = State(
    cap: nat, mem: Mem, disk: Disk, phase: Phase,
    spilling: set<nat>,  // tasks L1 had no room for, not yet offered to L2
    nextId: nat)

  datatype Step =
    | Enqueue                                      // localBuffer.push of a new task
    | Spill(id: nat, evict: nat, stored: bool)     // localSpool.push of a task L1 had no room for
    | Drain1(n: nat)
    | Send1(o: Outcome)
    | PutBack
    | Drain2(n: nat, readable: bool)
    | Send2(o: Outcome)
    | Ack(removed: bool)
    | Crash(evict: nat, nextNo: int)

  /** A first start, possibly over a directory that still holds tasks. */
  ghost predicate Initial(s: State) {
    && s.mem == Mem([], [], 0, [], [], [], [], []) && s.phase == Idle && s.spilling == {}
    && s.disk == Disk(s.disk.l2, [], false, s.disk.nextNo, Elems(s.disk.l2), [], {}, {}, true)
    && Rising(s.disk.l2) && forall r | r in s.disk.l2 :: r.no < s.disk.nextNo && r.id < s.nextId
  }

  predicate Enabled(s: State, a: Step) {
    match a
    case Enqueue => true
    case Spill(id, evict, _) => id in s.spilling && evict <= |s.disk.l2|
    case Drain1(n) => s.phase.Idle? && n <= |s.mem.l1| && (s.mem.l1 != [] ==> n > 0)
    case Send1(_) => s.phase.Sending1?
    case PutBack => s.phase.PuttingBack?
    case Drain2(n, _) => s.phase.Draining2? && n <= |s.disk.l2|
    case Send2(_) => s.phase.Sending2? && !s.disk.acking
    case Ack(_) => s.phase.Sending2? && s.disk.acking && s.disk.batch != []
    case Crash(evict, nextNo) => evict <= |s.disk.l2| && forall r | r in s.disk.l2 :: r.no < nextNo
  }

  function Do(s: State, a: Step): State
    requires Enabled(s, a)
  {
    match a
    case Enqueue =>
      if |s.mem.l1| < s.cap then s.(mem := Push1(s.mem, s.nextId), nextId := s.nextId + 1)
      else s.(spilling := s.spilling + {s.nextId}, nextId := s.nextId + 1)
    case Spill(id, evict, stored) => s.(spilling := s.spilling - {id}, disk := Push2(s.disk, id, evict, stored))
    case Drain1(n) => if n == 0 then s.(phase := Draining2) else s.(mem := Take1(s.mem, n), phase := Sending1)
    case Send1(o) =>
      if s.mem.batch == [] then s.(phase := Draining2) else
        (match o
         case Accepted => s.(mem := Deliver1(s.mem))
         case Retriable => s.(phase := PuttingBack)
         case Rejected => s.(mem := Reject1(s.mem)))
    case PutBack => s.(mem := PutBack1(s.mem, s.cap), phase := Idle)
    case Drain2(n, readable) =>
      if readable && n > 0 then s.(disk := Read2(s.disk, n), phase := Sending2) else s.(phase := Idle)
    case Send2(o) =>
      if s.disk.batch == [] then s.(phase := Idle) else
        (match o
         case Accepted => s.(disk := Deliver2(s.disk))
         case Retriable => s.(disk := Stop2(s.disk), phase := Idle)
         case Rejected => s.(disk := Reject2(s.disk)))
    case Ack(removed) => s.(disk := Ack2(s.disk, removed))
    case Crash(evict, nextNo) =>
      s.(mem := Crash1(s.mem), disk := Crash2(s.disk, evict, nextNo), phase := Idle, spilling := {})
  }

  ghost predicate MemInv(s: State) {
    && MemOk(s.mem, s.cap, s.nextId)
    && (s.mem.batch != [] ==> s.phase.Sending1? || s.phase.PuttingBack?)
  }

  ghost predicate DiskInv(s: State) {
    && Inv2(s.disk)
    && (s.disk.batch != [] ==> s.phase.Sending2?)
  }

  /** A task goes to one level only, so that at most one of the two overflow rules can drop it. */
  ghost predicate OneLevel(s: State) {
    && (forall id | id in s.spilling :: id < s.nextId && id !in s.mem.queued)
    && (forall r | r in s.disk.queued :: r.id < s.nextId && r.id !in s.mem.queued && r.id !in s.spilling)
  }

  ghost predicate Inv(s: State) { MemInv(s) && DiskInv(s) && OneLevel(s) }

  lemma MemKeptBySend(s: State, o: Outcome)
    requires MemInv(s) && Enabled(s, Send1(o))
    ensures MemInv(Do(s, Send1(o)))
  {
    if s.mem.batch != [] && o.Accepted? { Deliver1Keeps(s.mem, s.cap, s.nextId); }
    if s.mem.batch != [] && o.Rejected? { Reject1Keeps(s.mem, s.cap, s.nextId); }
  }

  lemma MemKeptByEnqueue(s: State)
    requires MemInv(s)
    ensures MemInv(Do(s, Enqueue))
  {
    if |s.mem.l1| < s.cap { Push1Keeps(s.mem, s.cap, s.nextId); } else { Skip1Keeps(s.mem, s.cap, s.nextId); }
  }

  lemma MemKept(s: State, a: Step)
    requires MemInv(s) && Enabled(s, a)
    ensures MemInv(Do(s, a))
  {
    match a
    case Enqueue => MemKeptByEnqueue(s);
    case Drain1(n) => if n > 0 { Take1Keeps(s.mem, n, s.cap, s.nextId); }
    case Send1(o) => MemKeptBySend(s, o);
    case PutBack => PutBack1Keeps(s.mem, s.cap, s.nextId);
    case Crash(_, _) => Crash1Keeps(s.mem, s.cap, s.nextId);
    case _ =>
  }

  lemma DiskKeptBySend(s: State, o: Outcome)
    requires DiskInv(s) && Enabled(s, Send2(o))
    ensures DiskInv(Do(s, Send2(o)))
  {
    if s.disk.batch != [] {
      match o
      case Accepted => Deliver2Keeps(s.disk);
      case Retriable => Stop2Keeps(s.disk);
      case Rejected => Reject2Keeps(s.disk);
    }
  }

  lemma DiskKept(s: State, a: Step)
    requires DiskInv(s) && Enabled(s, a)
    ensures DiskInv(Do(s, a))
  {
    match a
    case Spill(id, evict, stored) => Push2Keeps(s.disk, id, evict, stored);
    case Drain2(n, _) => Read2Keeps(s.disk, n);
    case Send2(o) => DiskKeptBySend(s, o);
    case Ack(removed) => Ack2Keeps(s.disk, removed);
    case Crash(evict, nextNo) => Crash2Keeps(s.disk, evict, nextNo);
    case _ =>
  }

  lemma OneLevelKept(s: State, a: Step)
    requires Inv(s) && Enabled(s, a)
    ensures OneLevel(Do(s, a))
  {
    if a.Enqueue? {
      forall id | id in s.mem.queued ensures id < s.nextId {
        var i :| 0 <= i < |s.mem.queued| && s.mem.queued[i] == id;
      }
    }
  }

  lemma InvKept(s: State, a: Step)
    requires Inv(s) && Enabled(s, a)
    ensures Inv(Do(s, a))
  {
    MemKept(s, a);
    DiskKept(s, a);
    OneLevelKept(s, a);
  }

  // ------------------------------------------------------------------ whole runs

  ghost predicate IsStep(s: State, s': State) { exists a :: Enabled(s, a) && s' == Do(s, a) }

  ghost predicate IsRun(trace: seq<State>) {
    && trace != [] && Initial(trace[0])
    && forall i | 0 <= i < |trace| - 1 :: IsStep(trace[i], trace[i + 1])
  }

  lemma InitialInv(s: State)
    requires Initial(s)
    ensures Inv(s)
  {
  }

  lemma {:induction false} InvHolds(trace: seq<State>, i: nat)
    requires IsRun(trace) && i < |trace|
    ensures Inv(trace[i])
  {
    if i == 0 {
      InitialInv(trace[0]);
    } else {
      InvHolds(trace, i - 1);
      assert IsStep(trace[i - 1], trace[i - 1 + 1]);
      var a :| Enabled(trace[i - 1], a) && trace[i] == Do(trace[i - 1], a);
      InvKept(trace[i - 1], a);
    }
  }

  /** Task accounting, memory level: every task reported as queued in memory is, at every later point
      and exactly once, in L1, in the flusher's batch, delivered, rejected, dropped by putBack, or
      lost with the process. */
  lemma EveryMemoryTaskAccounted(trace: seq<State>, i: nat)
    requires IsRun(trace) && i < |trace|
    ensures var m := trace[i].mem;
            && Increasing(m.queued)
            && multiset(m.queued) == multiset(m.l1) + multiset(m.batch) + multiset(m.delivered)
                                   + multiset(m.rejected) + multiset(m.overCap) + multiset(m.crashed)
  {
    InvHolds(trace, i);
  }

  /** Task accounting, disk level: a task reported as queued on disk is there until it is delivered,
      rejected or deleted to make room, crashes included; and no task meets both overflow rules. */
  lemma EveryDiskTaskAccounted(trace: seq<State>, i: nat)
    requires IsRun(trace) && i < |trace|
    ensures var d := trace[i].disk;
            && (forall r | r in d.queued :: r in d.l2 || r in d.delivered || r in d.rejected || r in d.overBytes)
            && (forall r | r in d.l2 || r in d.delivered || r in d.rejected || r in d.overBytes :: r in d.queued)
    ensures forall r | r in trace[i].disk.overBytes :: r.id !in trace[i].mem.overCap
  {
    InvHolds(trace, i);
    var m := trace[i].mem;
    forall r | r in trace[i].disk.overBytes ensures r.id !in m.overCap {
      assert r.id !in m.queued && r.id !in multiset(m.queued);
      assert multiset(m.overCap)[r.id] == 0;
    }
  }

  /** putBack drops at most as many tasks as were pushed since the drain it undoes. */
  lemma PutBackDropsAtMostPushes(trace: seq<State>, i: nat)
    requires IsRun(trace) && i < |trace| && Enabled(trace[i], PutBack)
    ensures var m, m' := trace[i].mem, Do(trace[i], PutBack).mem;
            |m'.overCap| - |m.overCap| <= m.sinceDrain && |m'.l1| <= trace[i].cap
  {
    InvHolds(trace, i);
  }

  /** Memory-level FIFO: successful submissions are strictly increasing in enqueue order, over all runs. */
  lemma MemoryFifo(trace: seq<State>, i: nat)
    requires IsRun(trace) && i < |trace|
    ensures Increasing(trace[i].mem.delivered)
  {
    InvHolds(trace, i);
    var m := trace[i].mem;
    Excise(Line1(m), |m.delivered|, |Line1(m)|, trace[i].nextId);
    assert Line1(m)[..|m.delivered|] + Line1(m)[|Line1(m)|..] == m.delivered;
  }

  /** Disk-level FIFO: while every ack has removed its file, no crash has come between a submission and
      its ack and no restart has reused a number, successful submissions are strictly increasing in
      sequence number, restarts included. */
  lemma DiskFifo(trace: seq<State>, i: nat)
    requires IsRun(trace) && i < |trace| && trace[i].disk.steady
    ensures Rising(trace[i].disk.delivered)
  {
    InvHolds(trace, i);
  }

  // ------------------------------------------------ when disk-level FIFO holds

  /** A step that does not leave a submitted task on disk: the ack removes its file or finds it gone, and
      the crash is not between a submission and its ack. */
  predicate Settles(s: State, a: Step) {
    && (a.Ack? && s.disk.batch != [] ==> a.removed || s.disk.batch[0] !in s.disk.l2)
    && (a.Crash? ==> !s.disk.acking)
  }

  /** Such a step that does not leave the next number behind either. */
  predicate Clean(s: State, a: Step) {
    Settles(s, a) && (a.Crash? ==> s.disk.nextNo <= a.nextNo)
  }

  /** Steps applied one after the other lead from s to end. */
  ghost predicate Reaches(s: State, steps: seq<Step>, end: State)
    decreases |steps|
  {
    if steps == [] then s == end else Enabled(s, steps[0]) && Reaches(Do(s, steps[0]), steps[1..], end)
  }

  /** Clean steps applied one after the other lead from s to end. */
  ghost predicate Continues(s: State, steps: seq<Step>, end: State)
    decreases |steps|
  {
    if steps == [] then s == end else
      Enabled(s, steps[0]) && Clean(s, steps[0]) && Continues(Do(s, steps[0]), steps[1..], end)
  }

  /** Whatever clean steps follow, submissions stay strictly increasing. */
  ghost predicate StaysFifo(s: State) {
    forall steps, end | Continues(s, steps, end) :: Rising(end.disk.delivered)
  }

  /** Everything still to come has a higher number than everything delivered. */
  ghost predicate Ahead(d: Disk) {
    Rising(d.delivered) && Above(d.delivered, d.nextNo) && forall r | r in d.l2 :: Above(d.delivered, r.no)
  }

  /** s with a clean history. */
  function Steadied(s: State): State { s.(disk := s.disk.(steady := true)) }

  lemma SteadiedStep(s: State, a: Step)
    requires Enabled(s, a) && Clean(s, a)
    ensures Enabled(Steadied(s), a) && Do(Steadied(s), a) == Steadied(Do(s, a))
  {
  }

  lemma {:induction false} SteadiedContinues(s: State, steps: seq<Step>, end: State)
    requires Inv(Steadied(s)) && Continues(s, steps, end)
    ensures Rising(end.disk.delivered)
    decreases |steps|
  {
    if steps != [] {
      var a := steps[0];
      SteadiedStep(s, a);
      InvKept(Steadied(s), a);
      SteadiedContinues(Do(s, a), steps[1..], end);
    }
  }

  lemma AheadStaysFifo(s: State)
    requires Inv(s) && s.phase.Idle? && Ahead(s.disk)
    ensures StaysFifo(s)
  {
    var d := Steadied(s).disk;
    forall r | r in d.l2 || r in d.batch ensures After(d, r) && Pending(d, r) {}
    forall steps, end | Continues(s, steps, end) ensures Rising(end.disk.delivered) {
      SteadiedContinues(s, steps, end);
    }
  }

  lemma BreaksLater(s: State, a: Step)
    requires Enabled(s, a) && Clean(s, a) && !StaysFifo(Do(s, a))
    ensures !StaysFifo(s)
  {
    var steps, end :| Continues(Do(s, a), steps, end) && !Rising(end.disk.delivered);
    assert ([a] + steps)[1..] == steps;
    assert Continues(s, [a] + steps, end);
  }

  lemma BrokenNow(s: State)
    requires !Rising(s.disk.delivered)
    ensures !StaysFifo(s)
  {
    assert Continues(s, [], s);
  }

  /** With L1 empty, the flusher can read and submit the oldest record on disk. */
  lemma HeadBreaks(s: State)
    requires Inv(s) && s.phase.Idle? && s.mem.l1 == [] && s.disk.l2 != [] && !Above(s.disk.delivered, s.disk.l2[0].no)
    ensures !StaysFifo(s)
  {
    var s1 := Do(s, Drain1(0));
    var s2 := Do(s1, Drain2(1, true));
    var s3 := Do(s2, Send2(Accepted));
    var x :| x in s.disk.delivered && x.no >= s.disk.l2[0].no;
    var i :| 0 <= i < |s.disk.delivered| && s.disk.delivered[i] == x;
    assert s3.disk.delivered[i].no >= s3.disk.delivered[|s.disk.delivered|].no;
    BrokenNow(s3);
    BreaksLater(s2, Send2(Accepted));
    BreaksLater(s1, Drain2(1, true));
    BreaksLater(s, Drain1(0));
  }

  /** A record on disk that is not ahead of the deliveries breaks FIFO, whatever is in L1: a crash loses that. */
  lemma BehindBreaks(s: State, r: Rec)
    requires Inv(s) && !s.disk.acking && r in s.disk.l2 && !Above(s.disk.delivered, r.no)
    ensures !StaysFifo(s)
  {
    var a := Crash(0, s.disk.nextNo);
    var s' := Do(s, a);
    InvKept(s, a);
    assert s'.disk.l2 == s.disk.l2;
    var i :| 0 <= i < |s.disk.l2| && s.disk.l2[i] == r;
    assert s.disk.l2[0].no <= r.no;
    HeadBreaks(s');
    BreaksLater(s, a);
  }

  /** A next number that is not ahead of the deliveries does too: enqueue until L1 is full, then once more. */
  lemma {:induction false} LowNumberBreaks(s: State)
    requires Inv(s) && !s.disk.acking && !Above(s.disk.delivered, s.disk.nextNo)
    ensures !StaysFifo(s)
    decreases s.cap - |s.mem.l1|
  {
    var s1 := Do(s, Enqueue);
    InvKept(s, Enqueue);
    if |s.mem.l1| < s.cap {
      LowNumberBreaks(s1);
    } else {
      var a := Spill(s.nextId, 0, true);
      var s2 := Do(s1, a);
      InvKept(s1, a);
      BehindBreaks(s2, Rec(s.disk.nextNo, s.nextId));
      BreaksLater(s1, a);
    }
    BreaksLater(s, Enqueue);
  }

  /** Between two rounds of the flusher: from here on every clean continuation, restarts included, submits in
      strictly increasing order, exactly if all on disk and all that will be is ahead of what was delivered. */
  lemma StaysFifoExactly(s: State)
    requires Inv(s) && s.phase.Idle?
    ensures StaysFifo(s) <==> Ahead(s.disk)
  {
    if Ahead(s.disk) {
      AheadStaysFifo(s);
    } else if !Rising(s.disk.delivered) {
      BrokenNow(s);
    } else if !Above(s.disk.delivered, s.disk.nextNo) {
      LowNumberBreaks(s);
    } else {
      var r :| r in s.disk.l2 && !Above(s.disk.delivered, r.no);
      BehindBreaks(s, r);
    }
  }

  /** The same, for any point of any run. */
  lemma DiskFifoExactly(trace: seq<State>, i: nat)
    requires IsRun(trace) && i < |trace| && trace[i].phase.Idle?
    ensures StaysFifo(trace[i]) <==> Ahead(trace[i].disk)
  {
    InvHolds(trace, i);
    StaysFifoExactly(trace[i]);
  }

  /** An ack that fails to remove the file of a delivered record breaks FIFO: a clean continuation can submit
      it again. */
  lemma FailedAckRedelivers(s: State)
    requires Inv(s) && Enabled(s, Ack(false)) && s.disk.batch[0] in s.disk.l2 && s.disk.batch[0] in s.disk.delivered
    ensures !StaysFifo(Do(s, Ack(false)))
  {
    InvKept(s, Ack(false));
    BehindBreaks(Do(s, Ack(false)), s.disk.batch[0]);
  }

  /** So does a crash between the submission and its ack, unless the restart evicts the record. */
  lemma CrashBeforeAckRedelivers(s: State, evict: nat, nextNo: int)
    requires Inv(s) && Enabled(s, Crash(evict, nextNo)) && s.disk.acking
    requires s.disk.batch[0] in s.disk.l2[evict..] && s.disk.batch[0] in s.disk.delivered
    ensures !StaysFifo(Do(s, Crash(evict, nextNo)))
  {
    var a := Crash(evict, nextNo);
    InvKept(s, a);
    BehindBreaks(Do(s, a), s.disk.batch[0]);
  }

  lemma Extend(trace: seq<State>, a: Step) returns (trace': seq<State>)
    requires IsRun(trace) && Enabled(trace[|trace| - 1], a)
    ensures IsRun(trace') && trace' == trace + [Do(trace[|trace| - 1], a)]
  {
    trace' := trace + [Do(trace[|trace| - 1], a)];
    assert IsStep(trace[|trace| - 1], trace'[|trace|]);
    forall i | 0 <= i < |trace'| - 1 ensures IsStep(trace'[i], trace'[i + 1]) {
      if i < |trace| - 1 { assert IsStep(trace[i], trace[i + 1]); }
    }
  }

  /** The first start over a directory that holds one task. */
  function OneOnDisk(cap: nat): State {
    State(cap, Mem([], [], 0, [], [], [], [], []),
          Disk([Rec(1, 0)], [], false, 2, {Rec(1, 0)}, [], {}, {}, true), Idle, {}, 1)
  }

  lemma StartsWithOne(cap: nat) returns (trace: seq<State>)
    ensures IsRun(trace) && trace == [OneOnDisk(cap)]
  {
    trace := [OneOnDisk(cap)];
    assert Elems([Rec(1, 0)]) == {Rec(1, 0)};
  }

  /** The flusher finds one task on disk, with L1 empty, and gets it accepted. */
  lemma Accepts(trace: seq<State>) returns (trace': seq<State>)
    requires IsRun(trace)
    requires var s := trace[|trace| - 1]; s.phase.Idle? && s.mem.l1 == [] && |s.disk.l2| == 1 && !s.disk.acking
    ensures IsRun(trace') && trace <= trace'
    ensures var s := trace[|trace| - 1];
            var d := s.disk.(batch := s.disk.l2, acking := true, delivered := s.disk.delivered + [s.disk.l2[0]]);
            trace'[|trace'| - 1] == s.(disk := d, phase := Sending2)
  {
    trace' := Extend(trace, Drain1(0));
    trace' := Extend(trace', Drain2(1, true));
    trace' := Extend(trace', Send2(Accepted));
    assert trace[|trace| - 1].disk.l2[..1] == trace[|trace| - 1].disk.l2;
  }

  /** A run, for any capacity, that submits one task twice because its file could not be removed. */
  lemma TwiceDeliveredRun(cap: nat) returns (trace: seq<State>)
    requires cap >= 1
    ensures IsRun(trace) && trace[0].cap == cap
    ensures trace[|trace| - 1].disk.delivered == [Rec(1, 0), Rec(1, 0)]
  {
    trace := StartsWithOne(cap);
    trace := Accepts(trace);
    trace := Extend(trace, Ack(false));
    trace := Extend(trace, Send2(Accepted));
    trace := Accepts(trace);
  }

  /** A run in which no removal fails and that submits one task twice, because the process dies in between. */
  lemma TwiceDeliveredByCrashRun(cap: nat) returns (trace: seq<State>)
    requires cap >= 1
    ensures IsRun(trace) && trace[0].cap == cap
    ensures trace[|trace| - 1].disk.delivered == [Rec(1, 0), Rec(1, 0)]
  {
    trace := StartsWithOne(cap);
    trace := Accepts(trace);
    trace := Extend(trace, Crash(0, 2));
    trace := Accepts(trace);
  }

  /** A run in which no submitted task is left on disk. */
  ghost predicate IsSettledRun(trace: seq<State>) {
    && IsRun(trace)
    && forall i | 0 <= i < |trace| - 1 :: IsSettledStep(trace[i], trace[i + 1])
  }

  ghost predicate IsSettledStep(s: State, s': State) { exists a :: Enabled(s, a) && Settles(s, a) && s' == Do(s, a) }

  lemma ExtendSettled(trace: seq<State>, a: Step) returns (trace': seq<State>)
    requires IsSettledRun(trace) && Enabled(trace[|trace| - 1], a) && Settles(trace[|trace| - 1], a)
    ensures IsSettledRun(trace') && trace' == trace + [Do(trace[|trace| - 1], a)]
  {
    trace' := Extend(trace, a);
    assert IsSettledStep(trace[|trace| - 1], trace'[|trace|]);
    forall i | 0 <= i < |trace'| - 1 ensures IsSettledStep(trace'[i], trace'[i + 1]) {
      if i < |trace| - 1 { assert IsSettledStep(trace[i], trace[i + 1]); }
    }
  }

  /** Enqueues n tasks for which L1 has room. */
  lemma {:induction false} Fills(trace: seq<State>, n: nat) returns (trace': seq<State>)
    requires IsSettledRun(trace)
    requires var s := trace[|trace| - 1]; |s.mem.l1| + n <= s.cap
    ensures IsSettledRun(trace') && trace'[0] == trace[0]
    ensures var s, s' := trace[|trace| - 1], trace'[|trace'| - 1];
            |s'.mem.l1| == |s.mem.l1| + n && s'.nextId == s.nextId + n && s' == s.(mem := s'.mem, nextId := s'.nextId)
    decreases n
  {
    trace' := trace;
    if n > 0 {
      trace' := ExtendSettled(trace, Enqueue);
      trace' := Fills(trace', n - 1);
    }
  }

  /** Gets the whole batch from L1 accepted. */
  lemma {:induction false} Sends(trace: seq<State>) returns (trace': seq<State>)
    requires IsSettledRun(trace) && trace[|trace| - 1].phase.Sending1?
    ensures IsSettledRun(trace') && trace'[0] == trace[0]
    ensures var s, s' := trace[|trace| - 1], trace'[|trace'| - 1];
            s' == s.(mem := s'.mem, phase := Draining2)
    decreases |trace[|trace| - 1].mem.batch|
  {
    var s := trace[|trace| - 1];
    trace' := ExtendSettled(trace, Send1(Accepted));
    if s.mem.batch != [] { trace' := Sends(trace'); }
  }

  /** A run that delivers number 1, restarts with a clock that gives out 1 again, fills L1 and spills one task. */
  lemma NumberReused(cap: nat) returns (trace: seq<State>)
    requires cap >= 1
    ensures IsSettledRun(trace) && trace[0].cap == cap
    ensures var s := trace[|trace| - 1];
            && s.phase.Idle? && |s.mem.l1| == cap && !s.disk.acking
            && s.disk.l2 == [Rec(1, cap + 1)] && s.disk.delivered == [Rec(1, 0)]
  {
    trace := StartsWithOne(cap);
    trace := ExtendSettled(trace, Drain1(0));
    trace := ExtendSettled(trace, Drain2(1, true));
    trace := ExtendSettled(trace, Send2(Accepted));
    trace := ExtendSettled(trace, Ack(true));
    trace := ExtendSettled(trace, Send2(Accepted));
    trace := ExtendSettled(trace, Crash(0, 1));
    trace := Fills(trace, cap);
    trace := ExtendSettled(trace, Enqueue);
    trace := ExtendSettled(trace, Spill(cap + 1, 0, true));
  }

  /** A run in which no removal fails and no crash comes between a submission and its ack, and that delivers
      two tasks under one number, because the clock of a restart is behind. */
  lemma NumberTwiceRun(cap: nat) returns (trace: seq<State>)
    requires cap >= 1
    ensures IsSettledRun(trace) && trace[0].cap == cap
    ensures trace[|trace| - 1].disk.delivered == [Rec(1, 0), Rec(1, cap + 1)]
  {
    trace := NumberReused(cap);
    trace := ExtendSettled(trace, Drain1(cap));
    trace := Sends(trace);
    trace := ExtendSettled(trace, Drain2(1, true));
    trace := ExtendSettled(trace, Send2(Accepted));
  }
}
