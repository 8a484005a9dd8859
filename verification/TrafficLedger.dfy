/** Byte conservation in the traffic tracker, over every interleaving of business goroutines and of
    the flush goroutines of several instances that share one Redis (pkg/traffic/tracker.go).

    A cell is one counter: one device and direction in one instance. A step is one atomic access:
    an AddInt64, a SwapInt64, one HINCRBY executed by the server, or one AddInt64 of the rollback. */
module TrafficLedger {
  import opened MapSums

  /** What the flush goroutine holds of a cell. */
  datatype Held =
    | Nothing
    | Swapped(n: nat)   // taken out of memory, its HINCRBY not executed
    | Applied(n: nat)   // its HINCRBY executed, the pipeline's outcome not yet acted upon

  datatype Cell = Cell(instance: nat, field: string, memory: nat, held: Held, added: nat)

  /** Where the flush of an instance is. */
  datatype Flush = Idle | Swapping | Executing | Committing | RollingBack

  datatype State = State(
    cells: map<nat, Cell>,
    flush: map<nat, Flush>,
    redis: map<string, nat>,       // the hash of the current hour
    late: map<string, nat>,        // rolled back, but the server may still execute the HINCRBY
    dup: map<string, nat>)         // history: bytes rolled back that the server added all the same

  datatype Step =
    | Add(c: nat, n: nat)          // AddUp or AddDown on a tracked device
    | Begin(i: nat)
    | Swap(c: nat)
    | Exec(i: nat)                 // pipe.Exec starts
    | Apply(c: nat)
    | ExecOk(i: nat)               // pipe.Exec returns no error
    | ExecFailed(i: nat)
    | Discard(c: nat)
    | Rollback(c: nat)
    | ApplyLate(f: string, n: nat) // a command of a failed pipeline, executed after its rollback
    | End(i: nat)

  function Plus(m: map<string, nat>, f: string, n: nat): map<string, nat> { m[f := Lookup(m, f) + n] }

  function PhaseOf(s: State, i: nat): Flush { if i in s.flush then s.flush[i] else Idle }

  predicate In(s: State, c: nat, phase: Flush) { c in s.cells && PhaseOf(s, s.cells[c].instance) == phase }

  /** Every command of instance i's pipeline was executed; a zero count has none. */
  ghost predicate AllApplied(s: State, i: nat) {
    forall c | c in s.cells && s.cells[c].instance == i :: s.cells[c].held.Swapped? ==> s.cells[c].held.n == 0
  }

  ghost predicate NothingHeld(s: State, i: nat) {
    forall c | c in s.cells && s.cells[c].instance == i :: s.cells[c].held.Nothing?
  }

  ghost predicate Enabled(s: State, a: Step) {
    match a
    case Add(c, n) => c in s.cells && n > 0
    case Begin(i) => PhaseOf(s, i).Idle?
    case Swap(c) => In(s, c, Swapping) && s.cells[c].held.Nothing?
    case Exec(i) => PhaseOf(s, i).Swapping?
    case Apply(c) => (In(s, c, Executing) || In(s, c, RollingBack)) && s.cells[c].held.Swapped?
    case ExecOk(i) => PhaseOf(s, i).Executing? && AllApplied(s, i)
    case ExecFailed(i) => PhaseOf(s, i).Executing?
    case Discard(c) => In(s, c, Committing)
    case Rollback(c) => In(s, c, RollingBack)
    case ApplyLate(f, n) => n <= Lookup(s.late, f)
    case End(i) => (PhaseOf(s, i).Committing? || PhaseOf(s, i).RollingBack?) && NothingHeld(s, i)
  }

  function Put(s: State, c: nat, cell: Cell): State { s.(cells := s.cells[c := cell]) }

  function DoRollback(s: State, c: nat): State
    requires c in s.cells
  {
    var v := s.cells[c];
    match v.held
    case Nothing => s
    case Swapped(n) => Put(s, c, v.(memory := v.memory + n, held := Nothing)).(late := Plus(s.late, v.field, n))
    case Applied(n) => Put(s, c, v.(memory := v.memory + n, held := Nothing)).(dup := Plus(s.dup, v.field, n))
  }

  function Do(s: State, a: Step): State
    requires Enabled(s, a)
  {
    match a
    case Add(c, n) => var v := s.cells[c]; Put(s, c, v.(memory := v.memory + n, added := v.added + n))
    case Begin(i) => s.(flush := s.flush[i := Swapping])
    case Swap(c) => var v := s.cells[c]; Put(s, c, v.(memory := 0, held := Swapped(v.memory)))
    case Exec(i) => s.(flush := s.flush[i := Executing])
    case Apply(c) =>
      var v := s.cells[c];
      Put(s, c, v.(held := Applied(v.held.n))).(redis := Plus(s.redis, v.field, v.held.n))
    case ExecOk(i) => s.(flush := s.flush[i := Committing])
    case ExecFailed(i) => s.(flush := s.flush[i := RollingBack])
    case Discard(c) => Put(s, c, s.cells[c].(held := Nothing))
    case Rollback(c) => DoRollback(s, c)
    case ApplyLate(f, n) =>
      s.(redis := Plus(s.redis, f, n), dup := Plus(s.dup, f, n), late := s.late[f := Lookup(s.late, f) - n])
    case End(i) => s.(flush := s.flush[i := Idle])
  }

  ghost predicate Initial(s: State) {
    && (forall c | c in s.cells :: s.cells[c].memory == s.cells[c].added == 0 && s.cells[c].held.Nothing?)
    && s.flush == map[] && s.redis == map[] && s.late == map[] && s.dup == map[]
  }

  // ------------------------------------------------------------------- the law

  /** What a cell has not yet handed to Redis under field f. */
  function Owed(v: Cell, f: string): nat {
    if v.field != f then 0 else v.memory + if v.held.Swapped? then v.held.n else 0
  }

  function AddedTo(v: Cell, f: string): nat { if v.field == f then v.added else 0 }

  /** Memory and in-flight bytes of field f, over all instances. */
  ghost function TotalOwed(s: State, f: string): nat { MapSum(s.cells, (v: Cell) => Owed(v, f)) }

  ghost function TotalAdded(s: State, f: string): nat { MapSum(s.cells, (v: Cell) => AddedTo(v, f)) }

  ghost predicate Law(s: State, f: string) {
    TotalOwed(s, f) + Lookup(s.redis, f) == TotalAdded(s, f) + Lookup(s.dup, f)
  }

  /** Only a flush in progress holds anything, and nothing is discarded that was not applied. */
  ghost predicate Phases(s: State) {
    forall c | c in s.cells ::
      var v, phase := s.cells[c], PhaseOf(s, s.cells[c].instance);
      && (phase.Idle? ==> v.held.Nothing?)
      && (phase.Swapping? ==> !v.held.Applied?)
      && (phase.Committing? && v.held.Swapped? ==> v.held.n == 0)
  }

  lemma Change(s: State, s': State, c: nat, f: string)
    requires c in s.cells && c in s'.cells && AgreeOff(s.cells, s'.cells, c)
    ensures TotalOwed(s', f) + Owed(s.cells[c], f) == TotalOwed(s, f) + Owed(s'.cells[c], f)
    ensures TotalAdded(s', f) + AddedTo(s.cells[c], f) == TotalAdded(s, f) + AddedTo(s'.cells[c], f)
  {
    MapSumChange(s.cells, s'.cells, c, (v: Cell) => Owed(v, f));
    MapSumChange(s.cells, s'.cells, c, (v: Cell) => AddedTo(v, f));
  }

  /** What a step has to balance when it touches only cell c. */
  lemma LawBalanced(s: State, s': State, c: nat, f: string)
    requires Law(s, f) && c in s.cells && c in s'.cells && AgreeOff(s.cells, s'.cells, c)
    requires Owed(s'.cells[c], f) + Lookup(s'.redis, f) + AddedTo(s.cells[c], f) + Lookup(s.dup, f)
          == Owed(s.cells[c], f) + Lookup(s.redis, f) + AddedTo(s'.cells[c], f) + Lookup(s'.dup, f)
    ensures Law(s', f)
  {
    Change(s, s', c, f);
  }

  /** Every step keeps the law: an Add raises both sides, all others move bytes from one term to another. */
  lemma LawKept(s: State, a: Step, f: string)
    requires Law(s, f) && Phases(s) && Enabled(s, a)
    ensures Law(Do(s, a), f)
  {
    if a.Add? || a.Swap? || a.Apply? || a.Discard? || a.Rollback? {
      LawBalanced(s, Do(s, a), a.c, f);
    }
  }

  lemma PhasesKept(s: State, a: Step)
    requires Phases(s) && Enabled(s, a)
    ensures Phases(Do(s, a))
  {
  }

  lemma {:induction false} SumOfZeros(m: map<nat, Cell>, w: Cell -> nat)
    requires forall c | c in m :: w(m[c]) == 0
    ensures MapSum(m, w) == 0
  {
    if MapSum(m, w) > 0 { var c := MapSumPositive(m, w); }
  }

  lemma InitialLaw(s: State, f: string)
    requires Initial(s)
    ensures Law(s, f) && Phases(s)
  {
    SumOfZeros(s.cells, (v: Cell) => Owed(v, f));
    SumOfZeros(s.cells, (v: Cell) => AddedTo(v, f));
  }

  // ------------------------------------------------------------------ whole runs

  ghost predicate IsRun(trace: seq<State>, steps: seq<Step>) {
    && |trace| == |steps| + 1 && Initial(trace[0])
    && forall i | 0 <= i < |steps| :: Enabled(trace[i], steps[i]) && trace[i + 1] == Do(trace[i], steps[i])
  }

  /** At every point of every run, and for every field: what is in memory, in flight and in Redis is what
      was added, plus what the server executed although its pipeline failed. So nothing is ever lost. */
  lemma {:induction false} BytesConserved(trace: seq<State>, steps: seq<Step>, i: nat, f: string)
    requires IsRun(trace, steps) && i < |trace|
    ensures TotalOwed(trace[i], f) + Lookup(trace[i].redis, f) == TotalAdded(trace[i], f) + Lookup(trace[i].dup, f)
    ensures Phases(trace[i])
  {
    if i == 0 {
      InitialLaw(trace[0], f);
    } else {
      BytesConserved(trace, steps, i - 1, f);
      LawKept(trace[i - 1], steps[i - 1], f);
      PhasesKept(trace[i - 1], steps[i - 1]);
    }
  }

  /** The step makes Redis keep bytes of field f that are rolled back. */
  ghost predicate DuplicatesOn(s: State, a: Step, f: string) {
    || (a.Rollback? && a.c in s.cells && s.cells[a.c].field == f && s.cells[a.c].held.Applied?
        && s.cells[a.c].held.n > 0)
    || (a.ApplyLate? && a.f == f && a.n > 0)
  }

  lemma DupStep(s: State, a: Step, f: string)
    requires Enabled(s, a)
    ensures Lookup(Do(s, a).dup, f) >= Lookup(s.dup, f)
    ensures Lookup(Do(s, a).dup, f) > Lookup(s.dup, f) <==> DuplicatesOn(s, a, f)
  {
  }

  lemma {:induction false} DupPositive(trace: seq<State>, steps: seq<Step>, i: nat, f: string)
    requires IsRun(trace, steps) && i < |trace|
    ensures Lookup(trace[i].dup, f) == 0 <==> forall j | 0 <= j < i :: !DuplicatesOn(trace[j], steps[j], f)
  {
    if i > 0 {
      DupPositive(trace, steps, i - 1, f);
      DupStep(trace[i - 1], steps[i - 1], f);
    }
  }

  /** Nothing of a field is counted twice exactly if no failed pipeline has had an effect on that field. */
  lemma NoDuplicatesExactly(trace: seq<State>, steps: seq<Step>, i: nat, f: string)
    requires IsRun(trace, steps) && i < |trace|
    ensures TotalOwed(trace[i], f) + Lookup(trace[i].redis, f) == TotalAdded(trace[i], f)
            <==> forall j | 0 <= j < i :: !DuplicatesOn(trace[j], steps[j], f)
  {
    BytesConserved(trace, steps, i, f);
    DupPositive(trace, steps, i, f);
  }

  ghost predicate Flushed(s: State, f: string) {
    forall c | c in s.cells && s.cells[c].field == f :: s.cells[c].memory == 0 && PhaseOf(s, s.cells[c].instance).Idle?
  }

  /** Once everything is flushed, Redis holds at least what was added, and exactly that just if no failed
      pipeline has had an effect on the field. */
  lemma RedisIsTheTotal(trace: seq<State>, steps: seq<Step>, i: nat, f: string)
    requires IsRun(trace, steps) && i < |trace| && Flushed(trace[i], f)
    ensures Lookup(trace[i].redis, f) >= TotalAdded(trace[i], f)
    ensures Lookup(trace[i].redis, f) == TotalAdded(trace[i], f) <==>
              forall j | 0 <= j < i :: !DuplicatesOn(trace[j], steps[j], f)
  {
    BytesConserved(trace, steps, i, f);
    SumOfZeros(trace[i].cells, (v: Cell) => Owed(v, f));
    NoDuplicatesExactly(trace, steps, i, f);
  }

  lemma Extend(trace: seq<State>, steps: seq<Step>, a: Step) returns (trace': seq<State>, steps': seq<Step>)
    requires IsRun(trace, steps) && Enabled(trace[|steps|], a)
    ensures IsRun(trace', steps') && trace' == trace + [Do(trace[|steps|], a)] && steps' == steps + [a]
  {
    trace', steps' := trace + [Do(trace[|steps|], a)], steps + [a];
  }

  /** Five bytes were added and have been swapped out. */
  lemma FiveInFlight() returns (trace: seq<State>, steps: seq<Step>)
    ensures IsRun(trace, steps)
    ensures trace[|steps|] == State(map[0 := Cell(0, "f", 0, Swapped(5), 5)], map[0 := Executing], map[], map[], map[])
  {
    trace, steps := [State(map[0 := Cell(0, "f", 0, Nothing, 0)], map[], map[], map[], map[])], [];
    trace, steps := Extend(trace, steps, Add(0, 5));
    trace, steps := Extend(trace, steps, Begin(0));
    trace, steps := Extend(trace, steps, Swap(0));
    trace, steps := Extend(trace, steps, Exec(0));
  }

  /** A failed pipeline can count twice: then Redis has them, and they are in memory again. */
  lemma FailedPipelineCountsTwice() returns (trace: seq<State>, steps: seq<Step>)
    ensures IsRun(trace, steps)
    ensures var s := trace[|steps|];
            s.cells == map[0 := Cell(0, "f", 5, Nothing, 5)] && Lookup(s.redis, "f") == 5
  {
    trace, steps := FiveInFlight();
    trace, steps := Extend(trace, steps, Apply(0));
    trace, steps := Extend(trace, steps, ExecFailed(0));
    trace, steps := Extend(trace, steps, Rollback(0));
  }
}
