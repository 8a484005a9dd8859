/** The job executor over whole sessions: what is reported, who can be cancelled, how sessions end up when
    messages stop, and what a failed stream.Send does (pkg/scheduler/executor.go, stream.go lines 109-233). */
module Executor {
  import opened MapSums
  import opened ExecutorSteps

  ghost predicate IsStep(s: State, s': State) { exists a :: Enabled(s, a) && s' == Do(s, a) }

  ghost predicate IsRun(trace: seq<State>) {
    && trace != [] && Initial(trace[0])
    && forall i | 0 <= i < |trace| - 1 :: IsStep(trace[i], trace[i + 1])
  }

  lemma {:induction false} InvHolds(trace: seq<State>, i: nat)
    requires IsRun(trace) && i < |trace|
    ensures Inv(trace[i])
  {
    if i > 0 {
      InvHolds(trace, i - 1);
      assert IsStep(trace[i - 1], trace[i - 1 + 1]);
      var a :| Enabled(trace[i - 1], a) && trace[i] == Do(trace[i - 1], a);
      InvKept(trace[i - 1], a);
    }
  }

  /** Every dispatch is acknowledged exactly once, by the time the receive loop takes its next message,
      and the Ack says whether the dispatch got a slot. */
  lemma OneAckPerDispatch(trace: seq<State>, i: nat, k: nat)
    requires IsRun(trace) && i < |trace|
    ensures Acks(trace[i].log, k) <= 1
    ensures trace[i].recv.Idle? && k < |trace[i].past.dispatched| ==> Acks(trace[i].log, k) == 1
    ensures forall j | 0 <= j < |trace[i].log| && trace[i].log[j].Ack? && trace[i].log[j].run == k ::
              trace[i].log[j].yes <==> k in trace[i].past.accepted
  {
    InvHolds(trace, i);
    assert Reports(trace[i], k);
    assert forall j | 0 <= j < |trace[i].log| :: Proper(trace[i], j, trace[i].log[j]);
  }

  /** A dispatch has at most one Result, only if it was accepted, only after its accepting Ack in
      channel order, and exactly one once its goroutine is gone. */
  lemma OneResultAfterAck(trace: seq<State>, i: nat, k: nat)
    requires IsRun(trace) && i < |trace|
    ensures Results(trace[i].log, k) <= (if k in trace[i].past.accepted then 1 else 0)
    ensures k in trace[i].past.accepted && k !in trace[i].runs && trace[i].recv.Idle? ==> Results(trace[i].log, k) == 1
    ensures forall j | 0 <= j < |trace[i].log| && trace[i].log[j].Result? ::
              AckedBefore(trace[i].log, j, trace[i].log[j].run)
  {
    InvHolds(trace, i);
    assert Reports(trace[i], k);
    assert forall j | 0 <= j < |trace[i].log| :: Proper(trace[i], j, trace[i].log[j]);
  }

  /** Success is reported exactly for a handler that returned no error, a timeout for an error that matches
      DeadlineExceeded, a cancellation for another one that matches Canceled, and failure for the rest. */
  lemma ResultTellsOutcome(trace: seq<State>, i: nat, j: nat)
    requires IsRun(trace) && i < |trace| && j < |trace[i].log| && trace[i].log[j].Result?
    ensures trace[i].log[j].run in trace[i].past.returned
    ensures var err, status := trace[i].past.returned[trace[i].log[j].run], trace[i].log[j].status;
            && (status == Success <==> err == NoError)
            && (status == Timeout <==> err.Error? && err.deadline)
            && (status == Canceled <==> err == Error(false, true))
            && (status == Failed <==> err == Error(false, false))
  {
    InvHolds(trace, i);
    assert Told(trace[i].past.returned, trace[i].log[j].run, trace[i].log[j].status);
  }

  lemma {:induction false} ResultIsThere(log: seq<Msg>, k: nat) returns (j: nat)
    requires Results(log, k) > 0
    ensures j < |log| && log[j].Result? && log[j].run == k
  {
    var n := |log| - 1;
    if log[n].Result? && log[n].run == k { j := n; } else { j := ResultIsThere(log[..n], k); }
  }

  /** Once the goroutine of an accepted dispatch is gone, its outcome has been put into the channel. */
  lemma EveryOutcomeReported(trace: seq<State>, i: nat, k: nat) returns (j: nat)
    requires IsRun(trace) && i < |trace| && k in trace[i].past.accepted && k !in trace[i].runs && trace[i].recv.Idle?
    ensures j < |trace[i].log| && k in trace[i].past.returned
    ensures trace[i].log[j] == Result(k, StatusOf(trace[i].past.returned[k]))
  {
    OneResultAfterAck(trace, i, k);
    j := ResultIsThere(trace[i].log, k);
    InvHolds(trace, i);
    assert Told(trace[i].past.returned, trace[i].log[j].run, trace[i].log[j].status);
  }

  // ------------------------------------------------------------ who gets a slot

  /** In state j the receive loop tries to take a slot for dispatch k. */
  ghost predicate Tries(trace: seq<State>, j: nat, k: nat) {
    j + 1 < |trace| && trace[j].recv == Acquiring(k) && trace[j + 1].recv != Acquiring(k)
  }

  /** Where the receive loop was before a step that takes it to pc: a registered job is rejected for want of a
      slot, and accepted for a free one. */
  ghost predicate Moved(s: State, s': State) {
    && (s'.recv.Rejecting? && s'.recv.k in s'.past.known ==>
          (s'.recv == s.recv && s'.recv.k in s.past.known) || (s.recv == Acquiring(s'.recv.k) && s.sem >= s.max))
    && (s'.recv.Accepting? ==> s'.recv == s.recv || (s.recv == Acquiring(s'.recv.k) && s.sem < s.max))
  }

  /** What a step puts into the channel about dispatches. */
  ghost predicate Acked(s: State, s': State) {
    && s.log <= s'.log && s.past.known <= s'.past.known
    && (forall i | |s.log| <= i < |s'.log| && s'.log[i].Ack? ::
          s.recv == if s'.log[i].yes then Accepting(s'.log[i].run) else Rejecting(s'.log[i].run))
    && (forall k | k in s'.past.known && k !in s.past.known :: k == |s.past.dispatched|)
  }

  lemma MovedByStep(s: State, a: Step)
    requires Consistent(s) && Enabled(s, a)
    ensures Moved(s, Do(s, a)) && Acked(s, Do(s, a))
  {
    match a
    case RecvStep => MovedByRecv(s);
    case RunStep(k) => MovedByRun(s, k);
    case _ =>
  }

  lemma MovedByRecv(s: State)
    requires Enabled(s, RecvStep)
    ensures Moved(s, DoRecv(s)) && Acked(s, DoRecv(s))
  {
  }

  lemma MovedByRun(s: State, k: nat)
    requires Enabled(s, RunStep(k))
    ensures Moved(s, DoRun(s, k)) && Acked(s, DoRun(s, k))
  {
  }

  /** What matters of a run for the slots. */
  ghost predicate SlotRun(trace: seq<State>) {
    && trace != [] && trace[0].recv.Idle? && trace[0].log == []
    && forall i | 0 <= i < |trace| - 1 :: Moved(trace[i], trace[i + 1]) && Acked(trace[i], trace[i + 1])
  }

  lemma RunIsSlotRun(trace: seq<State>)
    requires IsRun(trace)
    ensures SlotRun(trace)
  {
    forall i | 0 <= i < |trace| - 1 ensures Moved(trace[i], trace[i + 1]) && Acked(trace[i], trace[i + 1]) {
      InvHolds(trace, i);
      assert IsStep(trace[i], trace[i + 1]);
      var a :| Enabled(trace[i], a) && trace[i + 1] == Do(trace[i], a);
      MovedByStep(trace[i], a);
    }
  }

  lemma {:induction false} Tried(trace: seq<State>, i: nat) returns (j: nat)
    requires SlotRun(trace) && i < |trace|
    requires trace[i].recv.Accepting? || (trace[i].recv.Rejecting? && trace[i].recv.k in trace[i].past.known)
    ensures j < i && Tries(trace, j, trace[i].recv.k)
    ensures trace[i].recv.Accepting? <==> trace[j].sem < trace[j].max
  {
    assert i > 0;
    assert Moved(trace[i - 1], trace[i - 1 + 1]);
    if trace[i - 1].recv == trace[i].recv { j := Tried(trace, i - 1); } else { j := i - 1; }
  }

  /** The state in which the Ack at position n was put into the channel. */
  lemma {:induction false} AckedAt(trace: seq<State>, i: nat, n: nat) returns (m: nat)
    requires SlotRun(trace) && i < |trace| && n < |trace[i].log| && trace[i].log[n].Ack?
    ensures var k := trace[i].log[n].run;
            m < i && trace[m].recv == if trace[i].log[n].yes then Accepting(k) else Rejecting(k)
    ensures trace[m].past.known <= trace[i].past.known
  {
    assert i > 0;
    assert Acked(trace[i - 1], trace[i - 1 + 1]);
    if n < |trace[i - 1].log| {
      assert trace[i - 1].log[n] == trace[i].log[n];
      m := AckedAt(trace, i - 1, n);
    } else {
      m := i - 1;
    }
  }

  lemma {:induction false} KnownStays(trace: seq<State>, m: nat, i: nat, k: nat)
    requires SlotRun(trace) && m <= i < |trace| && k < |trace[m].past.dispatched|
    requires forall j | 0 <= j < |trace| - 1 :: |trace[j].past.dispatched| <= |trace[j + 1].past.dispatched|
    ensures k in trace[i].past.known ==> k in trace[m].past.known
    ensures k < |trace[i].past.dispatched|
  {
    if m < i {
      KnownStays(trace, m, i - 1, k);
      assert Acked(trace[i - 1], trace[i - 1 + 1]);
      assert |trace[i - 1].past.dispatched| <= |trace[i - 1 + 1].past.dispatched|;
    }
  }

  lemma DispatchedGrows(trace: seq<State>)
    requires IsRun(trace)
    ensures forall j | 0 <= j < |trace| - 1 :: |trace[j].past.dispatched| <= |trace[j + 1].past.dispatched|
  {
    forall j | 0 <= j < |trace| - 1 ensures |trace[j].past.dispatched| <= |trace[j + 1].past.dispatched| {
      assert IsStep(trace[j], trace[j + 1]);
      DispatchedBy(trace[j], trace[j + 1]);
    }
  }

  /** A step takes one dispatch, with an id, or none. */
  lemma DispatchedBy(s: State, s': State)
    requires IsStep(s, s')
    ensures var d, d' := s.past.dispatched, s'.past.dispatched;
            d' == d || (|d'| == |d| + 1 && d' == d + [d'[|d|]] && d'[|d|] != "")
  {
    var a :| Enabled(s, a) && s' == Do(s, a);
    if a.Dispatch? { assert s'.past.dispatched == s.past.dispatched + [a.id]; } else { NoneDispatched(s, a); }
  }

  lemma NoneDispatched(s: State, a: Step)
    requires Enabled(s, a) && !a.Dispatch?
    ensures Do(s, a).past.dispatched == s.past.dispatched
  {
  }

  /** A dispatch is accepted exactly if its job is registered and a slot was free when the receive loop tried. */
  lemma AckTellsSlot(trace: seq<State>, i: nat, n: nat) returns (j: nat)
    requires IsRun(trace) && i < |trace| && n < |trace[i].log| && trace[i].log[n].Ack?
    ensures var k := trace[i].log[n].run;
            if trace[i].log[n].yes
            then k in trace[i].past.known && j < i && Tries(trace, j, k) && trace[j].sem < trace[j].max
            else k !in trace[i].past.known || (j < i && Tries(trace, j, k) && trace[j].sem >= trace[j].max)
  {
    j := 0;
    RunIsSlotRun(trace);
    DispatchedGrows(trace);
    var m := AckedAt(trace, i, n);
    InvHolds(trace, m);
    var k := trace[i].log[n].run;
    KnownStays(trace, m, i, k);
    if trace[i].log[n].yes || k in trace[m].past.known { j := Tried(trace, m); }
  }

  /** currentInflight: the capacity minus the free slots (stream.go line 216). */
  function CurrentInflight(s: State): int { s.max - (s.max - s.sem) }

  /** Slots taken are the accepted runs not yet done, never more than MaxConcurrency. */
  lemma SlotsAreInflight(trace: seq<State>, i: nat)
    requires IsRun(trace) && i < |trace|
    ensures var s := trace[i];
            && CurrentInflight(s) == s.sem <= s.max
            && s.sem == |s.runs| + (if s.recv.Accepting? || s.recv.Registering? || s.recv.Spawning? then 1 else 0)
  {
    InvHolds(trace, i);
  }

  /** State m is where the heartbeat read n, and since then it has sent nothing into the first j messages of log. */
  ghost predicate ReadIn(trace: seq<State>, m: nat, n: int, log: seq<Msg>, j: nat)
    requires j <= |log|
  {
    && m < |trace| && CurrentInflight(trace[m]) == n && trace[m].hb < 0 && |trace[m].log| <= j
    && forall p | |trace[m].log| <= p < j :: !log[p].Heartbeat?
  }

  /** What a step may do to the log and to the heartbeat's reading. */
  ghost predicate HeartbeatMoves(s: State, s': State) {
    && (s'.log == s.log || (|s'.log| == |s.log| + 1 && s'.log[..|s.log|] == s.log))
    && (|s'.log| > |s.log| && s'.log[|s.log|].Heartbeat? ==>
          s.hb >= 0 && s'.hb < 0 && s'.log[|s.log|] == Heartbeat(s.hb))
    && (s'.hb >= 0 && s.hb >= 0 ==> s'.hb == s.hb)
    && (s'.hb >= 0 && s.hb < 0 ==> s'.hb == CurrentInflight(s) && s'.log == s.log)
  }

  lemma HeartbeatStep(s: State, a: Step)
    requires Enabled(s, a)
    ensures HeartbeatMoves(s, Do(s, a))
  {
    match a
    case RecvStep =>
    case RunStep(k) =>
    case _ =>
  }

  /** What matters of a run for the heartbeats. */
  ghost predicate HeartbeatRun(trace: seq<State>) {
    && trace != [] && trace[0].hb < 0 && trace[0].log == []
    && forall i | 0 <= i < |trace| - 1 :: HeartbeatMoves(trace[i], trace[i + 1])
  }

  lemma RunIsHeartbeatRun(trace: seq<State>)
    requires IsRun(trace)
    ensures HeartbeatRun(trace)
  {
    forall i | 0 <= i < |trace| - 1 ensures HeartbeatMoves(trace[i], trace[i + 1]) {
      assert IsStep(trace[i], trace[i + 1]);
      var a :| Enabled(trace[i], a) && trace[i + 1] == Do(trace[i], a);
      HeartbeatStep(trace[i], a);
    }
  }

  lemma ReadInLonger(trace: seq<State>, m: nat, n: int, log: seq<Msg>, j: nat, log': seq<Msg>, j': nat)
    requires j <= j' <= |log'| && j <= |log| && ReadIn(trace, m, n, log, j) && log'[..j] == log[..j]
    requires forall p | j <= p < j' :: !log'[p].Heartbeat?
    ensures ReadIn(trace, m, n, log', j')
  {
    assert forall p | 0 <= p < j :: log'[p] == log[..j][p] == log[p];
  }

  /** The number a heartbeat has read and not yet sent was the occupancy in some earlier state. */
  lemma {:induction false} ReadingPending(trace: seq<State>, i: nat) returns (m: nat)
    requires HeartbeatRun(trace) && i < |trace| && trace[i].hb >= 0
    ensures m < i && ReadIn(trace, m, trace[i].hb, trace[i].log, |trace[i].log|)
  {
    assert i > 0;
    var s, s' := trace[i - 1], trace[i];
    assert HeartbeatMoves(s, trace[i - 1 + 1]);
    if s.hb >= 0 {
      m := ReadingPending(trace, i - 1);
      ReadInLonger(trace, m, s.hb, s.log, |s.log|, s'.log, |s'.log|);
    } else {
      m := i - 1;
    }
  }

  lemma {:induction false} HeartbeatWasRead(trace: seq<State>, i: nat, j: nat) returns (m: nat)
    requires HeartbeatRun(trace) && i < |trace| && j < |trace[i].log| && trace[i].log[j].Heartbeat?
    ensures m < i && ReadIn(trace, m, trace[i].log[j].inflight, trace[i].log, j)
  {
    assert i > 0;
    var s, s' := trace[i - 1], trace[i];
    assert HeartbeatMoves(s, trace[i - 1 + 1]);
    if j < |s.log| {
      assert s'.log[j] == s'.log[..|s.log|][j] == s.log[j];
      m := HeartbeatWasRead(trace, i - 1, j);
      OldHeartbeat(trace, m, s, s', j);
    } else {
      m := ReadingPending(trace, i - 1);
      NewHeartbeat(trace, m, s, s', j);
    }
  }

  /** Every heartbeat on the channel reports the slots taken in the state in which it read them, before it
      was put into the channel and after the heartbeat before it was. */
  lemma HeartbeatsTellOccupancy(trace: seq<State>, i: nat, j: nat) returns (m: nat)
    requires IsRun(trace) && i < |trace| && j < |trace[i].log| && trace[i].log[j].Heartbeat?
    ensures m < i && ReadIn(trace, m, trace[i].log[j].inflight, trace[i].log, j)
  {
    RunIsHeartbeatRun(trace);
    m := HeartbeatWasRead(trace, i, j);
  }

  lemma OldHeartbeat(trace: seq<State>, m: nat, s: State, s': State, j: nat)
    requires HeartbeatMoves(s, s') && j < |s.log| && s.log[j].Heartbeat?
             && ReadIn(trace, m, s.log[j].inflight, s.log, j)
    ensures s'.log[j] == s.log[j] && ReadIn(trace, m, s.log[j].inflight, s'.log, j)
  {
    assert s'.log[..|s.log|] == s.log;
    assert s'.log[..j] == s'.log[..|s.log|][..j] == s.log[..j];
    assert s'.log[j] == s'.log[..|s.log|][j];
    ReadInLonger(trace, m, s.log[j].inflight, s.log, j, s'.log, j);
  }

  lemma NewHeartbeat(trace: seq<State>, m: nat, s: State, s': State, j: nat)
    requires HeartbeatMoves(s, s') && j == |s.log| < |s'.log| && s'.log[j].Heartbeat?
             && ReadIn(trace, m, s.hb, s.log, j)
    ensures ReadIn(trace, m, s'.log[j].inflight, s'.log, j)
  {
    assert s'.log[..j] == s.log[..j];
    ReadInLonger(trace, m, s.hb, s.log, j, s'.log, j);
  }

  /** Each key of the cancel table leads to an accepted, unfinished dispatch with that very run id; and the
      n-th Cancel message cancels at most one context, that of an accepted dispatch whose run it names. */
  lemma CancelReachesOnlyNamedRun(trace: seq<State>, i: nat)
    requires IsRun(trace) && i < |trace|
    ensures var s := trace[i];
            && (forall id | id in s.cancels ::
                 IdOf(s, s.cancels[id]) == id && Registered(s, s.cancels[id]) && s.cancels[id] in s.past.accepted)
            && (forall n | n in s.past.canceled ::
                 && n < |s.past.asked| && IdOf(s, s.past.canceled[n]) == s.past.asked[n]
                 && s.past.canceled[n] in s.past.accepted)
  {
    InvHolds(trace, i);
  }

  /** Every registered, unfinished dispatch is found under its run id. */
  ghost predicate Reachable(s: State) {
    forall k: nat | Registered(s, k) :: IdOf(s, k) in s.cancels && s.cancels[IdOf(s, k)] == k
  }

  /** No two registered, unfinished dispatches have the same run id. */
  ghost predicate LiveDistinct(s: State) {
    forall j: nat, k: nat | Registered(s, j) && Registered(s, k) && IdOf(s, j) == IdOf(s, k) :: j == k
  }

  lemma ReachableKeptByRecv(s: State)
    requires Consistent(s) && Enabled(s, RecvStep) && Reachable(s) && LiveDistinct(DoRecv(s))
    ensures Reachable(DoRecv(s))
  {
    var s' := DoRecv(s);
    forall k: nat | Registered(s', k) ensures IdOf(s', k) in s'.cancels && s'.cancels[IdOf(s', k)] == k {
      if s.recv.Registering? {
        assert Registered(s', s.recv.k) && (k != s.recv.k ==> Registered(s, k) && IdOf(s, k) != IdOf(s, s.recv.k));
      } else {
        assert Registered(s, k);
      }
    }
  }

  lemma ReachableKeptByRun(s: State, k: nat)
    requires Consistent(s) && Enabled(s, RunStep(k)) && Reachable(s) && LiveDistinct(s)
    ensures Reachable(DoRun(s, k))
  {
    var s' := DoRun(s, k);
    forall j: nat | Registered(s', j) ensures IdOf(s', j) in s'.cancels && s'.cancels[IdOf(s', j)] == j {
      assert Registered(s, j) && (s.runs[k].Reported? ==> Registered(s, k));
    }
  }

  lemma ReachableKept(s: State, a: Step)
    requires Consistent(s) && Enabled(s, a) && Reachable(s) && LiveDistinct(s) && LiveDistinct(Do(s, a))
    ensures Reachable(Do(s, a))
  {
    match a
    case RecvStep => ReachableKeptByRecv(s);
    case RunStep(k) => ReachableKeptByRun(s, k);
    case _ =>
      forall k: nat | Registered(Do(s, a), k) ensures IdOf(Do(s, a), k) == IdOf(s, k) && Registered(s, k) {}
  }

  lemma ReachableMeansLiveDistinct(s: State)
    requires Reachable(s)
    ensures LiveDistinct(s)
  {
  }

  lemma ReachableKeptByStep(s: State, s': State)
    requires Inv(s) && IsStep(s, s') && Reachable(s) && LiveDistinct(s) && LiveDistinct(s')
    ensures Reachable(s')
  {
    var a :| Enabled(s, a) && s' == Do(s, a);
    ReachableKept(s, a);
  }

  lemma {:induction false} LiveDistinctMeansReachable(trace: seq<State>, i: nat)
    requires IsRun(trace) && i < |trace| && forall m | 0 <= m <= i :: LiveDistinct(trace[m])
    ensures Reachable(trace[i])
  {
    if i > 0 {
      InvHolds(trace, i - 1);
      LiveDistinctMeansReachable(trace, i - 1);
      assert IsStep(trace[i - 1], trace[i - 1 + 1]);
      ReachableKeptByStep(trace[i - 1], trace[i]);
    }
  }

  /** At every point up to now each registered, unfinished run could be cancelled by its id, exactly if up
      to now no two registered, unfinished runs had the same id; ids may repeat otherwise. */
  lemma AllCancelableExactly(trace: seq<State>, i: nat)
    requires IsRun(trace) && i < |trace|
    ensures (forall m | 0 <= m <= i :: Reachable(trace[m])) <==> (forall m | 0 <= m <= i :: LiveDistinct(trace[m]))
  {
    if forall m | 0 <= m <= i :: LiveDistinct(trace[m]) {
      forall m | 0 <= m <= i ensures Reachable(trace[m]) { LiveDistinctMeansReachable(trace, m); }
    }
    if forall m | 0 <= m <= i :: Reachable(trace[m]) {
      forall m | 0 <= m <= i ensures LiveDistinct(trace[m]) { ReachableMeansLiveDistinct(trace[m]); }
    }
  }

  ghost predicate DistinctIds(s: State) {
    forall i, j | 0 <= i < j < |s.past.dispatched| :: s.past.dispatched[i] != s.past.dispatched[j]
  }

  lemma {:induction false} DistinctIdsAreLiveDistinct(trace: seq<State>, m: nat, i: nat)
    requires IsRun(trace) && m <= i < |trace| && DistinctIds(trace[i])
    ensures LiveDistinct(trace[m])
  {
    if m == i {
      InvHolds(trace, i);
      assert forall k: nat | Registered(trace[i], k) :: k < |trace[i].past.dispatched|;
    } else {
      var s := trace[i - 1];
      assert IsStep(s, trace[i - 1 + 1]);
      DispatchedBy(s, trace[i]);
      assert forall j | 0 <= j < |s.past.dispatched| :: trace[i].past.dispatched[j] == s.past.dispatched[j];
      DistinctIdsAreLiveDistinct(trace, m, i - 1);
    }
  }

  /** So with ids distinct over the session every registered, unfinished run can be cancelled by its id. */
  lemma DistinctIdsAllCancelable(trace: seq<State>, i: nat)
    requires IsRun(trace) && i < |trace| && DistinctIds(trace[i])
    ensures Reachable(trace[i])
  {
    forall m | 0 <= m <= i ensures LiveDistinct(trace[m]) { DistinctIdsAreLiveDistinct(trace, m, i); }
    AllCancelableExactly(trace, i);
  }

  /** A Cancel message cancels the run found under its id, and nothing if there is none. */
  lemma CancelExactly(s: State, id: string)
    requires s.recv.Idle? && id != ""
    ensures Enabled(s, CancelMessage(id))
    ensures var s' := Do(s, CancelMessage(id));
            if id in s.cancels
            then Enabled(s', RecvStep) && DoRecv(s').recv.Idle?
                 && DoRecv(s').past.canceled == s.past.canceled[|s.past.asked| := s.cancels[id]]
            else s'.recv.Idle? && s'.past.canceled == s.past.canceled
  {
  }

  lemma {:induction false} IdsNotEmpty(trace: seq<State>, i: nat, k: nat)
    requires IsRun(trace) && i < |trace| && k < |trace[i].past.dispatched|
    ensures IdOf(trace[i], k) != ""
  {
    if i > 0 {
      assert IsStep(trace[i - 1], trace[i - 1 + 1]);
      DispatchedBy(trace[i - 1], trace[i]);
      if k < |trace[i - 1].past.dispatched| { IdsNotEmpty(trace, i - 1, k); }
    }
  }

  /** So while no two live runs have had the same id, a Cancel message for a live run cancels that run. */
  lemma CancelReachesRun(trace: seq<State>, i: nat, k: nat)
    requires IsRun(trace) && i < |trace| && trace[i].recv.Idle? && Registered(trace[i], k)
    requires forall m | 0 <= m <= i :: LiveDistinct(trace[m])
    ensures var s := trace[i];
            && Enabled(s, CancelMessage(IdOf(s, k)))
            && var s' := Do(s, CancelMessage(IdOf(s, k)));
               && Enabled(s', RecvStep) && DoRecv(s').recv.Idle?
               && DoRecv(s').past.canceled == s.past.canceled[|s.past.asked| := k]
  {
    InvHolds(trace, i);
    IdsNotEmpty(trace, i, k);
    LiveDistinctMeansReachable(trace, i);
    CancelExactly(trace[i], IdOf(trace[i], k));
  }

  /** Otherwise it fails: when the first of two live runs with one id finishes, it deletes
      the entry of the other, which a Cancel message can then no longer reach. */
  lemma DuplicateIdLosesCancel(s: State, k: nat, j: nat)
    requires Inv(s) && k != j && k in s.runs && j in s.runs && IdOf(s, k) == IdOf(s, j)
    requires s.runs[k].Reported? && s.runs[j].Running?
    ensures Enabled(s, RunStep(k))
    ensures var s' := Do(s, RunStep(k)); Registered(s', j) && IdOf(s', j) !in s'.cancels
  {
  }

  lemma Extend(trace: seq<State>, a: Step) returns (trace': seq<State>)
    requires IsRun(trace) && Enabled(trace[|trace| - 1], a)
    ensures IsRun(trace') && trace' == trace + [Do(trace[|trace| - 1], a)]
  {
    trace' := trace + [Do(trace[|trace| - 1], a)];
    assert IsStep(trace[|trace| - 1], trace'[|trace|]);
    forall i | 0 <= i < |trace'| - 1 ensures IsStep(trace'[i], trace'[i + 1]) {
      if i < |trace| - 1 { assert IsStep(trace[i], trace[i + 1]); }
    }
  }

  /** The receive loop takes a dispatch all the way to its goroutine. */
  lemma RunStarts(trace: seq<State>, id: string) returns (trace': seq<State>)
    requires IsRun(trace) && id != ""
    requires var s := trace[|trace| - 1]; s.recv.Idle? && s.sem < s.max && HasRoom(s)
    ensures IsRun(trace')
    ensures var s, s', k := trace[|trace| - 1], trace'[|trace'| - 1], |trace[|trace| - 1].past.dispatched|;
            s' == s.(sem := s.sem + 1, log := s.log + [Ack(k, true)],
                     cancels := s.cancels[id := k], runs := s.runs[k := Running],
                     past := s.past.(dispatched := s.past.dispatched + [id], known := s.past.known + {k},
                                     accepted := s.past.accepted + {k}))
  {
    trace' := Extend(trace, Dispatch(id, true));
    trace' := Extend(trace', RecvStep);
    trace' := Extend(trace', RecvStep);
    trace' := Extend(trace', RecvStep);
    trace' := Extend(trace', RecvStep);
  }

  /** Such a run exists. */
  lemma DuplicateIdRun() returns (trace: seq<State>)
    ensures IsRun(trace)
    ensures var s := trace[|trace| - 1];
            && s.past.dispatched == ["a", "a"] && 1 in s.runs && s.runs[1].Running? && Registered(s, 1)
            && "a" !in s.cancels
  {
    trace := [State(2, 0, Idle, map[], map[], -1, [], 0, false, Past([], {}, {}, map[], map[], []))];
    trace := RunStarts(trace, "a");
    trace := RunStarts(trace, "a");
    trace := Extend(trace, Return(0, NoError));
    trace := Extend(trace, RunStep(0));
    InvHolds(trace, |trace| - 1);
    DuplicateIdLosesCancel(trace[|trace| - 1], 0, 1);
    trace := Extend(trace, RunStep(0));
  }

  // -------------------------------------------------------------------- liveness

  function RecvWork(pc: RecvPc): nat {
    match pc
    case Idle => 0 case Rejecting(_) => 2 case Acquiring(_) => 10 case Accepting(_) => 9
    case Registering(_) => 7 case Spawning(_) => 6 case Canceling(_, _) => 1
  }

  function RunWork(pc: RunPc): nat {
    match pc case Running => 5 case Finished(_) => 4 case Reported => 2 case Unregistered => 1
  }

  /** An upper bound on the steps left if no message arrives and the heartbeat does not tick. */
  ghost function Work(s: State): int {
    RecvWork(s.recv) + MapSum(s.runs, RunWork) + (|s.log| - s.sent) + (if s.hb >= 0 then 2 else 0)
  }

  predicate Internal(a: Step) { a.RecvStep? || a.Return? || a.RunStep? || a.Send? || a.SendFails? || a.HeartbeatSend? }

  lemma RunsChange(s: State, s': State, k: nat)
    requires AgreeOff(s.runs, s'.runs, k)
    ensures MapSum(s'.runs, RunWork) - (if k in s'.runs then RunWork(s'.runs[k]) else 0)
         == MapSum(s.runs, RunWork) - (if k in s.runs then RunWork(s.runs[k]) else 0)
  {
    MapSumChange(s.runs, s'.runs, k, RunWork);
  }

  lemma RecvWorkShrinks(s: State)
    requires Consistent(s) && Enabled(s, RecvStep)
    ensures Work(DoRecv(s)) < Work(s)
  {
    if s.recv.Spawning? { RunsChange(s, DoRecv(s), s.recv.k); }
  }

  lemma RunWorkShrinks(s: State, k: nat)
    requires Enabled(s, RunStep(k))
    ensures Work(DoRun(s, k)) < Work(s)
  {
    RunsChange(s, DoRun(s, k), k);
  }

  lemma WorkShrinks(s: State, a: Step)
    requires Consistent(s) && Internal(a) && Enabled(s, a)
    ensures Work(Do(s, a)) < Work(s) && Do(s, a).past.dispatched == s.past.dispatched
  {
    match a
    case RecvStep => RecvWorkShrinks(s);
    case Return(k, _) => RunsChange(s, Do(s, a), k);
    case RunStep(k) => RunWorkShrinks(s, k);
    case _ =>
  }

  ghost predicate Stuck(s: State) { forall a :: Internal(a) ==> !Enabled(s, a) }

  /** Somebody has a message to put into the channel. */
  ghost predicate Waits(s: State) {
    s.recv.Rejecting? || s.recv.Accepting? || s.hb >= 0 || exists k :: k in s.runs && s.runs[k].Finished?
  }

  /** Every dispatch has its Ack in the channel and every accepted one its Result; nothing is left behind. */
  ghost predicate AllReported(s: State) {
    && s.hb < 0 && s.sem == 0 && s.cancels == map[]
    && forall k: nat | k < |s.past.dispatched| ::
         Acks(s.log, k) == 1 && Results(s.log, k) == if k in s.past.accepted then 1 else 0
  }

  lemma StuckReported(s: State)
    requires Inv(s) && Stuck(s) && !Waits(s)
    ensures AllReported(s)
  {
    assert !Enabled(s, RecvStep);
    forall k ensures k !in s.runs {
      assert Internal(Return(k, NoError)) && !Enabled(s, Return(k, NoError));
      assert Internal(RunStep(k)) && !Enabled(s, RunStep(k));
    }
    forall k: nat | k < |s.past.dispatched|
      ensures Acks(s.log, k) == 1 && Results(s.log, k) == if k in s.past.accepted then 1 else 0
    {
      assert Reports(s, k);
    }
  }

  lemma StuckWaits(s: State)
    requires Inv(s) && Stuck(s) && Waits(s)
    ensures !HasRoom(s) && !AllReported(s)
  {
    if s.recv.Rejecting? || s.recv.Accepting? {
      assert !Enabled(s, RecvStep) && Reports(s, s.recv.k);
    } else if s.hb >= 0 {
      assert !Enabled(s, HeartbeatSend);
    } else {
      var k :| k in s.runs && s.runs[k].Finished?;
      assert !Enabled(s, RunStep(k)) && |s.runs| > 0;
    }
  }

  /** Where nobody can go on: all is reported exactly if nobody waits for room in the channel, and who does
      waits for a sender that has quit; while the sender is there, all is reported and on the wire. */
  lemma StuckExactly(s: State)
    requires Inv(s) && Stuck(s)
    ensures AllReported(s) <==> !Waits(s)
    ensures Waits(s) ==> s.quit && |s.log| == s.sent + CHANNEL_CAPACITY
    ensures !s.quit ==> AllReported(s) && Wire(s) == s.log
  {
    assert !Enabled(s, Send);
    if Waits(s) { StuckWaits(s); } else { StuckReported(s); }
  }

  ghost predicate Drains(s: State, steps: seq<Step>, end: State)
    decreases |steps|
  {
    if steps == [] then s == end else
      Internal(steps[0]) && Enabled(s, steps[0]) && Drains(Do(s, steps[0]), steps[1..], end)
  }

  lemma {:induction false} DrainsKeeps(s: State, steps: seq<Step>, end: State)
    requires Inv(s) && Drains(s, steps, end)
    ensures Inv(end) && end.past.dispatched == s.past.dispatched && |steps| <= Work(s) - Work(end)
    decreases |steps|
  {
    if steps != [] {
      InvKept(s, steps[0]);
      WorkShrinks(s, steps[0]);
      DrainsKeeps(Do(s, steps[0]), steps[1..], end);
    }
  }

  function RunOwes(pc: RunPc): nat { if pc.Running? || pc.Finished? then 1 else 0 }

  function RecvOwes(pc: RecvPc, granted: set<nat>): nat {
    match pc
    case Rejecting(_) => 1
    case Acquiring(k) => if k in granted then 2 else 1
    case Accepting(_) => 2
    case Registering(_) => 1
    case Spawning(_) => 1
    case _ => 0
  }

  /** How many messages are still to be put into the channel, if granted are the dispatches that get a slot. */
  ghost function Owed(s: State, granted: set<nat>): nat {
    RecvOwes(s.recv, granted) + MapSum(s.runs, RunOwes) + if s.hb >= 0 then 1 else 0
  }

  lemma OwesChange(s: State, s': State, k: nat)
    requires AgreeOff(s.runs, s'.runs, k)
    ensures MapSum(s'.runs, RunOwes) - (if k in s'.runs then RunOwes(s'.runs[k]) else 0)
         == MapSum(s.runs, RunOwes) - (if k in s.runs then RunOwes(s.runs[k]) else 0)
  {
    MapSumChange(s.runs, s'.runs, k, RunOwes);
  }

  /** A step puts one of the messages owed into the channel, or none. */
  lemma OwedKept(s: State, a: Step, granted: set<nat>)
    requires Consistent(s) && Internal(a) && Enabled(s, a)
    requires a.RecvStep? && s.recv.Acquiring? ==> (s.recv.k in granted <==> s.sem < s.max)
    ensures var s' := Do(s, a); |s'.log| + Owed(s', granted) == |s.log| + Owed(s, granted)
  {
    match a
    case RecvStep => OwedKeptByRecv(s, granted);
    case Return(k, _) => OwesChange(s, Do(s, a), k);
    case RunStep(k) => OwedKeptByRun(s, k, granted);
    case _ =>
  }

  lemma OwedKeptByRecv(s: State, granted: set<nat>)
    requires Consistent(s) && Enabled(s, RecvStep)
    requires s.recv.Acquiring? ==> (s.recv.k in granted <==> s.sem < s.max)
    ensures var s' := DoRecv(s); |s'.log| + Owed(s', granted) == |s.log| + Owed(s, granted)
  {
    if s.recv.Spawning? { OwesChange(s, DoRecv(s), s.recv.k); }
  }

  lemma OwedKeptByRun(s: State, k: nat, granted: set<nat>)
    requires Enabled(s, RunStep(k))
    ensures var s' := DoRun(s, k); |s'.log| + Owed(s', granted) == |s.log| + Owed(s, granted)
  {
    OwesChange(s, DoRun(s, k), k);
  }

  lemma {:induction false} GrantedStays(s: State, steps: seq<Step>, end: State)
    requires Drains(s, steps, end) && !s.recv.Acquiring?
    ensures end.past.accepted == s.past.accepted
    decreases |steps|
  {
    if steps != [] { GrantedStays(Do(s, steps[0]), steps[1..], end); }
  }

  lemma Granted(s: State, steps: seq<Step>, end: State)
    requires Consistent(s) && s.recv.Acquiring? && Drains(DoRecv(s), steps, end)
    ensures s.recv.k in end.past.accepted <==> s.sem < s.max
  {
    GrantedStays(DoRecv(s), steps, end);
  }

  lemma {:induction false} OwedAlong(s: State, steps: seq<Step>, end: State)
    requires Inv(s) && Drains(s, steps, end)
    ensures |end.log| + Owed(end, end.past.accepted) == |s.log| + Owed(s, end.past.accepted)
    ensures s.quit ==> end.quit && end.sent == s.sent
    decreases |steps|
  {
    if steps != [] {
      var a, s' := steps[0], Do(s, steps[0]);
      InvKept(s, a);
      if a.RecvStep? && s.recv.Acquiring? { Granted(s, steps[1..], end); }
      if s.quit { QuitStays(s, a); }
      OwedKept(s, a, end.past.accepted);
      OwedAlong(s', steps[1..], end);
    }
  }

  lemma OwedAtEnd(s: State)
    requires Inv(s) && Stuck(s)
    ensures Owed(s, s.past.accepted) == 0 <==> !Waits(s)
  {
    assert !s.recv.Idle? ==> s.recv.Rejecting? || s.recv.Accepting? by { assert !Enabled(s, RecvStep); }
    forall k | k in s.runs ensures !s.runs[k].Running? {
      assert Internal(Return(k, NoError)) ==> !Enabled(s, Return(k, NoError));
    }
    if k :| k in s.runs && s.runs[k].Finished? {
      MapSumSplit(s.runs, k, RunOwes);
    } else if MapSum(s.runs, RunOwes) > 0 {
      var k := MapSumPositive(s.runs, RunOwes);
    }
  }

  /** When messages stop arriving, every schedule ends after a bounded number of steps. Wherever it cannot go
      on, all is reported exactly if what was owed fitted into the channel beside what the sender left in it. */
  lemma EverythingReported(trace: seq<State>, i: nat, steps: seq<Step>, end: State)
    requires IsRun(trace) && i < |trace| && Drains(trace[i], steps, end)
    ensures |steps| <= Work(trace[i]) && end.past.dispatched == trace[i].past.dispatched && Channel(end)
    ensures Stuck(end) ==>
              (AllReported(end) <==> |trace[i].log| + Owed(trace[i], end.past.accepted) <= end.sent + CHANNEL_CAPACITY)
    ensures Stuck(end) && !end.quit ==> AllReported(end) && Wire(end) == end.log
    ensures trace[i].quit ==> end.sent == trace[i].sent
  {
    InvHolds(trace, i);
    DrainsKeeps(trace[i], steps, end);
    OwedAlong(trace[i], steps, end);
    if Stuck(end) {
      StuckExactly(end);
      OwedAtEnd(end);
    }
  }

  // ------------------------------------------------------- after a failed stream.Send

  /** The messages that have reached the server: all the sender took out, but for the one that made it quit. */
  function Wire(s: State): seq<Msg>
    requires s.sent <= |s.log| && (s.quit ==> s.sent > 0)
  {
    s.log[..if s.quit then s.sent - 1 else s.sent]
  }

  /** The receive loop is before sending an Ack, the channel is full and nobody empties it. */
  predicate Blocked(s: State) { s.quit && !HasRoom(s) && (s.recv.Rejecting? || s.recv.Accepting?) }

  /** Once the sender has quit, a step keeps what it sent; and a blocked receive loop stays where it is. */
  ghost predicate Frozen(s: State, s': State) {
    && (Channel(s) && s.quit ==> Channel(s') && s'.quit && Wire(s') == Wire(s))
    && (Blocked(s) ==> Blocked(s') && SameForLoop(s, s'))
  }

  predicate SameForLoop(s: State, s': State) {
    s'.recv == s.recv && s'.log == s.log && s'.past.dispatched == s.past.dispatched && s'.past.asked == s.past.asked
  }

  lemma BlockedKept(s: State, a: Step)
    requires Blocked(s) && Enabled(s, a)
    ensures Blocked(Do(s, a)) && SameForLoop(s, Do(s, a))
  {
    match a
    case RunStep(k) =>
    case _ =>
  }

  lemma FrozenByStep(s: State, a: Step)
    requires Enabled(s, a)
    ensures Frozen(s, Do(s, a))
  {
    if Blocked(s) { BlockedKept(s, a); }
    if Channel(s) && s.quit {
      ChannelKept(s, a);
      LogMovesByStep(s, a);
      QuitStays(s, a);
    }
  }

  lemma QuitStays(s: State, a: Step)
    requires s.quit && Enabled(s, a)
    ensures Do(s, a).quit && Do(s, a).sent == s.sent
  {
  }

  ghost predicate FrozenRun(trace: seq<State>) {
    forall i | 0 <= i < |trace| - 1 :: Frozen(trace[i], trace[i + 1])
  }

  lemma RunIsFrozenRun(trace: seq<State>)
    requires IsRun(trace)
    ensures FrozenRun(trace)
  {
    forall i | 0 <= i < |trace| - 1 ensures Frozen(trace[i], trace[i + 1]) {
      assert IsStep(trace[i], trace[i + 1]);
      var a :| Enabled(trace[i], a) && trace[i + 1] == Do(trace[i], a);
      FrozenByStep(trace[i], a);
    }
  }

  lemma {:induction false} StaysFrozen(trace: seq<State>, i: nat, j: nat)
    requires FrozenRun(trace) && i <= j < |trace| && trace[i].quit && Channel(trace[i])
    ensures Channel(trace[j]) && trace[j].quit && Wire(trace[j]) == Wire(trace[i])
  {
    if i < j {
      StaysFrozen(trace, i, j - 1);
      assert Frozen(trace[j - 1], trace[j - 1 + 1]);
    }
  }

  /** After a failed stream.Send nothing more reaches the server, however long the session goes on. */
  lemma NothingReachesServer(trace: seq<State>, i: nat, j: nat)
    requires IsRun(trace) && i <= j < |trace| && trace[i].quit
    ensures Channel(trace[i]) && Channel(trace[j]) && trace[j].quit && Wire(trace[j]) == Wire(trace[i])
  {
    InvHolds(trace, i);
    RunIsFrozenRun(trace);
    StaysFrozen(trace, i, j);
  }

  lemma {:induction false} StaysBlocked(trace: seq<State>, i: nat, j: nat)
    requires FrozenRun(trace) && i <= j < |trace| && Blocked(trace[i])
    ensures Blocked(trace[j]) && SameForLoop(trace[i], trace[j])
  {
    if i < j {
      StaysBlocked(trace, i, j - 1);
      assert Frozen(trace[j - 1], trace[j - 1 + 1]);
    }
  }

  /** With the channel full, the receive loop stays where it is as long as the session lives: the dispatch is
      never acknowledged and no further dispatch or Cancel message is taken. It does not come back to
      stream.Recv, which would notice the broken stream. */
  lemma BlockedForGood(trace: seq<State>, i: nat, j: nat)
    requires IsRun(trace) && i <= j < |trace| && Blocked(trace[i])
    ensures Blocked(trace[j]) && SameForLoop(trace[i], trace[j]) && Acks(trace[j].log, trace[j].recv.k) == 0
  {
    InvHolds(trace, i);
    assert Reports(trace[i], trace[i].recv.k);
    RunIsFrozenRun(trace);
    StaysBlocked(trace, i, j);
  }

  /** n dispatches of a job that is not registered, each rejected, with the sender not running. */
  lemma {:induction false} Rejects(trace: seq<State>, n: nat) returns (trace': seq<State>)
    requires IsRun(trace)
    requires var s := trace[|trace| - 1]; s.recv.Idle? && |s.log| + n <= s.sent + CHANNEL_CAPACITY
    ensures IsRun(trace') && trace'[0] == trace[0]
    ensures var s, s' := trace[|trace| - 1], trace'[|trace'| - 1];
            && s' == s.(log := s'.log, past := s'.past)
            && |s'.log| == |s.log| + n && |s'.past.dispatched| == |s.past.dispatched| + n
    decreases n
  {
    trace' := trace;
    if n > 0 {
      trace' := Extend(trace', Dispatch("a", false));
      trace' := Extend(trace', RecvStep);
      trace' := Rejects(trace', n - 1);
    }
  }

  /** Such a run exists: once a Send has failed, 65 more dispatches of a job that is not registered are enough. */
  lemma BlockedRun(max: nat) returns (trace: seq<State>)
    ensures IsRun(trace) && trace[0].max == max
    ensures var s := trace[|trace| - 1]; Blocked(s) && Stuck(s) && |s.past.dispatched| == CHANNEL_CAPACITY + 2
  {
    trace := [State(max, 0, Idle, map[], map[], -1, [], 0, false, Past([], {}, {}, map[], map[], []))];
    trace := Rejects(trace, 1);
    trace := Extend(trace, SendFails);
    trace := Rejects(trace, CHANNEL_CAPACITY);
    trace := Extend(trace, Dispatch("a", false));
  }
}
