/** The job executor of the scheduler client as an interleaved step system
    (pkg/scheduler/executor.go, and stream.go lines 153-233), for one session whose context is live: the steps,
    and what each of them keeps.

    The receive loop, every handler goroutine, the heartbeat and the sender each have their own
    program counter. A dispatch is named by its position among the session's dispatches; nothing
    below needs run ids to be distinct unless it says so. */
module ExecutorSteps {

  const CHANNEL_CAPACITY := 64

  datatype Status = Success | Failed | Timeout | Canceled

  /** What a handler returns; an error may match context.DeadlineExceeded, context.Canceled, both or neither. */
  datatype HandlerError = NoError | Error(deadline: bool, canceled: bool)

  /** Lines 113-127; a panic of the handler has become an error by then. */
  function StatusOf(err: HandlerError): Status {
    match err
    case NoError => Success
    case Error(deadline, canceled) => if deadline then Timeout else if canceled then Canceled else Failed
  }

  datatype Msg = Ack(run: nat, yes: bool) | Result(run: nat, status: Status) | Heartbeat(inflight: int)

  /** Where the receive loop is. */
  datatype RecvPc =
    | Idle
    | Rejecting(k: nat)      // before sending Ack(false)
    | Acquiring(k: nat)      // before the non-blocking acquire
    | Accepting(k: nat)      // slot taken, before sending Ack(true)
    | Registering(k: nat)    // before entering the cancel function
    | Spawning(k: nat)       // before go func
    | Canceling(k: nat, n: nat)  // onCancel for Cancel message n looked up the cancel function of dispatch k

  /** Where a handler goroutine is. */
  datatype RunPc =
    | Running                // in the handler
    | Finished(status: Status)   // before sending its Result
    | Reported               // before handlerCancel and delete
    | Unregistered           // before giving the slot back

  datatype State = State(
    max: nat,
    sem: int,                    // slots taken
    recv: RecvPc,
    runs: map<nat, RunPc>,       // live handler goroutines
    cancels: map<string, nat>,   // the cancel table: run id to the dispatch whose context it cancels
    hb: int,                     // occupancy the heartbeat has read and not yet sent, or -1
    log: seq<Msg>,               // every message put into sendCh, in order
    sent: nat,                   // how many of them the sender has taken out
    quit: bool,                  // the sender has returned, because stream.Send failed for the last one it took
    past: Past)

  /** The history of a session. */
  datatype Past = Past(
    dispatched: seq<string>,     // run ids of all dispatches
    known: set<nat>,             // dispatches of a job with a registered handler
    accepted: set<nat>,          // dispatches that got a slot
    returned: map<nat, HandlerError>,  // what the handlers returned
    canceled: map<nat, nat>,     // Cancel message n cancelled the context of dispatch canceled[n]
    asked: seq<string>)          // the run ids the Cancel messages name, in order

  datatype Step =
    | Dispatch(id: string, registered: bool)
    | CancelMessage(id: string)
    | RecvStep
    | Return(k: nat, err: HandlerError)
    | RunStep(k: nat)
    | Send
    | SendFails
    | HeartbeatRead
    | HeartbeatSend

  ghost predicate Initial(s: State) {
    && s.sem == 0 && s.recv.Idle? && s.runs == map[] && s.cancels == map[] && s.hb == -1
    && s.log == [] && s.sent == 0 && !s.quit && s.past == Past([], {}, {}, map[], map[], [])
  }

  /** The run id of dispatch k. */
  function IdOf(s: State, k: nat): string { if k < |s.past.dispatched| then s.past.dispatched[k] else "" }

  predicate HasRoom(s: State) { |s.log| < s.sent + CHANNEL_CAPACITY }

  predicate Enabled(s: State, a: Step) {
    match a
    case Dispatch(id, _) => s.recv.Idle? && id != ""
    case CancelMessage(id) => s.recv.Idle? && id != ""
    case RecvStep => !s.recv.Idle? && (s.recv.Rejecting? || s.recv.Accepting? ==> HasRoom(s))
    case Return(k, _) => k in s.runs && s.runs[k].Running?
    case RunStep(k) => k in s.runs && !s.runs[k].Running? && (s.runs[k].Finished? ==> HasRoom(s))
    case Send => s.sent < |s.log| && !s.quit
    case SendFails => s.sent < |s.log| && !s.quit
    case HeartbeatRead => s.hb < 0
    case HeartbeatSend => s.hb >= 0 && HasRoom(s)
  }

  function Do(s: State, a: Step): State
    requires Enabled(s, a)
  {
    match a
    case Dispatch(id, registered) =>
      var k := |s.past.dispatched|;
      var p := s.past.(dispatched := s.past.dispatched + [id]);
      if registered then s.(past := p.(known := p.known + {k}), recv := Acquiring(k))
      else s.(past := p, recv := Rejecting(k))
    case CancelMessage(id) =>
      var s' := s.(past := s.past.(asked := s.past.asked + [id]));
      if id in s.cancels then s'.(recv := Canceling(s.cancels[id], |s.past.asked|)) else s'
    case RecvStep => DoRecv(s)
    case Return(k, err) =>
      s.(runs := s.runs[k := Finished(StatusOf(err))], past := s.past.(returned := s.past.returned[k := err]))
    case RunStep(k) => DoRun(s, k)
    case Send => s.(sent := s.sent + 1)
    case SendFails => s.(sent := s.sent + 1, quit := true)
    case HeartbeatRead => s.(hb := s.sem)
    case HeartbeatSend => s.(hb := -1, log := s.log + [Heartbeat(s.hb)])
  }

  /** onDispatch and onCancel, one access to shared state at a time. */
  function DoRecv(s: State): State
    requires Enabled(s, RecvStep)
  {
    match s.recv
    case Rejecting(k) => s.(log := s.log + [Ack(k, false)], recv := Idle)
    case Acquiring(k) =>
      if s.sem < s.max
      then s.(sem := s.sem + 1, past := s.past.(accepted := s.past.accepted + {k}), recv := Accepting(k))
      else s.(recv := Rejecting(k))
    case Accepting(k) => s.(log := s.log + [Ack(k, true)], recv := Registering(k))
    case Registering(k) => s.(cancels := s.cancels[IdOf(s, k) := k], recv := Spawning(k))
    case Spawning(k) => s.(runs := s.runs[k := Running], recv := Idle)
    case Canceling(k, n) => s.(past := s.past.(canceled := s.past.canceled[n := k]), recv := Idle)
  }

  /** The rest of a handler goroutine, from its Result on (lines 85-91 and 130). */
  function DoRun(s: State, k: nat): State
    requires Enabled(s, RunStep(k))
  {
    match s.runs[k]
    case Finished(status) => s.(log := s.log + [Result(k, status)], runs := s.runs[k := Reported])
    case Reported => s.(cancels := s.cancels - {IdOf(s, k)}, runs := s.runs[k := Unregistered])
    case Unregistered => s.(sem := s.sem - 1, runs := s.runs - {k})
  }

  // --------------------------------------------------------------- invariants

  function Acks(log: seq<Msg>, k: nat): nat {
    if log == [] then 0 else
      Acks(log[..|log| - 1], k) + if log[|log| - 1].Ack? && log[|log| - 1].run == k then 1 else 0
  }

  function Results(log: seq<Msg>, k: nat): nat {
    if log == [] then 0 else
      Results(log[..|log| - 1], k) + if log[|log| - 1].Result? && log[|log| - 1].run == k then 1 else 0
  }

  lemma CountSnoc(log: seq<Msg>, m: Msg, k: nat)
    ensures Acks(log + [m], k) == Acks(log, k) + if m.Ack? && m.run == k then 1 else 0
    ensures Results(log + [m], k) == Results(log, k) + if m.Result? && m.run == k then 1 else 0
  {
    assert (log + [m])[..|log|] == log;
  }

  /** The receive loop holds a slot for dispatch k. */
  predicate Holding(recv: RecvPc, k: nat) { (recv.Accepting? || recv.Registering? || recv.Spawning?) && recv.k == k }

  predicate BeforeAck(recv: RecvPc, k: nat) { (recv.Rejecting? || recv.Acquiring? || recv.Accepting?) && recv.k == k }

  predicate BeforeResult(s: State, k: nat) {
    Holding(s.recv, k) || (k in s.runs && (s.runs[k].Running? || s.runs[k].Finished?))
  }

  ghost predicate AckReport(s: State, k: nat) {
    Acks(s.log, k) == if k < |s.past.dispatched| && !BeforeAck(s.recv, k) then 1 else 0
  }

  ghost predicate ResultReport(s: State, k: nat) {
    Results(s.log, k) == if k in s.past.accepted && !BeforeResult(s, k) then 1 else 0
  }

  /** What has been put into the channel about dispatch k, given where k is. */
  ghost predicate Reports(s: State, k: nat) { AckReport(s, k) && ResultReport(s, k) }

  ghost predicate Consistent(s: State) {
    && (forall k | k in s.past.accepted || k in s.runs :: k < |s.past.dispatched|)
    && (forall k | k in s.runs :: k in s.past.accepted && !Holding(s.recv, k) && !BeforeAck(s.recv, k))
    && (s.recv.Idle? || s.recv.Canceling? || s.recv.k < |s.past.dispatched|)
    && (s.recv.Accepting? || s.recv.Registering? || s.recv.Spawning? ==> s.recv.k in s.past.accepted)
    && (s.recv.Rejecting? || s.recv.Acquiring? ==> s.recv.k !in s.past.accepted)
    && (s.recv.Acquiring? ==> s.recv.k in s.past.known) && s.past.accepted <= s.past.known
    && (forall k | k in s.past.known :: k < |s.past.dispatched|)
  }

  /** What the channel holds are the messages not taken out, never more than it has places for. */
  ghost predicate Channel(s: State) {
    s.sent <= |s.log| <= s.sent + CHANNEL_CAPACITY && (s.quit ==> s.sent > 0)
  }

  ghost predicate AckedBefore(log: seq<Msg>, i: nat, k: nat)
    requires i <= |log|
  {
    exists j :: 0 <= j < i && log[j] == Ack(k, true)
  }

  /** What holds of m as the i-th message of the log. */
  ghost predicate Proper(s: State, i: nat, m: Msg)
    requires i <= |s.log|
  {
    match m
    case Ack(k, yes) => (yes <==> k in s.past.accepted) && k < |s.past.dispatched| && !BeforeAck(s.recv, k)
    case Result(k, _) => k in s.past.accepted && AckedBefore(s.log, i, k)
    case Heartbeat(n) => 0 <= n <= s.max
  }

  /** Every Ack says whether the dispatch got a slot, and every Result comes after the accepting Ack. */
  ghost predicate Ordered(s: State) {
    forall i | 0 <= i < |s.log| :: Proper(s, i, s.log[i])
  }

  ghost predicate AckedRuns(s: State) {
    && (forall k | k in s.runs :: Ack(k, true) in s.log)
    && (s.recv.Registering? || s.recv.Spawning? ==> Ack(s.recv.k, true) in s.log)
  }

  /** Slots taken are exactly the accepted runs not yet done. */
  ghost predicate Slots(s: State) {
    && s.sem == |s.runs| + (if s.recv.Accepting? || s.recv.Registering? || s.recv.Spawning? then 1 else 0)
    && s.sem <= s.max && s.hb <= s.max
  }

  /** Dispatch k has entered its cancel function and not yet deleted it. */
  predicate Registered(s: State, k: nat) {
    s.recv == Spawning(k) || (k in s.runs && !s.runs[k].Unregistered?)
  }

  /** Cancel message n names the run id of dispatch k, which is accepted. */
  predicate Named(s: State, n: nat, k: nat) {
    n < |s.past.asked| && k < |s.past.dispatched| && s.past.dispatched[k] == s.past.asked[n] && k in s.past.accepted
  }

  /** Every entry of the table leads to a registered dispatch with that id. */
  ghost predicate Entries(s: State) {
    forall id | id in s.cancels ::
      s.cancels[id] < |s.past.dispatched| && s.past.dispatched[s.cancels[id]] == id && Registered(s, s.cancels[id])
  }

  ghost predicate CancelTable(s: State) {
    && Entries(s)
    && (s.recv.Canceling? ==> Named(s, s.recv.n, s.recv.k))
    && (forall n | n in s.past.canceled :: Named(s, n, s.past.canceled[n]))
  }

  /** What is known of a handler's outcome: nothing before it has returned, and from then on its status tells it. */
  ghost predicate Outcomes(s: State) {
    && (forall k | k in s.past.returned ::
          k in s.past.accepted && !Holding(s.recv, k) && !(k in s.runs && s.runs[k].Running?))
    && (forall k | k in s.runs && s.runs[k].Finished? :: Told(s.past.returned, k, s.runs[k].status))
    && (forall i | 0 <= i < |s.log| && s.log[i].Result? :: Told(s.past.returned, s.log[i].run, s.log[i].status))
  }

  ghost predicate Told(returned: map<nat, HandlerError>, k: nat, status: Status) {
    k in returned && status == StatusOf(returned[k])
  }

  ghost predicate Inv(s: State) {
    && Consistent(s) && (forall k: nat :: Reports(s, k)) && Ordered(s) && AckedRuns(s) && Slots(s) && CancelTable(s)
    && Channel(s) && Outcomes(s)
  }

  // ------------------------------------------------------------- preservation

  lemma CountsAfterRecv(s: State, k: nat)
    requires Enabled(s, RecvStep)
    ensures Acks(DoRecv(s).log, k) ==
              Acks(s.log, k) + if (s.recv.Rejecting? || s.recv.Accepting?) && s.recv.k == k then 1 else 0
    ensures Results(DoRecv(s).log, k) == Results(s.log, k)
  {
    if s.recv.Rejecting? {
      CountSnoc(s.log, Ack(s.recv.k, false), k);
    } else if s.recv.Accepting? {
      CountSnoc(s.log, Ack(s.recv.k, true), k);
    } else {
      assert DoRecv(s).log == s.log;
    }
  }

  lemma AckReportKeptByRecv(s: State, k: nat)
    requires AckReport(s, k) && Consistent(s) && Enabled(s, RecvStep)
    ensures AckReport(DoRecv(s), k)
  {
    CountsAfterRecv(s, k);
  }

  lemma ResultReportKeptByRecv(s: State, k: nat)
    requires ResultReport(s, k) && Consistent(s) && Enabled(s, RecvStep)
    ensures ResultReport(DoRecv(s), k)
  {
    CountsAfterRecv(s, k);
  }

  lemma ReportsKeptByRecv(s: State, k: nat)
    requires Reports(s, k) && Consistent(s) && Enabled(s, RecvStep)
    ensures Reports(DoRecv(s), k)
  {
    AckReportKeptByRecv(s, k);
    ResultReportKeptByRecv(s, k);
  }

  lemma ReportsKeptByRun(s: State, j: nat, k: nat)
    requires Reports(s, k) && Consistent(s) && Enabled(s, RunStep(j))
    ensures Reports(DoRun(s, j), k)
  {
    match s.runs[j]
    case Finished(status) => CountSnoc(s.log, Result(j, status), k);
    case _ =>
  }

  lemma ReportsKept(s: State, a: Step, k: nat)
    requires Reports(s, k) && Consistent(s) && Enabled(s, a)
    ensures Reports(Do(s, a), k)
  {
    match a
    case RecvStep => ReportsKeptByRecv(s, k);
    case RunStep(j) => ReportsKeptByRun(s, j, k);
    case HeartbeatSend => CountSnoc(s.log, Heartbeat(s.hb), k);
    case _ =>
  }

  /** The log may grow and more may be known to be accepted; what is proper stays so. */
  lemma ProperStays(s: State, s': State, i: nat)
    requires i < |s.log| && s.log <= s'.log && Proper(s, i, s.log[i]) && s'.max == s.max
    requires |s.past.dispatched| <= |s'.past.dispatched| && s.past.accepted <= s'.past.accepted
    requires s.log[i].Ack? ==>
               && (s.log[i].run in s'.past.accepted ==> s.log[i].run in s.past.accepted)
               && !BeforeAck(s'.recv, s.log[i].run)
    ensures s'.log[i] == s.log[i] && Proper(s', i, s'.log[i])
  {
    if s.log[i].Result? {
      var j :| 0 <= j < i && s.log[j] == Ack(s.log[i].run, true);
      assert s'.log[j] == s.log[j];
    }
  }

  lemma OrderedSnoc(s: State, s': State, m: Msg)
    requires Ordered(s) && s'.log == s.log + [m] && Proper(s', |s.log|, m)
    requires s'.past.dispatched == s.past.dispatched && s'.max == s.max && s'.past.accepted == s.past.accepted
    requires forall k: nat | k < |s.past.dispatched| && BeforeAck(s'.recv, k) :: BeforeAck(s.recv, k)
    ensures Ordered(s')
  {
    forall i | 0 <= i < |s'.log| ensures Proper(s', i, s'.log[i]) {
      if i < |s.log| { ProperStays(s, s', i); }
    }
  }

  lemma OrderedSame(s: State, s': State)
    requires Ordered(s) && s'.log == s.log && s'.max == s.max && |s.past.dispatched| <= |s'.past.dispatched|
             && s.past.accepted <= s'.past.accepted
    requires forall k: nat | k < |s.past.dispatched| && BeforeAck(s'.recv, k) :: BeforeAck(s.recv, k)
    requires forall k | k in s'.past.accepted && k !in s.past.accepted :: BeforeAck(s.recv, k)
    ensures Ordered(s')
  {
    forall i | 0 <= i < |s'.log| ensures Proper(s', i, s'.log[i]) { ProperStays(s, s', i); }
  }

  lemma AckIn(log: seq<Msg>, k: nat)
    requires Ack(k, true) in log
    ensures AckedBefore(log, |log|, k)
  {
  }

  /** What a step does to the log, and to what orders it. */
  ghost predicate LogMoves(s: State, s': State) {
    && (s'.log == s.log || (|s'.log| == |s.log| + 1 && s'.log == s.log + [s'.log[|s.log|]]))
    && s'.max == s.max && |s.past.dispatched| <= |s'.past.dispatched| && s.past.accepted <= s'.past.accepted
    && (s'.log != s.log ==> s'.past.dispatched == s.past.dispatched && s'.past.accepted == s.past.accepted)
    && (forall k: nat | k < |s.past.dispatched| && BeforeAck(s'.recv, k) :: BeforeAck(s.recv, k))
    && (forall k | k in s'.past.accepted && k !in s.past.accepted :: BeforeAck(s.recv, k))
  }

  lemma LogMovesByRecv(s: State)
    requires Enabled(s, RecvStep)
    ensures LogMoves(s, DoRecv(s))
  {
  }

  lemma LogMovesByRun(s: State, k: nat)
    requires Enabled(s, RunStep(k))
    ensures LogMoves(s, DoRun(s, k))
  {
  }

  lemma LogMovesByStep(s: State, a: Step)
    requires Enabled(s, a)
    ensures LogMoves(s, Do(s, a))
  {
    match a
    case RecvStep => LogMovesByRecv(s);
    case RunStep(k) => LogMovesByRun(s, k);
    case _ =>
  }

  /** What a step appends is proper. */
  lemma NewProper(s: State, a: Step)
    requires Consistent(s) && AckedRuns(s) && Slots(s) && Enabled(s, a) && LogMoves(s, Do(s, a))
    ensures var s' := Do(s, a); s'.log != s.log ==> Proper(s', |s.log|, s'.log[|s.log|])
  {
    match a
    case RecvStep =>
    case RunStep(k) => if s.runs[k].Finished? { NewResultProper(s, k); }
    case _ =>
  }

  lemma NewResultProper(s: State, k: nat)
    requires Consistent(s) && AckedRuns(s) && Enabled(s, RunStep(k)) && s.runs[k].Finished?
    ensures Proper(DoRun(s, k), |s.log|, DoRun(s, k).log[|s.log|])
  {
    AckIn(s.log, k);
    var j :| 0 <= j < |s.log| && s.log[j] == Ack(k, true);
    assert DoRun(s, k).log[j] == s.log[j];
  }

  lemma OrderedKept(s: State, a: Step)
    requires Ordered(s) && Consistent(s) && AckedRuns(s) && Slots(s) && Enabled(s, a)
    ensures Ordered(Do(s, a))
  {
    var s' := Do(s, a);
    LogMovesByStep(s, a);
    if s'.log == s.log {
      OrderedSame(s, s');
    } else {
      NewProper(s, a);
      OrderedSnoc(s, s', s'.log[|s.log|]);
    }
  }

  lemma ConsistentKeptByRecv(s: State)
    requires Consistent(s) && Enabled(s, RecvStep)
    ensures Consistent(DoRecv(s))
  {
    match s.recv
    case Rejecting(_) =>
    case Acquiring(_) =>
    case Accepting(_) =>
    case Registering(_) =>
    case Spawning(_) =>
    case Canceling(_, _) =>
  }

  lemma AckedRunsKeptByRecv(s: State)
    requires AckedRuns(s) && Enabled(s, RecvStep)
    ensures AckedRuns(DoRecv(s))
  {
    match s.recv
    case Rejecting(_) =>
    case Acquiring(_) =>
    case Accepting(_) =>
    case Registering(_) =>
    case Spawning(_) =>
    case Canceling(_, _) =>
  }

  lemma ConsistentKeptByRun(s: State, k: nat)
    requires Consistent(s) && AckedRuns(s) && Enabled(s, RunStep(k))
    ensures Consistent(DoRun(s, k)) && AckedRuns(DoRun(s, k))
  {
  }

  lemma ConsistentKept(s: State, a: Step)
    requires Consistent(s) && AckedRuns(s) && Enabled(s, a)
    ensures Consistent(Do(s, a)) && AckedRuns(Do(s, a))
  {
    match a
    case RecvStep =>
      ConsistentKeptByRecv(s);
      AckedRunsKeptByRecv(s);
    case RunStep(k) => ConsistentKeptByRun(s, k);
    case _ =>
  }

  lemma ChannelKept(s: State, a: Step)
    requires Channel(s) && Enabled(s, a)
    ensures Channel(Do(s, a))
  {
    match a
    case RecvStep =>
    case RunStep(k) =>
    case _ =>
  }

  lemma Insert(m: map<nat, RunPc>, k: nat, pc: RunPc)
    ensures |m[k := pc]| == |m| + if k in m then 0 else 1
  {
    assert m[k := pc].Keys == m.Keys + {k};
  }

  lemma Drop(m: map<nat, RunPc>, k: nat)
    requires k in m
    ensures |m - {k}| == |m| - 1
  {
    assert (m - {k}).Keys == m.Keys - {k};
  }

  lemma SlotsKept(s: State, a: Step)
    requires Slots(s) && Consistent(s) && Enabled(s, a)
    ensures Slots(Do(s, a))
  {
    match a
    case RecvStep => SlotsKeptByRecv(s);
    case Return(k, err) => Insert(s.runs, k, Finished(StatusOf(err)));
    case RunStep(k) => SlotsKeptByRun(s, k);
    case _ =>
  }

  lemma SlotsKeptByRecv(s: State)
    requires Slots(s) && Consistent(s) && Enabled(s, RecvStep)
    ensures Slots(DoRecv(s))
  {
    if s.recv.Spawning? { Insert(s.runs, s.recv.k, Running); }
  }

  lemma SlotsKeptByRun(s: State, k: nat)
    requires Slots(s) && Enabled(s, RunStep(k))
    ensures Slots(DoRun(s, k))
  {
    Drop(s.runs, k);
    Insert(s.runs, k, Reported);
    Insert(s.runs, k, Unregistered);
  }

  lemma EntriesKeptByRecv(s: State)
    requires Entries(s) && Consistent(s) && Enabled(s, RecvStep)
    ensures Entries(DoRecv(s))
  {
    var s' := DoRecv(s);
    forall id | id in s'.cancels ensures Registered(s', s'.cancels[id]) {
      if s.recv.Registering? && id == IdOf(s, s.recv.k) {
        assert s'.recv == Spawning(s'.cancels[id]);
      } else {
        assert Registered(s, s.cancels[id]);
      }
    }
  }

  lemma CancelTableKeptByRecv(s: State)
    requires CancelTable(s) && Consistent(s) && Enabled(s, RecvStep)
    ensures CancelTable(DoRecv(s))
  {
    EntriesKeptByRecv(s);
    var s' := DoRecv(s);
    assert s.recv.Canceling? ==> Named(s, s.recv.n, s.recv.k);
    forall n | n in s'.past.canceled ensures Named(s', n, s'.past.canceled[n]) {
      assert n in s.past.canceled ==> Named(s, n, s.past.canceled[n]);
    }
  }

  lemma CancelTableKeptByRun(s: State, k: nat)
    requires CancelTable(s) && Consistent(s) && Enabled(s, RunStep(k))
    ensures CancelTable(DoRun(s, k))
  {
  }

  lemma CancelTableKeptByMessage(s: State, id: string)
    requires CancelTable(s) && Consistent(s) && Enabled(s, CancelMessage(id))
    ensures CancelTable(Do(s, CancelMessage(id)))
  {
  }

  lemma CancelTableKeptByReturn(s: State, k: nat, err: HandlerError)
    requires CancelTable(s) && Enabled(s, Return(k, err))
    ensures CancelTable(Do(s, Return(k, err)))
  {
  }

  lemma CancelTableKept(s: State, a: Step)
    requires CancelTable(s) && Consistent(s) && Enabled(s, a)
    ensures CancelTable(Do(s, a))
  {
    match a
    case RecvStep => CancelTableKeptByRecv(s);
    case RunStep(k) => CancelTableKeptByRun(s, k);
    case CancelMessage(id) => CancelTableKeptByMessage(s, id);
    case Return(k, err) => CancelTableKeptByReturn(s, k, err);
    case _ =>
  }

  lemma OutcomesKeptByRecv(s: State)
    requires Outcomes(s) && Consistent(s) && Enabled(s, RecvStep)
    ensures Outcomes(DoRecv(s))
  {
    var log := DoRecv(s).log;
    forall i | 0 <= i < |log| && log[i].Result? ensures Told(s.past.returned, log[i].run, log[i].status) {
      assert log[i] == s.log[i];
    }
  }

  lemma OutcomesKeptByRun(s: State, k: nat)
    requires Outcomes(s) && Enabled(s, RunStep(k))
    ensures Outcomes(DoRun(s, k))
  {
    var log := DoRun(s, k).log;
    forall i | 0 <= i < |log| && log[i].Result? ensures Told(s.past.returned, log[i].run, log[i].status) {
      if i < |s.log| { assert log[i] == s.log[i]; }
    }
  }

  /** A handler returns once, so that what has been told of others stays true. */
  lemma OutcomesKeptByReturn(s: State, k: nat, err: HandlerError)
    requires Outcomes(s) && Consistent(s) && Enabled(s, Return(k, err))
    ensures Outcomes(Do(s, Return(k, err)))
  {
    var s' := Do(s, Return(k, err));
    forall i | 0 <= i < |s.log| && s.log[i].Result? ensures Told(s'.past.returned, s.log[i].run, s.log[i].status) {
      assert Told(s.past.returned, s.log[i].run, s.log[i].status) && s.log[i].run != k;
    }
  }

  lemma OutcomesKept(s: State, a: Step)
    requires Outcomes(s) && Consistent(s) && Enabled(s, a)
    ensures Outcomes(Do(s, a))
  {
    match a
    case RecvStep => OutcomesKeptByRecv(s);
    case RunStep(k) => OutcomesKeptByRun(s, k);
    case Return(k, err) => OutcomesKeptByReturn(s, k, err);
    case _ =>
  }

  lemma InvKept(s: State, a: Step)
    requires Inv(s) && Enabled(s, a)
    ensures Inv(Do(s, a))
  {
    forall k: nat ensures Reports(Do(s, a), k) { ReportsKept(s, a, k); }
    OrderedKept(s, a);
    ConsistentKept(s, a);
    SlotsKept(s, a);
    CancelTableKept(s, a);
    ChannelKept(s, a);
    OutcomesKept(s, a);
  }
}
