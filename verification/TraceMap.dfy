/** The TTL map that carries trace contexts to TCP acknowledgements (pkg/trace/tcp_context.go lines 20-146).

    TCPContextMap is the map itself, one method per critical section; the rest of the module runs Save,
    Load and sweep as goroutines whose tests of closed and clock readings lie outside the lock. */
module TraceMap {
  import opened Strconv

  datatype Entry = Entry(valid: bool, span: nat, deviceNo: string, insType: string, expireAt: int)

  /** What Load returns beside the parent context. */
  datatype Answer =
    | Miss
    | Invalid(deviceNo: string, insType: string)
    | Hit(span: nat, deviceNo: string, insType: string)

  type Items = map<string, Entry>

  function Swept(items: Items, now: int): Items { map k | k in items && now <= items[k].expireAt :: items[k] }

  function Get(items: Items, k: string): Option<Entry> { if k in items then Some(items[k]) else None }

  /** The end of Load, for what it took from the map and a later clock reading. */
  function Check(taken: Option<Entry>, now: int): Answer {
    match taken
    case None => Miss
    case Some(e) =>
      if now > e.expireAt then Miss
      else if e.valid then Hit(e.span, e.deviceNo, e.insType)
      else Invalid(e.deviceNo, e.insType)
  }

  /** The ttl Save uses. */
  function Ttl(ttl: int, maxTTL: int): (r: int)
    requires maxTTL > 0
    ensures 0 < r <= maxTTL && (0 < ttl <= maxTTL ==> r == ttl)
  {
    if ttl <= 0 || ttl > maxTTL then maxTTL else ttl
  }

  const DEFAULT_MAX_TTL: int := 10 * 60 * 1_000_000_000  // nanoseconds

  class TCPContextMap {
    var items: Items
    const maxTTL: int
    var closed: bool

    ghost predicate Valid()
      reads this
    {
      maxTTL > 0 && "" !in items
    }

    constructor (maxTTL: int)
      ensures Valid() && items == map[] && !closed && this.maxTTL == if maxTTL <= 0 then DEFAULT_MAX_TTL else maxTTL
    {
      items, closed := map[], false;
      this.maxTTL := if maxTTL <= 0 then DEFAULT_MAX_TTL else maxTTL;
    }

    /** Save, with the clock reading now. */
    method Save(msgID: string, valid: bool, span: nat, ttl: int, deviceNo: string, insType: string, now: int)
      requires Valid()
      modifies this`items
      ensures Valid()
      ensures items == if closed || msgID == "" then old(items)
                       else old(items)[msgID := Entry(valid, span, deviceNo, insType, now + Ttl(ttl, maxTTL))]
      ensures !closed && msgID != "" ==>
                items[msgID].expireAt == now + if 0 < ttl <= maxTTL then ttl else maxTTL
    {
      if closed || msgID == "" {
        return;
      }
      var t := if ttl <= 0 || ttl > maxTTL then maxTTL else ttl;
      items := items[msgID := Entry(valid, span, deviceNo, insType, now + t)];
    }

    /** Load, with the clock reading now taken after the entry was removed. */
    method Load(msgID: string, now: int) returns (r: Answer)
      requires Valid()
      modifies this`items
      ensures Valid()
      ensures items == if closed then old(items) else old(items) - {msgID}
      ensures r == if closed then Miss else Check(Get(old(items), msgID), now)
      ensures if closed || msgID !in old(items) || now > old(items)[msgID].expireAt then r == Miss
              else var e := old(items)[msgID];
                   r == if e.valid then Hit(e.span, e.deviceNo, e.insType) else Invalid(e.deviceNo, e.insType)
    {
      if closed || msgID == "" {
        return Miss;
      }
      var taken := Get(items, msgID);
      if taken.Some? {
        items := items - {msgID};
      }
      r := Check(taken, now);
    }

    method Stats() returns (n: nat)
      ensures n == |items|
    {
      n := |items|;
    }

    method Close()
      modifies this`closed
      ensures closed
    {
      closed := true;
    }

    /** sweep, with the clock reading now taken before the lock, visiting the map in any order. */
    method Sweep(now: int)
      requires Valid()
      modifies this`items
      ensures Valid() && items == Swept(old(items), now)
      ensures forall k :: k in items <==> k in old(items) && now <= old(items)[k].expireAt
    {
      var todo := items.Keys;
      while todo != {}
        invariant todo <= items.Keys && "" !in items
        invariant forall k :: k in items <==> k in old(items) && (k in todo || now <= old(items)[k].expireAt)
        invariant forall k | k in items :: items[k] == old(items)[k]
      {
        var k :| k in todo;
        todo := todo - {k};
        if now > items[k].expireAt {
          items := items - {k};
        }
      }
    }
  }

  // --------------------------------------------------------------- goroutines

  datatype Op =
    | Opened                                              // Save or Load found the map open
    | SaveRead(id: string, entry: Entry, savedAt: int)   // clock read, lock not taken
    | LoadTaken(id: string, taken: Option<Entry>, ref: Option<Entry>)  // entry removed, clock not read
    | SweepRead(at: int)                                  // clock read, lock not taken

  datatype Event =
    | Saved(id: string, entry: Entry, savedAt: int)
    | Taken(id: string, entry: Entry)    // Load found an entry
    | Answered(id: string, answer: Answer, ref: Answer, at: int)

  /** ref is a map that is never swept; it gets the same Saves and Loads. */
  datatype State = State(now: int, closed: bool, items: Items, ref: Items, ops: map<nat, Op>, log: seq<Event>)

  datatype Step =
    | Tick(d: nat)
    | Open(t: nat)
    | StartSave(t: nat, id: string, entry: Entry, ttl: int)
    | FinishSave(t: nat)
    | Take(t: nat, id: string)
    | Answer(t: nat)
    | StartSweep(t: nat)
    | FinishSweep(t: nat)
    | Close

  predicate Enabled(s: State, a: Step) {
    match a
    case Tick(_) => true
    case Open(t) => t !in s.ops && !s.closed
    case StartSave(t, id, _, _) => t in s.ops && s.ops[t].Opened? && id != ""
    case FinishSave(t) => t in s.ops && s.ops[t].SaveRead?
    case Take(t, id) => t in s.ops && s.ops[t].Opened? && id != ""
    case Answer(t) => t in s.ops && s.ops[t].LoadTaken?
    case StartSweep(t) => t !in s.ops   // also after Close, when the ticker is picked once more
    case FinishSweep(t) => t in s.ops && s.ops[t].SweepRead?
    case Close => true
  }

  function Begin(s: State, t: nat, op: Op): State { s.(ops := s.ops[t := op]) }

  function End(s: State, t: nat): State { s.(ops := s.ops - {t}) }

  function DoTake(s: State, t: nat, id: string): State {
    var taken := Get(s.items, id);
    Begin(s, t, LoadTaken(id, taken, Get(s.ref, id))).(
      items := s.items - {id}, ref := s.ref - {id}, log := s.log + if taken.Some? then [Taken(id, taken.value)] else [])
  }

  function Do(s: State, a: Step, maxTTL: int): State
    requires maxTTL > 0 && Enabled(s, a)
  {
    match a
    case Tick(d) => s.(now := s.now + d)
    case Open(t) => Begin(s, t, Opened)
    case StartSave(t, id, entry, ttl) => Begin(s, t, SaveRead(id, entry.(expireAt := s.now + Ttl(ttl, maxTTL)), s.now))
    case FinishSave(t) =>
      var op := s.ops[t];
      End(s, t).(items := s.items[op.id := op.entry], ref := s.ref[op.id := op.entry],
                 log := s.log + [Saved(op.id, op.entry, op.savedAt)])
    case Take(t, id) => DoTake(s, t, id)
    case Answer(t) =>
      var op := s.ops[t];
      End(s, t).(log := s.log + [Answered(op.id, Check(op.taken, s.now), Check(op.ref, s.now), s.now)])
    case StartSweep(t) => Begin(s, t, SweepRead(s.now))
    case FinishSweep(t) => End(s, t).(items := Swept(s.items, s.ops[t].at))
    case Close => s.(closed := true)
  }

  predicate Initial(s: State) { !s.closed && s.items == map[] && s.ref == map[] && s.ops == map[] && s.log == [] }

  /** The two maps agree but for entries that have expired. */
  predicate Agree(a: Option<Entry>, ref: Option<Entry>, now: int) {
    a == ref || (a.None? && ref.Some? && ref.value.expireAt < now)
  }

  ghost predicate MapsAgree(s: State) { forall id :: Agree(Get(s.items, id), Get(s.ref, id), s.now) }

  ghost predicate OpsAgree(s: State) {
    forall t | t in s.ops ::
      match s.ops[t]
      case Opened => true
      case SaveRead(_, _, _) => true
      case LoadTaken(_, taken, ref) => Agree(taken, ref, s.now)
      case SweepRead(at) => at <= s.now
  }

  ghost predicate AnswersAgree(s: State) {
    forall i | 0 <= i < |s.log| && s.log[i].Answered? :: s.log[i].answer == s.log[i].ref
  }

  lemma MapsAgreeKept(s: State, a: Step, maxTTL: int)
    requires maxTTL > 0 && Enabled(s, a) && MapsAgree(s) && OpsAgree(s)
    ensures MapsAgree(Do(s, a, maxTTL))
  {
    var s' := Do(s, a, maxTTL);
    forall id ensures Agree(Get(s'.items, id), Get(s'.ref, id), s'.now) {
      assert Agree(Get(s.items, id), Get(s.ref, id), s.now);
    }
  }

  lemma OpsAgreeKept(s: State, a: Step, maxTTL: int)
    requires maxTTL > 0 && Enabled(s, a) && MapsAgree(s) && OpsAgree(s)
    ensures OpsAgree(Do(s, a, maxTTL))
  {
    if a.Take? { assert Agree(Get(s.items, a.id), Get(s.ref, a.id), s.now); }
  }

  lemma AnswersAgreeKept(s: State, a: Step, maxTTL: int)
    requires maxTTL > 0 && Enabled(s, a) && OpsAgree(s) && AnswersAgree(s)
    ensures AnswersAgree(Do(s, a, maxTTL))
  {
  }

  // -------------------------------------------------------------- where hits come from

  /** Event m saved e under id, for at most maxTTL. */
  predicate SavedBy(log: seq<Event>, m: nat, id: string, e: Entry, maxTTL: int) {
    m < |log| && log[m].Saved? && log[m].id == id && log[m].entry == e && e.expireAt <= log[m].savedAt + maxTTL
  }

  predicate TakesId(log: seq<Event>, m: nat, id: string) { m < |log| && log[m].Taken? && log[m].id == id }

  /** Some event saved e under id, and up to event n no Load has taken it. */
  ghost predicate Untaken(log: seq<Event>, n: nat, id: string, e: Entry, maxTTL: int) {
    exists m: nat :: m < n && SavedBy(log, m, id, e, maxTTL) && forall i: nat | m < i < n :: !TakesId(log, i, id)
  }

  ghost predicate WasSaved(log: seq<Event>, id: string, e: Entry, maxTTL: int) {
    exists m: nat :: SavedBy(log, m, id, e, maxTTL)
  }

  ghost predicate ItemsSaved(s: State, maxTTL: int) {
    forall id | id in s.items :: Untaken(s.log, |s.log|, id, s.items[id], maxTTL)
  }

  ghost predicate OpsSaved(s: State, maxTTL: int) {
    forall t | t in s.ops ::
      match s.ops[t]
      case Opened => true
      case SaveRead(_, entry, savedAt) => entry.expireAt <= savedAt + maxTTL
      case LoadTaken(id, taken, _) => taken.Some? ==> WasSaved(s.log, id, taken.value, maxTTL)
      case SweepRead(_) => true
  }

  /** What event j says is right: a Load took what was saved since the last Load took something, and a
      hit is an entry saved at most maxTTL earlier. */
  ghost predicate Sound(log: seq<Event>, j: nat, maxTTL: int)
    requires j < |log|
  {
    match log[j]
    case Saved(_, _, _) => true
    case Taken(id, entry) => Untaken(log, j, id, entry, maxTTL)
    case Answered(id, answer, _, at) =>
      answer.Hit? ==>
        exists m: nat, e: Entry ::
          m < j && SavedBy(log, m, id, e, maxTTL) && answer == Hit(e.span, e.deviceNo, e.insType)
                                            && e.valid && at - log[m].savedAt <= maxTTL
  }

  ghost predicate AllSound(log: seq<Event>, maxTTL: int) { forall j: nat | j < |log| :: Sound(log, j, maxTTL) }

  lemma SoundLonger(log: seq<Event>, log': seq<Event>, j: nat, maxTTL: int)
    requires log <= log' && j < |log| && Sound(log, j, maxTTL)
    ensures Sound(log', j, maxTTL)
  {
    match log[j]
    case Saved(_, _, _) =>
    case Taken(id, entry) => UntakenLonger(log, log', j, id, entry, maxTTL);
    case Answered(id, answer, _, at) =>
      if answer.Hit? {
        var m: nat, e: Entry :| m < j && SavedBy(log, m, id, e, maxTTL) && answer == Hit(e.span, e.deviceNo, e.insType)
                                && e.valid && at - log[m].savedAt <= maxTTL;
        assert SavedBy(log', m, id, e, maxTTL);
      }
  }

  lemma UntakenLonger(log: seq<Event>, log': seq<Event>, n: nat, id: string, e: Entry, maxTTL: int)
    requires log <= log' && n <= |log| && Untaken(log, n, id, e, maxTTL)
    ensures Untaken(log', n, id, e, maxTTL)
  {
    var m: nat :| m < n && SavedBy(log, m, id, e, maxTTL) && forall i: nat | m < i < n :: !TakesId(log, i, id);
    assert SavedBy(log', m, id, e, maxTTL);
    forall i: nat | m < i < n ensures !TakesId(log', i, id) { assert !TakesId(log, i, id); }
  }

  lemma UntakenNext(log: seq<Event>, ev: Event, id: string, e: Entry, maxTTL: int)
    requires Untaken(log, |log|, id, e, maxTTL) && !(ev.Taken? && ev.id == id)
    ensures Untaken(log + [ev], |log| + 1, id, e, maxTTL)
  {
    UntakenLonger(log, log + [ev], |log|, id, e, maxTTL);
    var m: nat :| m < |log| && SavedBy(log + [ev], m, id, e, maxTTL)
                  && forall i: nat | m < i < |log| :: !TakesId(log + [ev], i, id);
    forall i: nat | m < i < |log| + 1 ensures !TakesId(log + [ev], i, id) {}
  }

  lemma JustSaved(log: seq<Event>, id: string, e: Entry, savedAt: int, maxTTL: int)
    requires e.expireAt <= savedAt + maxTTL
    ensures Untaken(log + [Saved(id, e, savedAt)], |log| + 1, id, e, maxTTL)
  {
    assert SavedBy(log + [Saved(id, e, savedAt)], |log|, id, e, maxTTL);
  }

  lemma ItemsSavedKept(s: State, a: Step, maxTTL: int)
    requires maxTTL > 0 && Enabled(s, a) && ItemsSaved(s, maxTTL) && OpsSaved(s, maxTTL)
    ensures ItemsSaved(Do(s, a, maxTTL), maxTTL)
  {
    var s' := Do(s, a, maxTTL);
    forall id | id in s'.items ensures Untaken(s'.log, |s'.log|, id, s'.items[id], maxTTL) {
      if a.FinishSave? && id == s.ops[a.t].id {
        JustSaved(s.log, id, s.ops[a.t].entry, s.ops[a.t].savedAt, maxTTL);
      } else {
        assert Untaken(s.log, |s.log|, id, s.items[id], maxTTL);
        if s'.log != s.log {
          UntakenNext(s.log, s'.log[|s.log|], id, s.items[id], maxTTL);
          assert s'.log == s.log + [s'.log[|s.log|]];
        }
      }
    }
  }

  lemma WasSavedLonger(log: seq<Event>, log': seq<Event>, id: string, e: Entry, maxTTL: int)
    requires log <= log' && WasSaved(log, id, e, maxTTL)
    ensures WasSaved(log', id, e, maxTTL)
  {
    var m: nat :| SavedBy(log, m, id, e, maxTTL);
    assert SavedBy(log', m, id, e, maxTTL);
  }

  lemma OpsSavedKept(s: State, a: Step, maxTTL: int)
    requires maxTTL > 0 && Enabled(s, a) && ItemsSaved(s, maxTTL) && OpsSaved(s, maxTTL)
    ensures OpsSaved(Do(s, a, maxTTL), maxTTL)
  {
    var s' := Do(s, a, maxTTL);
    forall t | t in s'.ops && s'.ops[t].LoadTaken? && s'.ops[t].taken.Some?
      ensures WasSaved(s'.log, s'.ops[t].id, s'.ops[t].taken.value, maxTTL)
    {
      if a.Take? && t == a.t {
        assert Untaken(s.log, |s.log|, a.id, s.items[a.id], maxTTL);
      }
      WasSavedLonger(s.log, s'.log, s'.ops[t].id, s'.ops[t].taken.value, maxTTL);
    }
  }

  lemma NextSound(s: State, a: Step, maxTTL: int)
    requires maxTTL > 0 && Enabled(s, a) && ItemsSaved(s, maxTTL) && OpsSaved(s, maxTTL)
    ensures var log := Do(s, a, maxTTL).log;
            log != s.log ==> log == s.log + [log[|s.log|]] && Sound(log, |s.log|, maxTTL)
  {
    var log := Do(s, a, maxTTL).log;
    if a.Take? && a.id in s.items {
      UntakenLonger(s.log, log, |s.log|, a.id, s.items[a.id], maxTTL);
    } else if a.Answer? {
      var op := s.ops[a.t];
      if Check(op.taken, s.now).Hit? {
        var m: nat :| SavedBy(s.log, m, op.id, op.taken.value, maxTTL);
        assert SavedBy(log, m, op.id, op.taken.value, maxTTL);
      }
    }
  }

  lemma AllSoundKept(s: State, a: Step, maxTTL: int)
    requires maxTTL > 0 && Enabled(s, a) && ItemsSaved(s, maxTTL) && OpsSaved(s, maxTTL) && AllSound(s.log, maxTTL)
    ensures AllSound(Do(s, a, maxTTL).log, maxTTL)
  {
    NextSound(s, a, maxTTL);
    var log := Do(s, a, maxTTL).log;
    forall j: nat | j < |log| ensures Sound(log, j, maxTTL) {
      if j < |s.log| { SoundLonger(s.log, log, j, maxTTL); }
    }
  }

  // ------------------------------------------------------------------ whole runs

  ghost predicate IsStep(s: State, s': State, maxTTL: int)
    requires maxTTL > 0
  {
    exists a :: Enabled(s, a) && s' == Do(s, a, maxTTL)
  }

  ghost predicate IsRun(trace: seq<State>, maxTTL: int)
    requires maxTTL > 0
  {
    trace != [] && Initial(trace[0]) && forall i | 0 <= i < |trace| - 1 :: IsStep(trace[i], trace[i + 1], maxTTL)
  }

  ghost predicate Inv(s: State, maxTTL: int) {
    MapsAgree(s) && OpsAgree(s) && AnswersAgree(s) && ItemsSaved(s, maxTTL) && OpsSaved(s, maxTTL)
    && AllSound(s.log, maxTTL)
  }

  lemma {:induction false} InvHolds(trace: seq<State>, i: nat, maxTTL: int)
    requires maxTTL > 0 && IsRun(trace, maxTTL) && i < |trace|
    ensures Inv(trace[i], maxTTL)
  {
    if i > 0 {
      InvHolds(trace, i - 1, maxTTL);
      var s := trace[i - 1];
      assert IsStep(s, trace[i - 1 + 1], maxTTL);
      var a :| Enabled(s, a) && trace[i] == Do(s, a, maxTTL);
      MapsAgreeKept(s, a, maxTTL);
      OpsAgreeKept(s, a, maxTTL);
      AnswersAgreeKept(s, a, maxTTL);
      ItemsSavedKept(s, a, maxTTL);
      OpsSavedKept(s, a, maxTTL);
      AllSoundKept(s, a, maxTTL);
    }
  }

  /** The sweeper is transparent: every Load returns what it would from a map that is never swept. */
  lemma SweepIsTransparent(trace: seq<State>, i: nat, maxTTL: int)
    requires maxTTL > 0 && IsRun(trace, maxTTL) && i < |trace|
    ensures forall j | 0 <= j < |trace[i].log| && trace[i].log[j].Answered? ::
              trace[i].log[j].answer == trace[i].log[j].ref
  {
    InvHolds(trace, i, maxTTL);
  }

  /** A saved entry is used up by the first Load that finds it: between two such Loads of one id there is a
      Save of it. */
  lemma SavedInBetween(trace: seq<State>, i: nat, maxTTL: int, j: nat, k: nat)
    requires maxTTL > 0 && IsRun(trace, maxTTL) && i < |trace| && j < k < |trace[i].log|
    requires trace[i].log[j].Taken? && trace[i].log[k].Taken? && trace[i].log[j].id == trace[i].log[k].id
    ensures exists m | j < m < k ::
              trace[i].log[m].Saved? && trace[i].log[m].id == trace[i].log[k].id
              && trace[i].log[m].entry == trace[i].log[k].entry
  {
    InvHolds(trace, i, maxTTL);
    var log := trace[i].log;
    var id, e := log[k].id, log[k].entry;
    assert Sound(log, k, maxTTL);
    var m: nat :| m < k && SavedBy(log, m, id, e, maxTTL) && forall i: nat | m < i < k :: !TakesId(log, i, id);
    assert TakesId(log, j, id);
  }

  /** A hit returns what an earlier Save of that id stored, with a clock reading at most maxTTL earlier. */
  lemma HitIsRecent(trace: seq<State>, i: nat, maxTTL: int, j: nat)
    requires maxTTL > 0 && IsRun(trace, maxTTL) && i < |trace| && j < |trace[i].log|
    requires trace[i].log[j].Answered? && trace[i].log[j].answer.Hit?
    ensures exists m: nat, e: Entry ::
              && m < j && SavedBy(trace[i].log, m, trace[i].log[j].id, e, maxTTL)
              && trace[i].log[j].answer == Hit(e.span, e.deviceNo, e.insType)
              && e.valid && trace[i].log[j].at - trace[i].log[m].savedAt <= maxTTL
  {
    InvHolds(trace, i, maxTTL);
    assert Sound(trace[i].log, j, maxTTL);
  }
}
