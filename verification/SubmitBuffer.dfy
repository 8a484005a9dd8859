/** The memory-level fallback queue and the client operations over both levels
    (pkg/scheduler/submit_buffer.go). What these operations guarantee over whole
    interleaved runs is in module FallbackQueue. */
module SubmitBuffer {
  import opened SpoolNames
  import opened Strconv
  import opened SpoolIndex
  import opened SubmitSpool

  class Buffer {
    const cap: nat
    var queue: seq<BufferedTask>

    ghost predicate Valid()
      reads this
    {
      |queue| <= cap
    }

    constructor (cap: nat)
      ensures Valid() && this.cap == cap && queue == []
    {
      this.cap := cap;
      queue := [];
    }

    method Push(t: BufferedTask) returns (ok: bool)
      requires Valid()
      modifies this
      ensures Valid()
      ensures ok <==> |old(queue)| < cap
      ensures queue == old(queue) + if ok then [t] else []
    {
      if |queue| >= cap {
        return false;
      }
      queue := queue + [t];
      return true;
    }

    method Drain(max: int) returns (out: seq<BufferedTask>)
      requires Valid()
      modifies this
      ensures Valid() && out + queue == old(queue)
      ensures |out| == if max <= 0 || max > |old(queue)| then |old(queue)| else max
    {
      if |queue| == 0 {
        return [];
      }
      var n := if max <= 0 || max > |queue| then |queue| else max;
      out := queue[..n];
      queue := queue[n..];
    }

    /** The failed tasks go back to the front; what exceeds cap is dropped from the front. */
    method PutBack(items: seq<BufferedTask>)
      requires Valid()
      modifies this
      ensures Valid()
      ensures var merged := items + old(queue);
              queue == if |merged| > cap then merged[|merged| - cap..] else merged
    {
      if |items| == 0 {
        assert items + queue == queue;
        return;
      }
      var merged := items + queue;
      if |merged| > cap {
        merged := merged[|merged| - cap..];
      }
      queue := merged;
    }
  }

  /** Status codes of a failed SubmitTask; NotGrpc is an error without a gRPC status. */
  datatype SubmitError =
    | NotGrpc | Canceled | Unknown | InvalidArgument | DeadlineExceeded | NotFound | AlreadyExists | PermissionDenied
    | ResourceExhausted | FailedPrecondition | Aborted | OutOfRange | Unimplemented | Internal | Unavailable
    | DataLoss | Unauthenticated

  datatype Outcome = Accepted | Failed(error: SubmitError)

  predicate IsRetriable(e: SubmitError) {
    match e
    case NotGrpc | Unavailable | DeadlineExceeded | Canceled | ResourceExhausted | Aborted | Internal => true
    case _ => false
  }

  datatype EnqueueError = NoError | Disabled | JobNameRequired | Refused(error: SubmitError) | BufferFull

  predicate FailsRetriably(o: Outcome) { o.Failed? && IsRetriable(o.error) }

  /** Of the first size submissions, from number i on, the first that fails retriably. */
  function FirstRetriable(size: nat, outcomes: nat -> Outcome, i: nat): (n: nat)
    requires i <= size
    ensures i <= n <= size
    decreases size - i
  {
    if i == size || FailsRetriably(outcomes(i)) then i else FirstRetriable(size, outcomes, i + 1)
  }

  lemma {:induction false} FirstRetriableExact(size: nat, outcomes: nat -> Outcome, i: nat)
    requires i <= size
    ensures var n := FirstRetriable(size, outcomes, i);
            var codes := {NotGrpc, Unavailable, DeadlineExceeded, Canceled, ResourceExhausted, Aborted, Internal};
            && (n < size ==> FailsRetriably(outcomes(n)) && outcomes(n).Failed? && outcomes(n).error in codes)
            && (forall j | i <= j < n ::
                  !FailsRetriably(outcomes(j)) && (outcomes(j).Accepted? || outcomes(j).error !in codes))
    decreases size - i
  {
    if i < size && !FailsRetriably(outcomes(i)) { FirstRetriableExact(size, outcomes, i + 1); }
  }

  /** Of n submissions number k is the first that fails with a code of an outage; those before it are accepted, or
      fail with another code and are dropped for good. */
  ghost predicate Stops(outcomes: nat -> Outcome, n: nat, k: nat) {
    var codes := {NotGrpc, Unavailable, DeadlineExceeded, Canceled, ResourceExhausted, Aborted, Internal};
    && k <= n && (k < n ==> outcomes(k).Failed? && outcomes(k).error in codes)
    && (forall j | 0 <= j < k :: outcomes(j).Accepted? || outcomes(j).error !in codes)
  }

  lemma StopsThere(outcomes: nat -> Outcome, n: nat)
    ensures var k := FirstRetriable(n, outcomes, 0);
            Stops(outcomes, n, k) && forall i: nat :: i in AcceptedOf(outcomes, k) <==> i < k && outcomes(i).Accepted?
  {
    FirstRetriableExact(n, outcomes, 0);
    AcceptedExact(outcomes, FirstRetriable(n, outcomes, 0));
  }

  /** Which of the first n submissions were accepted. */
  function AcceptedOf(outcomes: nat -> Outcome, n: nat): seq<nat> {
    if n == 0 then [] else AcceptedOf(outcomes, n - 1) + if outcomes(n - 1).Accepted? then [n - 1] else []
  }

  lemma {:induction false} AcceptedExact(outcomes: nat -> Outcome, n: nat)
    ensures forall i: nat :: i in AcceptedOf(outcomes, n) <==> i < n && outcomes(i).Accepted?
    ensures forall i, j | 0 <= i < j < |AcceptedOf(outcomes, n)| ::
              AcceptedOf(outcomes, n)[i] < AcceptedOf(outcomes, n)[j]
  {
    if n > 0 {
      AcceptedExact(outcomes, n - 1);
      var before := AcceptedOf(outcomes, n - 1);
      forall i | 0 <= i < |before| ensures before[i] < n - 1 { assert before[i] in AcceptedOf(outcomes, n - 1); }
    }
  }

  /** The first k submissions of a round, none failing retriably, and which of them were accepted. */
  ghost predicate Sent(outcomes: nat -> Outcome, size: nat, k: nat, accepted: seq<nat>) {
    k <= size && accepted == AcceptedOf(outcomes, k)
    && FirstRetriable(size, outcomes, 0) == FirstRetriable(size, outcomes, k)
  }

  lemma SentMore(outcomes: nat -> Outcome, size: nat, k: nat, accepted: seq<nat>)
    requires Sent(outcomes, size, k, accepted) && k < size && !FailsRetriably(outcomes(k))
    ensures Sent(outcomes, size, k + 1, if outcomes(k).Accepted? then accepted + [k] else accepted)
  {
  }

  lemma SentAll(outcomes: nat -> Outcome, size: nat, k: nat, accepted: seq<nat>)
    requires Sent(outcomes, size, k, accepted) && (k == size || FailsRetriably(outcomes(k)))
    ensures k == FirstRetriable(size, outcomes, 0)
  {
  }

  /** How many of size queued tasks a round takes. */
  function BatchSize(max: int, size: nat): (n: nat)
    ensures n <= size && (size > 0 ==> n > 0)
  {
    if max <= 0 || max > size then size else max
  }

  predicate AllDecode(codec: Codec, recs: seq<Record>) {
    forall i | 0 <= i < |recs| :: codec.unmarshal(recs[i].data).Some?
  }

  /** The number inside the record is the one it is filed under. */
  ghost predicate AgreesOnNumber(codec: Codec, r: Record) {
    var t := codec.unmarshal(r.data);
    t.Some? ==> t.value.no == r.no
  }

  /** batch is the oldest of recs, decoded. */
  ghost predicate IsBatch(codec: Codec, recs: seq<Record>, batch: seq<SpoolTask>) {
    |batch| <= |recs| && forall i | 0 <= i < |batch| :: codec.unmarshal(recs[i].data) == Some(batch[i])
  }

  predicate AllTrue(bs: seq<bool>) { forall i | 0 <= i < |bs| :: bs[i] }

  /** Of the first |removed| elements of q, those not removed. */
  function Unremoved<T>(q: seq<T>, removed: seq<bool>): seq<T>
    requires |removed| <= |q|
  {
    if removed == [] then [] else
      var last := |removed| - 1;
      Unremoved(q, removed[..last]) + if removed[last] then [] else [q[last]]
  }

  /** Of was, the first |removed| records have been dealt with; of these, only those not removed are still there. */
  ghost predicate Remaining(recs: seq<Record>, removed: seq<bool>, was: seq<Record>) {
    |removed| <= |was| && recs == Unremoved(was, removed) + was[|removed|..]
  }

  lemma RemainingStart(was: seq<Record>)
    ensures Remaining(was, [], was)
  {
    assert [] + was[0..] == was;
  }

  lemma {:induction false} UnremovedIn<T>(q: seq<T>, removed: seq<bool>)
    requires |removed| <= |q|
    ensures forall x | x in Unremoved(q, removed) :: x in q
  {
    if removed != [] { UnremovedIn(q, removed[..|removed| - 1]); }
  }

  lemma {:induction false} AllRemoved<T>(q: seq<T>, removed: seq<bool>)
    requires |removed| <= |q| && AllTrue(removed)
    ensures Unremoved(q, removed) == []
  {
    if removed != [] {
      AllRemoved(q, removed[..|removed| - 1]);
    }
  }

  lemma UnremovedMore<T>(q: seq<T>, removed: seq<bool>, ok: bool)
    requires |removed| < |q|
    ensures Unremoved(q, removed + [ok]) ==
              if ok then Unremoved(q, removed) else Unremoved(q, removed) + [q[|removed|]]
  {
    assert (removed + [ok])[..|removed|] == removed;
  }

  lemma MoveOne<T>(kept: seq<T>, q: seq<T>, i: nat)
    requires i < |q|
    ensures kept + q[i..][1..] == kept + q[i + 1..] && kept + q[i..] == (kept + [q[i]]) + q[i + 1..]
  {
    assert q[i..][1..] == q[i + 1..] && q[i..] == [q[i]] + q[i + 1..];
    assert kept + ([q[i]] + q[i + 1..]) == (kept + [q[i]]) + q[i + 1..];
  }

  lemma RemainingNext(recs: seq<Record>, recs': seq<Record>, removed: seq<bool>, was: seq<Record>, ok: bool)
    requires Remaining(recs, removed, was) && |removed| < |was|
    requires recs' == if ok then Unremoved(was, removed) + was[|removed|..][1..] else recs
    ensures Remaining(recs', removed + [ok], was)
  {
    var i, kept, kept' := |removed|, Unremoved(was, removed), Unremoved(was, removed + [ok]);
    MoveOne(kept, was, i);
    assert recs' == kept' + was[i + 1..] by { UnremovedMore(was, removed, ok); }
  }

  ghost predicate SameNumbers(was: seq<Record>, tasks: seq<SpoolTask>) {
    |tasks| <= |was| && forall j | 0 <= j < |tasks| :: was[j].no == tasks[j].no
  }

  lemma BatchNumbers(codec: Codec, recs: seq<Record>, batch: seq<SpoolTask>)
    requires IsBatch(codec, recs, batch) && forall r | r in recs :: AgreesOnNumber(codec, r)
    ensures SameNumbers(recs, batch)
  {
    forall j | 0 <= j < |batch| ensures recs[j].no == batch[j].no { assert recs[j] in recs; }
  }

  lemma RemainingNumbers(codec: Codec, recs: seq<Record>, removed: seq<bool>, was: seq<Record>)
    requires Remaining(recs, removed, was) && forall r | r in was :: AgreesOnNumber(codec, r)
    ensures forall r | r in recs :: AgreesOnNumber(codec, r)
  {
    UnremovedIn(was, removed);
  }

  /** Lines 267-270: the batch, or none if it cannot be read. */
  method ReadBatch(spool: Spool, max: int) returns (tasks: seq<SpoolTask>)
    requires spool.Valid()
    ensures IsBatch(spool.codec, spool.records, tasks)
    ensures spool.disk.reliable || tasks != [] ==>
              var n := BatchSize(max, |spool.records|);
              |tasks| == if AllDecode(spool.codec, spool.records[..n]) then n else 0
  {
    var ok;
    ok, tasks := spool.Drain(max);
    if !ok { tasks := []; }
  }

  /** Lines 276 and 283: the task is acknowledged, and an error is ignored. */
  method AckTask(spool: Spool, no: int, ghost removed: seq<bool>, ghost was: seq<Record>, ghost numbered: bool)
    returns (ghost ok: bool)
    requires spool.Valid() && |removed| < |was|
    requires numbered ==> Strict(spool.files) && Remaining(spool.records, removed, was) && was[|removed|].no == no
    modifies spool, spool.disk
    ensures spool.Valid() && spool.nextSeq == old(spool.nextSeq)
    ensures numbered ==> Strict(spool.files) && Remaining(spool.records, removed + [ok], was)
    ensures spool.disk.reliable ==> ok
  {
    ghost var recs := spool.records;
    var gone := spool.AckNext(no, Unremoved(was, removed), was[|removed|..]);
    ok := gone;
    if numbered { RemainingNext(recs, spool.records, removed, was, ok); }
  }

  /** After |removed| submissions of a batch of size read from was; removed says whose file could be deleted. */
  ghost predicate Sending(spool: Spool, outcomes: nat -> Outcome, size: nat, accepted: seq<nat>, removed: seq<bool>,
                          was: seq<Record>, numbered: bool)
    reads spool, spool.disk
  {
    && spool.Valid() && Sent(outcomes, size, |removed|, accepted)
    && (numbered ==> Strict(spool.files) && Remaining(spool.records, removed, was))
    && (spool.disk.reliable ==> AllTrue(removed))
  }

  /** One iteration of the loop of flushSpoolOnce, for a submission that does not fail retriably. */
  method SendOne(spool: Spool, no: int, outcomes: nat -> Outcome, i: nat, accepted: seq<nat>, ghost size: nat,
                 ghost removed: seq<bool>, ghost was: seq<Record>, ghost numbered: bool)
    returns (accepted': seq<nat>, ghost removed': seq<bool>)
    requires |removed| == i < size <= |was| && Sending(spool, outcomes, size, accepted, removed, was, numbered)
    requires !FailsRetriably(outcomes(i)) && (numbered ==> was[i].no == no)
    modifies spool, spool.disk
    ensures |removed'| == i + 1 && Sending(spool, outcomes, size, accepted', removed', was, numbered)
    ensures spool.nextSeq == old(spool.nextSeq)
  {
    SentMore(outcomes, size, i, accepted);
    accepted' := if outcomes(i).Accepted? then accepted + [i] else accepted;
    ghost var ok := AckTask(spool, no, removed, was, numbered);
    removed' := removed + [ok];
  }

  lemma SendingStart(spool: Spool, outcomes: nat -> Outcome, size: nat, was: seq<Record>, numbered: bool)
    requires spool.Valid() && spool.records == was && (numbered ==> Strict(spool.files))
    ensures Sending(spool, outcomes, size, [], [], was, numbered)
  {
    RemainingStart(was);
  }

  /** The loop of flushSpoolOnce on the batch read from was; it ends after |removed| submissions. */
  method SendBatch(spool: Spool, tasks: seq<SpoolTask>, outcomes: nat -> Outcome, ghost was: seq<Record>,
                   ghost numbered: bool)
    returns (accepted: seq<nat>, ghost removed: seq<bool>)
    requires spool.Valid() && spool.records == was && |tasks| <= |was|
    requires numbered ==> Strict(spool.files) && SameNumbers(was, tasks)
    modifies spool, spool.disk
    ensures |removed| == FirstRetriable(|tasks|, outcomes, 0) && spool.nextSeq == old(spool.nextSeq)
    ensures Sending(spool, outcomes, |tasks|, accepted, removed, was, numbered)
  {
    accepted, removed := [], [];
    var i: nat := 0;
    SendingStart(spool, outcomes, |tasks|, was, numbered);
    while i < |tasks| && !FailsRetriably(outcomes(i))
      invariant |removed| == i <= |tasks| && spool.nextSeq == old(spool.nextSeq)
      invariant Sending(spool, outcomes, |tasks|, accepted, removed, was, numbered)
    {
      accepted, removed := SendOne(spool, tasks[i].no, outcomes, i, accepted, |tasks|, removed, was, numbered);
      i := i + 1;
    }
    SentAll(outcomes, |tasks|, i, accepted);
  }

  /** The loop of flushBufferOnce; it ends after k submissions. */
  method SendTasks(size: nat, outcomes: nat -> Outcome) returns (accepted: seq<nat>, k: nat)
    ensures k == FirstRetriable(size, outcomes, 0) && accepted == AcceptedOf(outcomes, k)
    ensures Stops(outcomes, size, k) && forall i: nat :: i in accepted <==> i < k && outcomes(i).Accepted?
  {
    accepted, k := [], 0;
    while k < size && !FailsRetriably(outcomes(k))
      invariant k <= size && accepted == AcceptedOf(outcomes, k)
      invariant FirstRetriable(size, outcomes, 0) == FirstRetriable(size, outcomes, k)
    {
      if outcomes(k).Accepted? { accepted := accepted + [k]; }
      k := k + 1;
    }
    StopsThere(outcomes, size);
  }

  class Client {
    const bufferEnabled: bool
    const buffer: Buffer
    const spool: Spool?  // null: no disk spill

    ghost predicate Valid()
      reads this, buffer, spool, if spool != null then {spool.disk} else {}
    {
      buffer.Valid() && (spool != null ==> spool.Valid())
    }

    constructor (bufferEnabled: bool, buffer: Buffer, spool: Spool?)
      requires buffer.Valid() && (spool != null ==> spool.Valid())
      ensures Valid() && this.buffer == buffer && this.spool == spool && this.bufferEnabled == bufferEnabled
    {
      this.bufferEnabled, this.buffer, this.spool := bufferEnabled, buffer, spool;
    }

    /** t is the newest record on disk, under the number push used for it. */
    ghost predicate Spilled(t: BufferedTask)
      reads this, spool
    {
      && spool != null && spool.records != []
      && var last := spool.records[|spool.records| - 1];
         last.no == spool.nextSeq - 1 && Encode(spool.codec, last.no, t).Some?
         && Encode(spool.codec, last.no, t).value == last.data
    }

    /** Memory first, disk when memory is full: on success exactly one level has the task. */
    method EnqueueBuffered(t: BufferedTask) returns (ok: bool)
      requires Valid() && (spool != null ==> spool.nextSeq < INT64_LIMIT)
      modifies buffer, spool, if spool != null then {spool.disk} else {}
      ensures Valid()
      ensures |old(buffer.queue)| < buffer.cap ==>
                ok && buffer.queue == old(buffer.queue) + [t]
                && (spool != null ==> unchanged(spool) && unchanged(spool.disk))
      ensures |old(buffer.queue)| >= buffer.cap ==> buffer.queue == old(buffer.queue) && (ok ==> Spilled(t))
      ensures !ok ==> |buffer.queue| >= buffer.cap
      ensures !ok ==> spool == null || !spool.disk.reliable || !old(spool.Fits(t))
    {
      ok := buffer.Push(t);
      if ok {
        return;
      }
      if spool == null {
        return false;
      }
      var r, evicted, past := spool.Push(t);
      return r.Pushed?;
    }

    /** EnqueueTask; submitted is the outcome of the direct attempt, made only when started. */
    method EnqueueTask(opts: SubmitOptions, now: int, started: bool, submitted: Outcome)
      returns (queued: bool, err: EnqueueError)
      requires Valid() && (spool != null ==> spool.nextSeq < INT64_LIMIT)
      modifies buffer, spool, if spool != null then {spool.disk} else {}
      ensures Valid()
      ensures queued ==> err.NoError? && bufferEnabled && opts.jobName != ""
      ensures var codes := {NotGrpc, Unavailable, DeadlineExceeded, Canceled, ResourceExhausted, Aborted, Internal};
              && (queued && started ==> submitted.Failed? && submitted.error in codes)
              && (err.Refused? ==> started && submitted == Failed(err.error) && err.error !in codes)
              && (bufferEnabled && opts.jobName != "" ==>
                    if started && submitted.Accepted? then !queued && err == NoError
                    else if started && submitted.error !in codes then !queued && err == Refused(submitted.error)
                    else if |old(buffer.queue)| < buffer.cap
                    then queued && buffer.queue == old(buffer.queue) + [BufferedTask(opts, now, 0)]
                    else err == if queued then NoError else BufferFull)
      ensures queued ==> || buffer.queue == old(buffer.queue) + [BufferedTask(opts, now, 0)]
                         || (buffer.queue == old(buffer.queue) && Spilled(BufferedTask(opts, now, 0)))
      ensures |old(buffer.queue)| < buffer.cap && spool != null ==> unchanged(spool) && unchanged(spool.disk)
      ensures !queued ==> buffer.queue == old(buffer.queue)
      ensures !queued && err.NoError? ==> started && submitted.Accepted?
      ensures err.BufferFull? ==> |buffer.queue| == buffer.cap
      ensures err.BufferFull? ==> spool == null || !spool.disk.reliable || !old(spool.Fits(BufferedTask(opts, now, 0)))
      ensures err.Disabled? <==> !bufferEnabled
      ensures err.JobNameRequired? <==> bufferEnabled && opts.jobName == ""
      ensures !queued && !err.BufferFull? && spool != null ==> unchanged(spool) && unchanged(spool.disk)
    {
      if !bufferEnabled {
        return false, Disabled;
      }
      if opts.jobName == "" {
        return false, JobNameRequired;
      }
      if started {
        if submitted.Accepted? {
          return false, NoError;
        }
        if !IsRetriable(submitted.error) {
          return false, Refused(submitted.error);
        }
      }
      var ok := EnqueueBuffered(BufferedTask(opts, now, 0));
      if !ok {
        return false, BufferFull;
      }
      return true, NoError;
    }

    /** Lines 248-250. */
    method PutBackFrom(batch: seq<BufferedTask>, i: nat)
      requires buffer.Valid() && i < |batch| && |batch| + |buffer.queue| <= buffer.cap
      modifies buffer
      ensures buffer.Valid()
      ensures buffer.queue == [batch[i].(attempts := batch[i].attempts + 1)] + batch[i + 1..] + old(buffer.queue)
    {
      var t := batch[i].(attempts := batch[i].attempts + 1);
      buffer.PutBack([t] + batch[i + 1..]);
    }

    /** flushBufferOnce without interference: outcomes(i) answers the submission of the i-th task of the
        batch, accepted are the positions of those accepted. The tasks before the first retriable failure
        are accepted or refused for good, in order; that one, with one more attempt, and all later ones go
        back in front of the queue. The disk level is next exactly if nothing went back. */
    method FlushBufferOnce(max: int, outcomes: nat -> Outcome) returns (accepted: seq<nat>, diskNext: bool)
      requires Valid()
      modifies buffer
      ensures Valid()
      ensures var n := if max <= 0 || max > |old(buffer.queue)| then |old(buffer.queue)| else max;
              var batch, rest := old(buffer.queue)[..n], old(buffer.queue)[n..];
              var k := FirstRetriable(n, outcomes, 0);
              && accepted == AcceptedOf(outcomes, k)
              && (diskNext <==> k == n)
              && buffer.queue ==
                   if k == n then rest else [batch[k].(attempts := batch[k].attempts + 1)] + batch[k + 1..] + rest
      ensures var n := if max <= 0 || max > |old(buffer.queue)| then |old(buffer.queue)| else max;
              var k := FirstRetriable(n, outcomes, 0);
              Stops(outcomes, n, k) && forall i: nat :: i in accepted <==> i < k && outcomes(i).Accepted?
    {
      var batch := buffer.Drain(max);
      if |batch| == 0 {
        StopsThere(outcomes, 0);
        return [], true;
      }
      var k;
      accepted, k := SendTasks(|batch|, outcomes);
      if k < |batch| {
        PutBackFrom(batch, k);
        return accepted, false;
      }
      return accepted, true;
    }

    /** Numbers differ, and each record holds the number it is filed under; so for whatever push wrote. */
    ghost predicate Numbered()
      requires spool != null
      reads this, spool
    {
      Strict(spool.files) && forall r | r in spool.records :: AgreesOnNumber(spool.codec, r)
    }

    /** flushSpoolOnce; outcomes(i) answers the submission of the i-th task read. Nothing is removed unless its
        submission was accepted or refused for good, and from the first retriable failure on the queue is
        untouched; removed says for each task before that whether its file could be deleted. */
    method FlushSpoolOnce(max: int, outcomes: nat -> Outcome)
      returns (accepted: seq<nat>, ghost batch: seq<SpoolTask>, ghost removed: seq<bool>)
      requires Valid()
      modifies spool, if spool != null then {spool.disk} else {}
      ensures Valid() && (spool != null ==> spool.nextSeq == old(spool.nextSeq))
      ensures |removed| == FirstRetriable(|batch|, outcomes, 0) && accepted == AcceptedOf(outcomes, |removed|)
      ensures Stops(outcomes, |batch|, |removed|)
      ensures forall i: nat :: i in accepted <==> i < |removed| && outcomes(i).Accepted?
      ensures spool == null ==> batch == []
      ensures spool != null && old(Numbered()) ==>
                && Numbered() && IsBatch(spool.codec, old(spool.records), batch)
                && Remaining(spool.records, removed, old(spool.records))
      ensures spool != null && spool.disk.reliable ==> AllTrue(removed)
      ensures spool != null && (spool.disk.reliable || batch != []) ==>
                var n := BatchSize(max, |old(spool.records)|);
                |batch| == if AllDecode(spool.codec, old(spool.records)[..n]) then n else 0
    {
      accepted, batch, removed := [], [], [];
      StopsThere(outcomes, 0);
      if spool == null {
        return;
      }
      ghost var was, numbered := spool.records, Numbered();
      var tasks := ReadBatch(spool, max);
      batch := tasks;
      if numbered { BatchNumbers(spool.codec, was, batch); }
      accepted, removed := SendBatch(spool, tasks, outcomes, was, numbered);
      StopsThere(outcomes, |batch|);
      if numbered { RemainingNumbers(spool.codec, spool.records, removed, was); }
    }
  }
}
