/** What flushBufferOnce and flushSpoolOnce leave is what a sequence of steps of FallbackQueue leaves. */
module FallbackRounds {
  import opened Strconv
  import opened SpoolIndex
  import opened SubmitSpool
  import opened SubmitBuffer
  import opened FallbackShows
  import M = FallbackMem
  import D = FallbackDisk
  import F = FallbackQueue

  // -------------------------------------------------------- a round of the flusher

  function OutcomeOf(o: Outcome): F.Outcome {
    if o.Accepted? then F.Accepted else if IsRetriable(o.error) then F.Retriable else F.Rejected
  }

  function Send(m: M.Mem, o: Outcome): M.Mem
    requires m.batch != []
  {
    if o.Accepted? then M.Deliver1(m) else M.Reject1(m)
  }

  /** Submissions number i to k - 1. */
  function Sends(m: M.Mem, outcomes: nat -> Outcome, i: nat, k: nat): (m': M.Mem)
    requires i <= k <= i + |m.batch|
    ensures m'.batch == m.batch[k - i..] && m'.l1 == m.l1
    decreases k - i
  {
    if i == k then m else Sends(Send(m, outcomes(i)), outcomes, i + 1, k)
  }

  function SendSteps(outcomes: nat -> Outcome, i: nat, k: nat): seq<F.Step>
    requires i <= k
    decreases k - i
  {
    if i == k then [] else [F.Send1(OutcomeOf(outcomes(i)))] + SendSteps(outcomes, i + 1, k)
  }

  lemma Leads(s: F.State, a: F.Step, steps: seq<F.Step>, end: F.State)
    requires F.Enabled(s, a) && F.Clean(s, a) && F.Continues(F.Do(s, a), steps, end)
    ensures F.Continues(s, [a] + steps, end)
  {
    assert ([a] + steps)[1..] == steps;
  }

  lemma Associate<T>(a: seq<T>, b: seq<T>, c: seq<T>)
    ensures a + b + c == a + (b + c)
  {
  }

  lemma {:induction false} SendsLead(s: F.State, outcomes: nat -> Outcome, i: nat, k: nat, steps: seq<F.Step>,
                                     end: F.State)
    requires s.phase.Sending1? && i <= k <= i + |s.mem.batch| && forall j | i <= j < k :: !FailsRetriably(outcomes(j))
    requires F.Continues(s.(mem := Sends(s.mem, outcomes, i, k)), steps, end)
    ensures F.Continues(s, SendSteps(outcomes, i, k) + steps, end)
    decreases k - i
  {
    if i == k {
      assert [] + steps == steps;
    } else {
      var a, s1 := F.Send1(OutcomeOf(outcomes(i))), s.(mem := Send(s.mem, outcomes(i)));
      assert F.Do(s, a) == s1;
      SendsLead(s1, outcomes, i + 1, k, steps, end);
      Leads(s, a, SendSteps(outcomes, i + 1, k) + steps, end);
      Associate([a], SendSteps(outcomes, i + 1, k), steps);
    }
  }

  /** What of the batch has been delivered by then: the tasks at the positions accepted. */
  lemma {:induction false} SendsDeliver(m: M.Mem, outcomes: nat -> Outcome, k: nat)
    requires k <= |m.batch|
    ensures forall i | i in AcceptedOf(outcomes, k) :: i < k
    ensures Sends(m, outcomes, 0, k).delivered == m.delivered + Picked(m.batch, AcceptedOf(outcomes, k))
  {
    if k > 0 {
      SendsDeliver(m, outcomes, k - 1);
      SendsLast(m, outcomes, 0, k);
    }
  }

  lemma {:induction false} SendsLast(m: M.Mem, outcomes: nat -> Outcome, i: nat, k: nat)
    requires i < k <= i + |m.batch|
    ensures Sends(m, outcomes, i, k) == Send(Sends(m, outcomes, i, k - 1), outcomes(k - 1))
    decreases k - i
  {
    if i < k - 1 { SendsLast(Send(m, outcomes(i)), outcomes, i + 1, k); }
  }

  function Picked<T>(q: seq<T>, at: seq<nat>): (r: seq<T>)
    requires forall i | i in at :: i < |q|
    ensures |r| == |at| && forall j | 0 <= j < |at| :: at[j] in at && r[j] == q[at[j]]
  {
    seq(|at|, j requires 0 <= j < |at| => assert at[j] in at; q[at[j]])
  }

  /** The last steps of a round, once k tasks are sent. */
  function EndSteps(stopped: bool): seq<F.Step> {
    if stopped then [F.Send1(F.Retriable), F.PutBack] else [F.Send1(F.Accepted)]
  }

  /** The steps of one flushBufferOnce on a batch of n, of which number k fails retriably, if k < n. */
  function FlushSteps(n: nat, outcomes: nat -> Outcome, k: nat): seq<F.Step>
    requires k <= n
  {
    if n == 0 then [F.Drain1(0)] else
      [F.Drain1(n)] + (SendSteps(outcomes, 0, k) + EndSteps(k < n))
  }

  /** Where they lead. */
  function Flushed(s: F.State, n: nat, outcomes: nat -> Outcome, k: nat): F.State
    requires k <= n <= |s.mem.l1|
  {
    if n == 0 then s.(phase := F.Draining2) else
      var m := Sends(M.Take1(s.mem, n), outcomes, 0, k);
      if k < n then s.(mem := M.PutBack1(m, s.cap), phase := F.Idle) else s.(mem := m, phase := F.Draining2)
  }

  lemma EndLeads(s: F.State, stopped: bool)
    requires s.phase.Sending1? && (stopped <==> s.mem.batch != [])
    ensures F.Continues(s, EndSteps(stopped),
                        if stopped then s.(mem := M.PutBack1(s.mem, s.cap), phase := F.Idle)
                        else s.(phase := F.Draining2))
  {
    if stopped {
      var s1 := F.Do(s, F.Send1(F.Retriable));
      Leads(s1, F.PutBack, [], F.Do(s1, F.PutBack));
      Leads(s, F.Send1(F.Retriable), [F.PutBack], F.Do(s1, F.PutBack));
    } else {
      Leads(s, F.Send1(F.Accepted), [], F.Do(s, F.Send1(F.Accepted)));
    }
  }

  lemma FlushLeads(s: F.State, n: nat, outcomes: nat -> Outcome, k: nat)
    requires s.phase.Idle? && n <= |s.mem.l1| && (s.mem.l1 != [] ==> n > 0) && k == FirstRetriable(n, outcomes, 0)
    ensures F.Continues(s, FlushSteps(n, outcomes, k), Flushed(s, n, outcomes, k))
  {
    var end := Flushed(s, n, outcomes, k);
    if n == 0 {
      Leads(s, F.Drain1(0), [], end);
    } else {
      FirstRetriableExact(n, outcomes, 0);
      var s1 := F.Do(s, F.Drain1(n));
      EndLeads(s1.(mem := Sends(s1.mem, outcomes, 0, k)), k < n);
      SendsLead(s1, outcomes, 0, k, EndSteps(k < n), end);
      Leads(s, F.Drain1(n), SendSteps(outcomes, 0, k) + EndSteps(k < n), end);
    }
  }

  /** The queue a round leaves, from the whole queue before it. */
  function QueueAfter(queue: seq<BufferedTask>, n: nat, k: nat): seq<BufferedTask>
    requires k <= n <= |queue|
  {
    if k == n then queue[n..] else [queue[k].(attempts := queue[k].attempts + 1)] + queue[k + 1..]
  }

  lemma QueueAfterIs(queue: seq<BufferedTask>, n: nat, k: nat)
    requires k <= n <= |queue|
    ensures var batch, rest := queue[..n], queue[n..];
            QueueAfter(queue, n, k) ==
              if k == n then rest else [batch[k].(attempts := batch[k].attempts + 1)] + batch[k + 1..] + rest
  {
    if k < n {
      var t := [queue[k].(attempts := queue[k].attempts + 1)];
      Joined(queue, k + 1, n);
      assert t + queue[..n][k + 1..] + queue[n..] == t + (queue[..n][k + 1..] + queue[n..]);
    }
  }

  /** A round takes a batch of n from queue, whose submissions have these outcomes, and leaves queue'. */
  ghost predicate Round(queue: seq<BufferedTask>, n: nat, outcomes: nat -> Outcome, queue': seq<BufferedTask>,
                        accepted: seq<nat>, diskNext: bool) {
    && n <= |queue| && (queue != [] ==> n > 0)
    && var k := FirstRetriable(n, outcomes, 0);
       queue' == QueueAfter(queue, n, k) && accepted == AcceptedOf(outcomes, k) && (diskNext <==> k == n)
  }

  /** Behind the tasks sent, the protocol's queue is the old one. */
  lemma IdsAfter(s: F.State, n: nat, outcomes: nat -> Outcome, k: nat)
    requires k <= n <= |s.mem.l1| <= s.cap
    ensures Flushed(s, n, outcomes, k).mem.l1 == s.mem.l1[k..]
  {
    if n > 0 {
      var m := Sends(M.Take1(s.mem, n), outcomes, 0, k);
      if k < n {
        PutBackFits(m, s.cap);
        Joined(s.mem.l1, k, n);
      }
    }
  }

  lemma MemShowsAfter(labels: Labels, queue: seq<BufferedTask>, ids: seq<nat>, n: nat, k: nat)
    requires MemShows(labels, queue, ids) && k <= n <= |queue|
    ensures MemShows(labels, QueueAfter(queue, n, k), ids[k..])
  {
    var queue' := QueueAfter(queue, n, k);
    forall i | 0 <= i < |ids| - k ensures Labelled(labels, ids[k..][i], Some(ContentOf(queue'[i]))) {
      assert Labelled(labels, ids[k + i], Some(ContentOf(queue[k + i])));
    }
  }

  lemma FlushDelivers(s: F.State, n: nat, outcomes: nat -> Outcome, k: nat)
    requires k <= n <= |s.mem.l1|
    ensures forall i | i in AcceptedOf(outcomes, k) :: i < |s.mem.l1|
    ensures Flushed(s, n, outcomes, k).mem.delivered == s.mem.delivered + Picked(s.mem.l1, AcceptedOf(outcomes, k))
  {
    var m, at := M.Take1(s.mem, n), AcceptedOf(outcomes, k);
    SendsDeliver(m, outcomes, k);
    assert Picked(m.batch, at) == Picked(s.mem.l1, at);
  }

  /** All of this together: the steps of a round and where they lead. */
  lemma FlushRound(labels: Labels, s: F.State, queue: seq<BufferedTask>, n: nat, outcomes: nat -> Outcome)
    returns (steps: seq<F.Step>, end: F.State)
    requires s.phase.Idle? && MemShows(labels, queue, s.mem.l1) && n <= |queue| <= s.cap && (queue != [] ==> n > 0)
    ensures F.Continues(s, steps, end) && end == s.(mem := end.mem, phase := end.phase)
    ensures var k := FirstRetriable(n, outcomes, 0);
            end.phase == (if k == n then F.Draining2 else F.Idle)
            && MemShows(labels, QueueAfter(queue, n, k), end.mem.l1)
    ensures var at := AcceptedOf(outcomes, FirstRetriable(n, outcomes, 0));
            (forall i | i in at :: i < |s.mem.l1|) && end.mem.delivered == s.mem.delivered + Picked(s.mem.l1, at)
  {
    var k := FirstRetriable(n, outcomes, 0);
    steps, end := FlushSteps(n, outcomes, k), Flushed(s, n, outcomes, k);
    FlushEnds(s, n, outcomes, k);
    FlushLeads(s, n, outcomes, k);
    IdsAfter(s, n, outcomes, k);
    MemShowsAfter(labels, queue, s.mem.l1, n, k);
    FlushDelivers(s, n, outcomes, k);
  }

  lemma FlushEnds(s: F.State, n: nat, outcomes: nat -> Outcome, k: nat)
    requires k <= n <= |s.mem.l1|
    ensures var end := Flushed(s, n, outcomes, k);
            end == s.(mem := end.mem, phase := end.phase) && end.phase == if k == n then F.Draining2 else F.Idle
  {
  }

  lemma PutBackFits(m: M.Mem, cap: nat)
    requires |m.batch| + |m.l1| <= cap
    ensures M.PutBack1(m, cap).l1 == m.batch + m.l1
  {
  }

  lemma Joined<T>(s: seq<T>, k: nat, n: nat)
    requires k <= n <= |s|
    ensures s[..n][k..] + s[n..] == s[k..]
  {
  }

  lemma RoundIs(queue: seq<BufferedTask>, max: int, outcomes: nat -> Outcome, queue': seq<BufferedTask>,
                accepted: seq<nat>, diskNext: bool)
    returns (n: nat)
    requires var n := if max <= 0 || max > |queue| then |queue| else max;
             var batch, rest := queue[..n], queue[n..];
             var k := FirstRetriable(n, outcomes, 0);
             && accepted == AcceptedOf(outcomes, k)
             && (diskNext <==> k == n)
             && queue' ==
                  if k == n then rest else [batch[k].(attempts := batch[k].attempts + 1)] + batch[k + 1..] + rest
    ensures Round(queue, n, outcomes, queue', accepted, diskNext)
  {
    n := if max <= 0 || max > |queue| then |queue| else max;
    QueueAfterIs(queue, n, FirstRetriable(n, outcomes, 0));
  }

  // ---------------------------------------------- a round of the flusher on disk

  lemma {:induction false} ReachesMore(s: F.State, steps: seq<F.Step>, mid: F.State, a: F.Step)
    requires F.Reaches(s, steps, mid) && F.Enabled(mid, a)
    ensures F.Reaches(s, steps + [a], F.Do(mid, a))
    decreases |steps|
  {
    if steps == [] {
      assert [a][1..] == [];
    } else {
      ReachesMore(F.Do(s, steps[0]), steps[1..], mid, a);
      assert (steps + [a])[1..] == steps[1..] + [a];
    }
  }

  /** No crash and no failed removal. */
  ghost predicate Unfailing(steps: seq<F.Step>) {
    forall i | 0 <= i < |steps| :: !steps[i].Crash? && (steps[i].Ack? ==> steps[i].removed)
  }

  /** Such steps are clean. */
  lemma {:induction false} ReachesClean(s: F.State, steps: seq<F.Step>, end: F.State)
    requires F.Reaches(s, steps, end) && Unfailing(steps)
    ensures F.Continues(s, steps, end)
    decreases |steps|
  {
    if steps != [] { ReachesClean(F.Do(s, steps[0]), steps[1..], end); }
  }

  lemma RemoveNext(kept: seq<D.Rec>, rest: seq<D.Rec>)
    requires rest != [] && forall r | r in kept :: r.no != rest[0].no
    ensures D.Remove(kept + rest, rest[0].no) == kept + rest[1..]
  {
    RemoveAt(kept + rest, rest[0].no, |kept|);
    assert Without(kept + rest, |kept|) == kept + rest[1..];
  }

  /** Those of the first k elements of q whose submission was accepted. */
  function Chosen<T>(q: seq<T>, outcomes: nat -> Outcome, k: nat): seq<T>
    requires k <= |q|
  {
    if k == 0 then [] else Chosen(q, outcomes, k - 1) + if outcomes(k - 1).Accepted? then [q[k - 1]] else []
  }

  lemma PickedSnoc<T>(q: seq<T>, at: seq<nat>, i: nat)
    requires i < |q| && forall j | j in at :: j < |q|
    ensures Picked(q, at + [i]) == Picked(q, at) + [q[i]]
  {
  }

  ghost predicate IsPicked<T>(q: seq<T>, outcomes: nat -> Outcome, k: nat)
    requires k <= |q|
  {
    var at := AcceptedOf(outcomes, k);
    (forall i | i in at :: i < |q|) && Chosen(q, outcomes, k) == Picked(q, at)
  }

  lemma PickedNext<T>(q: seq<T>, outcomes: nat -> Outcome, k: nat)
    requires k < |q| && IsPicked(q, outcomes, k)
    ensures IsPicked(q, outcomes, k + 1)
  {
    if outcomes(k).Accepted? { PickedSnoc(q, AcceptedOf(outcomes, k), k); }
  }

  lemma {:induction false} ChosenIsPicked<T>(q: seq<T>, outcomes: nat -> Outcome, k: nat)
    requires k <= |q|
    ensures IsPicked(q, outcomes, k)
  {
    if k > 0 {
      ChosenIsPicked(q, outcomes, k - 1);
      PickedNext(q, outcomes, k - 1);
    }
  }

  /** mid is s after one submission and one ack for each element of removed. */
  ghost predicate SpoolSent(s: F.State, outcomes: nat -> Outcome, removed: seq<bool>, mid: F.State) {
    var d, d', k := s.disk, mid.disk, |removed|;
    && k <= |d.batch| <= |d.l2| && mid == s.(disk := d')
    && !d'.acking && d'.nextNo == d.nextNo && d'.batch == d.batch[k..]
    && d'.l2 == Unremoved(d.l2, removed) + d.l2[k..]
    && d'.delivered == d.delivered + Chosen(d.l2, outcomes, k)
  }

  lemma UnremovedLower(q: seq<D.Rec>, removed: seq<bool>, r: D.Rec)
    requires D.Rising(q) && |removed| < |q| && r in Unremoved(q, removed)
    ensures r.no < q[|removed|].no
  {
    var i := UnremovedAt(q, removed, r);
  }

  lemma {:induction false} UnremovedAt<T>(q: seq<T>, removed: seq<bool>, x: T) returns (i: nat)
    requires |removed| <= |q| && x in Unremoved(q, removed)
    ensures i < |removed| && q[i] == x
  {
    var last := |removed| - 1;
    if x in Unremoved(q, removed[..last]) {
      i := UnremovedAt(q, removed[..last], x);
    } else {
      i := last;
    }
  }

  /** One submission that does not fail retriably, and its ack. */
  lemma SendAndAck(s: F.State, outcomes: nat -> Outcome, removed: seq<bool>, mid: F.State, ok: bool)
    returns (end: F.State)
    requires s.phase.Sending2? && D.Rising(s.disk.l2) && SpoolSent(s, outcomes, removed, mid)
    requires |removed| < |s.disk.batch| <= |s.disk.l2| && s.disk.batch[|removed|] == s.disk.l2[|removed|]
    requires !FailsRetriably(outcomes(|removed|))
    ensures var a := F.Send2(OutcomeOf(outcomes(|removed|)));
            F.Enabled(mid, a) && F.Enabled(F.Do(mid, a), F.Ack(ok)) && end == F.Do(F.Do(mid, a), F.Ack(ok))
    ensures SpoolSent(s, outcomes, removed + [ok], end)
  {
    var k, d := |removed|, s.disk;
    var a := F.Send2(OutcomeOf(outcomes(k)));
    end := F.Do(F.Do(mid, a), F.Ack(ok));
    var kept, rest := Unremoved(d.l2, removed), d.l2[k..];
    forall r | r in kept ensures r.no != rest[0].no { UnremovedLower(d.l2, removed, r); }
    RemoveNext(kept, rest);
    assert (removed + [ok])[..k] == removed;
    assert rest == [d.l2[k]] + d.l2[k + 1..] && rest[1..] == d.l2[k + 1..];
    assert kept + ([d.l2[k]] + d.l2[k + 1..]) == (kept + [d.l2[k]]) + d.l2[k + 1..];
    assert d.batch[k..][1..] == d.batch[k + 1..];
  }

  lemma ReachesTwoMore(s: F.State, steps: seq<F.Step>, mid: F.State, a: F.Step, b: F.Step) returns (steps': seq<F.Step>)
    requires F.Reaches(s, steps, mid) && F.Enabled(mid, a) && F.Enabled(F.Do(mid, a), b)
    ensures F.Reaches(s, steps', F.Do(F.Do(mid, a), b)) && steps' == steps + [a] + [b]
  {
    ReachesMore(s, steps, mid, a);
    ReachesMore(s, steps + [a], F.Do(mid, a), b);
    steps' := steps + [a] + [b];
  }

  lemma SendsOneMore(s: F.State, outcomes: nat -> Outcome, removed: seq<bool>, steps: seq<F.Step>, mid: F.State,
                     ok: bool)
    returns (steps': seq<F.Step>, end: F.State)
    requires s.phase.Sending2? && D.Rising(s.disk.l2)
    requires F.Reaches(s, steps, mid) && SpoolSent(s, outcomes, removed, mid)
    requires |removed| < |s.disk.batch| <= |s.disk.l2| && s.disk.batch[|removed|] == s.disk.l2[|removed|]
    requires !FailsRetriably(outcomes(|removed|))
    ensures F.Reaches(s, steps', end) && SpoolSent(s, outcomes, removed + [ok], end)
    ensures Unfailing(steps) && ok ==> Unfailing(steps')
  {
    end := SendAndAck(s, outcomes, removed, mid, ok);
    steps' := ReachesTwoMore(s, steps, mid, F.Send2(OutcomeOf(outcomes(|removed|))), F.Ack(ok));
  }

  lemma NothingSent(s: F.State, outcomes: nat -> Outcome)
    requires !s.disk.acking && |s.disk.batch| <= |s.disk.l2|
    ensures F.Reaches(s, [], s) && SpoolSent(s, outcomes, [], s)
  {
    assert s.disk.delivered + [] == s.disk.delivered && [] + s.disk.l2[0..] == s.disk.l2;
  }

  /** The submissions and acks of the first tasks of the batch, one for each element of removed. */
  lemma {:induction false} SpoolSends(s: F.State, outcomes: nat -> Outcome, removed: seq<bool>)
    returns (steps: seq<F.Step>, end: F.State)
    requires s.phase.Sending2? && !s.disk.acking && D.Rising(s.disk.l2)
    requires |removed| <= |s.disk.batch| <= |s.disk.l2|
    requires forall j | 0 <= j < |removed| :: !FailsRetriably(outcomes(j)) && s.disk.batch[j] == s.disk.l2[j]
    ensures F.Reaches(s, steps, end) && SpoolSent(s, outcomes, removed, end)
    ensures AllTrue(removed) ==> Unfailing(steps)
  {
    if removed == [] {
      steps, end := [], s;
      NothingSent(s, outcomes);
    } else {
      var k := |removed| - 1;
      var before, ok := removed[..k], removed[k];
      assert removed == before + [ok];
      steps, end := SpoolSends(s, outcomes, before);
      steps, end := SendsOneMore(s, outcomes, before, steps, end, ok);
    }
  }

  /** end is s after a round on disk with one submission and one ack for each element of removed. */
  ghost predicate SpoolFlushed(s: F.State, outcomes: nat -> Outcome, removed: seq<bool>, end: F.State) {
    var d, d', k := s.disk, end.disk, |removed|;
    && k <= |d.l2| && end == s.(disk := d', phase := F.Idle) && d'.nextNo == d.nextNo
    && d'.l2 == Unremoved(d.l2, removed) + d.l2[k..] && d'.delivered == d.delivered + Chosen(d.l2, outcomes, k)
  }

  /** The last step: the submission that fails retriably, or the end of the batch. */
  lemma SpoolEnds(s: F.State, outcomes: nat -> Outcome, removed: seq<bool>, mid: F.State) returns (a: F.Step)
    requires s.phase.Sending2? && SpoolSent(s, outcomes, removed, mid)
    ensures a.Send2? && F.Enabled(mid, a) && SpoolFlushed(s, outcomes, removed, F.Do(mid, a))
  {
    a := F.Send2(if |removed| < |s.disk.batch| then F.Retriable else F.Accepted);
  }

  lemma SpoolRest(s: F.State, outcomes: nat -> Outcome, removed: seq<bool>) returns (steps: seq<F.Step>, end: F.State)
    requires s.phase.Sending2? && !s.disk.acking && D.Rising(s.disk.l2)
    requires |removed| <= |s.disk.batch| <= |s.disk.l2|
    requires forall j | 0 <= j < |removed| :: !FailsRetriably(outcomes(j)) && s.disk.batch[j] == s.disk.l2[j]
    ensures F.Reaches(s, steps, end) && SpoolFlushed(s, outcomes, removed, end)
    ensures AllTrue(removed) ==> Unfailing(steps)
  {
    steps, end := SpoolSends(s, outcomes, removed);
    var a := SpoolEnds(s, outcomes, removed, end);
    ReachesMore(s, steps, end, a);
    steps, end := steps + [a], F.Do(end, a);
  }

  lemma NothingRead(s: F.State, outcomes: nat -> Outcome)
    requires s.phase.Draining2?
    ensures F.Reaches(s, [F.Drain2(0, false)], s.(phase := F.Idle))
    ensures SpoolFlushed(s, outcomes, [], s.(phase := F.Idle))
  {
    assert [F.Drain2(0, false)][1..] == [];
    assert [] + s.disk.l2[0..] == s.disk.l2 && s.disk.delivered + [] == s.disk.delivered;
  }

  lemma ReachesFrom(s: F.State, a: F.Step, steps: seq<F.Step>, end: F.State)
    requires F.Enabled(s, a) && F.Reaches(F.Do(s, a), steps, end)
    ensures F.Reaches(s, [a] + steps, end)
  {
    assert ([a] + steps)[1..] == steps;
  }

  /** A round on disk with a batch of n, none if it is empty or could not be read. */
  lemma SpoolRound(s: F.State, n: nat, outcomes: nat -> Outcome, removed: seq<bool>)
    returns (steps: seq<F.Step>, end: F.State)
    requires s.phase.Draining2? && !s.disk.acking && D.Rising(s.disk.l2) && n <= |s.disk.l2|
    requires |removed| == FirstRetriable(n, outcomes, 0)
    ensures F.Reaches(s, steps, end) && SpoolFlushed(s, outcomes, removed, end)
    ensures AllTrue(removed) ==> Unfailing(steps)
  {
    if n == 0 {
      NothingRead(s, outcomes);
      steps, end := [F.Drain2(0, false)], s.(phase := F.Idle);
    } else {
      FirstRetriableExact(n, outcomes, 0);
      var drain := F.Drain2(n, true);
      steps, end := SpoolRest(F.Do(s, drain), outcomes, removed);
      ReachesFrom(s, drain, steps, end);
      steps := [drain] + steps;
    }
  }

  lemma DiskShowsJoin(labels: Labels, codec: Codec, recs: seq<Record>, l2: seq<D.Rec>, recs': seq<Record>,
                      l2': seq<D.Rec>)
    requires DiskShows(labels, codec, recs, l2) && DiskShows(labels, codec, recs', l2')
    ensures DiskShows(labels, codec, recs + recs', l2 + l2')
  {
  }

  lemma {:induction false} UnremovedShows(labels: Labels, codec: Codec, recs: seq<Record>, l2: seq<D.Rec>,
                                          removed: seq<bool>)
    requires DiskShows(labels, codec, recs, l2) && |removed| <= |recs|
    ensures DiskShows(labels, codec, Unremoved(recs, removed), Unremoved(l2, removed))
  {
    if removed != [] {
      var last := |removed| - 1;
      UnremovedShows(labels, codec, recs, l2, removed[..last]);
      if !removed[last] {
        DiskShowsJoin(labels, codec, Unremoved(recs, removed[..last]), Unremoved(l2, removed[..last]), [recs[last]],
                      [l2[last]]);
      }
    }
  }

  lemma RemainingShows(labels: Labels, codec: Codec, recs: seq<Record>, l2: seq<D.Rec>, removed: seq<bool>,
                       recs': seq<Record>)
    requires DiskShows(labels, codec, recs, l2) && Remaining(recs', removed, recs)
    ensures DiskShows(labels, codec, recs', Unremoved(l2, removed) + l2[|removed|..])
  {
    var k := |removed|;
    UnremovedShows(labels, codec, recs, l2, removed);
    assert DiskShows(labels, codec, recs[k..], l2[k..]) by {
      forall i | 0 <= i < |l2| - k
        ensures l2[k..][i].no == recs[k..][i].no
                && Labelled(labels, l2[k..][i].id, StoredContent(codec, recs[k..][i].data))
      {
        assert l2[k..][i] == l2[k + i] && recs[k..][i] == recs[k + i];
      }
    }
    DiskShowsJoin(labels, codec, Unremoved(recs, removed), Unremoved(l2, removed), recs[k..], l2[k..]);
  }

  lemma RisingNumbers(labels: Labels, codec: Codec, recs: seq<Record>, l2: seq<D.Rec>)
    requires StrictNumbers(recs) && DiskShows(labels, codec, recs, l2)
    ensures D.Rising(l2)
  {
  }

  /** All of this together: the steps of a round on disk and where they lead. */
  lemma FlushSpoolRound(labels: Labels, codec: Codec, s: F.State, recs: seq<Record>, n: nat, outcomes: nat -> Outcome,
                        removed: seq<bool>, recs': seq<Record>)
    returns (steps: seq<F.Step>, end: F.State)
    requires s.phase.Draining2? && !s.disk.acking && StrictNumbers(recs) && DiskShows(labels, codec, recs, s.disk.l2)
    requires n <= |recs| && |removed| == FirstRetriable(n, outcomes, 0) && Remaining(recs', removed, recs)
    ensures F.Reaches(s, steps, end) && (AllTrue(removed) ==> F.Continues(s, steps, end))
    ensures end == s.(disk := end.disk, phase := F.Idle) && end.disk.nextNo == s.disk.nextNo
    ensures DiskShows(labels, codec, recs', end.disk.l2)
    ensures var at := AcceptedOf(outcomes, |removed|);
            && (forall i | i in at :: i < |s.disk.l2|)
            && end.disk.delivered == s.disk.delivered + Picked(s.disk.l2, at)
  {
    RisingNumbers(labels, codec, recs, s.disk.l2);
    steps, end := SpoolRound(s, n, outcomes, removed);
    if AllTrue(removed) { ReachesClean(s, steps, end); }
    ChosenIsPicked(s.disk.l2, outcomes, |removed|);
    RemainingShows(labels, codec, recs, s.disk.l2, removed, recs');
  }
}
