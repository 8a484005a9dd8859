/** The real queues take the steps of FallbackQueue: each method here calls one method of SubmitSpool or
    SubmitBuffer beside a ghost state of the protocol, and shows that the call is enabled steps of it. */
module FallbackRefinement {
  import opened Strconv
  import opened SpoolNames
  import opened SpoolDisk
  import opened SpoolIndex
  import opened SubmitSpool
  import opened SubmitBuffer
  import opened FallbackShows
  import opened FallbackRounds
  import M = FallbackMem
  import D = FallbackDisk
  import F = FallbackQueue

  /** Spool.Push in the protocol's terms: so many of the oldest records deleted, and rec stored or not. */
  method PushTask(spool: Spool, t: BufferedTask) returns (r: PushResult, ghost evicted: nat, ghost rec: Record)
    requires spool.Valid() && spool.nextSeq < INT64_LIMIT && LawfulCodec(spool.codec)
    modifies spool, spool.disk
    ensures spool.Valid() && spool.nextSeq == old(spool.nextSeq) + 1 && evicted <= |old(spool.records)|
    ensures spool.records == if r.Pushed? then old(spool.records)[evicted..] + [rec] else old(spool.records)[evicted..]
    ensures rec.no == old(spool.nextSeq) && (r.Pushed? ==> StoredContent(spool.codec, rec.data) == Some(ContentOf(t)))
  {
    ghost var codec, no, recs, past := spool.codec, spool.nextSeq, spool.records, [];
    r, evicted, past := spool.Push(t);
    rec := Record(no, if r.Pushed? then Encode(codec, no, t).value else []);
    if r.Pushed? {
      EncodeDecode(codec, no, t);
    } else if !r.IoFailed? {
      evicted := 0;
      assert recs[0..] == recs;
    }
  }

  /** Spool.Ack in the protocol's terms. */
  method AckNumber(spool: Spool, no: int, ghost labels: Labels, ghost l2: seq<D.Rec>) returns (ok: bool)
    requires spool.Valid() && DiskShows(labels, spool.codec, spool.records, l2)
    modifies spool, spool.disk
    ensures spool.Valid() && spool.nextSeq == old(spool.nextSeq)
    ensures DiskShows(labels, spool.codec, spool.records, if ok then D.Remove(l2, no) else l2)
  {
    ghost var recs, at := spool.records, 0;
    ok, at := spool.Ack(no);
    AckShows(labels, spool.codec, recs, l2, no, at, ok, spool.records);
  }

  // ------------------------------------------------------------------- crashes

  /** Wherever a push is cut off, the directory is the one that some step Spill leaves. */
  lemma CutPushShows(labels: Labels, codec: Codec, past: seq<Files>, i: nat, idx: seq<SpoolFile>, recs: seq<Record>,
                     file: SpoolFile, rec: Record, id: nat, s: F.State)
    returns (a: F.Step, idx': seq<SpoolFile>, recs': seq<Record>)
    requires PushLeaves(NAMES, past, idx, recs, file, rec) && i < |past| && Strict(idx) && Below(idx, file.no)
    requires DiskShows(labels, codec, recs, s.disk.l2) && s.disk.nextNo == rec.no
    requires id in s.spilling && Labelled(labels, id, StoredContent(codec, rec.data))
    ensures a.Spill? && a.id == id && F.Enabled(s, a)
    ensures Holds(NAMES, past[i], idx', recs') && Strict(idx') && DiskShows(labels, codec, recs', F.Do(s, a).disk.l2)
  {
    assert Leaves(NAMES, past[i], idx, recs, file, rec);
    var stored := !Keeps(NAMES, past[i], idx, recs);
    var k: nat;
    if !stored {
      k :| k <= |recs| && Holds(NAMES, past[i], idx[k..], recs[k..]);
      idx', recs' := idx[k..], recs[k..];
      StrictTail(idx, k);
    } else {
      k, idx', recs' := CutAfterRename(past[i], idx, recs, file, rec);
    }
    a := F.Spill(id, k, stored);
    PushShows(labels, codec, recs, s.disk.l2, rec, id, k, stored, recs', F.Do(s, a).disk.l2);
  }

  /** The newest of the old records and the new one, if not even that is gone. */
  ghost predicate KeepsNew(d: Files, idx: seq<SpoolFile>, recs: seq<Record>, file: SpoolFile, rec: Record, k: nat)
    requires |idx| == |recs|
  {
    k <= |recs| && Holds(NAMES, d, idx[k..] + [file], recs[k..] + [rec])
  }

  lemma KeepsLast(d: Files, idx: seq<SpoolFile>, recs: seq<Record>, file: SpoolFile, rec: Record)
    requires |idx| == |recs| && Keeps(NAMES, d, idx + [file], recs + [rec])
    ensures Keeps(NAMES, d, idx, recs) || exists k: nat :: KeepsNew(d, idx, recs, file, rec, k)
  {
    var k: nat :| k <= |recs + [rec]| && Holds(NAMES, d, (idx + [file])[k..], (recs + [rec])[k..]);
    if k == |recs| + 1 {
      assert (idx + [file])[k..] == idx[|idx|..] && (recs + [rec])[k..] == recs[|recs|..];
    } else {
      DropSnoc(idx, file, k);
      DropSnoc(recs, rec, k);
      assert KeepsNew(d, idx, recs, file, rec, k);
    }
  }

  lemma CutAfterRename(d: Files, idx: seq<SpoolFile>, recs: seq<Record>, file: SpoolFile, rec: Record)
    returns (k: nat, idx': seq<SpoolFile>, recs': seq<Record>)
    requires Keeps(NAMES, d, idx + [file], recs + [rec]) && !Keeps(NAMES, d, idx, recs) && Strict(idx)
             && Below(idx, file.no)
    ensures k <= |recs| && recs' == recs[k..] + [rec] && Holds(NAMES, d, idx', recs') && Strict(idx')
  {
    KeepsLast(d, idx, recs, file, rec);
    k :| KeepsNew(d, idx, recs, file, rec, k);
    idx', recs' := idx[k..] + [file], recs[k..] + [rec];
    StrictAfterPush(idx, k, file);
  }

  /** What a crash step needs: the restart's number is above all that the directory holds. */
  lemma CrashEnabled(labels: Labels, codec: Codec, d: Files, idx: seq<SpoolFile>, recs: seq<Record>, l2: seq<D.Rec>,
                     nextNo: int)
    requires Holds(NAMES, d, idx, recs) && DiskShows(labels, codec, recs, l2) && NumbersBelow(NAMES, d, nextNo)
    ensures forall r | r in l2 :: r.no < nextNo
  {
    forall i | 0 <= i < |l2| ensures l2[i].no < nextNo {
      assert l2[i].no == recs[i].no && recs[i] == Record(idx[i].no, d[idx[i].path]) && Listed(NAMES, idx[i], d);
      assert NAMES.numberOf(idx[i].path) == Some(idx[i].no);
    }
  }

  /** newSubmitSpool on a directory that holds recs: the oldest e are evicted, and the next number is above all. */
  method Recover(disk: Disk, maxBytes: int, codec: Codec, now: int, ghost idx: seq<SpoolFile>, ghost recs: seq<Record>)
    returns (spool: Spool?, ghost e: nat)
    requires disk.Valid() && 0 < now <= INT64_LIMIT && Holds(NAMES, disk.files, idx, recs) && Strict(idx)
    modifies disk
    ensures disk.reliable ==> spool != null
    ensures spool != null ==>
              fresh(spool) && spool.Valid() && spool.disk == disk && spool.codec == codec && spool.nextSeq >= now
    ensures spool != null ==>
              e <= |recs| && spool.records == recs[e..] && NumbersBelow(NAMES, old(disk.files), spool.nextSeq)
  {
    spool := new Spool(disk, maxBytes, codec, now);
    e := Evictions(idx, 0, spool.maxBytes);
    ghost var d := disk.files;
    var ok, past := spool.Reload();
    assert ok ==> spool.records == recs[e..] by { assert Holds(NAMES, d, idx, recs) && Strict(idx); }
    if !ok { spool := null; }
  }

  /** A start over a directory that shows the protocol's disk queue, with an empty memory queue, is a step Crash. */
  method Restart(disk: Disk, cap: nat, maxBytes: int, codec: Codec, now: int, ghost s: F.State, ghost labels: Labels,
                 ghost idx: seq<SpoolFile>, ghost recs: seq<Record>)
    returns (twin: Twin?, ghost a: F.Step)
    requires disk.Valid() && 0 < now <= INT64_LIMIT && s.cap == cap && Unused(labels, s.nextId)
    requires Holds(NAMES, disk.files, idx, recs) && Strict(idx) && DiskShows(labels, codec, recs, s.disk.l2)
    modifies disk
    ensures disk.reliable ==> twin != null
    ensures twin != null ==> fresh(twin) && twin.client.Valid() && twin.Shows() && twin.labels == labels
    ensures twin != null ==> a.Crash? && a.nextNo >= now && F.Enabled(s, a) && twin.s == F.Do(s, a)
  {
    ghost var d := disk.files;
    var spool;
    ghost var e;
    spool, e := Recover(disk, maxBytes, codec, now, idx, recs);
    if spool == null {
      return null, F.Enqueue;
    }
    CrashEnabled(labels, codec, d, idx, recs, s.disk.l2, spool.nextSeq);
    PushShows(labels, codec, recs, s.disk.l2, Record(0, []), 0, e, false, spool.records, s.disk.l2[e..]);
    a := F.Crash(e, spool.nextSeq);
    var buffer := new Buffer(cap);
    var client := new Client(true, buffer, spool);
    twin := new Twin(client, F.Do(s, a), labels);
  }

  /** Client.FlushBufferOnce in these terms, with a batch of n. */
  method FlushClient(client: Client, max: int, outcomes: nat -> Outcome)
    returns (accepted: seq<nat>, diskNext: bool, ghost n: nat)
    requires client.Valid()
    modifies client.buffer
    ensures client.Valid() && Round(old(client.buffer.queue), n, outcomes, client.buffer.queue, accepted, diskNext)
  {
    ghost var queue := client.buffer.queue;
    accepted, diskNext := client.FlushBufferOnce(max, outcomes);
    n := RoundIs(queue, max, outcomes, client.buffer.queue, accepted, diskNext);
  }

  // --------------------------------------------------------------- side by side

  /** A client, and the state of the protocol it is in. */
  class Twin {
    const client: Client
    ghost var s: F.State
    ghost var labels: Labels

    ghost predicate Shows()
      reads this, client, client.buffer, client.spool
    {
      && s.cap == client.buffer.cap && Unused(labels, s.nextId)
      && MemShows(labels, client.buffer.queue, s.mem.l1)
      && (client.spool == null ==> s.disk.l2 == [])
      && (client.spool != null ==>
            s.disk.nextNo == client.spool.nextSeq
            && DiskShows(labels, client.spool.codec, client.spool.records, s.disk.l2))
    }

    /** A client as newSubmitSpool and newSubmitBuffer have set it up, seen as a state of the protocol. */
    constructor (client: Client, ghost s: F.State, ghost labels: Labels)
      ensures this.client == client && this.s == s && this.labels == labels
    {
      this.client, this.s, this.labels := client, s, labels;
    }

    /** Buffer.Push is the step Enqueue. */
    method Enqueue(t: BufferedTask) returns (ok: bool)
      requires client.Valid() && Shows()
      modifies this`s, this`labels, client.buffer
      ensures client.Valid() && Shows()
      ensures F.Enabled(old(s), F.Enqueue) && s == F.Do(old(s), F.Enqueue)
      ensures labels == old(labels)[old(s).nextId := Some(ContentOf(t))]
      ensures !ok ==> old(s).nextId in s.spilling
    {
      ghost var id, c := s.nextId, Some(ContentOf(t));
      MemShowsMore(labels, client.buffer.queue, s.mem.l1, id, c);
      if client.spool != null { DiskShowsMore(labels, client.spool.codec, client.spool.records, s.disk.l2, id, c); }
      ok := client.buffer.Push(t);
      s := F.Do(s, F.Enqueue);
      labels := labels[id := c];
    }

    /** Spool.Push is a step Spill, stored exactly if the push reports it. */
    method Spill(t: BufferedTask, ghost id: nat) returns (r: PushResult, ghost a: F.Step)
      requires client.Valid() && Shows() && client.spool != null && client.spool.nextSeq < INT64_LIMIT
               && LawfulCodec(client.spool.codec)
      requires id in s.spilling && Labelled(labels, id, Some(ContentOf(t)))
      modifies this`s, client.spool, client.spool.disk
      ensures client.Valid() && Shows()
      ensures a.Spill? && a.id == id && a.stored == r.Pushed?
      ensures F.Enabled(old(s), a) && s == F.Do(old(s), a)
    {
      ghost var codec, recs, evicted, rec := client.spool.codec, client.spool.records, 0, Record(0, []);
      r, evicted, rec := PushTask(client.spool, t);
      a := F.Spill(id, evicted, r.Pushed?);
      PushShows(labels, codec, recs, s.disk.l2, rec, id, evicted, r.Pushed?, client.spool.records, F.Do(s, a).disk.l2);
      s := F.Do(s, a);
    }

    /** Buffer.Drain is a step Drain1; the batch is the protocol's. */
    method Drain(max: int) returns (batch: seq<BufferedTask>, ghost a: F.Step)
      requires client.Valid() && Shows() && s.phase.Idle?
      modifies this`s, client.buffer
      ensures client.Valid() && Shows()
      ensures a == F.Drain1(|batch|) && F.Enabled(old(s), a) && s == F.Do(old(s), a)
      ensures batch != [] ==> MemShows(labels, batch, s.mem.batch)
    {
      ghost var queue := client.buffer.queue;
      batch := client.buffer.Drain(max);
      a := F.Drain1(|batch|);
      MemShowsSplit(labels, queue, s.mem.l1, |batch|);
      assert queue[..|batch|] == batch && queue[|batch|..] == client.buffer.queue;
      s := F.Do(s, a);
    }

    /** Buffer.PutBack of what is left of the batch is the step PutBack. */
    method PutBack(items: seq<BufferedTask>)
      requires client.Valid() && Shows() && s.phase.PuttingBack? && MemShows(labels, items, s.mem.batch)
      modifies this`s, client.buffer
      ensures client.Valid() && Shows()
      ensures F.Enabled(old(s), F.PutBack) && s == F.Do(old(s), F.PutBack)
    {
      ghost var merged, ids := items + client.buffer.queue, s.mem.batch + s.mem.l1;
      MemShowsJoin(labels, items, s.mem.batch, client.buffer.queue, s.mem.l1);
      MemShowsSplit(labels, merged, ids, M.Overflow(s.mem, s.cap));
      client.buffer.PutBack(items);
      s := F.Do(s, F.PutBack);
    }

    /** Spool.Drain is a step Drain2; the tasks are those of the protocol's batch. */
    method DrainSpool(max: int) returns (ok: bool, tasks: seq<SpoolTask>, ghost a: F.Step)
      requires client.Valid() && Shows() && client.spool != null && s.phase.Draining2?
      modifies this`s
      ensures Shows()
      ensures a == F.Drain2(if ok then |tasks| else 0, ok) && F.Enabled(old(s), a) && s == F.Do(old(s), a)
      ensures ok && tasks != [] ==> BatchShows(labels, tasks, s.disk.batch)
      ensures ok && tasks != [] && client.Numbered() ==>
                forall i | 0 <= i < |tasks| :: s.disk.batch[i].no == tasks[i].no
    {
      ok, tasks := client.spool.Drain(max);
      a := F.Drain2(if ok then |tasks| else 0, ok);
      if ok && client.Numbered() { BatchNumbers(client.spool.codec, client.spool.records, tasks); }
      assert ok ==>
               forall i | 0 <= i < |tasks| ::
                 Labelled(labels, s.disk.l2[i].id, StoredContent(client.spool.codec, client.spool.records[i].data));
      s := F.Do(s, a);
    }

    /** Spool.Ack of the task just dealt with is a step Ack. */
    method Ack(no: int) returns (ok: bool)
      requires client.Valid() && Shows() && client.spool != null && F.Enabled(s, F.Ack(true))
               && s.disk.batch[0].no == no
      modifies this`s, client.spool, client.spool.disk
      ensures client.Valid() && Shows()
      ensures F.Enabled(old(s), F.Ack(ok)) && s == F.Do(old(s), F.Ack(ok))
    {
      ok := AckNumber(client.spool, no, labels, s.disk.l2);
      s := F.Do(s, F.Ack(ok));
    }

    /** Client.FlushBufferOnce is a round of steps: the drain, one submission after the other up to the
        first that fails retriably, and then the putBack, or else the way to the disk level. */
    method FlushBufferOnce(max: int, outcomes: nat -> Outcome)
      returns (accepted: seq<nat>, diskNext: bool, ghost steps: seq<F.Step>)
      requires client.Valid() && Shows() && s.phase.Idle?
      modifies this`s, client.buffer
      ensures client.Valid() && Shows()
      ensures F.Continues(old(s), steps, s) && s.phase == if diskNext then F.Draining2 else F.Idle
      ensures forall i | i in accepted :: i < |old(s).mem.l1|
      ensures s.mem.delivered == old(s).mem.delivered + Picked(old(s).mem.l1, accepted)
    {
      ghost var queue, n, end := client.buffer.queue, 0, s;
      accepted, diskNext, n := FlushClient(client, max, outcomes);
      steps, end := FlushRound(labels, s, queue, n, outcomes);
      s := end;
    }

    /** Client.FlushSpoolOnce is a round of steps on disk: the drain, then for one task after the other the
        submission and the ack, removed or not, up to the first submission that fails retriably. */
    method FlushSpoolOnce(max: int, outcomes: nat -> Outcome) returns (accepted: seq<nat>, ghost steps: seq<F.Step>)
      requires client.Valid() && Shows() && client.spool != null && client.Numbered() && s.phase.Draining2?
               && !s.disk.acking
      modifies this`s, client.spool, client.spool.disk
      ensures client.Valid() && Shows() && client.Numbered()
      ensures F.Reaches(old(s), steps, s) && s.phase.Idle?
      ensures forall i | i in accepted :: i < |old(s).disk.l2|
      ensures s.disk.delivered == old(s).disk.delivered + Picked(old(s).disk.l2, accepted)
      ensures client.spool.disk.reliable ==> F.Continues(old(s), steps, s)
    {
      ghost var recs, batch, removed, end := client.spool.records, [], [], s;
      StrictRecords(client.spool.disk.files, client.spool.files, recs);
      accepted, batch, removed := client.FlushSpoolOnce(max, outcomes);
      ghost var codec := client.spool.codec;
      steps, end := FlushSpoolRound(labels, codec, s, recs, |batch|, outcomes, removed, client.spool.records);
      s := end;
    }
  }
}
