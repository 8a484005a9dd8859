/** The disk level (L2) of the fallback queue with its history: what each critical section of
    submitSpool and a restart do to it, and what each keeps (pkg/scheduler/submit_spool.go).

    It takes part with what Spool.Push, Spool.Drain, Spool.Ack and Spool.Reload guarantee: a push
    may delete some of the oldest records and then stores its own or not; a restart may delete
    some of the oldest. */
module FallbackDisk {

  /** A task on disk: its sequence number and the task's identity. */
  datatype Rec = Rec(no: int, id: nat)

  /** The disk queue, the batch its flusher has read, and the history of its tasks. */
  datatype Disk = Disk(
    l2: seq<Rec>, batch: seq<Rec>,
    acking: bool,          // batch[0] is delivered or rejected, and its ack is next
    nextNo: int,
    queued: set<Rec>,      // history: tasks reported as queued here, or found here at the start
    delivered: seq<Rec>,   // history: successful submissions, in order
    rejected: set<Rec>,    // history: refused by the scheduler for good
    overBytes: set<Rec>,   // history: deleted to make room
    steady: bool)          // history: so far every ack removed its file or found it gone, no crash came between a
                           // submission and its ack, and no restart took a number already used

  function Elems(q: seq<Rec>): set<Rec> { set r | r in q }

  function Remove(q: seq<Rec>, no: int): seq<Rec> {
    if q == [] then [] else if q[0].no == no then q[1..] else [q[0]] + Remove(q[1..], no)
  }

  /** Deletes the oldest k records to make room. */
  function Evict2(d: Disk, k: nat): Disk
    requires k <= |d.l2|
  {
    d.(l2 := d.l2[k..], overBytes := d.overBytes + Elems(d.l2[..k]))
  }

  /** Stores a task under the next number. */
  function Store2(d: Disk, id: nat): Disk {
    var rec := Rec(d.nextNo, id);
    d.(l2 := d.l2 + [rec], queued := d.queued + {rec}, nextNo := d.nextNo + 1)
  }

  /** The outcome of a push: some of the oldest records deleted, a number used up, the task stored or not. */
  function Push2(d: Disk, id: nat, evict: nat, stored: bool): Disk
    requires evict <= |d.l2|
  {
    var d' := Evict2(d, evict);
    if stored then Store2(d', id) else d'.(nextNo := d.nextNo + 1)
  }

  function Read2(d: Disk, n: nat): Disk
    requires n <= |d.l2|
  {
    d.(batch := d.l2[..n])
  }

  function Deliver2(d: Disk): Disk
    requires d.batch != []
  {
    d.(delivered := d.delivered + [d.batch[0]], acking := true)
  }

  function Reject2(d: Disk): Disk
    requires d.batch != []
  {
    d.(rejected := d.rejected + {d.batch[0]}, acking := true)
  }

  function Ack2(d: Disk, removed: bool): Disk
    requires d.batch != []
  {
    d.(acking := false, batch := d.batch[1..],
       l2 := if removed then Remove(d.l2, d.batch[0].no) else d.l2,
       steady := d.steady && (removed || d.batch[0] !in d.l2))
  }

  function Stop2(d: Disk): Disk { d.(batch := []) }

  /** The process dies; the restart finds the files, may delete some of the oldest, and picks a number above
      the rest. */
  function Crash2(d: Disk, evict: nat, nextNo: int): Disk
    requires evict <= |d.l2|
  {
    Evict2(d, evict).(nextNo := nextNo, batch := [], acking := false,
                      steady := d.steady && !d.acking && d.nextNo <= nextNo)
  }

  ghost predicate Rising(q: seq<Rec>) { forall i, j | 0 <= i < j < |q| :: q[i].no < q[j].no }

  /** No task put on disk is lost: one that is not there any more was delivered, rejected or deleted
      to make room. None is invented either. */
  ghost predicate Kept2(d: Disk) {
    && (forall r | r in d.queued :: r in d.l2 || r in d.delivered || r in d.rejected || r in d.overBytes)
    && (forall r | r in d.l2 || r in d.batch || r in d.delivered || r in d.rejected || r in d.overBytes ::
         r in d.queued)
    && (d.acking ==> d.batch != [] && (d.batch[0] in d.delivered || d.batch[0] in d.rejected))
  }

  ghost predicate Disk2(d: Disk) {
    && Rising(d.l2)
    && (forall r | r in d.l2 || r in d.batch :: r.no < d.nextNo)
    && (forall r, b | r in d.l2 && b in d.batch && r.no == b.no :: r == b)
  }

  ghost predicate Above(q: seq<Rec>, no: int) { forall x | x in q :: x.no < no }

  /** r comes after everything delivered, unless it is the record being acknowledged. */
  ghost predicate After(d: Disk, r: Rec) {
    (d.acking && d.batch != [] && r == d.batch[0]) || Above(d.delivered, r.no)
  }

  ghost predicate Pending(d: Disk, r: Rec) { r in d.batch || Above(d.batch, r.no) }

  /** While steady, the disk and the flusher's batch hold only what comes after the deliveries,
      and of what the flusher has read the disk holds nothing but what is still in the batch. */
  ghost predicate Order2(d: Disk) {
    && (d.acking ==> d.batch != [])
    && Rising(d.delivered) && Rising(d.batch) && Above(d.delivered, d.nextNo)
    && (forall r {:trigger After(d, r)} | r in d.l2 || r in d.batch :: After(d, r))
    && (d.acking ==> Above(d.delivered, d.batch[0].no + 1))
    && (forall r {:trigger Pending(d, r)} | r in d.l2 :: Pending(d, r))
  }

  ghost predicate Inv2(d: Disk) {
    Kept2(d) && Disk2(d) && (d.steady ==> Order2(d))
  }

  lemma Split(q: seq<Rec>, n: nat)
    requires n <= |q|
    ensures forall r :: r in q <==> r in q[..n] || r in q[n..]
  {
    assert q == q[..n] + q[n..];
  }

  lemma {:induction false} RemoveSpec(q: seq<Rec>, no: int)
    requires Rising(q)
    ensures Rising(Remove(q, no))
    ensures forall r :: r in Remove(q, no) <==> r in q && r.no != no
  {
    if q != [] {
      Split(q, 1);
      if q[0].no != no { RemoveSpec(q[1..], no); }
    }
  }

  lemma {:induction false} RisingUnique(q: seq<Rec>, r: Rec, x: Rec)
    requires Rising(q) && r in q && x in q && r.no == x.no
    ensures r == x
  {
    var i :| 0 <= i < |q| && q[i] == r;
    var j :| 0 <= j < |q| && q[j] == x;
  }

  lemma AfterSame(d: Disk, d': Disk)
    requires Order2(d) && d'.batch == d.batch && d'.delivered == d.delivered && d'.acking == d.acking
             && d'.nextNo >= d.nextNo
    requires forall r | r in d'.l2 :: r in d.l2 || r.no == d.nextNo
    requires Disk2(d)
    ensures Order2(d')
  {
    forall r | r in d'.l2 || r in d'.batch ensures After(d', r) {
      if r in d.l2 || r in d.batch { assert After(d, r); }
    }
    forall r | r in d'.l2 ensures Pending(d', r) {
      if r in d.l2 { assert Pending(d, r); }
    }
  }

  lemma Evict2Keeps(d: Disk, k: nat)
    requires Inv2(d) && k <= |d.l2|
    ensures Inv2(Evict2(d, k))
  {
    Split(d.l2, k);
    if d.steady { AfterSame(d, Evict2(d, k)); }
  }

  lemma Push2KeepsDisk(d: Disk, id: nat, evict: nat, stored: bool)
    requires evict <= |d.l2| && Kept2(Evict2(d, evict)) && Disk2(Evict2(d, evict))
    ensures Kept2(Push2(d, id, evict, stored)) && Disk2(Push2(d, id, evict, stored))
  {
    if stored {
      Store2KeepsKept(Evict2(d, evict), id);
      Store2KeepsDisk(Evict2(d, evict), id);
    }
  }

  lemma Store2KeepsKept(d: Disk, id: nat)
    requires Kept2(d)
    ensures Kept2(Store2(d, id))
  {
    assert forall r :: r in Store2(d, id).l2 <==> r in d.l2 || r == Rec(d.nextNo, id);
  }

  lemma Store2KeepsDisk(d: Disk, id: nat)
    requires Disk2(d)
    ensures Disk2(Store2(d, id))
  {
    var d', rec := Store2(d, id), Rec(d.nextNo, id);
    assert forall r :: r in d'.l2 <==> r in d.l2 || r == rec;
    forall i, j | 0 <= i < j < |d'.l2| ensures d'.l2[i].no < d'.l2[j].no {
      assert d.l2[i] in d.l2;
    }
  }

  lemma Push2Keeps(d: Disk, id: nat, evict: nat, stored: bool)
    requires Inv2(d) && evict <= |d.l2|
    ensures Inv2(Push2(d, id, evict, stored))
  {
    Evict2Keeps(d, evict);
    Push2KeepsDisk(d, id, evict, stored);
    if d.steady { AfterSame(Evict2(d, evict), Push2(d, id, evict, stored)); }
  }

  lemma Read2KeepsDisk(d: Disk, n: nat)
    requires Kept2(d) && Disk2(d) && n <= |d.l2| && d.batch == []
    ensures Kept2(Read2(d, n)) && Disk2(Read2(d, n))
  {
    Split(d.l2, n);
    forall r, b | r in d.l2 && b in d.l2[..n] && r.no == b.no ensures r == b {
      RisingUnique(d.l2, r, b);
    }
  }

  lemma {:induction false} HeadOrLater(q: seq<Rec>, n: nat, r: Rec)
    requires Rising(q) && n <= |q| && r in q
    ensures r in q[..n] || Above(q[..n], r.no)
  {
    var i :| 0 <= i < |q| && q[i] == r;
    if i < n { assert q[..n][i] == r; }
  }

  lemma Read2Keeps(d: Disk, n: nat)
    requires Inv2(d) && n <= |d.l2| && d.batch == []
    ensures Inv2(Read2(d, n))
  {
    Read2KeepsDisk(d, n);
    if d.steady {
      Split(d.l2, n);
      forall r | r in d.l2 ensures After(Read2(d, n), r) && Pending(Read2(d, n), r) {
        assert After(d, r);
        HeadOrLater(d.l2, n, r);
      }
    }
  }

  lemma Deliver2KeepsOrder(d: Disk)
    requires Disk2(d) && Order2(d) && d.batch != [] && !d.acking
    ensures Order2(Deliver2(d))
  {
    var d', b := Deliver2(d), d.batch[0];
    assert b in d.batch && After(d, b);
    forall r | r in d.l2 || r in d.batch ensures After(d', r) {
      assert After(d, r) && (r in d.l2 ==> Pending(d, r));
      if r != b {
        if r in d.batch { assert exists i :: 0 < i < |d.batch| && d.batch[i] == r; }
        assert b.no < r.no;
      }
    }
    forall r | r in d.l2 ensures Pending(d', r) { assert Pending(d, r); }
  }

  lemma Deliver2Keeps(d: Disk)
    requires Inv2(d) && d.batch != [] && !d.acking
    ensures Inv2(Deliver2(d))
  {
    assert d.batch[0] in d.batch;
    if d.steady { Deliver2KeepsOrder(d); }
  }

  lemma Reject2Keeps(d: Disk)
    requires Inv2(d) && d.batch != [] && !d.acking
    ensures Inv2(Reject2(d))
  {
    assert d.batch[0] in d.batch;
    if d.steady {
      assert After(d, d.batch[0]);
      var d' := Reject2(d);
      forall r | r in d.l2 || r in d.batch ensures After(d', r) { assert After(d, r); }
      forall r | r in d.l2 ensures Pending(d', r) { assert Pending(d, r); }
    }
  }

  lemma Ack2KeepsDisk(d: Disk, removed: bool)
    requires Kept2(d) && Disk2(d) && d.acking
    ensures Kept2(Ack2(d, removed)) && Disk2(Ack2(d, removed))
  {
    Split(d.batch, 1);
    assert d.batch[0] in d.batch;
    RemoveSpec(d.l2, d.batch[0].no);
  }

  lemma Ack2KeepsOrder(d: Disk, removed: bool)
    requires Disk2(d) && d.acking && Order2(d) && (removed || d.batch[0] !in d.l2)
    ensures Order2(Ack2(d, removed))
  {
    var d', b := Ack2(d, removed), d.batch[0];
    Split(d.batch, 1);
    assert b in d.batch;
    RemoveSpec(d.l2, b.no);
    forall r | r in d'.l2 || r in d'.batch ensures After(d', r) {
      if r in d'.batch { assert exists i :: 0 < i < |d.batch| && d.batch[i] == r; }
      assert After(d, r);
    }
    forall r | r in d'.l2 ensures Pending(d', r) { assert Pending(d, r); }
  }

  lemma Ack2Keeps(d: Disk, removed: bool)
    requires Inv2(d) && d.acking
    ensures Inv2(Ack2(d, removed))
  {
    Ack2KeepsDisk(d, removed);
    if d.steady && (removed || d.batch[0] !in d.l2) { Ack2KeepsOrder(d, removed); }
  }

  lemma Crash2Keeps(d: Disk, evict: nat, nextNo: int)
    requires Inv2(d) && evict <= |d.l2| && forall r | r in d.l2 :: r.no < nextNo
    ensures Inv2(Crash2(d, evict, nextNo))
  {
    var d', d'' := Evict2(d, evict), Crash2(d, evict, nextNo);
    Evict2Keeps(d, evict);
    Split(d.l2, evict);
    if d''.steady {
      forall r | r in d''.l2 ensures After(d'', r) && Pending(d'', r) { assert After(d', r); }
    }
  }

  lemma Stop2Keeps(d: Disk)
    requires Inv2(d) && !d.acking
    ensures Inv2(Stop2(d))
  {
    if d.steady {
      var d' := Stop2(d);
      forall r | r in d'.l2 ensures After(d', r) && Pending(d', r) { assert After(d, r); }
    }
  }
}
