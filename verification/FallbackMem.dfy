/** The memory level (L1) of the fallback queue with its history: what each critical section of
    submitBuffer does to it, and what each keeps (pkg/scheduler/submit_buffer.go). */
module FallbackMem {

  /** The memory queue, the batch its flusher has taken, and the history of its tasks. */
  datatype Mem = Mem(
    l1: seq<nat>, batch: seq<nat>,
    sinceDrain: nat,      // pushes since the last drain
    queued: seq<nat>,     // history: tasks reported as queued here
    delivered: seq<nat>,  // history: successful submissions, in order
    rejected: seq<nat>,   // history: refused by the scheduler for good
    overCap: seq<nat>,    // history: dropped by putBack
    crashed: seq<nat>)    // history: here when the process died

  function Push1(m: Mem, id: nat): Mem {
    m.(l1 := m.l1 + [id], queued := m.queued + [id], sinceDrain := m.sinceDrain + 1)
  }

  function Take1(m: Mem, n: nat): Mem
    requires n <= |m.l1|
  {
    m.(batch := m.l1[..n], l1 := m.l1[n..], sinceDrain := 0)
  }

  function Deliver1(m: Mem): Mem
    requires m.batch != []
  {
    m.(delivered := m.delivered + [m.batch[0]], batch := m.batch[1..])
  }

  function Reject1(m: Mem): Mem
    requires m.batch != []
  {
    m.(rejected := m.rejected + [m.batch[0]], batch := m.batch[1..])
  }

  /** How many tasks putBack drops: the oldest of batch and queue together. */
  function Overflow(m: Mem, cap: nat): (n: nat)
    ensures n <= |m.batch + m.l1|
  {
    if |m.batch + m.l1| > cap then |m.batch + m.l1| - cap else 0
  }

  function PutBack1(m: Mem, cap: nat): Mem {
    var merged, n := m.batch + m.l1, Overflow(m, cap);
    m.(l1 := merged[n..], overCap := m.overCap + merged[..n], batch := [])
  }

  function Crash1(m: Mem): Mem {
    m.(crashed := m.crashed + (m.batch + m.l1), batch := [], l1 := [], sinceDrain := 0)
  }

  ghost predicate Increasing(q: seq<nat>) { forall i, j | 0 <= i < j < |q| :: q[i] < q[j] }

  ghost predicate Under(q: seq<nat>, bound: nat) { forall i | 0 <= i < |q| :: q[i] < bound }

  /** Every task queued in memory is in exactly one place, exactly once. */
  ghost predicate Conserved1(m: Mem) {
    multiset(m.queued) == multiset(m.l1) + multiset(m.batch) + multiset(m.delivered)
                        + multiset(m.rejected) + multiset(m.overCap) + multiset(m.crashed)
  }

  function Line1(m: Mem): seq<nat> { m.delivered + m.batch + m.l1 }

  ghost predicate Order1(m: Mem, nextId: nat) {
    && Increasing(m.queued) && Under(m.queued, nextId)
    && Increasing(Line1(m)) && Under(Line1(m), nextId)
  }

  ghost predicate Room1(m: Mem, cap: nat) {
    |m.l1| <= cap && |m.batch| + |m.l1| <= cap + m.sinceDrain
  }

  ghost predicate MemOk(m: Mem, cap: nat, nextId: nat) { Conserved1(m) && Order1(m, nextId) && Room1(m, cap) }

  lemma Cut<T>(q: seq<T>, n: nat)
    requires n <= |q|
    ensures multiset(q) == multiset(q[..n]) + multiset(q[n..])
  {
    assert q == q[..n] + q[n..];
  }

  /** Taking a stretch out of an increasing sequence leaves it increasing. */
  lemma Excise(q: seq<nat>, i: nat, j: nat, bound: nat)
    requires i <= j <= |q| && Increasing(q) && Under(q, bound)
    ensures Increasing(q[..i] + q[j..]) && Under(q[..i] + q[j..], bound)
  {
    var r := q[..i] + q[j..];
    assert forall k | 0 <= k < |r| :: r[k] == q[if k < i then k else k + j - i];
  }

  lemma Append(q: seq<nat>, id: nat)
    requires Increasing(q) && Under(q, id)
    ensures Increasing(q + [id]) && Under(q + [id], id + 1)
  {
  }

  lemma Loosen(q: seq<nat>, bound: nat, bound': nat)
    requires Under(q, bound) && bound <= bound'
    ensures Under(q, bound')
  {
  }

  lemma Push1Keeps(m: Mem, cap: nat, id: nat)
    requires MemOk(m, cap, id) && |m.l1| < cap
    ensures MemOk(Push1(m, id), cap, id + 1)
  {
    Append(m.queued, id);
    Append(Line1(m), id);
    assert Line1(Push1(m, id)) == Line1(m) + [id];
  }

  lemma Skip1Keeps(m: Mem, cap: nat, id: nat)
    requires MemOk(m, cap, id)
    ensures MemOk(m, cap, id + 1)
  {
    Loosen(m.queued, id, id + 1);
    Loosen(Line1(m), id, id + 1);
  }

  lemma Take1Keeps(m: Mem, n: nat, cap: nat, nextId: nat)
    requires MemOk(m, cap, nextId) && n <= |m.l1| && m.batch == []
    ensures MemOk(Take1(m, n), cap, nextId)
  {
    Cut(m.l1, n);
    assert m.l1 == m.l1[..n] + m.l1[n..];
    assert Line1(Take1(m, n)) == Line1(m);
  }

  lemma Deliver1Keeps(m: Mem, cap: nat, nextId: nat)
    requires MemOk(m, cap, nextId) && m.batch != []
    ensures MemOk(Deliver1(m), cap, nextId)
  {
    Cut(m.batch, 1);
    assert m.batch == [m.batch[0]] + m.batch[1..];
    assert Line1(Deliver1(m)) == Line1(m);
  }

  lemma Reject1Keeps(m: Mem, cap: nat, nextId: nat)
    requires MemOk(m, cap, nextId) && m.batch != []
    ensures MemOk(Reject1(m), cap, nextId)
  {
    Cut(m.batch, 1);
    var n := |m.delivered|;
    Excise(Line1(m), n, n + 1, nextId);
    assert Line1(Reject1(m)) == Line1(m)[..n] + Line1(m)[n + 1..];
  }

  lemma PutBack1Conserves(m: Mem, cap: nat)
    requires Conserved1(m)
    ensures Conserved1(PutBack1(m, cap))
  {
    var merged, k := m.batch + m.l1, Overflow(m, cap);
    assert multiset(merged) == multiset(m.batch) + multiset(m.l1);
    Cut(merged, k);
    var m' := PutBack1(m, cap);
    assert m'.overCap == m.overCap + merged[..k] && m'.l1 == merged[k..] && m'.batch == [];
    forall id
      ensures multiset(m.queued)[id] == multiset(m'.l1)[id] + multiset(m'.batch)[id] + multiset(m'.delivered)[id]
                                      + multiset(m'.rejected)[id] + multiset(m'.overCap)[id] + multiset(m'.crashed)[id]
    {
      assert multiset(merged)[id] == multiset(merged[..k])[id] + multiset(merged[k..])[id];
    }
  }

  lemma PutBack1Orders(m: Mem, cap: nat, nextId: nat)
    requires Order1(m, nextId)
    ensures Order1(PutBack1(m, cap), nextId)
  {
    var merged, k, n := m.batch + m.l1, Overflow(m, cap), |m.delivered|;
    Excise(Line1(m), n, n + k, nextId);
    assert Line1(m) == m.delivered + merged;
    assert Line1(PutBack1(m, cap)) == Line1(m)[..n] + Line1(m)[n + k..];
  }

  lemma PutBack1Keeps(m: Mem, cap: nat, nextId: nat)
    requires MemOk(m, cap, nextId)
    ensures MemOk(PutBack1(m, cap), cap, nextId)
  {
    PutBack1Conserves(m, cap);
    PutBack1Orders(m, cap, nextId);
  }

  lemma Crash1Keeps(m: Mem, cap: nat, nextId: nat)
    requires MemOk(m, cap, nextId)
    ensures MemOk(Crash1(m), cap, nextId)
  {
    var n := |m.delivered|;
    Excise(Line1(m), n, |Line1(m)|, nextId);
    assert Line1(Crash1(m)) == Line1(m)[..n] + Line1(m)[|Line1(m)|..];
  }
}
