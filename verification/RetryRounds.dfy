/** Progress of the fallback queue: what rounds of runBufferRetryLoop achieve while the scheduler can be reached
    and nobody pushes (pkg/scheduler/submit_buffer.go lines 205-285). */
module RetryRounds {
  import opened SpoolIndex
  import opened SubmitSpool
  import opened SubmitBuffer

  /** How many of the oldest records decode, up to the first that does not. */
  function Decodable(codec: Codec, recs: seq<Record>): (n: nat)
    ensures n <= |recs|
  {
    if recs == [] || codec.unmarshal(recs[0].data).None? then 0 else 1 + Decodable(codec, recs[1..])
  }

  lemma {:induction false} DecodableExact(codec: Codec, recs: seq<Record>, n: nat)
    requires n <= |recs|
    ensures n <= Decodable(codec, recs) <==> AllDecode(codec, recs[..n])
  {
    if n > 0 {
      var head, tail := recs[..n], recs[1..][..n - 1];
      assert tail == head[1..];
      DecodableExact(codec, recs[1..], n - 1);
      assert AllDecode(codec, head) ==> codec.unmarshal(head[0].data).Some?;
      assert AllDecode(codec, head) ==> AllDecode(codec, tail);
      assert forall i | 0 < i < n :: head[i] == tail[i - 1];
    }
  }

  lemma {:induction false} DecodableRest(codec: Codec, recs: seq<Record>, k: nat)
    requires k <= Decodable(codec, recs)
    ensures Decodable(codec, recs[k..]) == Decodable(codec, recs) - k
  {
    if k == 0 {
      assert recs[0..] == recs;
    } else {
      DecodableRest(codec, recs[1..], k - 1);
      assert recs[1..][k - 1..] == recs[k..];
    }
  }

  /** A round takes the oldest batch off the disk queue, unless a record of it does not decode. */
  function AfterRound(codec: Codec, max: int, recs: seq<Record>): seq<Record> {
    var n := BatchSize(max, |recs|);
    if n <= Decodable(codec, recs) then recs[n..] else recs
  }

  function AfterRounds(codec: Codec, max: int, recs: seq<Record>, rounds: nat): seq<Record> {
    if rounds == 0 then recs else AfterRounds(codec, max, AfterRound(codec, max, recs), rounds - 1)
  }

  /** Where the batch with number p in it starts. */
  function BatchStart(max: int, p: nat): (b: nat)
    ensures b <= p
  {
    if max <= 0 || p < max then 0 else max + BatchStart(max, p - max)
  }

  /** What is in a batch with number p, or behind it. */
  function Rest<T>(max: int, q: seq<T>, p: nat): seq<T>
    requires p < |q|
  {
    q[BatchStart(max, p)..]
  }

  lemma RestIsAll<T>(q: seq<T>, max: int, p: nat)
    requires p < BatchSize(max, |q|)
    ensures Rest(max, q, p) == q
  {
  }

  lemma RestMoves<T>(q: seq<T>, max: nat, p: nat)
    requires 0 < max <= p < |q|
    ensures Rest(max, q, p) == Rest(max, q[max..], p - max)
  {
  }

  /** One record that does not decode stops the disk queue: all that is in a batch with it or behind it stays,
      also the records that do decode, until an eviction or somebody else removes it. */
  lemma {:induction false} StandsStill(codec: Codec, max: int, recs: seq<Record>, rounds: nat)
    requires Decodable(codec, recs) < |recs| && Decodable(codec, recs) <= rounds
    ensures AfterRounds(codec, max, recs, rounds) == Rest(max, recs, Decodable(codec, recs))
  {
    var p := Decodable(codec, recs);
    if p < BatchSize(max, |recs|) {
      StuckAt(codec, max, recs, rounds);
      RestIsAll(recs, max, p);
    } else {
      DecodableRest(codec, recs, max);
      StandsStill(codec, max, recs[max..], rounds - 1);
      RestMoves(recs, max, p);
    }
  }

  lemma {:induction false} StuckAt(codec: Codec, max: int, recs: seq<Record>, rounds: nat)
    requires Decodable(codec, recs) < BatchSize(max, |recs|)
    ensures AfterRounds(codec, max, recs, rounds) == recs
  {
    if rounds > 0 { StuckAt(codec, max, recs, rounds - 1); }
  }

  lemma {:induction false} Empties(codec: Codec, max: int, recs: seq<Record>, rounds: nat)
    requires Decodable(codec, recs) == |recs| <= rounds
    ensures AfterRounds(codec, max, recs, rounds) == []
  {
    if rounds > 0 {
      DecodableRest(codec, recs, BatchSize(max, |recs|));
      Empties(codec, max, AfterRound(codec, max, recs), rounds - 1);
    }
  }

  lemma {:induction false} NeverEmpty(codec: Codec, max: int, recs: seq<Record>, rounds: nat)
    requires Decodable(codec, recs) < |recs|
    ensures AfterRounds(codec, max, recs, rounds) != []
  {
    if rounds > 0 {
      var n := BatchSize(max, |recs|);
      if n <= Decodable(codec, recs) { DecodableRest(codec, recs, n); }
      NeverEmpty(codec, max, AfterRound(codec, max, recs), rounds - 1);
    }
  }

  lemma AllDecodable(codec: Codec, recs: seq<Record>)
    ensures Decodable(codec, recs) == |recs| <==> AllDecode(codec, recs)
  {
    DecodableExact(codec, recs, |recs|);
    assert recs[..|recs|] == recs;
  }

  /** The disk queue can be emptied exactly if every record decodes, and then as many rounds as it has records do. */
  lemma EmptiesExactly(codec: Codec, max: int, recs: seq<Record>)
    ensures (exists rounds: nat :: AfterRounds(codec, max, recs, rounds) == []) <==> AllDecode(codec, recs)
    ensures forall rounds: nat | |recs| <= rounds ::
              AfterRounds(codec, max, recs, rounds) == [] <==> AllDecode(codec, recs)
  {
    AllDecodable(codec, recs);
    if Decodable(codec, recs) == |recs| {
      forall rounds: nat | |recs| <= rounds ensures AfterRounds(codec, max, recs, rounds) == [] {
        Empties(codec, max, recs, rounds);
      }
      assert AfterRounds(codec, max, recs, |recs|) == [];
    } else {
      forall rounds: nat ensures AfterRounds(codec, max, recs, rounds) != [] { NeverEmpty(codec, max, recs, rounds); }
    }
  }

  lemma {:induction false} OneMore(codec: Codec, max: int, recs: seq<Record>, rounds: nat)
    ensures AfterRounds(codec, max, recs, rounds + 1) == AfterRound(codec, max, AfterRounds(codec, max, recs, rounds))
  {
    if rounds > 0 { OneMore(codec, max, AfterRound(codec, max, recs), rounds - 1); }
  }

  ghost predicate Reachable(outcomes: nat -> nat -> Outcome) { forall r, i :: !FailsRetriably(outcomes(r)(i)) }

  lemma NoneFails(outcomes: nat -> Outcome, size: nat)
    requires forall i :: !FailsRetriably(outcomes(i))
    ensures FirstRetriable(size, outcomes, 0) == size
  {
    FirstRetriableExact(size, outcomes, 0);
  }

  /** flushSpoolOnce while the scheduler can be reached. */
  method SpoolRound(client: Client, max: int, outcomes: nat -> Outcome)
    requires client.Valid()
    modifies client.spool, if client.spool != null then {client.spool.disk} else {}
    ensures client.Valid()
    ensures Working(client) && old(Working(client) && client.Numbered())
            && (forall i :: !FailsRetriably(outcomes(i))) ==>
              client.Numbered()
              && client.spool.records == AfterRound(client.spool.codec, max, old(client.spool.records))
  {
    var accepted, batch, removed := client.FlushSpoolOnce(max, outcomes);
    if forall i :: !FailsRetriably(outcomes(i)) { NoneFails(outcomes, |batch|); }
    if Working(client) && old(client.Numbered()) {
      AllRemoved(old(client.spool.records), removed);
      DecodableExact(client.spool.codec, old(client.spool.records), BatchSize(max, |old(client.spool.records)|));
    }
  }

  /** There is a disk level, and its file operations do not fail. */
  predicate Working(client: Client) { client.spool != null && client.spool.disk.reliable }

  /** A tick of runBufferRetryLoop: a round over the memory queue, and then over the disk queue if that was
      not stopped. */
  method RetryRound(client: Client, max: int, mem: nat -> Outcome, disk: nat -> Outcome)
    requires client.Valid()
    modifies client.buffer, client.spool, if client.spool != null then {client.spool.disk} else {}
    ensures client.Valid()
    ensures (forall i :: !FailsRetriably(mem(i))) ==> |client.buffer.queue| <= Less(|old(client.buffer.queue)|)
    ensures Working(client) && old(Working(client) && client.Numbered()) &&
            (forall i :: !FailsRetriably(mem(i))) && (forall i :: !FailsRetriably(disk(i))) ==>
              client.Numbered()
              && client.spool.records == AfterRound(client.spool.codec, max, old(client.spool.records))
  {
    var n := BatchSize(max, |client.buffer.queue|);
    if forall i :: !FailsRetriably(mem(i)) { NoneFails(mem, n); }
    var accepted, diskNext := client.FlushBufferOnce(max, mem);
    if diskNext { SpoolRound(client, max, disk); }
  }

  function Less(n: nat): nat { if n > 0 then n - 1 else 0 }

  /** rounds ticks of runBufferRetryLoop; mem(r) and disk(r) answer the submissions of tick r. While the scheduler
      can be reached, they empty the memory queue, and without I/O failures do to the disk queue what AfterRounds
      says; so as many ticks as it has records empty it exactly if all of them decode. */
  method RetryLoop(client: Client, max: int, rounds: nat, mem: nat -> nat -> Outcome, disk: nat -> nat -> Outcome)
    requires client.Valid()
    modifies client.buffer, client.spool, if client.spool != null then {client.spool.disk} else {}
    ensures client.Valid()
    ensures Reachable(mem) && |old(client.buffer.queue)| <= rounds ==> client.buffer.queue == []
    ensures Working(client) && old(Working(client) && client.Numbered()) && Reachable(mem) && Reachable(disk) ==>
              && client.spool.records == AfterRounds(client.spool.codec, max, old(client.spool.records), rounds)
              && (|old(client.spool.records)| <= rounds ==>
                    (client.spool.records == [] <==> AllDecode(client.spool.codec, old(client.spool.records))))
  {
    for r := 0 to rounds
      invariant client.Valid()
      invariant Reachable(mem) ==> client.buffer.queue == [] || |client.buffer.queue| + r <= |old(client.buffer.queue)|
      invariant Working(client) && old(Working(client) && client.Numbered()) && Reachable(mem) && Reachable(disk) ==>
                  && client.Numbered()
                  && client.spool.records == AfterRounds(client.spool.codec, max, old(client.spool.records), r)
    {
      RetryRound(client, max, mem(r), disk(r));
      if client.spool != null { OneMore(client.spool.codec, max, old(client.spool.records), r); }
    }
    if client.spool != null { EmptiesExactly(client.spool.codec, max, old(client.spool.records)); }
  }
}
