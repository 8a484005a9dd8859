/** One tracker and the hash of the current hour (pkg/traffic/tracker.go lines 47-72 and 112-150,
    traffic.go lines 119-132). What other goroutines do in the middle of a flush is in TrafficLedger. */
module TrafficTracker {
  import opened MapSums
  import opened TrafficFields

  datatype Pair = Pair(up: nat, down: nat)

  datatype PendingItem = PendingItem(device: string, pair: Pair)

  datatype Cmd = HIncrBy(field: string, n: nat)

  function Get(p: Pair, dir: Direction): nat { if dir.Up? then p.up else p.down }

  function Plus(p: Pair, q: Pair): Pair { Pair(p.up + q.up, p.down + q.down) }

  const ZERO := Pair(0, 0)

  /** pending lists exactly the non-zero counters of the devices visited. */
  ghost predicate PendingOf(was: map<string, Pair>, visited: set<string>, pending: seq<PendingItem>)
    requires visited <= was.Keys
  {
    && (forall i | 0 <= i < |pending| ::
         pending[i].device in visited && pending[i].pair == was[pending[i].device] != ZERO)
    && (forall d | d in visited && was[d] != ZERO :: PendingItem(d, was[d]) in pending)
    && (forall i, j | 0 <= i < j < |pending| :: pending[i].device != pending[j].device)
  }

  function CmdOf(service: string, p: PendingItem, dir: Direction): seq<Cmd> {
    if Get(p.pair, dir) > 0 then [HIncrBy(BuildField(p.device, service, dir), Get(p.pair, dir))] else []
  }

  /** The pipeline for pending. */
  function Cmds(service: string, pending: seq<PendingItem>): seq<Cmd> {
    if pending == [] then [] else
      var last := pending[|pending| - 1];
      Cmds(service, pending[..|pending| - 1]) + CmdOf(service, last, Up) + CmdOf(service, last, Down)
  }

  ghost predicate DistinctFields(cmds: seq<Cmd>) {
    forall i, j | 0 <= i < j < |cmds| :: cmds[i].field != cmds[j].field
  }

  ghost predicate From(service: string, pending: seq<PendingItem>, c: Cmd) {
    exists p, dir :: p in pending && c == HIncrBy(BuildField(p.device, service, dir), Get(p.pair, dir)) && c.n > 0
  }

  /** The pipeline has one command for each positive count and nothing else. */
  lemma {:induction false} CmdsExact(service: string, pending: seq<PendingItem>)
    ensures forall c | c in Cmds(service, pending) :: From(service, pending, c)
    ensures forall p, dir | p in pending && Get(p.pair, dir) > 0 ::
              HIncrBy(BuildField(p.device, service, dir), Get(p.pair, dir)) in Cmds(service, pending)
  {
    if pending != [] {
      var n := |pending| - 1;
      CmdsExact(service, pending[..n]);
      assert pending == pending[..n] + [pending[n]];
      forall c | c in Cmds(service, pending) ensures From(service, pending, c) {
        if c in Cmds(service, pending[..n]) {
          assert From(service, pending[..n], c);
        } else {
          var dir := if c in CmdOf(service, pending[n], Up) then Up else Down;
          assert c == HIncrBy(BuildField(pending[n].device, service, dir), Get(pending[n].pair, dir));
        }
      }
    }
  }

  lemma DistinctMore(cmds: seq<Cmd>, c: Cmd)
    requires DistinctFields(cmds) && forall b | b in cmds :: b.field != c.field
    ensures DistinctFields(cmds + [c])
  {
    forall i | 0 <= i < |cmds| ensures cmds[i].field != c.field { assert cmds[i] in cmds; }
  }

  lemma {:induction false} CmdsDistinct(service: string, pending: seq<PendingItem>)
    requires forall i, j | 0 <= i < j < |pending| :: pending[i].device != pending[j].device
    ensures DistinctFields(Cmds(service, pending))
  {
    if pending != [] {
      var n := |pending| - 1;
      var cmds, last := Cmds(service, pending[..n]), pending[n];
      CmdsDistinct(service, pending[..n]);
      CmdsExact(service, pending[..n]);
      forall c, dir | c in cmds ensures c.field != BuildField(last.device, service, dir) {
        var p, dir' :| p in pending[..n] && c == HIncrBy(BuildField(p.device, service, dir'), Get(p.pair, dir'));
        if c.field == BuildField(last.device, service, dir) {
          CountersHaveOwnFields(p.device, last.device, service, dir', dir);
        }
      }
      var up, down := CmdOf(service, last, Up), CmdOf(service, last, Down);
      if up != [] { DistinctMore(cmds, up[0]); } else { assert cmds + up == cmds; }
      if down != [] {
        if BuildField(last.device, service, Up) == BuildField(last.device, service, Down) {
          CountersHaveOwnFields(last.device, last.device, service, Up, Down);
        }
        DistinctMore(cmds + up, down[0]);
      } else {
        assert cmds + up + down == cmds + up;
      }
    }
  }

  class Redis {
    const reliable: bool  // no pipeline fails
    var hash: map<string, nat>

    constructor (reliable: bool)
      ensures this.reliable == reliable && hash == map[]
    {
      this.reliable, hash := reliable, map[];
    }

    /** pipe.Exec: on success every command was executed; on failure any of them may have been. */
    method Exec(cmds: seq<Cmd>) returns (ok: bool)
      requires DistinctFields(cmds)
      modifies this
      ensures forall c | c in cmds ::
                || Lookup(hash, c.field) == Lookup(old(hash), c.field) + c.n
                || (!ok && Lookup(hash, c.field) == Lookup(old(hash), c.field))
      ensures forall field | (forall c | c in cmds :: c.field != field) ::
                Lookup(hash, field) == Lookup(old(hash), field)
      ensures reliable ==> ok
    {
      ok := *;
      ok := ok || reliable;
      for i := 0 to |cmds|
        invariant forall j | 0 <= j < i ::
                    || Lookup(hash, cmds[j].field) == Lookup(old(hash), cmds[j].field) + cmds[j].n
                    || (!ok && Lookup(hash, cmds[j].field) == Lookup(old(hash), cmds[j].field))
        invariant forall field | (forall j | 0 <= j < i :: cmds[j].field != field) ::
                    Lookup(hash, field) == Lookup(old(hash), field)
      {
        var executed := *;
        if ok || executed {
          hash := hash[cmds[i].field := Lookup(hash, cmds[i].field) + cmds[i].n];
        }
      }
    }
  }

  /** Field f of the hash went up by n. */
  predicate Grew(hash: map<string, nat>, hash': map<string, nat>, f: string, n: nat) {
    Lookup(hash', f) == Lookup(hash, f) + n
  }

  predicate ArrivesAt(hash: map<string, nat>, hash': map<string, nat>, f: string, n: nat, ok: bool) {
    Grew(hash, hash', f, n) || (!ok && Grew(hash, hash', f, 0))
  }

  /** What a pipeline for all of was does to the hash: each counter of was arrives in its own field, or,
      if the pipeline failed, possibly not; no other field changes. */
  ghost predicate Arrives(service: string, was: map<string, Pair>, hash: map<string, nat>, hash': map<string, nat>,
                          ok: bool) {
    && (forall d | d in was ::
          && ArrivesAt(hash, hash', BuildField(d, service, Up), was[d].up, ok)
          && ArrivesAt(hash, hash', BuildField(d, service, Down), was[d].down, ok))
    && (forall f | (forall d, dir | d in was :: f != BuildField(d, service, dir)) :: Grew(hash, hash', f, 0))
  }

  lemma ExecArrives(service: string, was: map<string, Pair>, pending: seq<PendingItem>, hash: map<string, nat>,
                    hash': map<string, nat>, ok: bool)
    requires PendingOf(was, was.Keys, pending)
    requires forall c | c in Cmds(service, pending) ::
               Grew(hash, hash', c.field, c.n) || (!ok && Grew(hash, hash', c.field, 0))
    requires forall f | (forall c | c in Cmds(service, pending) :: c.field != f) :: Grew(hash, hash', f, 0)
    ensures Arrives(service, was, hash, hash', ok)
  {
    CmdsExact(service, pending);
    forall d, dir | d in was ensures ArrivesAt(hash, hash', BuildField(d, service, dir), Get(was[d], dir), ok) {
      var f := BuildField(d, service, dir);
      if Get(was[d], dir) > 0 {
        assert PendingItem(d, was[d]) in pending;
        assert HIncrBy(f, Get(was[d], dir)) in Cmds(service, pending);
      } else {
        forall c | c in Cmds(service, pending) ensures c.field != f {
          var p, dir' :| p in pending && c == HIncrBy(BuildField(p.device, service, dir'), Get(p.pair, dir'));
          if c.field == f { CountersHaveOwnFields(p.device, d, service, dir', dir); }
        }
      }
    }
    forall f | (forall d, dir | d in was :: f != BuildField(d, service, dir)) ensures Grew(hash, hash', f, 0) {
      forall c | c in Cmds(service, pending) ensures c.field != f {
        var p, dir' :| p in pending && c == HIncrBy(BuildField(p.device, service, dir'), Get(p.pair, dir'));
      }
    }
  }

  /** n more bytes counted for a device in one direction. */
  function Added(was: map<string, Pair>, d: string, dir: Direction, n: nat): map<string, Pair>
    requires d in was
  {
    was[d := if dir.Up? then Pair(was[d].up + n, was[d].down) else Pair(was[d].up, was[d].down + n)]
  }

  /** The bytes added arrive in the field named after the device, the service and the direction, and nowhere else:
      what a successful flush stores with them is what it stores without them, but for that field. */
  lemma AddedArrives(service: string, was: map<string, Pair>, d: string, dir: Direction, n: nat, hash: map<string, nat>,
                     without: map<string, nat>, with: map<string, nat>, f: string)
    requires d in was && Arrives(service, was, hash, without, true)
    requires Arrives(service, Added(was, d, dir, n), hash, with, true)
    ensures Lookup(with, f) ==
              Lookup(without, f) + if f == d + "|" + service + (if dir.Up? then "|up" else "|down") then n else 0
  {
    var own := BuildField(d, service, dir);
    assert own == d + "|" + service + (if dir.Up? then "|up" else "|down");
    if e: string, e' :| e in was && f == BuildField(e, service, e') {
      if f == own { CountersHaveOwnFields(e, d, service, e', dir); }
      FieldGrew(service, was, hash, without, e, e');
      FieldGrew(service, Added(was, d, dir, n), hash, with, e, e');
    } else {
      assert Grew(hash, without, f, 0) && Grew(hash, with, f, 0);
    }
  }

  lemma FieldGrew(service: string, was: map<string, Pair>, hash: map<string, nat>, hash': map<string, nat>, d: string,
                  dir: Direction)
    requires d in was && Arrives(service, was, hash, hash', true)
    ensures Grew(hash, hash', BuildField(d, service, dir), if dir.Up? then was[d].up else was[d].down)
  {
  }

  class Tracker {
    const service: string
    var counters: map<string, Pair>

    /** newTracker: one pair for each device of the whitelist. */
    constructor (service: string, whitelist: set<string>)
      ensures this.service == service && counters.Keys == whitelist && forall d | d in whitelist :: counters[d] == ZERO
    {
      this.service := service;
      counters := map d | d in whitelist :: ZERO;
    }

    /** AddUp and AddDown. */
    method Add(device: string, dir: Direction, n: int)
      modifies this
      ensures device in old(counters) && n > 0 ==>
                counters == Added(old(counters), device, dir, n)
      ensures device !in old(counters) || n <= 0 ==> counters == old(counters)
    {
      if n <= 0 || device !in counters {
        return;
      }
      var p := counters[device];
      counters := counters[device := if dir.Up? then p.(up := p.up + n) else p.(down := p.down + n)];
    }

    /** Step 1 of flushOnce: every counter is swapped with 0. */
    method SwapOut() returns (pending: seq<PendingItem>)
      modifies this
      ensures counters == map d | d in old(counters) :: ZERO
      ensures PendingOf(old(counters), old(counters).Keys, pending)
    {
      pending := [];
      ghost var visited: set<string> := {};
      var todo := counters.Keys;
      while todo != {}
        invariant counters.Keys == old(counters).Keys && todo <= counters.Keys && visited == counters.Keys - todo
        invariant forall d | d in counters :: counters[d] == if d in todo then old(counters)[d] else ZERO
        invariant PendingOf(old(counters), visited, pending)
      {
        var d :| d in todo;
        var pair := counters[d];
        counters := counters[d := ZERO];
        if pair.up > 0 || pair.down > 0 {
          pending := pending + [PendingItem(d, pair)];
        }
        todo, visited := todo - {d}, visited + {d};
      }
      assert visited == old(counters).Keys;
    }

    /** Step 2 of flushOnce: the pipeline. */
    method Pipeline(pending: seq<PendingItem>) returns (cmds: seq<Cmd>)
      ensures cmds == Cmds(service, pending)
    {
      cmds := [];
      for i := 0 to |pending|
        invariant cmds == Cmds(service, pending[..i])
      {
        var item := pending[i];
        assert pending[..i + 1][..i] == pending[..i];
        if item.pair.up > 0 { cmds := cmds + [HIncrBy(BuildField(item.device, service, Up), item.pair.up)]; }
        if item.pair.down > 0 { cmds := cmds + [HIncrBy(BuildField(item.device, service, Down), item.pair.down)]; }
      }
      assert pending[..|pending|] == pending;
    }

    /** The rollback of flushOnce. */
    method PutBack(pending: seq<PendingItem>, ghost was: map<string, Pair>)
      requires counters == map d | d in was :: ZERO
      requires PendingOf(was, was.Keys, pending)
      modifies this
      ensures counters == was
    {
      for i := 0 to |pending|
        invariant counters.Keys == was.Keys
        invariant forall j | 0 <= j < i :: counters[pending[j].device] == pending[j].pair
        invariant forall j | i <= j < |pending| :: counters[pending[j].device] == ZERO
        invariant forall d | d in was && was[d] == ZERO :: counters[d] == ZERO
      {
        var item := pending[i];
        if item.device in counters {
          counters := counters[item.device := Plus(counters[item.device], item.pair)];
        }
      }
      forall d | d in was ensures counters[d] == was[d] {
        if was[d] != ZERO {
          var i :| 0 <= i < |pending| && pending[i] == PendingItem(d, was[d]);
          assert counters[pending[i].device] == pending[i].pair;
        }
      }
    }

    /** flushOnce. A success moves every counter into its own field; a failure leaves the counters as they were. */
    method FlushOnce(redis: Redis) returns (ok: bool)
      modifies this, redis
      ensures counters == if ok then map d | d in old(counters) :: ZERO else old(counters)
      ensures Arrives(service, old(counters), old(redis.hash), redis.hash, ok)
      ensures redis.reliable ==> ok
    {
      ghost var was := counters;
      var pending := SwapOut();
      if |pending| == 0 {
        ok := true;
        assert forall d | d in was :: was[d] == ZERO;
        return;
      }
      CmdsDistinct(service, pending);
      var cmds := Pipeline(pending);
      ok := redis.Exec(cmds);
      ExecArrives(service, was, pending, old(redis.hash), redis.hash, ok);
      if !ok {
        PutBack(pending, was);
      }
    }
  }
}
