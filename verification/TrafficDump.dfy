/** Dumping the hashes of past hours into the table (pkg/traffic/dao.go lines 27-93 and 140-158).

    Every access to Redis or to the table may fail, and one that reports a failure may have taken
    effect all the same. */
module TrafficDump {
  import opened MapSums
  import opened Strconv
  import opened TrafficFields

  /** The unique key of the table and the columns an upsert writes. */
  datatype RowId = RowId(statTime: int, key: Key)
  datatype Columns = Columns(upKb: int, downKb: int)
  type Table = map<RowId, Columns>

  function IdOf(r: TrafficHourly): RowId { RowId(r.statTime, RowKey(r)) }

  function ColumnsOf(r: TrafficHourly): Columns { Columns(r.upKb, r.downKb) }

  /** INSERT … ON DUPLICATE KEY UPDATE of all records in one statement. */
  function Upserted(rows: Table, records: seq<TrafficHourly>): Table {
    if records == [] then rows else
      var r := records[|records| - 1];
      Upserted(rows, records[..|records| - 1])[IdOf(r) := ColumnsOf(r)]
  }

  lemma {:induction false} UpsertedExact(rows: Table, records: seq<TrafficHourly>)
    requires forall i, j | 0 <= i < j < |records| :: IdOf(records[i]) != IdOf(records[j])
    ensures forall r | r in records ::
              IdOf(r) in Upserted(rows, records) && Upserted(rows, records)[IdOf(r)] == ColumnsOf(r)
    ensures forall id | (forall r | r in records :: IdOf(r) != id) ::
              (id in Upserted(rows, records) <==> id in rows)
              && (id in rows ==> Upserted(rows, records)[id] == rows[id])
  {
    if records != [] {
      var n := |records| - 1;
      UpsertedExact(rows, records[..n]);
      assert records == records[..n] + [records[n]];
      forall r | r in records[..n] ensures IdOf(r) != IdOf(records[n]) {
        var i :| 0 <= i < n && records[i] == r;
      }
    }
  }

  // -------------------------------------------------------------- what is safe

  /** The table holds the row of each key present in data. */
  ghost predicate Stored(rows: Table, statTime: int, data: Hash) {
    forall k | Present(data, k) ::
      RowId(statTime, k) in rows && rows[RowId(statTime, k)] == ColumnsOf(RowOf(data, statTime, k))
  }

  type Hashes = map<string, Hash>

  /** Which hour a key stands for, None if it does not parse. */
  type Hours = string -> Option<int>

  /** The hash of key is still there as it was, or its rows are in the table. */
  ghost predicate Safe(hours: Hours, key: string, data: Hash, hashes: Hashes, rows: Table) {
    || (key in hashes && hashes[key] == data)
    || (key !in hashes && hours(key).Some? && Stored(rows, hours(key).value, data))
  }

  /** No other of these keys stands for the hour of key. */
  ghost predicate OwnHour(hours: Hours, keys: set<string>, key: string) {
    forall k | k in keys && hours(k).Some? && hours(k) == hours(key) :: k == key
  }

  /** Only rows of this hour differ. */
  ghost predicate OnlyHour(rows: Table, rows': Table, statTime: int) {
    forall id: RowId | id.statTime != statTime ::
      (id in rows <==> id in rows') && (id in rows ==> rows'[id] == rows[id])
  }

  /** A row of the table that is not as before was computed from data. */
  ghost predicate OnlyRowsOf(rows: Table, rows': Table, statTime: int, data: Hash) {
    forall id | id in rows' :: (id in rows && rows'[id] == rows[id])
      || (id.statTime == statTime && Present(data, id.key) && rows'[id] == ColumnsOf(RowOf(data, statTime, id.key)))
  }

  /** Storing an aggregate, over whatever an earlier attempt left. */
  lemma UpsertStores(rows: Table, statTime: int, data: Hash, records: seq<TrafficHourly>)
    requires IsAggregate(data, statTime, records)
    ensures Stored(Upserted(rows, records), statTime, data)
    ensures OnlyHour(rows, Upserted(rows, records), statTime)
    ensures OnlyRowsOf(rows, Upserted(rows, records), statTime, data)
  {
    UpsertedExact(rows, records);
    var rows' := Upserted(rows, records);
    forall k | Present(data, k)
      ensures RowId(statTime, k) in rows' && rows'[RowId(statTime, k)] == ColumnsOf(RowOf(data, statTime, k))
    {
      assert IdOf(RowOf(data, statTime, k)) == RowId(statTime, k);
    }
    forall id | id in rows'
      ensures (id in rows && rows'[id] == rows[id])
           || (id.statTime == statTime && Present(data, id.key)
               && rows'[id] == ColumnsOf(RowOf(data, statTime, id.key)))
    {
      if r :| r in records && IdOf(r) == id {
        assert r == RowOf(data, statTime, RowKey(r));
      }
    }
  }

  /** From the counters to the table: once the hash of an hour is stored, the up_kb and down_kb of a device and a
      service are within half a KB of the bytes counted in the fields ending in up and in down. */
  lemma CountedBytesStored(redis: map<string, nat>, statTime: int, rows: Table, k: Key)
    requires WellNamed(redis) && forall field :: Lookup(redis, field) < INT64_LIMIT
    requires Stored(rows, statTime, Rendered(redis)) && '|' !in k.device && '|' !in k.service
    ensures var up := Lookup(redis, k.device + "|" + k.service + "|up");
            var down := Lookup(redis, k.device + "|" + k.service + "|down");
            up + down > 0 ==>
              && RowId(statTime, k) in rows
              && -512 <= up - 1024 * rows[RowId(statTime, k)].upKb < 512
              && -512 <= down - 1024 * rows[RowId(statTime, k)].downKb < 512
  {
    var data := Rendered(redis);
    assert UpField(k) == k.device + "|" + k.service + "|up" && DownField(k) == k.device + "|" + k.service + "|down";
    AmountIsCount(redis, UpField(k));
    AmountIsCount(redis, DownField(k));
    BuildParse(k.device, k.service, Up);
    BuildParse(k.device, k.service, Down);
    assert Contributes(data, UpField(k), k) <==> Lookup(redis, UpField(k)) > 0;
    assert Contributes(data, DownField(k), k) <==> Lookup(redis, DownField(k)) > 0;
    NearestKB(Lookup(redis, UpField(k)), BytesToKB(Lookup(redis, UpField(k))));
    NearestKB(Lookup(redis, DownField(k)), BytesToKB(Lookup(redis, DownField(k))));
  }

  lemma StoredElsewhere(rows: Table, rows': Table, hour: int, statTime: int, data: Hash)
    requires Stored(rows, statTime, data) && OnlyHour(rows, rows', hour) && hour != statTime
    ensures Stored(rows', statTime, data)
  {
  }

  /** If another hash of the same hour is dumped later, the rows of the first survive exactly if the two
      hashes agree on every pair they share. */
  lemma SharedHourExactly(rows: Table, statTime: int, data: Hash, other: Hash, records: seq<TrafficHourly>)
    requires Stored(rows, statTime, data) && IsAggregate(other, statTime, records)
    ensures Stored(Upserted(rows, records), statTime, data) <==>
              forall k | Present(data, k) && Present(other, k) :: RowOf(data, statTime, k) == RowOf(other, statTime, k)
  {
    UpsertStores(rows, statTime, other, records);
    var rows' := Upserted(rows, records);
    forall k | Present(data, k)
      ensures RowId(statTime, k) in rows'
      ensures rows'[RowId(statTime, k)] == ColumnsOf(RowOf(if Present(other, k) then other else data, statTime, k))
    {
      UpsertedRow(rows, statTime, other, records, k);
    }
  }

  /** A row of the other hash replaces the old one, any other row stays. */
  lemma UpsertedRow(rows: Table, statTime: int, other: Hash, records: seq<TrafficHourly>, k: Key)
    requires IsAggregate(other, statTime, records) && RowId(statTime, k) in rows
    ensures var rows' := Upserted(rows, records);
            && RowId(statTime, k) in rows'
            && rows'[RowId(statTime, k)] ==
                 if Present(other, k) then ColumnsOf(RowOf(other, statTime, k)) else rows[RowId(statTime, k)]
  {
    UpsertedExact(rows, records);
    if Present(other, k) {
      assert RowOf(other, statTime, k) in records && IdOf(RowOf(other, statTime, k)) == RowId(statTime, k);
    }
  }

  datatype Snapshot = Snapshot(hashes: Hashes, rows: Table)

  /** One of the hashes is for this hour. */
  ghost predicate HourHeld(hours: Hours, hashes: Hashes, statTime: int) {
    exists k :: k in hashes && hours(k) == Some(statTime)
  }

  ghost predicate SameRow(rows: Table, rows': Table, id: RowId) {
    (id in rows <==> id in rows') && (id in rows ==> rows'[id] == rows[id])
  }

  /** What a dump may do: hashes only disappear, each only once its rows are stored, and no row of an
      hour without a hash changes. */
  ghost predicate DumpStep(hours: Hours, s: Snapshot, s': Snapshot) {
    && (forall k | k in s'.hashes :: k in s.hashes && s'.hashes[k] == s.hashes[k])
    && (forall k | k in s.hashes && OwnHour(hours, s.hashes.Keys, k) :: Safe(hours, k, s.hashes[k], s'.hashes, s'.rows))
    && (forall id: RowId | !HourHeld(hours, s.hashes, id.statTime) :: SameRow(s.rows, s'.rows, id))
  }

  /** Every row not as before comes from one of the hashes. */
  ghost predicate RowsFrom(hours: Hours, s: Snapshot, rows': Table) {
    forall id | id in rows' ::
      || (id in s.rows && rows'[id] == s.rows[id])
      || exists k :: k in s.hashes && hours(k) == Some(id.statTime) && Present(s.hashes[k], id.key)
                     && rows'[id] == ColumnsOf(RowOf(s.hashes[k], id.statTime, id.key))
  }

  /** What one iteration may do. */
  ghost predicate KeyStep(hours: Hours, s: Snapshot, s': Snapshot, key: string) {
    && (forall k | k != key :: (k in s.hashes <==> k in s'.hashes) && (k in s.hashes ==> s'.hashes[k] == s.hashes[k]))
    && (key in s'.hashes ==> key in s.hashes && s'.hashes[key] == s.hashes[key])
    && (key in s.hashes ==> Safe(hours, key, s.hashes[key], s'.hashes, s'.rows))
    && (s'.rows == s.rows
        || (key in s.hashes && hours(key).Some?
            && OnlyHour(s.rows, s'.rows, hours(key).value)
            && OnlyRowsOf(s.rows, s'.rows, hours(key).value, s.hashes[key])))
  }

  lemma DumpMore(hours: Hours, s: Snapshot, s1: Snapshot, s2: Snapshot, key: string)
    requires DumpStep(hours, s, s1) && KeyStep(hours, s1, s2, key)
    ensures DumpStep(hours, s, s2)
  {
    forall k | k in s.hashes && OwnHour(hours, s.hashes.Keys, k)
      ensures Safe(hours, k, s.hashes[k], s2.hashes, s2.rows)
    {
      if k !in s1.hashes && s2.rows != s1.rows {
        StoredElsewhere(s1.rows, s2.rows, hours(key).value, hours(k).value, s.hashes[k]);
      }
    }
    forall id: RowId | !HourHeld(hours, s.hashes, id.statTime)
      ensures SameRow(s.rows, s2.rows, id)
    {
      assert SameRow(s.rows, s1.rows, id);
    }
  }

  lemma RowsFromMore(hours: Hours, s: Snapshot, s1: Snapshot, s2: Snapshot, key: string)
    requires DumpStep(hours, s, s1) && RowsFrom(hours, s, s1.rows) && KeyStep(hours, s1, s2, key)
    ensures RowsFrom(hours, s, s2.rows)
  {
    forall id | id in s2.rows && !(id in s1.rows && s2.rows[id] == s1.rows[id])
      ensures exists k :: k in s.hashes && hours(k) == Some(id.statTime) && Present(s.hashes[k], id.key)
                     && s2.rows[id] == ColumnsOf(RowOf(s.hashes[k], id.statTime, id.key))
    {
      assert key in s.hashes && hours(key) == Some(id.statTime);
    }
  }

  /** The rows of this key, if it is for a past hour and not gone already, are in the table. */
  ghost predicate Settled(hours: Hours, s: Snapshot, rows: Table, key: string, currentKey: string) {
    key in s.hashes && key != currentKey && hours(key).Some? ==> Stored(rows, hours(key).value, s.hashes[key])
  }

  ghost predicate AllSettled(hours: Hours, s: Snapshot, rows: Table, keys: seq<string>, currentKey: string) {
    forall k | k in keys && OwnHour(hours, s.hashes.Keys, k) :: Settled(hours, s, rows, k, currentKey)
  }

  ghost predicate AllGone(hours: Hours, keys: seq<string>, currentKey: string, hashes: Hashes) {
    forall k | k in keys && k != currentKey && hours(k).Some? :: k !in hashes
  }

  /** The rows of earlier keys survive a later iteration. */
  lemma SettledMore(hours: Hours, s: Snapshot, s1: Snapshot, s2: Snapshot, keys: seq<string>, key: string,
                    currentKey: string)
    requires DumpStep(hours, s, s1) && KeyStep(hours, s1, s2, key)
    requires AllSettled(hours, s, s1.rows, keys, currentKey) && Settled(hours, s1, s2.rows, key, currentKey)
    ensures AllSettled(hours, s, s2.rows, keys + [key], currentKey)
  {
    forall k | k in keys + [key] && OwnHour(hours, s.hashes.Keys, k) && k in s.hashes && k != currentKey
             && hours(k).Some?
      ensures Stored(s2.rows, hours(k).value, s.hashes[k])
    {
      assert k in keys ==> Settled(hours, s, s1.rows, k, currentKey);
      if k != key && s2.rows != s1.rows {
        StoredElsewhere(s1.rows, s2.rows, hours(key).value, hours(k).value, s.hashes[k]);
      }
    }
  }

  /** An iteration that stored nothing, because there was nothing to store or because it failed. */
  lemma NothingStored(hours: Hours, s: Snapshot, s': Snapshot, key: string)
    requires s'.rows == s.rows && (s'.hashes == s.hashes || s'.hashes == s.hashes - {key})
    requires s'.hashes != s.hashes ==>
               hours(key).Some? && (key in s.hashes ==> Stored(s.rows, hours(key).value, s.hashes[key]))
    ensures KeyStep(hours, s, s', key)
  {
  }

  lemma NoRecords(rows: Table, statTime: int, data: Hash, records: seq<TrafficHourly>)
    requires IsAggregate(data, statTime, records) && |records| == 0
    ensures Stored(rows, statTime, data)
  {
    assert forall k | Present(data, k) :: RowOf(data, statTime, k) in records;
  }

  /** An iteration whose upsert took effect. */
  lemma RecordsStored(hours: Hours, s: Snapshot, s': Snapshot, key: string, records: seq<TrafficHourly>)
    requires key in s.hashes && hours(key).Some? && IsAggregate(s.hashes[key], hours(key).value, records)
    requires s'.rows == Upserted(s.rows, records) && (s'.hashes == s.hashes || s'.hashes == s.hashes - {key})
    ensures KeyStep(hours, s, s', key) && Stored(s'.rows, hours(key).value, s.hashes[key])
  {
    UpsertStores(s.rows, hours(key).value, s.hashes[key], records);
  }

  /** What a dump has done after some of its keys. */
  ghost predicate Dumped(hours: Hours, s: Snapshot, s1: Snapshot, keys: seq<string>, currentKey: string, failed: bool) {
    && DumpStep(hours, s, s1) && RowsFrom(hours, s, s1.rows)
    && (currentKey in s.hashes ==> currentKey in s1.hashes)
    && (!failed ==> AllSettled(hours, s, s1.rows, keys, currentKey))
  }

  lemma DumpedMore(hours: Hours, s: Snapshot, s1: Snapshot, s2: Snapshot, keys: seq<string>, key: string,
                   currentKey: string, failed: bool, keyFailed: bool)
    requires Dumped(hours, s, s1, keys, currentKey, failed) && KeyStep(hours, s1, s2, key)
    requires key == currentKey ==> s2 == s1
    requires !keyFailed ==> Settled(hours, s1, s2.rows, key, currentKey)
    ensures Dumped(hours, s, s2, keys + [key], currentKey, failed || keyFailed)
  {
    DumpMore(hours, s, s1, s2, key);
    RowsFromMore(hours, s, s1, s2, key);
    if !failed && !keyFailed { SettledMore(hours, s, s1, s2, keys, key, currentKey); }
  }

  lemma GoneMore(hours: Hours, keys: seq<string>, key: string, currentKey: string, hashes: Hashes, hashes': Hashes)
    requires AllGone(hours, keys, currentKey, hashes) && forall k | k in hashes' :: k in hashes
    requires key != currentKey && hours(key).Some? ==> key !in hashes'
    ensures AllGone(hours, keys + [key], currentKey, hashes')
  {
  }

  lemma Sliced(keys: seq<string>, i: nat)
    requires i < |keys|
    ensures keys[..i + 1] == keys[..i] + [keys[i]]
  {
  }

  class Store {
    const hours: Hours
    const reliable: bool  // no access fails
    var hashes: Hashes
    var rows: Table

    constructor (hours: Hours, hashes: Hashes, rows: Table, reliable: bool)
      ensures this.hours == hours && Now() == Snapshot(hashes, rows) && this.reliable == reliable
    {
      this.hours, this.hashes, this.rows, this.reliable := hours, hashes, rows, reliable;
    }

    ghost function Now(): Snapshot
      reads this
    {
      Snapshot(hashes, rows)
    }

    /** An absent key reads as an empty hash. */
    method HGetAll(key: string) returns (ok: bool, data: Hash)
      ensures ok ==> data == if key in hashes then hashes[key] else map[]
      ensures reliable ==> ok
    {
      ok := *;
      ok := ok || reliable;
      data := if ok && key in hashes then hashes[key] else map[];
    }

    method Del(key: string) returns (ok: bool)
      modifies this`hashes
      ensures hashes == old(hashes) - {key} || (!ok && hashes == old(hashes))
      ensures reliable ==> ok
    {
      ok := *;
      ok := ok || reliable;
      var done := *;
      if ok || done { hashes := hashes - {key}; }
    }

    method UpsertBatch(records: seq<TrafficHourly>) returns (ok: bool)
      modifies this`rows
      ensures rows == Upserted(old(rows), records) || (!ok && rows == old(rows))
      ensures reliable ==> ok
    {
      ok := *;
      ok := ok || reliable;
      var done := *;
      if ok || done { rows := Upserted(rows, records); }
    }

    /** One iteration of dumpPending. */
    method DumpKey(key: string, currentKey: string) returns (failed: bool)
      modifies this
      ensures KeyStep(hours, old(Now()), Now(), key)
      ensures key == currentKey ==> Now() == old(Now())
      ensures !failed ==> Settled(hours, old(Now()), rows, key, currentKey)
      ensures reliable ==> !failed && (key != currentKey && hours(key).Some? ==> key !in hashes)
    {
      if key == currentKey {
        return false;
      }
      var statTime := hours(key);
      if statTime.None? {
        return false;
      }
      var ok, data := HGetAll(key);
      if !ok {
        return true;
      }
      if |data| == 0 {
        ok := Del(key);
        NothingStored(hours, old(Now()), Now(), key);
        return false;
      }
      var records := AggregateHashToRecords(data, statTime.value);
      if |records| == 0 {
        NoRecords(rows, statTime.value, data, records);
        ok := Del(key);
        NothingStored(hours, old(Now()), Now(), key);
        return false;
      }
      failed := DumpRecords(key, records);
    }

    /** Lines 72-83: upsert, then delete. */
    method DumpRecords(key: string, records: seq<TrafficHourly>) returns (failed: bool)
      requires key in hashes && hours(key).Some? && IsAggregate(hashes[key], hours(key).value, records)
      modifies this
      ensures KeyStep(hours, old(Now()), Now(), key)
      ensures !failed ==> Stored(rows, hours(key).value, old(hashes)[key])
      ensures reliable ==> !failed && key !in hashes
    {
      var ok := UpsertBatch(records);
      if !ok {
        if rows == old(rows) {
          NothingStored(hours, old(Now()), Now(), key);
        } else {
          RecordsStored(hours, old(Now()), Now(), key, records);
        }
        return true;
      }
      ok := Del(key);
      RecordsStored(hours, old(Now()), Now(), key, records);
      return false;
    }

    /** dumpPending, for what the scan returned: possibly keys twice, possibly keys gone since, None if it failed. */
    method DumpPending(scanned: Option<seq<string>>, currentKey: string) returns (ok: bool)
      modifies this
      ensures DumpStep(hours, old(Now()), Now()) && RowsFrom(hours, old(Now()), rows)
      ensures currentKey in old(hashes) ==> currentKey in hashes
      ensures ok ==> scanned.Some? && AllSettled(hours, old(Now()), rows, scanned.value, currentKey)
      ensures reliable && scanned.Some? ==> ok && AllGone(hours, scanned.value, currentKey, hashes)
    {
      if scanned.None? {
        return false;
      }
      var keys := scanned.value;
      var failed := 0;
      ghost var s := Now();
      for i := 0 to |keys|
        invariant 0 <= failed && Dumped(hours, s, Now(), keys[..i], currentKey, failed > 0)
        invariant reliable ==> failed == 0 && AllGone(hours, keys[..i], currentKey, hashes)
      {
        Sliced(keys, i);
        var keyFailed := DumpNext(keys[i], currentKey, s, keys[..i], failed > 0);
        if keyFailed { failed := failed + 1; }
      }
      assert keys[..|keys|] == keys;
      return failed == 0;
    }

    /** One iteration, after the keys done, of a dump that began in state s. */
    method DumpNext(key: string, currentKey: string, ghost s: Snapshot, ghost done: seq<string>, ghost failed: bool)
      returns (keyFailed: bool)
      requires Dumped(hours, s, Now(), done, currentKey, failed)
      requires reliable ==> AllGone(hours, done, currentKey, hashes)
      modifies this
      ensures Dumped(hours, s, Now(), done + [key], currentKey, failed || keyFailed)
      ensures reliable ==> !keyFailed && AllGone(hours, done + [key], currentKey, hashes)
    {
      ghost var s1 := Now();
      keyFailed := DumpKey(key, currentKey);
      DumpedMore(hours, s, s1, Now(), done, key, currentKey, failed, keyFailed);
      if reliable { GoneMore(hours, done, key, currentKey, s1.hashes, hashes); }
    }
  }

  // ---------------------------------------------------------------- over time

  /** Flushes write no row, and other hashes than that of key; they may create hashes. */
  ghost predicate FlushElsewhere(s: Snapshot, s': Snapshot, key: string) {
    && s'.rows == s.rows
    && (key in s.hashes <==> key in s'.hashes)
    && (key in s.hashes ==> s'.hashes[key] == s.hashes[key])
  }

  ghost predicate IsRun(hours: Hours, key: string, trace: seq<Snapshot>) {
    forall i | 0 <= i < |trace| - 1 ::
      || DumpStep(hours, trace[i], trace[i + 1])
      || FlushElsewhere(trace[i], trace[i + 1], key)
  }

  /** Once the hash of an hour is no longer written, it is at every later point still there as it was,
      or its rows are in the table, whatever dumps run and fail; provided no other key reads as the same hour. */
  lemma {:induction false} NoHourLost(hours: Hours, key: string, trace: seq<Snapshot>, i: nat)
    requires IsRun(hours, key, trace) && i < |trace| && key in trace[0].hashes
    requires forall j | 0 <= j < |trace| :: OwnHour(hours, trace[j].hashes.Keys, key)
    ensures Safe(hours, key, trace[0].hashes[key], trace[i].hashes, trace[i].rows)
  {
    if i > 0 {
      NoHourLost(hours, key, trace, i - 1);
      var s, s' := trace[i - 1], trace[i];
      assert DumpStep(hours, s, trace[i - 1 + 1]) || FlushElsewhere(s, trace[i - 1 + 1], key);
      if DumpStep(hours, s, s') && key !in s.hashes {
        var data, hour := trace[0].hashes[key], hours(key).value;
        assert !HourHeld(hours, s.hashes, hour);
        forall k | Present(data, k)
          ensures RowId(hour, k) in s'.rows && s'.rows[RowId(hour, k)] == ColumnsOf(RowOf(data, hour, k))
        {
          assert SameRow(s.rows, s'.rows, RowId(hour, k));
        }
      }
    }
  }
}
