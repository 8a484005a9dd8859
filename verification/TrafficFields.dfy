/** From Redis hash fields to table rows (pkg/traffic/tracker.go lines 154-160, store.go lines 43-49,
    dao.go lines 99-138 and 160-165). */
module TrafficFields {
  import opened MapSums
  import opened Strconv

  datatype Direction = Up | Down

  /** The three parts of a hash field; the last one may be anything. */
  datatype Parts = Parts(device: string, service: string, dir: string)

  function DirName(dir: Direction): string { if dir.Up? then "up" else "down" }

  function Join(p: Parts): string { p.device + "|" + p.service + "|" + p.dir }

  function BuildField(device: string, service: string, dir: Direction): string {
    Join(Parts(device, service, DirName(dir)))
  }

  /** The position of the first separator, |s| if there is none. */
  function Bar(s: string): (i: nat)
    ensures i <= |s| && '|' !in s[..i]
    ensures i < |s| ==> s[i] == '|'
  {
    if s == "" || s[0] == '|' then 0 else
      assert s[..1 + Bar(s[1..])] == [s[0]] + s[1..][..Bar(s[1..])];
      1 + Bar(s[1..])
  }

  /** strings.SplitN(field, "|", 3), which leaves further separators in the third part. */
  function ParseField(field: string): Option<Parts> {
    var i := Bar(field);
    if i == |field| then None else
      var rest := field[i + 1..];
      var j := Bar(rest);
      if j == |rest| then None else Some(Parts(field[..i], rest[..j], rest[j + 1..]))
  }

  lemma {:induction false} BarIs(s: string, i: nat)
    requires i < |s| && s[i] == '|' && '|' !in s[..i]
    ensures Bar(s) == i
  {
    if i > 0 {
      assert s[0] in s[..i];
      forall c | c in s[1..][..i - 1] ensures c in s[..i] {
        var k :| 0 <= k < i - 1 && s[1..][k] == c;
        assert s[..i][k + 1] == c;
      }
      BarIs(s[1..], i - 1);
    }
  }

  lemma BarOfJoin(s: string, t: string)
    requires '|' !in s
    ensures var u := s + "|" + t; Bar(u) == |s| && u[..|s|] == s && u[|s| + 1..] == t
  {
    var u := s + "|" + t;
    assert u[..|s|] == s;
    BarIs(u, |s|);
  }

  lemma SplitAt(s: string, i: nat)
    requires i < |s| && s[i] == '|'
    ensures s == s[..i] + "|" + s[i + 1..]
  {
    assert s[i..] == "|" + s[i + 1..];
    assert s == s[..i] + s[i..];
    assert s[..i] + ("|" + s[i + 1..]) == s[..i] + "|" + s[i + 1..];
  }

  lemma Reassociate(a: string, b: string, c: string)
    ensures a + "|" + (b + "|" + c) == a + "|" + b + "|" + c
  {
  }

  lemma ParseOfJoin(p: Parts)
    requires '|' !in p.device && '|' !in p.service
    ensures ParseField(Join(p)) == Some(p)
  {
    Reassociate(p.device, p.service, p.dir);
    BarOfJoin(p.device, p.service + "|" + p.dir);
    BarOfJoin(p.service, p.dir);
  }

  lemma JoinOfParse(field: string)
    requires ParseField(field).Some?
    ensures var p := ParseField(field).value; field == Join(p) && '|' !in p.device && '|' !in p.service
  {
    var p := ParseField(field).value;
    var rest := field[Bar(field) + 1..];
    SplitAt(field, Bar(field));
    SplitAt(rest, Bar(rest));
    Reassociate(p.device, p.service, p.dir);
  }

  /** parseField finds exactly the parts that join to the field with no separator in the first two. */
  lemma ParseExact(field: string, p: Parts)
    ensures ParseField(field) == Some(p) <==> field == Join(p) && '|' !in p.device && '|' !in p.service
  {
    if '|' !in p.device && '|' !in p.service { ParseOfJoin(p); }
    if ParseField(field).Some? { JoinOfParse(field); }
  }

  /** parseField inverts buildField for exactly the names without a separator. */
  lemma BuildParse(device: string, service: string, dir: Direction)
    ensures ParseField(BuildField(device, service, dir)) == Some(Parts(device, service, DirName(dir)))
            <==> '|' !in device && '|' !in service
  {
    ParseExact(BuildField(device, service, dir), Parts(device, service, DirName(dir)));
  }

  /** Within one service, and so within one tracker, no two counters share a field whatever the device names are. */
  lemma CountersHaveOwnFields(d: string, d': string, service: string, dir: Direction, dir': Direction)
    requires BuildField(d, service, dir) == BuildField(d', service, dir')
    ensures d == d' && dir == dir'
  {
    var f, f' := BuildField(d, service, dir), BuildField(d', service, dir');
    assert f[|f| - 1] == (if dir.Up? then 'p' else 'n');
    assert f'[|f'| - 1] == (if dir'.Up? then 'p' else 'n');
    assert d == f[..|f| - |service| - 2 - |DirName(dir)|];
    assert d' == f'[..|f'| - |service| - 2 - |DirName(dir')|];
  }

  // -------------------------------------------------------------- rounding

  function BytesToKB(bytes: int): int { if bytes <= 0 then 0 else (bytes + 512) / 1024 }

  /** The nearest number of KB, a half rounded up; nothing else is within half a KB. */
  lemma NearestKB(bytes: nat, kb: int)
    ensures kb == BytesToKB(bytes) <==> -512 <= bytes - 1024 * kb < 512
  {
  }

  // ------------------------------------------------------------ aggregation

  datatype Key = Key(device: string, service: string)

  datatype Sums = Sums(up: int, down: int)

  datatype TrafficHourly = TrafficHourly(statTime: int, device: string, service: string, upKb: int, downKb: int)

  type Hash = map<string, string>

  /** The count a hash value stands for; anything that is not a positive int64 is skipped. */
  function Count(val: string): (n: nat) {
    match ParseInt64(val)
    case Some(n) => if n > 0 then n else 0
    case None => 0
  }

  function Amount(data: Hash, field: string): nat { if field in data then Count(data[field]) else 0 }

  function UpField(k: Key): string { BuildField(k.device, k.service, Up) }

  function DownField(k: Key): string { BuildField(k.device, k.service, Down) }

  function KeyOf(field: string): Option<Key> {
    match ParseField(field)
    case Some(p) => Some(Key(p.device, p.service))
    case None => None
  }

  ghost predicate Contributes(data: Hash, field: string, k: Key) {
    field in data && KeyOf(field) == Some(k) && Count(data[field]) > 0
  }

  /** Some field with a positive count belongs to k, be it up, down or neither. */
  ghost predicate Present(data: Hash, k: Key) { exists field :: Contributes(data, field, k) }

  function RowOf(data: Hash, statTime: int, k: Key): TrafficHourly {
    TrafficHourly(statTime, k.device, k.service, BytesToKB(Amount(data, UpField(k))),
                  BytesToKB(Amount(data, DownField(k))))
  }

  function RowKey(r: TrafficHourly): Key { Key(r.device, r.service) }

  /** One row for each key present, holding the rounded counts of its two fields. */
  ghost predicate IsAggregate(data: Hash, statTime: int, records: seq<TrafficHourly>) {
    && (forall r | r in records :: Present(data, RowKey(r)) && r == RowOf(data, statTime, RowKey(r)))
    && (forall k | Present(data, k) :: RowOf(data, statTime, k) in records)
    && (forall i, j | 0 <= i < j < |records| :: RowKey(records[i]) != RowKey(records[j]))
  }

  /** What the fields u and d contribute once the fields in done have been visited. */
  predicate HasSums(data: Hash, done: set<string>, v: Sums, u: string, d: string) {
    v == Sums(if u in done then Amount(data, u) else 0, if d in done then Amount(data, d) else 0)
  }

  /** agg is the accumulator once the fields in done have been visited. */
  ghost predicate Accumulated(data: Hash, done: set<string>, agg: map<Key, Sums>) {
    && (forall k | k in agg :: exists field :: field in done && Contributes(data, field, k))
    && (forall k, field | field in done && Contributes(data, field, k) :: k in agg)
    && (forall k | k in agg :: HasSums(data, done, agg[k], UpField(k), DownField(k)))
  }

  /** Which field feeds which sum. */
  lemma FieldsOfKey(field: string, p: Parts)
    requires ParseField(field) == Some(p)
    ensures var k := Key(p.device, p.service);
            (field == UpField(k) <==> p.dir == "up") && (field == DownField(k) <==> p.dir == "down")
  {
    var k := Key(p.device, p.service);
    ParseExact(field, p);
    var n := |p.device| + |p.service| + 2;
    assert field[n..] == p.dir && UpField(k)[n..] == "up" && DownField(k)[n..] == "down";
  }

  /** A key some field belongs to is the key of both its own fields. */
  lemma OwnFields(field: string, k: Key)
    requires KeyOf(field) == Some(k)
    ensures KeyOf(UpField(k)) == Some(k) && KeyOf(DownField(k)) == Some(k)
  {
    ParseExact(field, ParseField(field).value);
    BuildParse(k.device, k.service, Up);
    BuildParse(k.device, k.service, Down);
  }

  /** The switch on the direction. */
  function Bump(v: Sums, dir: string, n: int): Sums {
    if dir == "up" then v.(up := v.up + n) else if dir == "down" then v.(down := v.down + n) else v
  }

  function SumsOf(agg: map<Key, Sums>, k: Key): Sums { if k in agg then agg[k] else Sums(0, 0) }

  lemma OtherField(data: Hash, done: set<string>, v: Sums, u: string, d: string, field: string)
    requires HasSums(data, done, v, u, d) && field !in done
    requires Amount(data, field) == 0 || (field != u && field != d)
    ensures HasSums(data, done + {field}, v, u, d)
  {
  }

  lemma BumpSums(data: Hash, done: set<string>, v: Sums, u: string, d: string, field: string, dir: string)
    requires HasSums(data, done, v, u, d) && field !in done && (field == u <==> dir == "up")
             && (field == d <==> dir == "down")
    ensures HasSums(data, done + {field}, Bump(v, dir, Amount(data, field)), u, d)
  {
  }

  lemma KeysSoFar(data: Hash, done: set<string>, agg: map<Key, Sums>, k: Key)
    requires Accumulated(data, done, agg) && k in agg
    ensures KeyOf(UpField(k)) == Some(k) && KeyOf(DownField(k)) == Some(k)
  {
    var f :| f in done && Contributes(data, f, k);
    OwnFields(f, k);
  }

  lemma SkipField(data: Hash, done: set<string>, agg: map<Key, Sums>, field: string)
    requires Accumulated(data, done, agg) && field in data && field !in done
    requires ParseField(field).None? || Count(data[field]) == 0
    ensures Accumulated(data, done + {field}, agg)
  {
    forall k | k in agg
      ensures HasSums(data, done + {field}, agg[k], UpField(k), DownField(k))
    {
      KeysSoFar(data, done, agg, k);
      OtherField(data, done, agg[k], UpField(k), DownField(k), field);
    }
  }

  /** Before the first field of a key, its sums are zero. */
  lemma SumsSoFar(data: Hash, done: set<string>, agg: map<Key, Sums>, k: Key)
    requires Accumulated(data, done, agg) && KeyOf(UpField(k)) == Some(k) && KeyOf(DownField(k)) == Some(k)
    ensures HasSums(data, done, SumsOf(agg, k), UpField(k), DownField(k))
  {
    if k !in agg {
      assert !Contributes(data, UpField(k), k) || UpField(k) !in done;
      assert !Contributes(data, DownField(k), k) || DownField(k) !in done;
    }
  }

  lemma AddField(data: Hash, done: set<string>, agg: map<Key, Sums>, field: string, p: Parts)
    requires Accumulated(data, done, agg) && field in data && field !in done
    requires ParseField(field) == Some(p) && Count(data[field]) > 0
    ensures var k := Key(p.device, p.service);
            Accumulated(data, done + {field}, agg[k := Bump(SumsOf(agg, k), p.dir, Count(data[field]))])
  {
    var k := Key(p.device, p.service);
    var agg' := agg[k := Bump(SumsOf(agg, k), p.dir, Count(data[field]))];
    assert Contributes(data, field, k);
    forall j | j in agg'
      ensures HasSums(data, done + {field}, agg'[j], UpField(j), DownField(j))
    {
      if j == k {
        OwnFields(field, k);
        SumsSoFar(data, done, agg, k);
        FieldsOfKey(field, p);
        BumpSums(data, done, SumsOf(agg, k), UpField(k), DownField(k), field, p.dir);
      } else {
        KeysSoFar(data, done, agg, j);
        OtherField(data, done, agg[j], UpField(j), DownField(j), field);
      }
    }
    forall j | j in agg'
      ensures exists f :: f in done + {field} && Contributes(data, f, j)
    {
      if j != k { var f :| f in done && Contributes(data, f, j); assert f in done + {field}; }
    }
  }

  /** The first loop of aggregateHashToRecords, with the map visited in any order. */
  method Accumulate(data: Hash) returns (agg: map<Key, Sums>)
    ensures Accumulated(data, data.Keys, agg)
  {
    agg := map[];
    var todo := data.Keys;
    ghost var done: set<string> := {};
    while todo != {}
      invariant todo <= data.Keys && done == data.Keys - todo
      invariant Accumulated(data, done, agg)
    {
      var field :| field in todo;
      ghost var before := done;
      todo, done := todo - {field}, done + {field};
      var parts := ParseField(field);
      if parts.None? {
        SkipField(data, before, agg, field);
        continue;
      }
      var bytes := ParseInt64(data[field]);
      if bytes.None? || bytes.value <= 0 {
        SkipField(data, before, agg, field);
        continue;
      }
      AddField(data, before, agg, field, parts.value);
      var k := Key(parts.value.device, parts.value.service);
      agg := agg[k := Bump(SumsOf(agg, k), parts.value.dir, bytes.value)];
    }
    assert done == data.Keys;
  }

  function Row(statTime: int, k: Key, v: Sums): TrafficHourly {
    TrafficHourly(statTime, k.device, k.service, BytesToKB(v.up), BytesToKB(v.down))
  }

  /** records has exactly one row for each of the keys visited. */
  ghost predicate Collected(agg: map<Key, Sums>, statTime: int, visited: set<Key>, records: seq<TrafficHourly>)
    requires visited <= agg.Keys
  {
    && (forall r | r in records :: RowKey(r) in visited && r == Row(statTime, RowKey(r), agg[RowKey(r)]))
    && (forall k | k in visited :: Row(statTime, k, agg[k]) in records)
    && (forall i, j | 0 <= i < j < |records| :: RowKey(records[i]) != RowKey(records[j]))
  }

  lemma CollectMore(agg: map<Key, Sums>, statTime: int, visited: set<Key>, records: seq<TrafficHourly>, k: Key)
    requires k in agg && visited <= agg.Keys && Collected(agg, statTime, visited, records) && k !in visited
    ensures Collected(agg, statTime, visited + {k}, records + [Row(statTime, k, agg[k])])
  {
    var row := Row(statTime, k, agg[k]);
    forall i | 0 <= i < |records| ensures RowKey(records[i]) != k { assert records[i] in records; }
    assert (records + [row])[|records|] == row;
  }

  /** The second loop. */
  method Collect(agg: map<Key, Sums>, statTime: int) returns (records: seq<TrafficHourly>)
    ensures Collected(agg, statTime, agg.Keys, records)
  {
    records := [];
    var keys := agg.Keys;
    ghost var visited: set<Key> := {};
    while keys != {}
      invariant keys <= agg.Keys && visited == agg.Keys - keys
      invariant Collected(agg, statTime, visited, records)
    {
      var k :| k in keys;
      CollectMore(agg, statTime, visited, records, k);
      keys, visited := keys - {k}, visited + {k};
      records := records + [Row(statTime, k, agg[k])];
    }
    assert visited == agg.Keys;
  }

  lemma CollectedIsAggregate(data: Hash, statTime: int, agg: map<Key, Sums>, records: seq<TrafficHourly>)
    requires Accumulated(data, data.Keys, agg) && Collected(agg, statTime, agg.Keys, records)
    ensures IsAggregate(data, statTime, records)
  {
    forall k | k in agg ensures Present(data, k) && RowOf(data, statTime, k) == Row(statTime, k, agg[k]) {
      assert HasSums(data, data.Keys, agg[k], UpField(k), DownField(k));
    }
  }

  /** aggregateHashToRecords. */
  method AggregateHashToRecords(data: Hash, statTime: int) returns (records: seq<TrafficHourly>)
    ensures IsAggregate(data, statTime, records)
  {
    var agg := Accumulate(data);
    records := Collect(agg, statTime);
    CollectedIsAggregate(data, statTime, agg, records);
  }

  /** The rows do not depend on the order in which the maps are visited. */
  lemma AggregateUnique(data: Hash, statTime: int, a: seq<TrafficHourly>, b: seq<TrafficHourly>)
    requires IsAggregate(data, statTime, a) && IsAggregate(data, statTime, b)
    ensures forall r :: r in a <==> r in b
    ensures |a| == |b|
  {
    assert KeySet(a) == KeySet(b);
    CountKeys(a);
    CountKeys(b);
  }

  ghost function KeySet(a: seq<TrafficHourly>): set<Key> { set r | r in a :: RowKey(r) }

  lemma KeySetSnoc(a: seq<TrafficHourly>, r: TrafficHourly)
    ensures KeySet(a + [r]) == KeySet(a) + {RowKey(r)}
  {
    forall k ensures k in KeySet(a + [r]) <==> k in KeySet(a) + {RowKey(r)} {
      if k in KeySet(a) {
        var x :| x in a && RowKey(x) == k;
        assert x in a + [r];
      }
      assert r in a + [r];
    }
  }

  lemma {:induction false} CountKeys(a: seq<TrafficHourly>)
    requires forall i, j | 0 <= i < j < |a| :: RowKey(a[i]) != RowKey(a[j])
    ensures |KeySet(a)| == |a|
  {
    if a != [] {
      var b := a[..|a| - 1];
      var last := a[|a| - 1];
      CountKeys(b);
      assert a == b + [last];
      KeySetSnoc(b, last);
      assert RowKey(last) !in KeySet(b);
    }
  }

  // ------------------------------------------------- from counters to rows

  /** A number as HGETALL returns it. */
  function Decimal(n: nat): (s: string)
    ensures s != "" && forall c | c in s :: IsDigit(c)
  {
    if n < 10 then [DigitChar(n)] else Decimal(n / 10) + [DigitChar(n % 10)]
  }

  lemma {:induction false} ValueOfDecimal(n: nat)
    ensures Value(Decimal(n)) == n
  {
    var s := Decimal(n);
    if n < 10 {
      assert s[..|s| - 1] == "";
    } else {
      ValueOfDecimal(n / 10);
      assert s[..|s| - 1] == Decimal(n / 10);
    }
  }

  lemma CountOfDecimal(n: nat)
    requires n < INT64_LIMIT
    ensures Count(Decimal(n)) == n
  {
    ValueOfDecimal(n);
    assert Decimal(n)[0] in Decimal(n);
  }

  /** The hash the trackers have built up, as HGETALL returns it. */
  function Rendered(redis: map<string, nat>): Hash { map field | field in redis :: Decimal(redis[field]) }

  /** Every field was built by a tracker, from names without a separator. */
  ghost predicate WellNamed(redis: map<string, nat>) {
    forall field | field in redis :: exists k: Key, dir ::
      '|' !in k.device && '|' !in k.service && field == BuildField(k.device, k.service, dir)
  }

  lemma CountedInTheirField(redis: map<string, nat>, field: string, k: Key)
    requires WellNamed(redis) && field in redis && KeyOf(field) == Some(k)
    ensures field == UpField(k) || field == DownField(k)
  {
    var j: Key, dir :| '|' !in j.device && '|' !in j.service && field == BuildField(j.device, j.service, dir);
    BuildParse(j.device, j.service, dir);
  }

  lemma AmountIsCount(redis: map<string, nat>, field: string)
    requires Lookup(redis, field) < INT64_LIMIT
    ensures Amount(Rendered(redis), field) == Lookup(redis, field)
  {
    if field in redis { CountOfDecimal(redis[field]); }
  }

  /** What the trackers counted for a device and a service ends up in one row, rounded to KB;
      a pair with nothing counted has no row. */
  lemma RowsAreTotals(redis: map<string, nat>, statTime: int, records: seq<TrafficHourly>, k: Key)
    requires WellNamed(redis) && forall field :: Lookup(redis, field) < INT64_LIMIT
    requires IsAggregate(Rendered(redis), statTime, records) && '|' !in k.device && '|' !in k.service
    ensures var up, down := Lookup(redis, UpField(k)), Lookup(redis, DownField(k));
            if up + down > 0
            then TrafficHourly(statTime, k.device, k.service, BytesToKB(up), BytesToKB(down)) in records
            else forall r | r in records :: RowKey(r) != k
  {
    var data := Rendered(redis);
    AmountIsCount(redis, UpField(k));
    AmountIsCount(redis, DownField(k));
    BuildParse(k.device, k.service, Up);
    BuildParse(k.device, k.service, Down);
    assert Contributes(data, UpField(k), k) <==> Lookup(redis, UpField(k)) > 0;
    assert Contributes(data, DownField(k), k) <==> Lookup(redis, DownField(k)) > 0;
    if Present(data, k) {
      var field :| Contributes(data, field, k);
      CountedInTheirField(redis, field, k);
    }
  }
}
