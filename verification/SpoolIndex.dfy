/** The index of the disk-level fallback queue and what it says about a directory: how file operations
    change it, how a scan rebuilds it, and what a crash leaves of it (pkg/scheduler/submit_spool.go). */
module SpoolIndex {
  import opened SpoolNames
  import opened Strconv
  import opened SpoolDisk

  /** An index entry: task number, file name and size. */
  datatype SpoolFile = SpoolFile(no: int, path: string, size: nat)

  /** What a file holds: its number and its bytes. */
  datatype Record = Record(no: int, data: Bytes)

  // ------------------------------------------------------- index and contents

  /** f describes a file of d that reload would pick up. */
  ghost predicate Listed(names: Names, f: SpoolFile, d: Files) {
    f.path in d && names.numberOf(f.path) == Some(f.no) && f.size == |d[f.path]|
  }

  ghost predicate DistinctPaths(idx: seq<SpoolFile>) {
    forall i, j {:trigger idx[i].path, idx[j].path} | 0 <= i < j < |idx| :: idx[i].path != idx[j].path
  }

  ghost predicate Ascending(idx: seq<SpoolFile>) {
    forall i, j {:trigger idx[i].no, idx[j].no} | 0 <= i < j < |idx| :: idx[i].no <= idx[j].no
  }

  /** Every file of d that reload would pick up is in idx. */
  ghost predicate Complete(names: Names, idx: seq<SpoolFile>, d: Files) {
    forall name {:trigger names.numberOf(name)} | name in d && names.numberOf(name).Some? ::
      exists i {:trigger idx[i].path} :: 0 <= i < |idx| && idx[i].path == name
  }

  /** idx lists exactly the files of d that reload would pick up, in ascending order of their numbers. */
  ghost predicate IsIndex(names: Names, idx: seq<SpoolFile>, d: Files) {
    && (forall i {:trigger Listed(names, idx[i], d)} | 0 <= i < |idx| :: Listed(names, idx[i], d))
    && Complete(names, idx, d) && DistinctPaths(idx) && Ascending(idx)
  }

  ghost predicate Below(idx: seq<SpoolFile>, no: int) {
    forall i {:trigger idx[i].no} | 0 <= i < |idx| :: idx[i].no < no
  }

  ghost predicate Strict(idx: seq<SpoolFile>) {
    forall i, j {:trigger idx[i].no, idx[j].no} | 0 <= i < j < |idx| :: idx[i].no < idx[j].no
  }

  ghost predicate Reads(d: Files, idx: seq<SpoolFile>, recs: seq<Record>) {
    && |recs| == |idx|
    && forall i {:trigger recs[i]} {:trigger idx[i].path} | 0 <= i < |idx| ::
         idx[i].path in d && recs[i] == Record(idx[i].no, d[idx[i].path])
  }

  /** idx is an index of d and recs are the records it lists, oldest first. */
  ghost predicate Holds(names: Names, d: Files, idx: seq<SpoolFile>, recs: seq<Record>) {
    IsIndex(names, idx, d) && Reads(d, idx, recs)
  }

  function Total(idx: seq<SpoolFile>): nat {
    if idx == [] then 0 else Total(idx[..|idx| - 1]) + idx[|idx| - 1].size
  }

  lemma {:induction false} TotalOfTail(idx: seq<SpoolFile>)
    requires idx != []
    ensures Total(idx) == idx[0].size + Total(idx[1..])
  {
    if |idx| > 1 {
      TotalOfTail(idx[..|idx| - 1]);
      assert idx[..|idx| - 1][1..] == idx[1..][..|idx| - 2];
    }
  }

  /** The number of oldest files to delete so that size more bytes fit. */
  function Evictions(idx: seq<SpoolFile>, size: nat, max: int): (k: nat)
    ensures k <= |idx|
  {
    if Total(idx) + size <= max || idx == [] then 0 else 1 + Evictions(idx[1..], size, max)
  }

  /** Evictions is the shortest prefix whose deletion makes room, and there is one if size fits at all. */
  lemma {:induction false} EvictionsLeast(idx: seq<SpoolFile>, size: nat, max: int)
    ensures size <= max ==> Total(idx[Evictions(idx, size, max)..]) + size <= max
    ensures forall k | 0 <= k < Evictions(idx, size, max) :: Total(idx[k..]) + size > max
  {
    if Total(idx) + size <= max || idx == [] {
      assert idx[0..] == idx;
    } else {
      EvictionsLeast(idx[1..], size, max);
      forall k | 0 <= k < Evictions(idx, size, max)
        ensures Total(idx[k..]) + size > max
      {
        if k == 0 { assert idx[0..] == idx; } else { assert idx[k..] == idx[1..][k - 1..]; }
      }
      assert idx[Evictions(idx, size, max)..] == idx[1..][Evictions(idx[1..], size, max)..];
    }
  }

  lemma EvictMore(idx: seq<SpoolFile>, k: nat, size: nat, max: int)
    requires k <= |idx| && Evictions(idx, size, max) == k + Evictions(idx[k..], size, max)
    requires Total(idx[k..]) + size > max && k < |idx|
    ensures Evictions(idx, size, max) == k + 1 + Evictions(idx[k + 1..], size, max)
  {
    assert idx[k..][1..] == idx[k + 1..];
  }

  // ------------------------------------------------ how file operations change it

  lemma HoldsIgnores(names: Names, d: Files, d': Files, idx: seq<SpoolFile>, recs: seq<Record>, name: string)
    requires Holds(names, d, idx, recs) && names.numberOf(name).None? && d - {name} == d' - {name}
    ensures Holds(names, d', idx, recs)
  {
    forall n | n != name
      ensures (n in d <==> n in d') && (n in d ==> d[n] == d'[n])
    {
      assert n in d - {name} <==> n in d' - {name};
      assert n in d ==> (d - {name})[n] == (d' - {name})[n];
    }
    forall i | 0 <= i < |idx|
      ensures Listed(names, idx[i], d') && d'[idx[i].path] == d[idx[i].path]
    {
      assert Listed(names, idx[i], d);
    }
  }

  /** s with its element number i taken out. */
  function Without<T>(s: seq<T>, i: nat): (r: seq<T>)
    requires i < |s|
    ensures |r| == |s| - 1 && forall j | 0 <= j < |r| :: r[j] == if j < i then s[j] else s[j + 1]
  {
    s[..i] + s[i + 1..]
  }

  lemma CompleteWithout(names: Names, d: Files, idx: seq<SpoolFile>, i: nat)
    requires Complete(names, idx, d) && i < |idx|
    ensures Complete(names, Without(idx, i), d - {idx[i].path})
  {
    var rest := Without(idx, i);
    forall name | name in d - {idx[i].path} && names.numberOf(name).Some?
      ensures exists j :: 0 <= j < |rest| && rest[j].path == name
    {
      var j :| 0 <= j < |idx| && idx[j].path == name;
      assert rest[if j < i then j else j - 1].path == name;
    }
  }

  /** Where the j-th element of Without(s, i) comes from. */
  function Origin(i: nat, j: nat): nat { if j < i then j else j + 1 }

  lemma OrderWithout(idx: seq<SpoolFile>, i: nat)
    requires i < |idx| && DistinctPaths(idx) && Ascending(idx)
    ensures DistinctPaths(Without(idx, i)) && Ascending(Without(idx, i))
  {
    var rest := Without(idx, i);
    forall j, k | 0 <= j < k < |rest|
      ensures rest[j].path != rest[k].path && rest[j].no <= rest[k].no
    {
      assert rest[j] == idx[Origin(i, j)] && rest[k] == idx[Origin(i, k)];
    }
  }

  lemma IndexWithout(names: Names, d: Files, idx: seq<SpoolFile>, i: nat)
    requires IsIndex(names, idx, d) && i < |idx|
    ensures IsIndex(names, Without(idx, i), d - {idx[i].path})
  {
    var rest := Without(idx, i);
    CompleteWithout(names, d, idx, i);
    OrderWithout(idx, i);
    forall j | 0 <= j < |rest|
      ensures Listed(names, rest[j], d - {idx[i].path})
    {
      var k := if j < i then j else j + 1;
      assert Listed(names, idx[k], d) && idx[k].path != idx[i].path;
    }
  }

  lemma ReadsWithout(d: Files, idx: seq<SpoolFile>, recs: seq<Record>, i: nat)
    requires Reads(d, idx, recs) && DistinctPaths(idx) && i < |idx|
    ensures Reads(d - {idx[i].path}, Without(idx, i), Without(recs, i))
  {
    var rest := Without(idx, i);
    forall j | 0 <= j < |rest|
      ensures rest[j].path in d - {idx[i].path}
              && Without(recs, i)[j] == Record(rest[j].no, (d - {idx[i].path})[rest[j].path])
    {
      var k := if j < i then j else j + 1;
      assert recs[k] == Record(idx[k].no, d[idx[k].path]) && idx[k].path != idx[i].path;
    }
  }

  lemma HoldsRemove(names: Names, d: Files, idx: seq<SpoolFile>, recs: seq<Record>, i: nat)
    requires Holds(names, d, idx, recs) && i < |idx|
    ensures Holds(names, d - {idx[i].path}, Without(idx, i), Without(recs, i))
    ensures Total(Without(idx, i)) + idx[i].size == Total(idx)
  {
    IndexWithout(names, d, idx, i);
    ReadsWithout(d, idx, recs, i);
    TotalWithout(idx, i);
  }

  lemma {:induction false} TotalWithout(idx: seq<SpoolFile>, i: nat)
    requires i < |idx|
    ensures Total(idx[..i] + idx[i + 1..]) + idx[i].size == Total(idx)
  {
    var n := |idx| - 1;
    if i == n {
      assert idx[..i] + idx[i + 1..] == idx[..n];
    } else {
      TotalWithout(idx[..n], i);
      assert (idx[..i] + idx[i + 1..])[..n - 1] == idx[..n][..i] + idx[..n][i + 1..];
    }
  }

  lemma CompleteRename(names: Names, d: Files, idx: seq<SpoolFile>, no: nat, data: Bytes)
    requires Complete(names, idx, d) && names.numberOf(names.tmpName(no)) == None
    ensures Complete(names, idx + [SpoolFile(no, names.fileName(no), |data|)],
                     (d - {names.tmpName(no)})[names.fileName(no) := data])
  {
    var d' := (d - {names.tmpName(no)})[names.fileName(no) := data];
    var idx' := idx + [SpoolFile(no, names.fileName(no), |data|)];
    forall name | name in d' && names.numberOf(name).Some?
      ensures exists i :: 0 <= i < |idx'| && idx'[i].path == name
    {
      if name == names.fileName(no) {
        assert idx'[|idx|].path == name;
      } else {
        var i :| 0 <= i < |idx| && idx[i].path == name;
        assert idx'[i].path == name;
      }
    }
  }

  lemma HoldsRename(names: Names, d: Files, idx: seq<SpoolFile>, recs: seq<Record>, no: nat, data: Bytes)
    requires Lawful(names) && Holds(names, d, idx, recs) && no < INT64_LIMIT
    requires Below(idx, no)
    ensures Holds(names, (d - {names.tmpName(no)})[names.fileName(no) := data],
                  idx + [SpoolFile(no, names.fileName(no), |data|)], recs + [Record(no, data)])
  {
    CompleteRename(names, d, idx, no, data);
    var d' := (d - {names.tmpName(no)})[names.fileName(no) := data];
    forall i | 0 <= i < |idx|
      ensures Listed(names, idx[i], d') && d'[idx[i].path] == d[idx[i].path] && idx[i].path != names.fileName(no)
    {
      assert Listed(names, idx[i], d);
    }
  }

  lemma FirstUnique(names: Names, d: Files, a: seq<SpoolFile>, b: seq<SpoolFile>)
    requires IsIndex(names, a, d) && IsIndex(names, b, d) && Strict(a) && a != []
    ensures b != [] && a[0] == b[0]
  {
    assert Listed(names, a[0], d);
    var j :| 0 <= j < |b| && b[j].path == a[0].path;
    assert Listed(names, b[0], d) && Listed(names, b[j], d);
    var i :| 0 <= i < |a| && a[i].path == b[0].path;
    assert Listed(names, a[i], d) && a[0].no <= a[i].no && b[0].no <= b[j].no;
  }

  lemma Behead(names: Names, d: Files, idx: seq<SpoolFile>)
    requires IsIndex(names, idx, d) && idx != []
    ensures IsIndex(names, idx[1..], d - {idx[0].path})
  {
    IndexWithout(names, d, idx, 0);
    assert Without(idx, 0) == idx[1..];
  }

  /** If no two files carry the same number, a directory has only one index. */
  lemma {:induction false} IndexUnique(names: Names, d: Files, a: seq<SpoolFile>, b: seq<SpoolFile>)
    requires IsIndex(names, a, d) && IsIndex(names, b, d) && Strict(a)
    ensures a == b
    decreases |a|
  {
    if a == [] {
      assert |b| > 0 ==> Listed(names, b[0], d);
    } else {
      FirstUnique(names, d, a, b);
      Behead(names, d, a);
      Behead(names, d, b);
      IndexUnique(names, d - {a[0].path}, a[1..], b[1..]);
      SameHeadAndTail(a, b);
    }
  }

  lemma SameHeadAndTail<T>(a: seq<T>, b: seq<T>)
    requires a != [] && b != [] && a[0] == b[0] && a[1..] == b[1..]
    ensures a == b
  {
    assert a == [a[0]] + a[1..] && b == [b[0]] + b[1..];
  }

  // ------------------------------------------------------------------- sorting

  ghost predicate NewPath(path: string, idx: seq<SpoolFile>) {
    forall i {:trigger idx[i].path} | 0 <= i < |idx| :: idx[i].path != path
  }

  /** One step of sorting by number. */
  function Insert(f: SpoolFile, idx: seq<SpoolFile>): (r: seq<SpoolFile>)
    ensures |r| == |idx| + 1 && r[0] in [f] + idx
    ensures forall x :: x in r <==> x == f || x in idx
  {
    if idx == [] || f.no < idx[0].no then [f] + idx else [idx[0]] + Insert(f, idx[1..])
  }

  lemma {:induction false} InsertTotal(f: SpoolFile, idx: seq<SpoolFile>)
    ensures Total(Insert(f, idx)) == Total(idx) + f.size
  {
    var r := Insert(f, idx);
    TotalOfTail(r);
    if idx == [] || f.no < idx[0].no {
      assert r[1..] == idx;
    } else {
      TotalOfTail(idx);
      InsertTotal(f, idx[1..]);
      assert r[1..] == Insert(f, idx[1..]);
    }
  }

  lemma {:induction false} InsertAscending(f: SpoolFile, idx: seq<SpoolFile>)
    requires Ascending(idx)
    ensures Ascending(Insert(f, idx))
  {
    if idx != [] && idx[0].no <= f.no {
      var rest := Insert(f, idx[1..]);
      InsertAscending(f, idx[1..]);
      forall i | 0 <= i < |rest| ensures idx[0].no <= rest[i].no {
        assert rest[i] in rest;
        if rest[i] != f {
          var j :| 0 <= j < |idx| - 1 && idx[1..][j] == rest[i];
          assert idx[0].no <= idx[j + 1].no;
        }
      }
    }
  }

  /** sort.Slice by number (line 230). */
  function Sort(idx: seq<SpoolFile>): seq<SpoolFile> {
    if idx == [] then [] else Insert(idx[0], Sort(idx[1..]))
  }

  lemma {:induction false} SortedElements(idx: seq<SpoolFile>)
    ensures |Sort(idx)| == |idx| && forall x :: x in Sort(idx) <==> x in idx
  {
    if idx != [] { SortedElements(idx[1..]); }
  }

  lemma {:induction false} SortedAscending(idx: seq<SpoolFile>)
    ensures Ascending(Sort(idx))
  {
    if idx != [] {
      SortedAscending(idx[1..]);
      InsertAscending(idx[0], Sort(idx[1..]));
    }
  }

  lemma {:induction false} SortedTotal(idx: seq<SpoolFile>)
    ensures Total(Sort(idx)) == Total(idx)
  {
    if idx != [] {
      SortedTotal(idx[1..]);
      InsertTotal(idx[0], Sort(idx[1..]));
      TotalOfTail(idx);
    }
  }

  lemma {:induction false} InsertDistinct(f: SpoolFile, idx: seq<SpoolFile>)
    requires DistinctPaths(idx) && NewPath(f.path, idx)
    ensures DistinctPaths(Insert(f, idx))
  {
    if idx != [] && idx[0].no <= f.no {
      var rest := Insert(f, idx[1..]);
      InsertDistinct(f, idx[1..]);
      forall i | 0 <= i < |rest| ensures idx[0].path != rest[i].path {
        assert rest[i] in rest;
        if rest[i] != f {
          var j :| 0 <= j < |idx| - 1 && idx[1..][j] == rest[i];
          assert idx[0].path != idx[j + 1].path;
        }
      }
    }
  }

  lemma {:induction false} SortedDistinct(idx: seq<SpoolFile>)
    requires DistinctPaths(idx)
    ensures DistinctPaths(Sort(idx))
  {
    if idx != [] {
      var rest := Sort(idx[1..]);
      SortedDistinct(idx[1..]);
      SortedElements(idx[1..]);
      forall i | 0 <= i < |rest| ensures rest[i].path != idx[0].path {
        assert rest[i] in rest;
        var j :| 0 <= j < |idx| - 1 && idx[1..][j] == rest[i];
        assert idx[0].path != idx[j + 1].path;
      }
      InsertDistinct(idx[0], rest);
    }
  }

  /** found lists, in some order, exactly the files among names that reload would pick up. */
  ghost predicate Found(names: Names, found: seq<SpoolFile>, d: Files, among: set<string>) {
    && DistinctPaths(found)
    && (forall i {:trigger Listed(names, found[i], d)} {:trigger found[i].path} | 0 <= i < |found| ::
         Listed(names, found[i], d) && found[i].path in among)
    && (forall name {:trigger names.numberOf(name)} | name in among && names.numberOf(name).Some? ::
          exists i {:trigger found[i].path} :: 0 <= i < |found| && found[i].path == name)
  }

  lemma FoundOneMore(names: Names, found: seq<SpoolFile>, d: Files, among: set<string>, name: string)
    requires Found(names, found, d, among) && name in d && name !in among
    ensures names.numberOf(name).None? ==> Found(names, found, d, among + {name})
    ensures names.numberOf(name).Some? ==>
              Found(names, found + [SpoolFile(names.numberOf(name).value, name, |d[name]|)], d, among + {name})
  {
    if names.numberOf(name).Some? {
      var f := SpoolFile(names.numberOf(name).value, name, |d[name]|);
      var found' := found + [f];
      forall i | 0 <= i < |found'| ensures Listed(names, found'[i], d) && found'[i].path in among + {name} {
        if i < |found| { assert Listed(names, found[i], d); }
      }
      forall other | other in among + {name} && names.numberOf(other).Some?
        ensures exists i :: 0 <= i < |found'| && found'[i].path == other
      {
        if other == name {
          assert found'[|found|].path == name;
        } else {
          var i :| 0 <= i < |found| && found[i].path == other;
          assert found'[i].path == other;
        }
      }
    }
  }

  ghost function FirstNames(entries: seq<string>, n: nat): set<string>
    requires n <= |entries|
  {
    if n == 0 then {} else FirstNames(entries, n - 1) + {entries[n - 1]}
  }

  lemma {:induction false} FirstNamesSpec(entries: seq<string>, n: nat)
    requires n <= |entries|
    ensures forall name :: name in FirstNames(entries, n) <==> exists k :: 0 <= k < n && entries[k] == name
  {
    if n > 0 { FirstNamesSpec(entries, n - 1); }
  }

  lemma NextNameIsNew(entries: seq<string>, n: nat)
    requires n < |entries| && forall i, j | 0 <= i < j < |entries| :: entries[i] != entries[j]
    ensures entries[n] !in FirstNames(entries, n)
  {
    FirstNamesSpec(entries, n);
  }

  lemma AllNames(entries: seq<string>, d: Files)
    requires forall name :: name in entries <==> name in d
    ensures FirstNames(entries, |entries|) == d.Keys
  {
    FirstNamesSpec(entries, |entries|);
  }

  lemma BelowSnoc(idx: seq<SpoolFile>, f: SpoolFile, no: int)
    requires Below(idx, no) && f.no < no
    ensures Below(idx + [f], no)
  {
  }

  lemma BelowMore(idx: seq<SpoolFile>, no: int, no': int)
    requires Below(idx, no) && no <= no'
    ensures Below(idx, no')
  {
  }

  lemma TotalSnoc(idx: seq<SpoolFile>, f: SpoolFile)
    ensures Total(idx + [f]) == Total(idx) + f.size
  {
    assert (idx + [f])[..|idx|] == idx;
  }

  /** The state of the scan after the files called among. */
  ghost predicate Scanned(names: Names, d: Files, among: set<string>, found: seq<SpoolFile>, total: int, maxSeq: int) {
    && Found(names, found, d, among)
    && total == Total(found) && 0 <= maxSeq < INT64_LIMIT && Below(found, maxSeq + 1) && Attained(found, maxSeq)
  }

  /** no is the number of a file, or the 0 that the search for the highest starts from. */
  ghost predicate Attained(idx: seq<SpoolFile>, no: int) {
    no == 0 || exists i {:trigger idx[i].no} :: 0 <= i < |idx| && idx[i].no == no
  }

  lemma AttainedSnoc(idx: seq<SpoolFile>, f: SpoolFile, no: int)
    requires Attained(idx, no)
    ensures Attained(idx + [f], no) && Attained(idx + [f], f.no)
  {
    assert (idx + [f])[|idx|] == f;
    if no != 0 {
      var i :| 0 <= i < |idx| && idx[i].no == no;
      assert (idx + [f])[i].no == no;
    }
  }

  lemma AttainedSorted(found: seq<SpoolFile>, no: int)
    requires Attained(found, no)
    ensures Attained(Sort(found), no)
  {
    SortedElements(found);
    if no != 0 {
      var i :| 0 <= i < |found| && found[i].no == no;
      assert found[i] in found;
    }
  }

  /** Every number in the directory is below no. */
  ghost predicate NumbersBelow(names: Names, d: Files, no: int) {
    forall name {:trigger names.numberOf(name)} | name in d && names.numberOf(name).Some? ::
      names.numberOf(name).value < no
  }

  /** The least number reload may continue with: the one it had, or one more than a number in the directory. */
  ghost predicate Continued(names: Names, d: Files, was: int, no: int) {
    no == was || exists name {:trigger names.numberOf(name)} :: name in d && names.numberOf(name) == Some(no - 1)
  }

  lemma NextNumber(names: Names, d: Files, idx: seq<SpoolFile>, highest: int, was: int)
    requires IsIndex(names, idx, d) && Below(idx, highest + 1) && Attained(idx, highest) && was > 0
    ensures var no := if highest >= was then highest + 1 else was;
            NumbersBelow(names, d, no) && Continued(names, d, was, no)
  {
    forall name | name in d && names.numberOf(name).Some? ensures names.numberOf(name).value < highest + 1 {
      var i :| 0 <= i < |idx| && idx[i].path == name;
      assert Listed(names, idx[i], d);
    }
    if highest >= was {
      var i :| 0 <= i < |idx| && idx[i].no == highest;
      assert Listed(names, idx[i], d);
    }
  }

  lemma ScannedSkip(names: Names, d: Files, among: set<string>, found: seq<SpoolFile>, total: int, maxSeq: int,
                    name: string)
    requires Scanned(names, d, among, found, total, maxSeq) && name in d && name !in among && names.numberOf(name).None?
    ensures Scanned(names, d, among + {name}, found, total, maxSeq)
  {
    FoundOneMore(names, found, d, among, name);
  }

  lemma ScannedAdd(names: Names, d: Files, among: set<string>, found: seq<SpoolFile>, total: int, maxSeq: int,
                   f: SpoolFile, max: int)
    requires Scanned(names, d, among, found, total, maxSeq) && f.path in d && f.path !in among && Bounded(names)
    requires names.numberOf(f.path) == Some(f.no) && f.size == |d[f.path]|
             && max == if f.no > maxSeq then f.no else maxSeq
    ensures Scanned(names, d, among + {f.path}, found + [f], total + f.size, max)
  {
    FoundOneMore(names, found, d, among, f.path);
    TotalSnoc(found, f);
    AttainedSnoc(found, f, maxSeq);
    BelowMore(found, maxSeq + 1, max + 1);
    BelowSnoc(found, f, max + 1);
  }

  /** Sorting what the scan found gives an index. */
  lemma SortedIsIndex(names: Names, d: Files, found: seq<SpoolFile>)
    requires Found(names, found, d, d.Keys)
    ensures IsIndex(names, Sort(found), d) && Total(Sort(found)) == Total(found)
  {
    var r := Sort(found);
    SortedAscending(found);
    SortedTotal(found);
    SortedElements(found);
    SortedDistinct(found);
    forall i | 0 <= i < |r| ensures Listed(names, r[i], d) {
      assert r[i] in r;
      var j :| 0 <= j < |found| && found[j] == r[i];
    }
    forall name | name in d && names.numberOf(name).Some?
      ensures exists i :: 0 <= i < |r| && r[i].path == name
    {
      var j :| 0 <= j < |found| && found[j].path == name;
      assert found[j] in r;
    }
  }

  lemma SortedBelow(found: seq<SpoolFile>, no: int)
    requires Below(found, no)
    ensures Below(Sort(found), no)
  {
    SortedElements(found);
    var r := Sort(found);
    forall i | 0 <= i < |r| ensures r[i].no < no {
      assert r[i] in r;
      var j :| 0 <= j < |found| && found[j] == r[i];
    }
  }

  /** Where the scan leads: next is the number to continue with. */
  lemma LoadEnd(names: Names, d: Files, found: seq<SpoolFile>, total: int, highest: int, was: int, next: int)
    requires Scanned(names, d, d.Keys, found, total, highest) && was > 0
    requires next == if highest >= was then highest + 1 else was
    ensures IsIndex(names, Sort(found), d) && Total(Sort(found)) == total && Below(Sort(found), next)
    ensures NumbersBelow(names, d, next) && Continued(names, d, was, next)
  {
    SortedIsIndex(names, d, found);
    SortedBelow(found, highest + 1);
    AttainedSorted(found, highest);
    NextNumber(names, d, Sort(found), highest, was);
    BelowMore(Sort(found), highest + 1, next);
  }

  /** The records of an index. */
  ghost function ReadAll(names: Names, d: Files, idx: seq<SpoolFile>): (recs: seq<Record>)
    requires IsIndex(names, idx, d)
    ensures Holds(names, d, idx, recs)
  {
    assert forall i | 0 <= i < |idx| :: Listed(names, idx[i], d);
    seq(|idx|, i requires 0 <= i < |idx| => Record(idx[i].no, d[idx[i].path]))
  }

  // ------------------------------------------------------------------ crashes

  /** d still holds the records recs, except possibly for some of the oldest. */
  ghost predicate Keeps(names: Names, d: Files, idx: seq<SpoolFile>, recs: seq<Record>) {
    |idx| == |recs| && exists k :: 0 <= k <= |recs| && Holds(names, d, idx[k..], recs[k..])
  }

  /** The same of every state in a stretch of history. */
  ghost predicate AllKeep(names: Names, history: seq<Files>, idx: seq<SpoolFile>, recs: seq<Record>) {
    forall i {:trigger Keeps(names, history[i], idx, recs)} | 0 <= i < |history| :: Keeps(names, history[i], idx, recs)
  }

  /** d without the first k files of idx. */
  function Dropped(d: Files, idx: seq<SpoolFile>, k: nat): Files
    requires k <= |idx|
  {
    if k == 0 then d else Dropped(d, idx, k - 1) - {idx[k - 1].path}
  }

  lemma {:induction false} HoldsDropped(names: Names, d: Files, idx: seq<SpoolFile>, recs: seq<Record>, k: nat)
    requires Holds(names, d, idx, recs) && k <= |idx|
    ensures Holds(names, Dropped(d, idx, k), idx[k..], recs[k..])
  {
    if k == 0 {
      assert idx[0..] == idx && recs[0..] == recs;
    } else {
      HoldsDropped(names, d, idx, recs, k - 1);
      HoldsRemove(names, Dropped(d, idx, k - 1), idx[k - 1..], recs[k - 1..], 0);
      assert Without(idx[k - 1..], 0) == idx[k..] && Without(recs[k - 1..], 0) == recs[k..];
    }
  }

  ghost predicate IsDropped(d': Files, d: Files, idx: seq<SpoolFile>, i: nat)
    requires i < |idx|
  {
    d' == Dropped(d, idx, i + 1)
  }

  /** history is what deleting the oldest files of idx one by one goes through. */
  ghost predicate Evicting(history: seq<Files>, d: Files, idx: seq<SpoolFile>) {
    && |history| <= |idx|
    && forall i {:trigger IsDropped(history[i], d, idx, i)} | 0 <= i < |history| :: IsDropped(history[i], d, idx, i)
  }

  lemma EvictingSnoc(history: seq<Files>, d: Files, idx: seq<SpoolFile>)
    requires Evicting(history, d, idx) && |history| < |idx|
    ensures Evicting(history + [Dropped(d, idx, |history| + 1)], d, idx)
  {
    var history' := history + [Dropped(d, idx, |history| + 1)];
    forall i | 0 <= i < |history'| ensures IsDropped(history'[i], d, idx, i) {
      if i < |history| { assert IsDropped(history[i], d, idx, i); }
    }
  }

  lemma EvictingKeeps(names: Names, history: seq<Files>, d: Files, idx: seq<SpoolFile>, recs: seq<Record>)
    requires Holds(names, d, idx, recs) && Evicting(history, d, idx)
    ensures AllKeep(names, history, idx, recs)
  {
    forall i | 0 <= i < |history|
      ensures Keeps(names, history[i], idx, recs)
    {
      assert IsDropped(history[i], d, idx, i);
      HoldsDropped(names, d, idx, recs, i + 1);
    }
  }

  /** What a push of rec may leave wherever it is cut off: the newest of the old records, or
      the newest of the old records followed by rec. */
  ghost predicate PushLeaves(names: Names, history: seq<Files>, idx: seq<SpoolFile>, recs: seq<Record>, file: SpoolFile,
                             rec: Record) {
    forall i {:trigger Leaves(names, history[i], idx, recs, file, rec)} | 0 <= i < |history| ::
      Leaves(names, history[i], idx, recs, file, rec)
  }

  ghost predicate Leaves(names: Names, d: Files, idx: seq<SpoolFile>, recs: seq<Record>, file: SpoolFile, rec: Record) {
    Keeps(names, d, idx, recs) || Keeps(names, d, idx + [file], recs + [rec])
  }

  /** The two directories differ at most in the file called name. */
  ghost predicate SameBut(d: Files, d': Files, name: string) { d - {name} == d' - {name} }

  ghost predicate AllSameBut(history: seq<Files>, d: Files, name: string) {
    forall i {:trigger SameBut(history[i], d, name)} | 0 <= i < |history| :: SameBut(history[i], d, name)
  }

  /** During the write of a file that reload ignores, every record is kept. */
  lemma WritingKeeps(names: Names, d: Files, d': Files, idx: seq<SpoolFile>, recs: seq<Record>, k: nat, name: string)
    requires |idx| == |recs| && k <= |recs| && Holds(names, d, idx[k..], recs[k..])
    requires names.numberOf(name).None? && d' - {name} == d - {name}
    ensures Keeps(names, d', idx, recs) && Holds(names, d', idx[k..], recs[k..])
  {
    HoldsIgnores(names, d, d', idx[k..], recs[k..], name);
  }

  lemma RenamedKeeps(names: Names, d: Files, d': Files, idx: seq<SpoolFile>, recs: seq<Record>, k: nat, no: nat,
                     data: Bytes)
    requires Lawful(names) && no < INT64_LIMIT && |idx| == |recs| && k <= |recs| && Holds(names, d, idx[k..], recs[k..])
    requires Below(idx, no)
    requires d' - {names.tmpName(no)} == d - {names.tmpName(no)}
    ensures var d'', file, rec := (d' - {names.tmpName(no)})[names.fileName(no) := data],
                                  SpoolFile(no, names.fileName(no), |data|), Record(no, data);
            Keeps(names, d'', idx + [file], recs + [rec]) && Holds(names, d'', idx[k..] + [file], recs[k..] + [rec])
  {
    HoldsIgnores(names, d, d', idx[k..], recs[k..], names.tmpName(no));
    HoldsRename(names, d', idx[k..], recs[k..], no, data);
    assert idx[k..] + [SpoolFile(no, names.fileName(no), |data|)]
        == (idx + [SpoolFile(no, names.fileName(no), |data|)])[k..];
    assert recs[k..] + [Record(no, data)] == (recs + [Record(no, data)])[k..];
  }

  /** All the states a push goes through: deletions, then the temporary file, then the rename. */
  lemma PushHistory(names: Names, d: Files, idx: seq<SpoolFile>, recs: seq<Record>, no: nat, data: Bytes,
                    before: seq<Files>, during: seq<Files>, after: seq<Files>)
    requires Lawful(names) && no < INT64_LIMIT && Holds(names, d, idx, recs)
    requires Below(idx, no)
    requires Evicting(before, d, idx)
    requires var tmp, d' := names.tmpName(no), Dropped(d, idx, |before|);
             && AllSameBut(during, d', tmp)
             && (after == [] || after == [(d' - {tmp})[names.fileName(no) := data]])
    ensures PushLeaves(names, before + during + after, idx, recs, SpoolFile(no, names.fileName(no), |data|),
                       Record(no, data))
  {
    var k, tmp, d' := |before|, names.tmpName(no), Dropped(d, idx, |before|);
    var history := before + during + after;
    EvictingKeeps(names, before, d, idx, recs);
    HoldsDropped(names, d, idx, recs, k);
    forall i | 0 <= i < |history|
      ensures Leaves(names, history[i], idx, recs, SpoolFile(no, names.fileName(no), |data|), Record(no, data))
    {
      if i < k {
        assert history[i] == before[i] && Keeps(names, before[i], idx, recs);
      } else if i < k + |during| {
        assert history[i] == during[i - k] && SameBut(during[i - k], d', tmp);
        WritingKeeps(names, d', history[i], idx, recs, k, tmp);
      } else {
        assert history[i] == after[i - k - |during|];
        RenamedKeeps(names, d', d', idx, recs, k, no, data);
      }
    }
  }

  /** What a reload of d with budget max leaves, through the states of past, in an index and records:
      for a directory in which no number occurs twice, exactly the records present, without the
      shortest oldest prefix that does not fit; no others are lost however it is cut off. */
  ghost predicate Recovers(names: Names, d: Files, max: nat, past: seq<Files>, ok: bool, idx': seq<SpoolFile>,
                           recs': seq<Record>) {
    forall idx, recs {:trigger Holds(names, d, idx, recs)} | Holds(names, d, idx, recs) && Strict(idx) ::
      && AllKeep(names, past, idx, recs)
      && (ok ==> idx' == idx[Evictions(idx, 0, max)..] && recs' == recs[Evictions(idx, 0, max)..])
  }

  lemma ReloadEnd(names: Names, d: Files, max: nat, past: seq<Files>, ok: bool, idx: seq<SpoolFile>, recs: seq<Record>)
    requires Holds(names, d, idx, recs) && Evicting(past, d, idx)
    requires ok ==> |past| == Evictions(idx, 0, max)
    ensures Recovers(names, d, max, past, ok, idx[|past|..], recs[|past|..])
    ensures Holds(names, Dropped(d, idx, |past|), idx[|past|..], recs[|past|..])
  {
    EvictingKeeps(names, past, d, idx, recs);
    HoldsDropped(names, d, idx, recs, |past|);
    forall idx', recs' | Holds(names, d, idx', recs') && Strict(idx')
      ensures idx' == idx && recs' == recs
    {
      IndexUnique(names, d, idx', idx);
      SameRecords(names, d, idx, recs, recs');
    }
  }

  lemma SameRecords(names: Names, d: Files, idx: seq<SpoolFile>, a: seq<Record>, b: seq<Record>)
    requires Reads(d, idx, a) && Reads(d, idx, b)
    ensures a == b
  {
  }

  lemma BelowTail(idx: seq<SpoolFile>, k: nat, no: int, no': int)
    requires k <= |idx| && Below(idx, no) && no <= no'
    ensures Below(idx[k..], no')
  {
  }

  lemma StrictTail(idx: seq<SpoolFile>, k: nat)
    requires k <= |idx| && Strict(idx)
    ensures Strict(idx[k..])
  {
  }

  lemma StrictSnoc(idx: seq<SpoolFile>, file: SpoolFile)
    requires Strict(idx) && Below(idx, file.no)
    ensures Strict(idx + [file])
  {
  }

  lemma StrictWithout(idx: seq<SpoolFile>, i: nat)
    requires i < |idx| && Strict(idx)
    ensures Strict(Without(idx, i))
  {
  }

  lemma StrictAfterPush(idx: seq<SpoolFile>, k: nat, file: SpoolFile)
    requires k <= |idx| && Below(idx, file.no)
    ensures Strict(idx) ==> Strict(idx[k..]) && Strict(idx[k..] + [file])
  {
    if Strict(idx) {
      StrictTail(idx, k);
      BelowTail(idx, k, file.no, file.no);
      StrictSnoc(idx[k..], file);
    }
  }

  /** The numbers in an index are strictly ascending exactly if no two files carry the same number. */
  lemma StrictIffNoTies(names: Names, idx: seq<SpoolFile>, d: Files)
    requires IsIndex(names, idx, d)
    ensures Strict(idx) <==> forall a, b | a in d && b in d && a != b ::
              names.numberOf(a).None? || names.numberOf(a) != names.numberOf(b)
  {
    if Strict(idx) {
      forall a, b | a in d && b in d && a != b && names.numberOf(a).Some?
        ensures names.numberOf(a) != names.numberOf(b)
      {
        if names.numberOf(b).Some? {
          var i :| 0 <= i < |idx| && idx[i].path == a;
          var j :| 0 <= j < |idx| && idx[j].path == b;
          assert Listed(names, idx[i], d) && Listed(names, idx[j], d) && i != j;
        }
      }
    } else {
      var i, j :| 0 <= i < j < |idx| && idx[i].no >= idx[j].no;
      assert Listed(names, idx[i], d) && Listed(names, idx[j], d);
    }
  }

  lemma BelowWithout(idx: seq<SpoolFile>, i: nat, no: int)
    requires i < |idx| && Below(idx, no)
    ensures Below(Without(idx, i), no)
  {
  }

  lemma Regroup<T>(a: seq<T>, b: seq<T>, c: seq<T>, d: seq<T>)
    ensures a + b + c + d == a + (b + c + d)
  {
  }

  lemma BelowNext(idx: seq<SpoolFile>, k: nat, file: SpoolFile)
    requires k <= |idx| && Below(idx, file.no)
    ensures Below(idx[k..], file.no + 1) && Below(idx[k..] + [file], file.no + 1)
  {
  }

  /** Where a push ends: end is the directory, stored says whether it got as far as the rename. */
  lemma PushEnd(names: Names, d: Files, idx: seq<SpoolFile>, recs: seq<Record>, no: nat, data: Bytes,
                k: nat, end: Files, stored: bool)
    requires Lawful(names) && no < INT64_LIMIT && Holds(names, d, idx, recs) && k <= |idx|
    requires Below(idx, no)
    requires var tmp, d' := names.tmpName(no), Dropped(d, idx, k);
             if stored then end == (d' - {tmp})[names.fileName(no) := data] else end - {tmp} == d' - {tmp}
    ensures if stored
            then Holds(names, end, idx[k..] + [SpoolFile(no, names.fileName(no), |data|)],
                       recs[k..] + [Record(no, data)])
            else Holds(names, end, idx[k..], recs[k..])
  {
    HoldsDropped(names, d, idx, recs, k);
    if stored {
      HoldsRename(names, Dropped(d, idx, k), idx[k..], recs[k..], no, data);
    } else {
      HoldsIgnores(names, Dropped(d, idx, k), end, idx[k..], recs[k..], names.tmpName(no));
    }
  }

  /** Where a push ends and what it went through, in one statement: idx' is the index it leaves. */
  lemma PushOutcome(names: Names, d: Files, idx: seq<SpoolFile>, recs: seq<Record>, no: nat, data: Bytes,
                    before: seq<Files>, during: seq<Files>, after: seq<Files>, end: Files, idx': seq<SpoolFile>,
                     stored: bool)
    requires Lawful(names) && no < INT64_LIMIT && Holds(names, d, idx, recs) && Below(idx, no)
             && Evicting(before, d, idx)
    requires var tmp, d' := names.tmpName(no), Dropped(d, idx, |before|);
             && AllSameBut(during, d', tmp)
             && (if stored then end == (d' - {tmp})[names.fileName(no) := data] else end - {tmp} == d' - {tmp})
    requires idx' == if stored then idx[|before|..] + [SpoolFile(no, names.fileName(no), |data|)] else idx[|before|..]
    requires after == if stored then [end] else []
    ensures Holds(names, end, idx', if stored then recs[|before|..] + [Record(no, data)] else recs[|before|..])
    ensures Below(idx', no + 1) && (Strict(idx) ==> Strict(idx'))
    ensures PushLeaves(names, before + during + after, idx, recs, SpoolFile(no, names.fileName(no), |data|),
                       Record(no, data))
  {
    var file := SpoolFile(no, names.fileName(no), |data|);
    StrictAfterPush(idx, |before|, file);
    BelowNext(idx, |before|, file);
    PushEnd(names, d, idx, recs, no, data, |before|, end, stored);
    PushHistory(names, d, idx, recs, no, data, before, during, after);
  }

  ghost predicate StrictNumbers(recs: seq<Record>) { forall i, j | 0 <= i < j < |recs| :: recs[i].no < recs[j].no }

  lemma StrictRecords(d: Files, idx: seq<SpoolFile>, recs: seq<Record>)
    requires Reads(d, idx, recs) && Strict(idx)
    ensures StrictNumbers(recs)
  {
    assert forall i | 0 <= i < |recs| :: recs[i].no == idx[i].no;
  }

  lemma OneOf(recs: seq<Record>, kept: seq<Record>, rest: seq<Record>)
    requires recs == kept + rest && rest != [] && StrictNumbers(recs)
    ensures recs[|kept|] == rest[0] && Without(recs, |kept|) == kept + rest[1..]
    ensures forall i | 0 <= i < |recs| && recs[i].no == rest[0].no :: i == |kept|
  {
  }

  lemma KeptSuffix(names: Names, d: Files, idx: seq<SpoolFile>, recs: seq<Record>, idx': seq<SpoolFile>,
                   recs': seq<Record>)
    returns (k: nat)
    requires Keeps(names, d, idx, recs) && Strict(idx) && Holds(names, d, idx', recs')
    ensures k <= |recs| && recs' == recs[k..]
  {
    k :| 0 <= k <= |recs| && Holds(names, d, idx[k..], recs[k..]);
    StrictTail(idx, k);
    IndexUnique(names, d, idx[k..], idx');
    SameRecords(names, d, idx', recs', recs[k..]);
  }

  lemma DropTwice<T>(s: seq<T>, k: nat, e: nat)
    requires k + e <= |s|
    ensures s[k..][e..] == s[k + e..]
  {
  }

  lemma DropSnoc<T>(s: seq<T>, x: T, k: nat)
    requires k <= |s| + 1
    ensures (s + [x])[k..] == if k <= |s| then s[k..] + [x] else []
  {
  }

  /** A push cut off anywhere, then a restart with any budget: the queue is a suffix of what was
      there before, or a suffix of that with the new task at its end; nothing is torn or reordered. */
  lemma CrashDuringPush(names: Names, history: seq<Files>, i: nat, idx: seq<SpoolFile>, recs: seq<Record>,
                        file: SpoolFile, rec: Record, max: nat, idx': seq<SpoolFile>, recs': seq<Record>)
    requires PushLeaves(names, history, idx, recs, file, rec) && i < |history|
    requires Strict(idx) && Below(idx, file.no)
    requires Holds(names, history[i], idx', recs')
    ensures exists k | 0 <= k <= |recs| ::
              || recs'[Evictions(idx', 0, max)..] == recs[k..]
              || recs'[Evictions(idx', 0, max)..] == recs[k..] + [rec]
  {
    var e := Evictions(idx', 0, max);
    assert Leaves(names, history[i], idx, recs, file, rec);
    if Keeps(names, history[i], idx, recs) {
      var k := KeptSuffix(names, history[i], idx, recs, idx', recs');
      DropTwice(recs, k, e);
      assert recs'[e..] == recs[k + e..];
    } else {
      StrictSnoc(idx, file);
      var k := KeptSuffix(names, history[i], idx + [file], recs + [rec], idx', recs');
      DropTwice(recs + [rec], k, e);
      DropSnoc(recs, rec, k + e);
      assert k + e > |recs| ==> recs'[e..] == recs[|recs|..];
    }
  }
}
