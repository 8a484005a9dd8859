/** The disk-level fallback queue (pkg/scheduler/submit_spool.go): push, ack, drain and reload, keeping the
    index in step with the directory. */
module SubmitSpool {
  import opened SpoolNames
  import opened Strconv
  import opened SpoolDisk
  import opened SpoolIndex

  // --------------------------------------------------------------- the encoding

  datatype SubmitOptions = SubmitOptions(jobName: string, bizKey: string, payload: string)

  datatype BufferedTask = BufferedTask(opts: SubmitOptions, enqueuedAt: int, attempts: nat)

  datatype SpoolTask = SpoolTask(no: int, opts: SubmitOptions, enqueuedAt: int, attempts: nat, sizeBytes: nat)

  /** json.Marshal and json.Unmarshal on SpoolTask. */
  datatype Codec = Codec(marshal: SpoolTask -> Option<Bytes>, unmarshal: Bytes -> Option<SpoolTask>)

  ghost predicate LawfulCodec(codec: Codec) {
    forall t :: codec.marshal(t).Some? ==> codec.unmarshal(codec.marshal(t).value) == Some(t)
  }

  /** The bytes push writes for t: encoded once to learn the size, and again with the size in it. */
  function Encode(codec: Codec, no: int, t: BufferedTask): Option<Bytes> {
    var st := SpoolTask(no, t.opts, t.enqueuedAt, t.attempts, 0);
    match codec.marshal(st)
    case None => None
    case Some(data) => codec.marshal(st.(sizeBytes := |data|))
  }

  // ------------------------------------------------------------------ the queue

  const DEFAULT_MAX_BYTES: nat := 100 * 1024 * 1024

  datatype PushResult = Pushed | SpillFull | MarshalFailed | IoFailed

  class Spool {
    const disk: Disk
    const maxBytes: nat
    const codec: Codec
    const names: Names
    var nextSeq: int
    var currentBytes: int
    var files: seq<SpoolFile>
    ghost var records: seq<Record>  // what the indexed files hold, oldest first

    /** The index is an index of the directory, and currentBytes its total size. */
    ghost predicate Indexed()
      reads this, disk
    {
      disk.Valid() && Holds(names, disk.files, files, records) && currentBytes == Total(files)
    }

    ghost predicate Valid()
      reads this, disk
    {
      && Lawful(names) && Indexed()
      && currentBytes <= maxBytes
      && Below(files, nextSeq)
      && 0 < nextSeq <= INT64_LIMIT
    }

    /** Encoded under the next number, t is within the budget. */
    ghost predicate Fits(t: BufferedTask)
      reads this
    {
      Encode(codec, nextSeq, t).Some? && |Encode(codec, nextSeq, t).value| <= maxBytes
    }

    /** newSubmitSpool up to reload (lines 60-70); now is the clock reading. */
    constructor (disk: Disk, maxBytes: int, codec: Codec, now: int)
      requires disk.Valid() && 0 < now <= INT64_LIMIT
      ensures this.disk == disk && this.codec == codec && nextSeq == now && names == NAMES && Lawful(names)
              && Bounded(names)
      ensures this.maxBytes == if maxBytes <= 0 then DEFAULT_MAX_BYTES else maxBytes
      ensures files == [] && records == [] && currentBytes == 0
    {
      NamesLawful();
      this.disk, this.codec, this.names := disk, codec, NAMES;
      this.maxBytes := if maxBytes <= 0 then DEFAULT_MAX_BYTES else maxBytes;
      nextSeq, currentBytes, files, records := now, 0, [], [];
    }

    /** The eviction loop of push (lines 109-116) and, with size 0, of reload (lines 236-243). */
    method MakeRoom(size: nat) returns (ok: bool, ghost past: seq<Files>)
      requires disk.Valid() && currentBytes == Total(files)
      modifies this`files, this`currentBytes, disk
      ensures disk.Valid() && currentBytes == Total(files) <= old(currentBytes)
      ensures |past| <= Evictions(old(files), size, maxBytes)
      ensures files == old(files)[|past|..]
      ensures ok <==> |past| == Evictions(old(files), size, maxBytes)
      ensures disk.reliable ==> ok
      ensures disk.history == old(disk.history) + past && Evicting(past, old(disk.files), old(files))
      ensures disk.files == Dropped(old(disk.files), old(files), |past|)
    {
      ghost var files0, d0 := files, disk.files;
      ok, past := true, [];
      while currentBytes + size > maxBytes && |files| > 0
        invariant disk.Valid() && currentBytes == Total(files) <= old(currentBytes)
        invariant |past| <= |files0| && files == files0[|past|..]
        invariant Evictions(files0, size, maxBytes) == |past| + Evictions(files, size, maxBytes)
        invariant disk.history == old(disk.history) + past && Evicting(past, d0, files0)
        invariant disk.files == Dropped(d0, files0, |past|)
        decreases |files|
      {
        var oldest := files[0];
        EvictMore(files0, |past|, size, maxBytes);
        TotalOfTail(files);
        var r := disk.Remove(oldest.path);
        if r.RemoveFailed? {
          ok := false;
          break;
        }
        currentBytes := currentBytes - oldest.size;
        files := files[1..];
        EvictingSnoc(past, d0, files0);
        past := past + [disk.files];
      }
    }

    /** push, lines 121-132: write under a temporary name, then rename. */
    method Store(no: nat, data: Bytes) returns (ok: bool, ghost during: seq<Files>)
      requires disk.Valid() && currentBytes == Total(files) && names.tmpName(no) != names.fileName(no)
      modifies this`files, this`currentBytes, disk
      ensures disk.Valid() && currentBytes == Total(files)
      ensures var tmp, final := names.tmpName(no), names.fileName(no);
              && (ok ==> files == old(files) + [SpoolFile(no, final, |data|)]
                         && disk.files == (old(disk.files) - {tmp})[final := data])
              && (!ok ==> files == old(files) && disk.files - {tmp} == old(disk.files) - {tmp})
              && AllSameBut(during, old(disk.files), tmp)
      ensures disk.history == old(disk.history) + during + (if ok then [disk.files] else [])
      ensures disk.reliable ==> ok
    {
      var tmp := names.tmpName(no);
      ok, during := disk.WriteFile(tmp, data);
      if !ok {
        return;
      }
      ok := disk.Rename(tmp, names.fileName(no));
      if !ok {
        var r := disk.Remove(tmp);
        if !r.RemoveFailed? { during := during + [disk.files]; }
        return;
      }
      files := files + [SpoolFile(no, names.fileName(no), |data|)];
      currentBytes := currentBytes + |data|;
      assert files[..|files| - 1] == old(files);
    }

    /** push, lines 109-132. */
    method EvictAndStore(no: nat, data: Bytes)
      returns (ok: bool, ghost before: seq<Files>, ghost during: seq<Files>, ghost after: seq<Files>)
      requires disk.Valid() && currentBytes == Total(files) <= maxBytes && names.tmpName(no) != names.fileName(no)
      requires |data| <= maxBytes
      modifies this`files, this`currentBytes, disk
      ensures disk.Valid() && currentBytes == Total(files) <= maxBytes
      ensures |before| <= Evictions(old(files), |data|, maxBytes) && Evicting(before, old(disk.files), old(files))
      ensures var tmp, final, d :=
                names.tmpName(no), names.fileName(no), Dropped(old(disk.files), old(files), |before|);
              && (ok ==> |before| == Evictions(old(files), |data|, maxBytes)
                         && files == old(files)[|before|..] + [SpoolFile(no, final, |data|)]
                         && disk.files == (d - {tmp})[final := data])
              && (!ok ==> files == old(files)[|before|..] && disk.files - {tmp} == d - {tmp})
              && AllSameBut(during, d, tmp)
      ensures disk.history == old(disk.history) + before + during + after && after == if ok then [disk.files] else []
      ensures disk.reliable ==> ok
    {
      during, after := [], [];
      EvictionsLeast(files, |data|, maxBytes);
      ok, before := MakeRoom(|data|);
      if ok {
        assert currentBytes + |data| <= maxBytes;  // so the second test for a full spool, line 117, never fires
        ok, during := Store(no, data);
        after := if ok then [disk.files] else [];
      }
    }

    /** push once the task is encoded, on the real fields: left is what the indexed files hold afterwards. */
    method StoreRecord(no: nat, data: Bytes)
      returns (ok: bool, ghost evicted: nat, ghost past: seq<Files>, ghost left: seq<Record>)
      requires Valid() && Below(files, no) && no < nextSeq && |data| <= maxBytes
      modifies this`files, this`currentBytes, disk
      ensures disk.Valid() && currentBytes == Total(files) <= maxBytes && (disk.reliable ==> ok)
      ensures Holds(names, disk.files, files, left) && Below(files, no + 1) && (old(Strict(files)) ==> Strict(files))
      ensures evicted <= |old(records)| && (ok ==> evicted == Evictions(old(files), |data|, maxBytes))
      ensures left == if ok then old(records)[evicted..] + [Record(no, data)] else old(records)[evicted..]
      ensures disk.history == old(disk.history) + past
      ensures PushLeaves(names, past, old(files), old(records), SpoolFile(no, names.fileName(no), |data|),
                         Record(no, data))
    {
      ghost var d, idx, recs := disk.files, files, records;
      assert names.numberOf(names.fileName(no)) != names.numberOf(names.tmpName(no));
      ghost var before, during, after;
      ok, before, during, after := EvictAndStore(no, data);
      evicted := |before|;
      past := before + during + after;
      left := if ok then recs[evicted..] + [Record(no, data)] else recs[evicted..];
      assert disk.history == old(disk.history) + past by { Regroup(old(disk.history), before, during, after); }
      PushOutcome(names, d, idx, recs, no, data, before, during, after, disk.files, files, ok);
    }

    /** push once the task is encoded. */
    method PushBytes(no: nat, data: Bytes) returns (r: PushResult, ghost evicted: nat, ghost past: seq<Files>)
      requires Valid() && Below(files, no) && no + 1 == nextSeq && |data| <= maxBytes
      modifies this`files, this`currentBytes, this`records, disk
      ensures Valid() && (r.Pushed? || r.IoFailed?) && (disk.reliable ==> r.Pushed?)
      ensures evicted <= |old(records)|
      ensures r.Pushed? ==>
                evicted == Evictions(old(files), |data|, maxBytes)
                && records == old(records)[evicted..] + [Record(no, data)]
      ensures r.IoFailed? ==> records == old(records)[evicted..]
      ensures disk.history == old(disk.history) + past
      ensures PushLeaves(names, past, old(files), old(records), SpoolFile(no, names.fileName(no), |data|),
                         Record(no, data))
      ensures old(Strict(files)) ==> Strict(files)
    {
      var ok;
      ok, evicted, past, records := StoreRecord(no, data);
      r := if ok then Pushed else IoFailed;
    }

    /** push. Whatever it returns, and wherever it is cut off, the directory holds the newest of
        the old records, followed by the new one or not; on success exactly the shortest oldest
        prefix that makes room is gone. past is the stretch of history the call adds. */
    method Push(t: BufferedTask) returns (r: PushResult, ghost evicted: nat, ghost past: seq<Files>)
      requires Valid() && nextSeq < INT64_LIMIT
      modifies this`nextSeq, this`files, this`currentBytes, this`records, disk
      ensures Valid() && nextSeq == old(nextSeq) + 1
      ensures var encoded := Encode(codec, old(nextSeq), t);
              && (r.MarshalFailed? <==> encoded.None?)
              && (r.SpillFull? <==> encoded.Some? && |encoded.value| > maxBytes)
      ensures r.MarshalFailed? || r.SpillFull? ==> records == old(records) && past == []
      ensures evicted <= |old(records)|
      ensures r.Pushed? ==>
                var data := Encode(codec, old(nextSeq), t).value;
                && evicted == Evictions(old(files), |data|, maxBytes)
                && records == old(records)[evicted..] + [Record(old(nextSeq), data)]
      ensures r.IoFailed? ==> records == old(records)[evicted..]
      ensures disk.reliable && old(Fits(t)) ==> r.Pushed?
      ensures old(Strict(files)) ==> Strict(files)
      ensures disk.history == old(disk.history) + past
      ensures past != [] ==>
                var data := Encode(codec, old(nextSeq), t);
                && data.Some?
                && PushLeaves(names, past, old(files), old(records),
                              SpoolFile(old(nextSeq), names.fileName(old(nextSeq)), |data.value|),
                              Record(old(nextSeq), data.value))
    {
      var no := nextSeq;
      nextSeq := nextSeq + 1;
      var encoded := Encode(codec, no, t);
      if encoded.None? {
        return MarshalFailed, 0, [];
      }
      var data := encoded.value;
      if |data| > maxBytes {
        return SpillFull, 0, [];
      }
      r, evicted, past := PushBytes(no, data);
    }

    /** ack, lines 174-179. */
    method Unlink(i: nat) returns (ok: bool)
      requires disk.Valid() && i < |files|
      modifies this`files, this`currentBytes, disk
      ensures disk.Valid()
      ensures ok ==> files == Without(old(files), i) && currentBytes == old(currentBytes) - old(files)[i].size
                     && disk.files == old(disk.files) - {old(files)[i].path}
      ensures !ok ==> files == old(files) && currentBytes == old(currentBytes) && disk.files == old(disk.files)
      ensures disk.history == old(disk.history) + if ok then [disk.files] else []
      ensures disk.reliable ==> ok
    {
      var f := files[i];
      var r := disk.Remove(f.path);
      ok := !r.RemoveFailed?;
      if ok {
        currentBytes := currentBytes - f.size;
        files := Without(files, i);
      }
    }

    /** ack of the file at position i of the index. */
    method Delete(i: nat) returns (ok: bool)
      requires Valid() && i < |files|
      modifies this`files, this`currentBytes, this`records, disk
      ensures Valid()
      ensures ok ==> records == Without(old(records), i) && disk.history == old(disk.history) + [disk.files]
      ensures !ok ==> records == old(records) && disk.history == old(disk.history)
      ensures disk.reliable ==> ok
      ensures old(Strict(files)) ==> Strict(files)
    {
      ghost var left, rest := Without(records, i), Without(files, i);
      assert Holds(names, disk.files - {files[i].path}, rest, left) && Total(rest) + files[i].size == Total(files) by {
        HoldsRemove(names, disk.files, files, records, i);
      }
      assert Below(rest, nextSeq) by { BelowWithout(files, i, nextSeq); }
      assert Strict(files) ==> Strict(rest) by { if Strict(files) { StrictWithout(files, i); } }
      ok := Unlink(i);
      if ok { records := left; }
    }

    method Find(no: int) returns (i: nat)
      requires Valid()
      ensures i <= |records| && forall j | 0 <= j < i :: records[j].no != no
      ensures i < |records| ==> records[i].no == no
    {
      i := 0;
      while i < |files|
        invariant i <= |files| && forall j | 0 <= j < i :: records[j].no != no
      {
        if files[i].no == no {
          return;
        }
        i := i + 1;
      }
    }

    /** ack: deletes the first indexed file with this number; an unknown number is no error. */
    method Ack(no: int) returns (ok: bool, ghost at: nat)
      requires Valid()
      modifies this`files, this`currentBytes, this`records, disk
      ensures Valid()
      ensures at <= |old(records)| && forall j | 0 <= j < at :: old(records)[j].no != no
      ensures at < |old(records)| ==> old(records)[at].no == no
      ensures at == |old(records)| || disk.reliable ==> ok
      ensures records == if ok && at < |old(records)| then Without(old(records), at) else old(records)
      ensures disk.history == old(disk.history) + if ok && at < |old(records)| then [disk.files] else []
      ensures old(Strict(files)) ==> Strict(files)
    {
      var i := Find(no);
      ok, at := true, i;
      if i < |files| {
        ok := Delete(i);
      }
    }

    /** Ack of the record that comes after those kept; with distinct numbers it hits exactly that one. */
    method AckNext(no: int, ghost kept: seq<Record>, ghost rest: seq<Record>) returns (ok: bool)
      requires Valid()
      modifies this`files, this`currentBytes, this`records, disk
      ensures Valid() && (old(Strict(files)) ==> Strict(files)) && (disk.reliable ==> ok)
      ensures old(Strict(files)) && old(records) == kept + rest && rest != [] && rest[0].no == no ==>
                records == if ok then kept + rest[1..] else kept + rest
    {
      if Strict(files) && records == kept + rest && rest != [] {
        StrictRecords(disk.files, files, records);
        OneOf(records, kept, rest);
      }
      ghost var at;
      ok, at := Ack(no);
    }

    /** drain: decodes the oldest max records, all of them for max <= 0, and deletes nothing. */
    method Drain(max: int) returns (ok: bool, out: seq<SpoolTask>)
      requires Valid()
      ensures ok ==> |out| == if max <= 0 || max > |records| then |records| else max
      ensures ok ==> forall i | 0 <= i < |out| :: codec.unmarshal(records[i].data) == Some(out[i])
      ensures disk.reliable && !ok ==>
                exists i | 0 <= i < if max <= 0 || max > |records| then |records| else max ::
                  codec.unmarshal(records[i].data).None?
    {
      out := [];
      var n := if max <= 0 || max > |files| then |files| else max;
      for i := 0 to n
        invariant |out| == i
        invariant forall j | 0 <= j < i :: codec.unmarshal(records[j].data) == Some(out[j])
      {
        var readable, data := disk.ReadFile(files[i].path);
        if !readable {
          return false, out;
        }
        match codec.unmarshal(data)
        case None => return false, out;
        case Some(t) => out := out + [t];
      }
      ok := true;
    }

    /** One directory entry of the scan, lines 210-228; a file that cannot be stat'ed stops it. */
    method ScanEntry(name: string, before: seq<SpoolFile>, total0: int, maxSeq0: int, ghost among: set<string>)
      returns (ok: bool, found: seq<SpoolFile>, total: int, maxSeq: int)
      requires Bounded(names) && name in disk.files && name !in among
      requires Scanned(names, disk.files, among, before, total0, maxSeq0)
      ensures ok ==> Scanned(names, disk.files, among + {name}, found, total, maxSeq)
      ensures disk.reliable ==> ok
    {
      var number := names.numberOf(name);
      if number.None? {
        ScannedSkip(names, disk.files, among, before, total0, maxSeq0, name);
        return true, before, total0, maxSeq0;
      }
      var fails := *;
      if !disk.reliable && fails {
        return false, [], 0, 0;
      }
      var f := SpoolFile(number.value, name, |disk.files[name]|);
      ok, found, total, maxSeq := true, before + [f], total0 + f.size, if f.no > maxSeq0 then f.no else maxSeq0;
      ScannedAdd(names, disk.files, among, before, total0, maxSeq0, f, maxSeq);
    }

    /** The scan of reload, lines 203-229. */
    method Scan() returns (ok: bool, found: seq<SpoolFile>, total: int, maxSeq: int)
      requires Bounded(names)
      ensures ok ==> Scanned(names, disk.files, disk.files.Keys, found, total, maxSeq)
      ensures disk.reliable ==> ok
    {
      found, total, maxSeq := [], 0, 0;
      var entries;
      ok, entries := disk.ReadDir();
      if !ok {
        return;
      }
      for j := 0 to |entries|
        invariant Scanned(names, disk.files, FirstNames(entries, j), found, total, maxSeq)
      {
        NextNameIsNew(entries, j);
        ok, found, total, maxSeq := ScanEntry(entries[j], found, total, maxSeq, FirstNames(entries, j));
        if !ok {
          return;
        }
      }
      AllNames(entries, disk.files);
    }

    /** Lines 231-235. */
    method Adopt(index: seq<SpoolFile>, total: int, maxSeq: int)
      requires disk.Valid() && IsIndex(names, index, disk.files) && Total(index) == total
      modifies this`nextSeq, this`files, this`currentBytes, this`records
      ensures Indexed() && files == index && nextSeq == if maxSeq >= old(nextSeq) then maxSeq + 1 else old(nextSeq)
    {
      files := index;
      currentBytes := total;
      if maxSeq >= nextSeq {
        nextSeq := maxSeq + 1;
      }
      records := ReadAll(names, disk.files, files);
    }

    /** reloadLocked up to line 235. */
    method Load() returns (ok: bool)
      requires disk.Valid() && Bounded(names) && 0 < nextSeq <= INT64_LIMIT
      modifies this`nextSeq, this`files, this`currentBytes, this`records
      ensures old(nextSeq) <= nextSeq <= INT64_LIMIT
      ensures ok ==> Indexed() && Below(files, nextSeq)
      ensures ok ==> NumbersBelow(names, disk.files, nextSeq) && Continued(names, disk.files, old(nextSeq), nextSeq)
      ensures disk.reliable ==> ok
    {
      var found, total, maxSeq;
      ok, found, total, maxSeq := Scan();
      if !ok {
        return;
      }
      LoadEnd(names, disk.files, found, total, maxSeq, nextSeq, if maxSeq >= nextSeq then maxSeq + 1 else nextSeq);
      Adopt(Sort(found), total, maxSeq);
    }

    /** reloadLocked; the next number ends up above everything recovered. */
    method Reload() returns (ok: bool, ghost past: seq<Files>)
      requires disk.Valid() && Lawful(names) && Bounded(names) && 0 < nextSeq <= INT64_LIMIT
      modifies this`nextSeq, this`files, this`currentBytes, this`records, disk
      ensures (ok ==> Valid()) && (disk.reliable ==> ok)
      ensures old(nextSeq) <= nextSeq <= INT64_LIMIT && disk.Valid() && disk.history == old(disk.history) + past
      ensures ok ==>
                NumbersBelow(names, old(disk.files), nextSeq)
                && Continued(names, old(disk.files), old(nextSeq), nextSeq)
      ensures Recovers(names, old(disk.files), maxBytes, past, ok, files, records)
    {
      past := [];
      ok := Load();
      if !ok {
        return;
      }
      ghost var d, idx, recs := disk.files, files, records;
      EvictionsLeast(files, 0, maxBytes);
      ok, past := MakeRoom(0);
      ghost var left := recs[|past|..];
      assert Recovers(names, d, maxBytes, past, ok, files, left) && Holds(names, disk.files, files, left) by {
        ReloadEnd(names, d, maxBytes, past, ok, idx, recs);
      }
      assert Below(files, nextSeq) by { BelowTail(idx, |past|, nextSeq, nextSeq); }
      records := left;
    }
  }

  /** What push wrote is what drain returns, number and all. */
  lemma EncodeDecode(codec: Codec, no: int, t: BufferedTask)
    requires LawfulCodec(codec) && Encode(codec, no, t).Some?
    ensures var r := codec.unmarshal(Encode(codec, no, t).value);
            r.Some? && r.value.no == no && r.value.opts == t.opts && r.value.attempts == t.attempts
            && r.value.enqueuedAt == t.enqueuedAt
  {
    var st := SpoolTask(no, t.opts, t.enqueuedAt, t.attempts, 0);
    var again := st.(sizeBytes := |codec.marshal(st).value|);
    assert codec.unmarshal(codec.marshal(again).value) == Some(again);
  }
}
