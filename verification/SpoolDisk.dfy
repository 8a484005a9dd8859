/** The directory of the disk-level fallback queue (pkg/scheduler/submit_spool.go).

    The directory is a map from file names to bytes. Every file operation may fail, and the
    directory keeps a history of all the states it went through, so that a statement about
    that history is a statement about a crash between any two operations. */
module SpoolDisk {
  type Bytes = seq<bv8>
  type Files = map<string, Bytes>

  datatype Removal = Removed | NotExist | RemoveFailed

  class Disk {
    const reliable: bool  // no operation fails
    var files: Files
    ghost var history: seq<Files>

    ghost predicate Valid()
      reads this
    {
      history != [] && history[|history| - 1] == files
    }

    constructor (files: Files, reliable: bool)
      ensures Valid() && this.files == files && history == [files] && this.reliable == reliable
    {
      this.files, this.reliable := files, reliable;
      history := [files];
    }

    /** os.WriteFile: creates or truncates, then writes; it may stop anywhere in between.
        past is the stretch of history this adds. */
    method WriteFile(name: string, data: Bytes) returns (ok: bool, ghost past: seq<Files>)
      requires Valid()
      modifies this
      ensures Valid() && history == old(history) + past
      ensures forall i | 0 <= i < |past| :: past[i] - {name} == old(files) - {name}
      ensures files - {name} == old(files) - {name}
      ensures ok ==> files == old(files)[name := data]
      ensures reliable ==> ok
    {
      ok, past := false, [];
      var written: nat :| written <= |data|;
      if * {
        files := files[name := data[..written]];
        past := past + [files];
        history := history + [files];
      }
      var fails := *;
      if reliable || !fails {
        files := files[name := data];
        past := past + [files];
        history := history + [files];
        ok := true;
      }
    }

    /** os.Rename: atomic. */
    method Rename(from: string, to: string) returns (ok: bool)
      requires Valid() && from != to
      modifies this
      ensures Valid()
      ensures ok ==>
                from in old(files) && files == (old(files) - {from})[to := old(files)[from]]
                && history == old(history) + [files]
      ensures !ok ==> files == old(files) && history == old(history)
      ensures reliable && from in old(files) ==> ok
    {
      ok := false;
      if from in files {
        var fails := *;
        if reliable || !fails {
          files := (files - {from})[to := files[from]];
          history := history + [files];
          ok := true;
        }
      }
    }

    /** os.Remove: atomic. */
    method Remove(name: string) returns (r: Removal)
      requires Valid()
      modifies this
      ensures Valid()
      ensures r.NotExist? ==> name !in old(files)
      ensures !r.RemoveFailed? ==> files == old(files) - {name} && history == old(history) + [files]
      ensures r.RemoveFailed? ==> files == old(files) && history == old(history)
      ensures reliable ==> !r.RemoveFailed?
    {
      var fails := *;
      if !reliable && fails {
        r := RemoveFailed;
      } else {
        r := if name in files then Removed else NotExist;
        files := files - {name};
        history := history + [files];
      }
    }

    /** os.ReadDir: every name once, in an order reload does not rely on. */
    method ReadDir() returns (ok: bool, entries: seq<string>)
      ensures ok ==> forall name :: name in entries <==> name in files
      ensures ok ==> forall i, j | 0 <= i < j < |entries| :: entries[i] != entries[j]
      ensures reliable ==> ok
    {
      ok, entries := false, [];
      var fails := *;
      if reliable || !fails {
        var left := files.Keys;
        while left != {}
          invariant left <= files.Keys
          invariant forall name :: name in entries <==> name in files && name !in left
          invariant forall i, j | 0 <= i < j < |entries| :: entries[i] != entries[j]
          decreases left
        {
          var name :| name in left;
          left := left - {name};
          entries := entries + [name];
        }
        ok := true;
      }
    }

    method ReadFile(name: string) returns (ok: bool, data: Bytes)
      ensures ok ==> name in files && data == files[name]
      ensures reliable && name in files ==> ok
    {
      ok, data := false, [];
      if name in files {
        var fails := *;
        if reliable || !fails { ok, data := true, files[name]; }
      }
    }
  }
}
