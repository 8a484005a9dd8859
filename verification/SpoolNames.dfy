/** The file names of the disk queue (pkg/scheduler/submit_spool.go lines 121-122 and 211-218). */
module SpoolNames {
  import opened Strconv

  const JSON := ".json"
  const TMP := ".tmp"

  predicate HasSuffix(s: string, suffix: string) {
    |suffix| <= |s| && s[|s| - |suffix|..] == suffix
  }

  /** The name under which push stores task number no. */
  function FileName(no: nat): string { Digits(no, 20) + JSON }

  function TmpName(no: nat): string { FileName(no) + TMP }

  /** The number reload reads off a name; None means that reload ignores the file. */
  function NumberOf(name: string): Option<int> {
    if HasSuffix(name, JSON) then ParseInt64(name[..|name| - |JSON|]) else None
  }

  /** Reload reads back the number push wrote, so different tasks have different names. */
  lemma NameRoundTrip(no: nat)
    requires no < INT64_LIMIT
    ensures NumberOf(FileName(no)) == Some(no)
  {
    TwentyDigitsSuffice();
    ValueOfDigits(no, 20);
    var name := FileName(no);
    assert name[..|name| - |JSON|] == Digits(no, 20);
    assert name[|name| - |JSON|..] == JSON;
    assert Digits(no, 20)[0] in Digits(no, 20);
  }

  /** Reload never looks at a temporary file, whatever a crash left in it. */
  lemma TmpIgnored(no: nat)
    ensures NumberOf(TmpName(no)) == None
  {
    var name := TmpName(no);
    assert name[|name| - 1] == 'p';
    assert name[|name| - |JSON|..][|JSON| - 1] == 'p';
  }

  /** A naming scheme: the name of a task's file, its temporary name, and the number read off a name. */
  datatype Names = Names(fileName: nat -> string, tmpName: nat -> string, numberOf: string -> Option<int>)

  ghost predicate Lawful(names: Names) {
    forall no: nat | no < INT64_LIMIT ::
      && names.numberOf(names.fileName(no)) == Some(no)
      && names.numberOf(names.tmpName(no)) == None
  }

  ghost predicate Bounded(names: Names) {
    forall name | names.numberOf(name).Some? :: names.numberOf(name).value < INT64_LIMIT
  }

  /** The scheme push and reload use. */
  const NAMES := Names(FileName, TmpName, NumberOf)

  lemma NamesLawful()
    ensures Lawful(NAMES) && Bounded(NAMES)
  {
    forall no: nat | no < INT64_LIMIT
      ensures NAMES.numberOf(NAMES.fileName(no)) == Some(no) && NAMES.numberOf(NAMES.tmpName(no)) == None
    {
      NameRoundTrip(no);
      TmpIgnored(no);
    }
  }
}
