/** Decrypting a settings tree with the first of several keys that opens it (pkg/config/loader.go
    lines 164-203 and 527-577, pkg/encrypt/config.go lines 24-27 and 43-116). */
module ConfigDecrypt {
  import opened Strconv
  import opened ConfigTree

  // ------------------------------------------------------------------- values

  const ENC := "ENC("

  predicate IsEncrypted(s: string) { ENC <= s && s[|s| - 1] == ')' }

  /** What a key makes of the text between the parentheses: base64 and AES-GCM; None stands for an error. */
  type Open = string -> Option<string>

  function Inner(s: string): string
    requires IsEncrypted(s)
  {
    assert s[|ENC| - 1] == '(';
    s[|ENC|..|s| - 1]
  }

  /** DecryptConfigValue. */
  function DecryptValue(open: Open, s: string): Option<string> { if IsEncrypted(s) then open(Inner(s)) else Some(s) }

  /** The key opens every ENC leaf, however deep. */
  ghost predicate Opens(open: Open, v: Value) {
    match v
    case Str(s) => DecryptValue(open, s).Some?
    case Other(_) => true
    case Branch(_, slots) => forall k | k in slots :: Opens(open, slots[k])
  }

  /** The same tree with every ENC leaf replaced by its plain text. */
  ghost function Decrypted(open: Open, v: Value): Value
    requires Opens(open, v)
  {
    match v
    case Str(s) => Str(DecryptValue(open, s).value)
    case Other(_) => v
    case Branch(isList, slots) => Branch(isList, map k | k in slots :: Decrypted(open, slots[k]))
  }

  /** What stands at a path through tables and lists. */
  function ValueAt(v: Value, path: Path): Option<Value>
    decreases |path|
  {
    if path == [] then Some(v)
    else if !v.Branch? || path[0] !in v.slots then None
    else ValueAt(v.slots[path[0]], path[1..])
  }

  /** What decryption does at every path: an ENC leaf becomes its plain text, any other leaf and the kind
      and slot names of any branch stay. */
  lemma {:induction false} DecryptedAt(open: Open, v: Value, path: Path)
    requires Opens(open, v)
    ensures ValueAt(Decrypted(open, v), path).Some? <==> ValueAt(v, path).Some?
    ensures ValueAt(v, path).Some? ==>
              var a, b := ValueAt(v, path).value, ValueAt(Decrypted(open, v), path).value;
              match a
              case Str(s) => DecryptValue(open, s).Some? && b == Str(DecryptValue(open, s).value)
              case Other(_) => b == a
              case Branch(isList, slots) => b.Branch? && b.isList == isList && b.slots.Keys == slots.Keys
    decreases |path|
  {
    if path != [] && v.Branch? && path[0] in v.slots {
      DecryptedAt(open, v.slots[path[0]], path[1..]);
    }
  }

  /** At every path: ENC(c) becomes what the key makes of c, and a string of any other form stays as it is. */
  lemma EncLeaf(open: Open, v: Value, path: Path, s: string)
    requires Opens(open, v) && ValueAt(v, path) == Some(Str(s))
    ensures forall c | s == "ENC(" + c + ")" ::
              open(c).Some? && ValueAt(Decrypted(open, v), path) == Some(Str(open(c).value))
    ensures (forall c :: s != "ENC(" + c + ")") ==> ValueAt(Decrypted(open, v), path) == Some(Str(s))
  {
    DecryptedAt(open, v, path);
    forall c | s == "ENC(" + c + ")" ensures IsEncrypted(s) && Inner(s) == c {
      assert s[..4] == "ENC(" && s[4..|s| - 1] == c;
    }
    if IsEncrypted(s) { assert s == "ENC(" + Inner(s) + ")"; }
  }

  /** Some leaf of v, however deep, is an ENC string. */
  ghost predicate HasEnc(v: Value) {
    match v
    case Str(s) => IsEncrypted(s)
    case Other(_) => false
    case Branch(_, slots) => exists k :: k in slots && HasEnc(slots[k])
  }

  lemma {:induction false} OpensWithoutEnc(open: Open, v: Value)
    requires !HasEnc(v)
    ensures Opens(open, v) && Decrypted(open, v) == v
  {
    if v.Branch? {
      forall k | k in v.slots ensures Opens(open, v.slots[k]) && Decrypted(open, v.slots[k]) == v.slots[k] {
        OpensWithoutEnc(open, v.slots[k]);
      }
      assert Decrypted(open, v).slots == v.slots;
    }
  }

  lemma {:induction false} RefusesEnc(v: Value)
    requires HasEnc(v)
    ensures !Opens(_ => None, v)
  {
    if v.Branch? {
      var k :| k in v.slots && HasEnc(v.slots[k]);
      RefusesEnc(v.slots[k]);
    }
  }

  /** hasEncrypted, on a table: of a list it looks at the strings and the tables in it, not at lists. */
  predicate HasEncrypted(v: Value)
    requires IsTable(v)
    decreases v, 0
  {
    exists k | k in v.slots :: SlotHasEncrypted(v.slots[k])
  }

  predicate SlotHasEncrypted(v: Value)
    decreases v, 1
  {
    match v
    case Str(s) => IsEncrypted(s)
    case Other(_) => false
    case Branch(isList, _) => if isList then ListHasEncrypted(v) else HasEncrypted(v)
  }

  predicate ListHasEncrypted(v: Value)
    requires v.Branch? && v.isList
    decreases v, 0
  {
    exists i | i in v.slots :: ElementHasEncrypted(v.slots[i])
  }

  predicate ElementHasEncrypted(v: Value)
    decreases v, 1
  {
    (v.Str? && IsEncrypted(v.text)) || (IsTable(v) && HasEncrypted(v))
  }

  /** No list is directly inside a list. */
  ghost predicate NoListInList(v: Value) {
    v.Branch? ==>
      forall k | k in v.slots :: NoListInList(v.slots[k]) && !(v.isList && v.slots[k].Branch? && v.slots[k].isList)
  }

  /** v without the lists that are directly inside a list. */
  ghost function Pruned(v: Value): Value {
    match v
    case Branch(isList, slots) =>
      Branch(isList, map k | k in slots && !(isList && slots[k].Branch? && slots[k].isList) :: Pruned(slots[k]))
    case _ => v
  }

  /** hasEncrypted finds exactly the ENC leaves that are not in such a list. */
  lemma {:induction false} HasEncryptedIsPruned(v: Value)
    requires IsTable(v)
    ensures HasEncrypted(v) <==> HasEnc(Pruned(v))
  {
    forall k | k in v.slots
      ensures SlotHasEncrypted(v.slots[k]) <==> HasEnc(Pruned(v.slots[k]))
      ensures k in Pruned(v).slots && Pruned(v).slots[k] == Pruned(v.slots[k])
    {
      var c := v.slots[k];
      if IsTable(c) {
        HasEncryptedIsPruned(c);
      } else if c.Branch? {
        ListIsPruned(c);
      }
    }
    if k :| k in v.slots && SlotHasEncrypted(v.slots[k]) {
      assert HasEnc(Pruned(v).slots[k]);
    }
  }

  lemma {:induction false} ListIsPruned(v: Value)
    requires v.Branch? && v.isList
    ensures ListHasEncrypted(v) <==> HasEnc(Pruned(v))
  {
    forall i | i in v.slots && IsTable(v.slots[i])
      ensures HasEncrypted(v.slots[i]) <==> HasEnc(Pruned(v.slots[i]))
    {
      HasEncryptedIsPruned(v.slots[i]);
    }
    forall i | i in v.slots
      ensures ElementHasEncrypted(v.slots[i]) <==> i in Pruned(v).slots && HasEnc(Pruned(v).slots[i])
    {
      var c := v.slots[i];
      if c.Branch? && c.isList {
        assert i !in Pruned(v).slots;
      } else {
        assert Pruned(v).slots[i] == Pruned(c);
        assert IsTable(c) ==> (HasEncrypted(c) <==> HasEnc(Pruned(c)));
      }
    }
    if i :| i in v.slots && ElementHasEncrypted(v.slots[i]) {
      assert HasEnc(Pruned(v).slots[i]);
    }
  }

  lemma {:induction false} PrunedSame(v: Value)
    requires NoListInList(v)
    ensures Pruned(v) == v
  {
    if v.Branch? {
      forall k | k in v.slots ensures Pruned(v.slots[k]) == v.slots[k] { PrunedSame(v.slots[k]); }
      assert Pruned(v).slots == v.slots;
    }
  }

  ghost predicate Untouched(open: Open, v: Value) { Opens(open, v) && Decrypted(open, v) == v }

  lemma EncIffTouched(v: Value)
    ensures HasEnc(v) <==> !(forall open: Open :: Untouched(open, v))
  {
    if HasEnc(v) {
      RefusesEnc(v);
      assert !Untouched(_ => None, v);
    } else {
      forall open: Open ensures Untouched(open, v) { OpensWithoutEnc(open, v); }
    }
  }

  /** hasEncrypted is false exactly when decrypting changes nothing, whatever the key, for exactly the trees
      that have an ENC leaf outside a list in a list or none at all; so for all without a list in a list. */
  lemma HasEncryptedExact(v: Value)
    requires IsTable(v)
    ensures (!HasEncrypted(v) <==> forall open: Open :: Untouched(open, v)) <==> (HasEnc(v) ==> HasEnc(Pruned(v)))
    ensures NoListInList(v) ==> (!HasEncrypted(v) <==> forall open: Open :: Untouched(open, v))
  {
    EncIffTouched(v);
    HasEncryptedIsPruned(v);
    if HasEnc(Pruned(v)) { PrunedEnc(v); }
    if NoListInList(v) { PrunedSame(v); }
  }

  lemma {:induction false} PrunedEnc(v: Value)
    requires HasEnc(Pruned(v))
    ensures HasEnc(v)
  {
    if v.Branch? {
      var k :| k in Pruned(v).slots && HasEnc(Pruned(v).slots[k]);
      PrunedEnc(v.slots[k]);
    }
  }

  /** With a list in a list it fails: this tree is passed on with its ENC string, although decryptMap would open it. */
  lemma NestedListOverlooked()
    ensures var v := Branch(false, map["a" := Branch(true, map["0" := Branch(true, map["0" := Str("ENC(x)")])])]);
            IsTable(v) && !HasEncrypted(v) && HasEnc(v)
  {
    var inner := Branch(true, map["0" := Str("ENC(x)")]);
    var outer := Branch(true, map["0" := inner]);
    var v := Branch(false, map["a" := outer]);
    assert HasEnc(inner.slots["0"]);
    assert HasEnc(outer.slots["0"]);
    assert HasEnc(v.slots["a"]);
  }
}
