/** Settings trees: what viper's AllSettings returns and the config package walks over. */
module ConfigTree {
  import opened Strconv

  /** A list is a branch whose slot names are its indices. */
  datatype Value =
    | Str(text: string)
    | Other(text: string)  // numbers, booleans, times, …
    | Branch(isList: bool, slots: map<string, Value>)

  predicate IsTable(v: Value) { v.Branch? && !v.isList }

  type Path = seq<string>

  /** The leaf at the end of a path through tables; a list counts as a leaf. */
  function LeafAt(v: Value, path: Path): Option<Value>
    decreases |path|
  {
    if !IsTable(v) then (if path == [] then Some(v) else None)
    else if path == [] || path[0] !in v.slots then None
    else LeafAt(v.slots[path[0]], path[1..])
  }

  /** Texts, other scalars and lists are leaves; a table has the leaves of its slots, one name further down, and
      no others. */
  lemma LeafAtExact(v: Value, slots: map<string, Value>, k: string, p: Path)
    ensures LeafAt(v, []) == if v.Str? || v.Other? || (v.Branch? && v.isList) then Some(v) else None
    ensures !(v.Branch? && !v.isList) ==> LeafAt(v, [k] + p) == None
    ensures LeafAt(Branch(false, slots), [k] + p) == if k in slots then LeafAt(slots[k], p) else None
  {
    assert ([k] + p)[1..] == p;
  }
}
