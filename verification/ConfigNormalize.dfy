/** The same on the heap: settings are nested maps and slices that decryptMap overwrites in place, so each
    key works on a deep clone (pkg/config/loader.go lines 164-203 and 551-577, pkg/encrypt/config.go lines 62-116). */
module ConfigNormalize {
  import opened Strconv
  import opened ConfigTree
  import opened ConfigDecrypt

  datatype Item = Text(text: string) | Scalar(text: string) | Ref(node: Node)

  /** A map[string]any or, if isList, a []any. */
  class Node {
    const isList: bool
    var slots: map<string, Item>
    ghost var Repr: set<Node>  // this node and all below it
    ghost var tree: Value      // the tree it stands for

    /** The nodes below form a tree. */
    ghost predicate Shape()
      reads this, Repr
      decreases Repr, 0
    {
      && this in Repr
      && (forall k | k in slots && slots[k].Ref? :: slots[k].node in Repr && slots[k].node.Repr < Repr
            && this !in slots[k].node.Repr && slots[k].node in slots[k].node.Repr && slots[k].node.Valid())
      && (forall j, k | j in slots && k in slots && j != k && slots[j].Ref? && slots[k].Ref? ::
            slots[j].node.Repr !! slots[k].node.Repr)
    }

    ghost predicate Valid()
      reads this, Repr
      decreases Repr, 1
    {
      && Shape()
      && tree.Branch? && tree.isList == isList && tree.slots.Keys == slots.Keys
      && forall k | k in slots :: tree.slots[k] == ItemTree(slots[k])
    }

    constructor (isList: bool)
      ensures Shape() && this.isList == isList && slots == map[] && fresh(Repr)
    {
      this.isList, slots, tree, Repr := isList, map[], Branch(isList, map[]), {this};
    }

    /** A new slot, with a tree of its own below it. */
    method Put(k: string, item: Item)
      requires Shape() && k !in slots
      requires item.Ref? ==> item.node.Valid() && item.node.Repr !! Repr
      modifies this
      ensures Shape() && slots == old(slots)[k := item]
      ensures Repr == old(Repr) + if item.Ref? then item.node.Repr else {}
    {
      slots := slots[k := item];
      if item.Ref? {
        assert item.node.Shape();
        Repr := Repr + item.node.Repr;
      }
    }

    /** Brings tree up to date. */
    ghost method Retie()
      requires Shape()
      modifies this`tree
      ensures Valid() && tree.isList == isList && tree.slots == map k | k in slots :: old(ItemTree(slots[k]))
    {
      tree := Branch(isList, map k | k in slots :: ItemTree(slots[k]));
    }
  }

  ghost function ItemTree(i: Item): Value
    reads if i.Ref? then {i.node} else {}
  {
    match i
    case Text(s) => Str(s)
    case Scalar(s) => Other(s)
    case Ref(n) => n.tree
  }

  /** cloneValue. */
  method CloneItem(i: Item, ghost below: set<Node>) returns (j: Item)
    requires i.Ref? ==> i.node.Valid() && i.node.Repr < below
    ensures ItemTree(j) == ItemTree(i)
    ensures j.Ref? ==> j.node.Valid() && fresh(j.node.Repr)
    decreases below, 0
  {
    j := i;
    if i.Ref? {
      var copy := DeepClone(i.node);
      j := Ref(copy);
    }
  }

  /** The loop body of deepClone. */
  method CloneSlot(n: Node, c: Node, k: string)
    requires n.Valid() && c.Shape() && k in n.slots && k !in c.slots && c !in n.Repr
    modifies c
    ensures c.Shape() && c.slots.Keys == old(c.slots).Keys + {k} && fresh(c.Repr - old(c.Repr))
    ensures ItemTree(c.slots[k]) == n.tree.slots[k]
    ensures forall j | j in old(c.slots) ::
              c.slots[j] == old(c.slots)[j] && ItemTree(c.slots[j]) == old(ItemTree(c.slots[j]))
    decreases n.Repr, 1
  {
    var copy := CloneItem(n.slots[k], n.Repr);
    c.Put(k, copy);
  }

  /** The loop of deepClone. */
  method CloneSlots(n: Node) returns (c: Node)
    requires n.Valid()
    ensures c.Shape() && fresh(c.Repr) && c.isList == n.isList
    ensures c.slots.Keys == n.slots.Keys && forall k | k in c.slots :: ItemTree(c.slots[k]) == n.tree.slots[k]
    decreases n.Repr, 2
  {
    c := new Node(n.isList);
    var todo := n.slots.Keys;
    while todo != {}
      invariant todo <= n.slots.Keys && c.slots.Keys == n.slots.Keys - todo
      invariant c.Shape() && fresh(c.Repr)
      invariant forall k | k in c.slots :: ItemTree(c.slots[k]) == n.tree.slots[k]
    {
      var k :| k in todo;
      todo := todo - {k};
      CloneSlot(n, c, k);
    }
  }

  /** deepClone: the same tree, in nodes of its own. */
  method DeepClone(n: Node) returns (c: Node)
    requires n.Valid()
    ensures c.Valid() && fresh(c.Repr) && c.tree == n.tree
    decreases n.Repr, 3
  {
    c := CloneSlots(n);
    c.Retie();
    assert c.tree.slots == n.tree.slots;
  }

  /** The switch of decryptMap and decryptSlice, for one slot. */
  method DecryptSlot(open: Open, n: Node, k: string) returns (ok: bool)
    requires n.Shape() && k in n.slots
    modifies n`slots, if n.slots[k].Ref? then n.slots[k].node.Repr else {}
    ensures ok <==> Opens(open, old(ItemTree(n.slots[k])))
    ensures ok ==>
              && n.Shape() && n.slots.Keys == old(n.slots).Keys
              && ItemTree(n.slots[k]) == Decrypted(open, old(ItemTree(n.slots[k])))
              && forall j | j in n.slots && j != k ::
                   n.slots[j] == old(n.slots)[j] && ItemTree(n.slots[j]) == old(ItemTree(n.slots[j]))
    decreases n.Repr, 0
  {
    match n.slots[k]
    case Text(s) =>
      if IsEncrypted(s) {
        var plain := open(Inner(s));
        if plain.None? {
          return false;
        }
        n.slots := n.slots[k := Text(plain.value)];
      }
      return true;
    case Scalar(_) =>
      return true;
    case Ref(child) =>
      ok := Decrypt(open, child);
  }

  /** The loop of decryptMap and decryptSlice; was is what the slots stood for. */
  method DecryptSlots(open: Open, n: Node, ghost was: map<string, Value>) returns (ok: bool)
    requires n.Shape() && n.slots.Keys == was.Keys && forall k | k in was :: ItemTree(n.slots[k]) == was[k]
    modifies n.Repr
    ensures ok <==> forall k | k in was :: Opens(open, was[k])
    ensures ok ==> n.Shape() && n.Repr == old(n.Repr) && n.slots.Keys == was.Keys
    ensures ok ==> forall k | k in was :: Opens(open, was[k]) && ItemTree(n.slots[k]) == Decrypted(open, was[k])
    decreases n.Repr, 1
  {
    var todo := n.slots.Keys;
    while todo != {}
      invariant n.Shape() && n.Repr == old(n.Repr) && n.slots.Keys == was.Keys && todo <= was.Keys
      invariant forall k | k in todo :: ItemTree(n.slots[k]) == was[k]
      invariant forall k | k in was && k !in todo ::
                  Opens(open, was[k]) && ItemTree(n.slots[k]) == Decrypted(open, was[k])
    {
      var k :| k in todo;
      todo := todo - {k};
      var fits := DecryptSlot(open, n, k);
      if !fits {
        return false;
      }
    }
    return true;
  }

  /** decryptMap and decryptSlice. On failure the tree is left partly decrypted. */
  method Decrypt(open: Open, n: Node) returns (ok: bool)
    requires n.Valid()
    modifies n.Repr
    ensures ok <==> Opens(open, old(n.tree))
    ensures ok ==> n.Valid() && n.Repr == old(n.Repr) && n.tree == Decrypted(open, old(n.tree))
    decreases n.Repr, 2
  {
    ghost var was := n.tree.slots;
    ok := DecryptSlots(open, n, was);
    if ok {
      n.Retie();
      assert n.tree.slots == Decrypted(open, old(n.tree)).slots;
    }
  }

  /** hasEncrypted. */
  method HasEncryptedIn(n: Node) returns (found: bool)
    requires n.Valid() && !n.isList
    ensures found == HasEncrypted(n.tree)
    decreases n.Repr, 1
  {
    var todo := n.slots.Keys;
    while todo != {}
      invariant todo <= n.slots.Keys
      invariant forall k | k in n.slots && k !in todo :: !SlotHasEncrypted(n.tree.slots[k])
    {
      var k :| k in todo;
      todo := todo - {k};
      assert n.tree.slots[k] == ItemTree(n.slots[k]);
      match n.slots[k] {
        case Text(s) => found := IsEncrypted(s);
        case Scalar(_) => found := false;
        case Ref(child) =>
          assert child.Valid() && child.tree.isList == child.isList;
          if child.isList {
            found := ElementsHaveEncrypted(child);
          } else {
            found := HasEncryptedIn(child);
          }
      }
      assert found == SlotHasEncrypted(n.tree.slots[k]);
      if found {
        return;
      }
    }
    found := false;
  }

  /** The inner loop of hasEncrypted. */
  method ElementsHaveEncrypted(n: Node) returns (found: bool)
    requires n.Valid() && n.isList
    ensures found == ListHasEncrypted(n.tree)
    decreases n.Repr, 0
  {
    var todo := n.slots.Keys;
    while todo != {}
      invariant todo <= n.slots.Keys
      invariant forall i | i in n.slots && i !in todo :: !ElementHasEncrypted(n.tree.slots[i])
    {
      var i :| i in todo;
      todo := todo - {i};
      found := false;
      assert n.tree.slots[i] == ItemTree(n.slots[i]);
      match n.slots[i] {
        case Text(s) => found := IsEncrypted(s);
        case Scalar(_) =>
        case Ref(child) =>
          assert child.Valid() && child.tree.isList == child.isList;
          if !child.isList {
            found := HasEncryptedIn(child);
          }
      }
      assert found == ElementHasEncrypted(n.tree.slots[i]);
      if found {
        return;
      }
    }
    found := false;
  }

  datatype NormalizeError =
    | BadKeys    // the configured keys do not parse
    | NoKeys     // there is something to decrypt and no key
    | NoKeyFits

  datatype Result = Ok(settings: Node) | Err(error: NormalizeError)

  /** The number of the first key that opens every ENC leaf, |keys| if there is none. */
  ghost function FirstFitting(keys: seq<Open>, v: Value): (i: nat)
    ensures i <= |keys| && (i < |keys| ==> Opens(keys[i], v)) && forall j | 0 <= j < i :: !Opens(keys[j], v)
  {
    if keys == [] || Opens(keys[0], v) then 0 else 1 + FirstFitting(keys[1..], v)
  }

  lemma FittingUnique(keys: seq<Open>, v: Value, i: nat)
    requires i <= |keys| && (i < |keys| ==> Opens(keys[i], v)) && forall j | 0 <= j < i :: !Opens(keys[j], v)
    ensures FirstFitting(keys, v) == i
  {
  }

  /** One key, on a clone of its own. */
  method TryKey(settings: Node, key: Open) returns (fits: bool, cloned: Node)
    requires settings.Valid()
    ensures fits <==> Opens(key, settings.tree)
    ensures fits ==> cloned.Valid() && fresh(cloned.Repr) && cloned.tree == Decrypted(key, settings.tree)
  {
    cloned := DeepClone(settings);
    fits := Decrypt(key, cloned);
  }

  /** The loop over the keys. */
  method TryKeys(settings: Node, keys: seq<Open>) returns (i: nat, cloned: Node?)
    requires settings.Valid()
    ensures i == FirstFitting(keys, settings.tree)
    ensures i < |keys| ==>
              cloned != null && cloned.Valid() && fresh(cloned.Repr) && cloned.tree == Decrypted(keys[i], settings.tree)
  {
    i, cloned := 0, null;
    while i < |keys|
      invariant i <= |keys|
      invariant forall j | 0 <= j < i :: !Opens(keys[j], settings.tree)
    {
      var fits;
      fits, cloned := TryKey(settings, keys[i]);
      if fits {
        FittingUnique(keys, settings.tree, i);
        return;
      }
      i := i + 1;
    }
    FittingUnique(keys, settings.tree, i);
  }

  /** The decryption of normalize; keys is None if the configured keys do not parse. Nothing that existed before
      the call is written, so what a key that does not fit has decrypted by then reaches nobody. */
  method Normalize(settings: Node, keys: Option<seq<Open>>) returns (r: Result)
    requires settings.Valid() && !settings.isList
    ensures !HasEncrypted(settings.tree) ==> r == Ok(settings)
    ensures HasEncrypted(settings.tree) && keys.None? ==> r == Err(BadKeys)
    ensures HasEncrypted(settings.tree) && keys == Some([]) ==> r == Err(NoKeys)
    ensures HasEncrypted(settings.tree) && keys.Some? && keys.value != [] ==>
              var i := FirstFitting(keys.value, settings.tree);
              if i == |keys.value| then r == Err(NoKeyFits)
              else r.Ok? && r.settings.Valid() && fresh(r.settings.Repr)
                   && r.settings.tree == Decrypted(keys.value[i], settings.tree)
  {
    var encrypted := HasEncryptedIn(settings);
    if !encrypted {
      return Ok(settings);
    }
    if keys.None? {
      return Err(BadKeys);
    }
    if keys.value == [] {
      return Err(NoKeys);
    }
    var i, cloned := TryKeys(settings, keys.value);
    r := if i < |keys.value| then Ok(cloned) else Err(NoKeyFits);
  }
}
