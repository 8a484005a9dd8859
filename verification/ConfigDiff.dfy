/** Which listeners a reload fires (pkg/config/loader.go lines 299-358, 425-429 and 579-608). */
module ConfigDiff {
  import opened Strconv
  import opened ConfigTree

  type Flat = map<string, Value>

  // ------------------------------------------------------------------- flatten

  function Extend(prefix: string, k: string): string { if prefix == "" then k else prefix + "." + k }

  /** The key under which flatten files the leaf at path. */
  function DotKey(prefix: string, path: Path): string
    decreases |path|
  {
    if path == [] then prefix else DotKey(Extend(prefix, path[0]), path[1..])
  }

  ghost predicate Files(prefix: string, t: Value, p: Path, out: Flat, key: string) {
    key in out && LeafAt(t, p) == Some(out[key]) && DotKey(prefix, p) == key
  }

  /** out has a key for every leaf below one of the slots visited, and every key holds a leaf filed under it. */
  ghost predicate Flattened(prefix: string, t: Value, visited: set<string>, out: Flat) {
    && (forall p: Path | p != [] && p[0] in visited && LeafAt(t, p).Some? :: DotKey(prefix, p) in out)
    && (forall key | key in out :: exists p :: Files(prefix, t, p, out, key))
  }

  lemma LeafBelow(prefix: string, t: Value, k: string, p: Path)
    requires IsTable(t) && k in t.slots
    ensures LeafAt(t, [k] + p) == LeafAt(t.slots[k], p)
    ensures DotKey(prefix, [k] + p) == DotKey(Extend(prefix, k), p)
  {
    assert ([k] + p)[1..] == p;
  }

  /** Adding what the recursive call returned, or the single leaf k itself. */
  lemma FlattenMore(prefix: string, t: Value, visited: set<string>, out: Flat, k: string, sub: Flat)
    requires IsTable(t) && k in t.slots && Flattened(prefix, t, visited, out)
    requires if IsTable(t.slots[k]) then Flattened(Extend(prefix, k), t.slots[k], t.slots[k].slots.Keys, sub)
             else sub == map[Extend(prefix, k) := t.slots[k]]
    ensures Flattened(prefix, t, visited + {k}, out + sub)
  {
    forall p: Path | p != [] && p[0] in visited + {k} && LeafAt(t, p).Some?
      ensures DotKey(prefix, p) in out + sub
    {
      if p[0] == k { LeafBelow(prefix, t, k, p[1..]); assert p == [k] + p[1..]; }
    }
    forall key | key in out + sub
      ensures exists p :: Files(prefix, t, p, out + sub, key)
    {
      if key !in sub {
        var p :| Files(prefix, t, p, out, key);
        assert Files(prefix, t, p, out + sub, key);
      } else if IsTable(t.slots[k]) {
        var p :| Files(Extend(prefix, k), t.slots[k], p, sub, key);
        LeafBelow(prefix, t, k, p);
        assert Files(prefix, t, [k] + p, out + sub, key);
      } else {
        LeafBelow(prefix, t, k, []);
        assert Files(prefix, t, [k] + [], out + sub, key);
      }
    }
  }

  /** flatten, visiting each map in any order. */
  method Flatten(prefix: string, t: Value) returns (out: Flat)
    requires IsTable(t)
    ensures Flattened(prefix, t, t.slots.Keys, out)
    decreases t
  {
    out := map[];
    var todo := t.slots.Keys;
    ghost var visited: set<string> := {};
    while todo != {}
      invariant todo <= t.slots.Keys && visited == t.slots.Keys - todo
      invariant Flattened(prefix, t, visited, out)
    {
      var k :| k in todo;
      var sub: Flat;
      if IsTable(t.slots[k]) {
        sub := Flatten(Extend(prefix, k), t.slots[k]);
      } else {
        sub := map[Extend(prefix, k) := t.slots[k]];
      }
      FlattenMore(prefix, t, visited, out, k, sub);
      out := out + sub;
      todo, visited := todo - {k}, visited + {k};
    }
    assert visited == t.slots.Keys;
  }

  // ------------------------------------------------------ dot-keys and paths

  predicate NiceName(k: string) { k != "" && '.' !in k }

  predicate NicePath(p: Path) { forall k | k in p :: NiceName(k) }

  /** What DotKey amounts to. */
  function Join(p: Path): string {
    if p == [] then "" else if |p| == 1 then p[0] else p[0] + "." + Join(p[1..])
  }

  lemma {:induction false} DotKeyIsJoin(prefix: string, p: Path)
    requires NicePath(p)
    ensures DotKey(prefix, p) == if prefix == "" then Join(p) else if p == [] then prefix else prefix + "." + Join(p)
    decreases |p|
  {
    if p != [] {
      assert p[0] in p;
      DotKeyIsJoin(Extend(prefix, p[0]), p[1..]);
      if |p| > 1 && prefix != "" {
        assert prefix + "." + p[0] + "." + Join(p[1..]) == prefix + "." + (p[0] + "." + Join(p[1..]));
      }
    }
  }

  predicate HasPrefix(s: string, t: string) { t <= s }

  predicate KeyMatchesPrefix(key: string, prefix: string) {
    prefix == "" || key == prefix || HasPrefix(key, prefix + ".")
  }

  lemma JoinStartsNice(p: Path)
    requires NicePath(p) && p != []
    ensures Join(p) != "" && Join(p)[0] != '.'
  {
    assert p[0] in p && p[0][0] in p[0];
  }

  lemma DotFollows(s: string, key: string)
    ensures s + "." <= key <==> |s| < |key| && key[|s|] == '.' && key[..|s|] == s
  {
    if s + "." <= key { assert key[|s|] == (s + ".")[|s|]; }
  }

  /** Peeling one name off a key. */
  lemma PrefixOfCons(k: string, rest: string, s: string)
    requires NiceName(k) && rest != "" && rest[0] != '.' && s != ""
    ensures KeyMatchesPrefix(k + "." + rest, s) <==>
              s == k || (|s| > |k| + 1 && s == k + "." + s[|k| + 1..] && KeyMatchesPrefix(rest, s[|k| + 1..]))
  {
    var key := k + "." + rest;
    DotFollows(s, key);
    assert key[..|k|] == k && key[..|k| + 1] == k + "." && key[|k| + 1..] == rest;
    assert forall i | 0 <= i < |k| :: key[i] == k[i] && k[i] in k;
    if |s| > |k| + 1 {
      var s' := s[|k| + 1..];
      DotFollows(s', rest);
      if s == key { assert s' == rest; }
      if s + "." <= key {
        assert s[..|k| + 1] == key[..|s|][..|k| + 1] == k + ".";
        assert s' == key[..|s|][|k| + 1..] == rest[..|s'|];
      }
      if s == k + "." + s' && s' + "." <= rest {
        assert s + "." == k + "." + (s' + ".");
      }
    }
  }

  ghost predicate KeyOfAncestor(p: Path, s: string) { exists q :: q <= p && Join(q) == s }

  /** A prefix matches the key of a path exactly if it is the key of one of its ancestors, or of itself. */
  lemma {:induction false} MatchesAncestors(p: Path, s: string)
    requires NicePath(p)
    ensures KeyMatchesPrefix(Join(p), s) <==> KeyOfAncestor(p, s)
    decreases |p|
  {
    if s == "" {
      assert [] <= p && Join([]) == s;
    } else if p == [] {
      assert forall q: Path | q <= p :: Join(q) == "";
    } else if |p| == 1 {
      var k := p[0];
      assert k in p;
      DotFollows(s, k);
      forall q: Path | q <= p ensures Join(q) == "" || Join(q) == k { assert q == [] || q == p; }
      if s == k { assert p <= p && Join(p) == s; }
    } else {
      var k, rest := p[0], p[1..];
      assert k in p && NicePath(rest);
      JoinStartsNice(rest);
      PrefixOfCons(k, Join(rest), s);
      AncestorOfCons(p, s);
      if |s| > |k| + 1 { MatchesAncestors(rest, s[|k| + 1..]); }
    }
  }

  lemma AncestorOfCons(p: Path, s: string)
    requires NicePath(p) && |p| > 1 && s != ""
    ensures KeyOfAncestor(p, s) <==>
              s == p[0]
              || (|s| > |p[0]| + 1 && s == p[0] + "." + s[|p[0]| + 1..] && KeyOfAncestor(p[1..], s[|p[0]| + 1..]))
  {
    var k := p[0];
    if KeyOfAncestor(p, s) {
      var q :| q <= p && Join(q) == s;
      assert q[0] == k;
      if |q| > 1 {
        assert q[1..] <= p[1..];
        JoinStartsNice(q[1..]);
        assert s[|k| + 1..] == Join(q[1..]);
      }
    }
    if s == k {
      assert [k] <= p && Join([k]) == s;
    } else if |s| > |k| + 1 && s == k + "." + s[|k| + 1..] && KeyOfAncestor(p[1..], s[|k| + 1..]) {
      var q :| q <= p[1..] && Join(q) == s[|k| + 1..];
      assert [k] + q <= p && ([k] + q)[1..] == q;
      assert Join([k] + q) == s;
    }
  }

  /** The first name of a key is what comes before its first dot. */
  lemma SameFirstName(k: string, rest: string, j: string, rest': string)
    requires NiceName(k) && NiceName(j) && k + "." + rest == j + "." + rest'
    ensures k == j && rest == rest'
  {
    var key := k + "." + rest;
    assert forall i | 0 <= i < |k| :: key[i] == k[i] && k[i] in k;
    assert forall i | 0 <= i < |j| :: key[i] == j[i] && j[i] in j;
    assert key[|k|] == '.' && key[|j|] == '.';
    assert key[..|k|] == k && key[..|j|] == j;
    assert key[|k| + 1..] == rest && key[|j| + 1..] == rest';
  }

  lemma LongHasDot(p: Path)
    ensures |p| > 1 ==> '.' in Join(p)
  {
    if |p| > 1 { assert Join(p)[|p[0]|] == '.'; }
  }

  /** Different paths have different keys. */
  lemma {:induction false} JoinInjective(p: Path, q: Path)
    requires NicePath(p) && NicePath(q) && Join(p) == Join(q)
    ensures p == q
    decreases |p|
  {
    if p == [] || q == [] {
      if p != [] { JoinStartsNice(p); }
      if q != [] { JoinStartsNice(q); }
    } else {
      assert p[0] in p && q[0] in q;
      if |p| > 1 && |q| > 1 {
        SameFirstName(p[0], Join(p[1..]), q[0], Join(q[1..]));
        JoinInjective(p[1..], q[1..]);
        assert p == [p[0]] + p[1..] && q == [q[0]] + q[1..];
      } else {
        LongHasDot(p);
        LongHasDot(q);
      }
    }
  }

  /** For such names the string test is the path test: a listener's prefix matches the key of a leaf
      exactly if its path is a prefix of the leaf's. */
  lemma PrefixIsPathPrefix(p: Path, q: Path)
    requires NicePath(p) && NicePath(q)
    ensures KeyMatchesPrefix(DotKey("", p), DotKey("", q)) <==> q <= p
    ensures DotKey("", p) == DotKey("", q) <==> p == q
  {
    DotKeyIsJoin("", p);
    DotKeyIsJoin("", q);
    MatchesAncestors(p, Join(q));
    if Join(p) == Join(q) { JoinInjective(p, q); }
    if KeyOfAncestor(p, Join(q)) {
      var r :| r <= p && Join(r) == Join(q);
      forall k | k in r ensures NiceName(k) { var i :| 0 <= i < |r| && r[i] == k; assert p[i] == k && k in p; }
      JoinInjective(r, q);
    }
  }

  function Before(s: string, c: char): (i: nat)
    ensures i <= |s| && (i < |s| <==> c in s) && (i < |s| ==> s[i] == c)
  {
    if s == "" || s[0] == c then 0 else 1 + Before(s[1..], c)
  }

  /** The condition on names is exact: with any other name the string test is wrong for some paths. */
  lemma OtherNamesMislead(k: string)
    requires !NiceName(k)
    ensures exists p: Path, q: Path :: (k in p || k in q) && KeyMatchesPrefix(DotKey("", p), DotKey("", q)) && !(q <= p)
  {
    if k == "" {
      var p: Path, q: Path := ["x"], [""];
      assert DotKey("", p) == "x" by { assert p[1..] == []; }
      assert DotKey("", q) == "" by { assert q[1..] == []; }
      assert k in q && KeyMatchesPrefix(DotKey("", p), DotKey("", q)) && !(q <= p);
    } else {
      var i := Before(k, '.');
      var p: Path, q: Path := [k], [k[..i]];
      assert DotKey("", p) == k by { assert p[1..] == []; }
      assert DotKey("", q) == k[..i] by { assert q[1..] == []; }
      DotFollows(k[..i], k);
      assert k in p && KeyMatchesPrefix(DotKey("", p), DotKey("", q)) && !(q <= p);
    }
  }

  // ------------------------------------------------------------------ fireDiff

  /** fmt.Sprintf("%v", …), by which equalScalar compares. */
  type Render = Value -> string

  datatype Change = Change(before: Option<Value>, after: Option<Value>)

  function At(flat: Flat, key: string): Option<Value> { if key in flat then Some(flat[key]) else None }

  /** changed holds the keys that are in one map only or rendered differently, with what they hold in both. */
  ghost predicate IsDiff(render: Render, oldFlat: Flat, newFlat: Flat, changed: map<string, Change>) {
    && (forall key :: key in changed <==>
          || (key in oldFlat) != (key in newFlat)
          || (key in oldFlat && key in newFlat && render(oldFlat[key]) != render(newFlat[key])))
    && (forall key | key in changed :: changed[key] == Change(At(oldFlat, key), At(newFlat, key)))
  }

  /** The two loops that collect the changed keys. */
  method Diff(render: Render, oldFlat: Flat, newFlat: Flat) returns (changed: map<string, Change>)
    ensures IsDiff(render, oldFlat, newFlat, changed)
    ensures forall key :: key in changed <==>
              || (key in oldFlat) != (key in newFlat)
              || (key in oldFlat && key in newFlat && render(oldFlat[key]) != render(newFlat[key]))
  {
    changed := map[];
    var todo := newFlat.Keys;
    while todo != {}
      invariant todo <= newFlat.Keys
      invariant forall key :: key in changed <==>
                  key in newFlat && key !in todo && (key !in oldFlat || render(oldFlat[key]) != render(newFlat[key]))
      invariant forall key | key in changed :: changed[key] == Change(At(oldFlat, key), At(newFlat, key))
    {
      var k :| k in todo;
      if k !in oldFlat || render(oldFlat[k]) != render(newFlat[k]) {
        changed := changed[k := Change(At(oldFlat, k), Some(newFlat[k]))];
      }
      todo := todo - {k};
    }
    todo := oldFlat.Keys;
    while todo != {}
      invariant todo <= oldFlat.Keys
      invariant forall key :: key in changed <==>
                  || (key in newFlat && (key !in oldFlat || render(oldFlat[key]) != render(newFlat[key])))
                  || (key in oldFlat && key !in newFlat && key !in todo)
      invariant forall key | key in changed :: changed[key] == Change(At(oldFlat, key), At(newFlat, key))
    {
      var k :| k in todo;
      if k !in newFlat {
        changed := changed[k := Change(Some(oldFlat[k]), None)];
      }
      todo := todo - {k};
    }
  }

  type Prefixes = Option<set<string>>

  /** isHotReloadable; None means that everything is. */
  predicate IsHotReloadable(hot: Prefixes, key: string) {
    hot.None? || exists prefix | prefix in hot.value :: KeyMatchesPrefix(key, prefix)
  }

  /** A call of a listener registered under prefix. */
  datatype Call = Call(prefix: string, fn: nat, change: Change)

  function Calls(prefix: string, fns: seq<nat>, c: Change): (calls: seq<Call>)
    ensures |calls| == |fns| && forall i | 0 <= i < |fns| :: calls[i] == Call(prefix, fns[i], c)
  {
    seq(|fns|, i requires 0 <= i < |fns| => Call(prefix, fns[i], c))
  }

  predicate Triggers(hot: Prefixes, prefix: string, key: string) {
    KeyMatchesPrefix(key, prefix) && IsHotReloadable(hot, key)
  }

  ghost predicate Triggered(hot: Prefixes, prefix: string, changed: map<string, Change>) {
    exists key :: key in changed && Triggers(hot, prefix, key)
  }

  /** Each of fns is called exactly once, in order of registration and for one and the same change that
      triggers it; or none is called and nothing triggers them. */
  ghost predicate FiredOnce(hot: Prefixes, prefix: string, fns: seq<nat>, changed: map<string, Change>,
                            calls: seq<Call>) {
    if Triggered(hot, prefix, changed)
    then exists key :: key in changed && Triggers(hot, prefix, key) && calls == Calls(prefix, fns, changed[key])
    else calls == []
  }

  /** The inner loops of fireDiff, visiting the changes in any order. */
  method FirePrefix(hot: Prefixes, prefix: string, fns: seq<nat>, changed: map<string, Change>)
    returns (calls: seq<Call>)
    ensures FiredOnce(hot, prefix, fns, changed, calls)
  {
    calls := [];
    var todo := changed.Keys;
    while todo != {}
      invariant todo <= changed.Keys && calls == []
      invariant forall key | key in changed && key !in todo :: !Triggers(hot, prefix, key)
    {
      var key :| key in todo;
      todo := todo - {key};
      if !KeyMatchesPrefix(key, prefix) || !IsHotReloadable(hot, key) {
        continue;
      }
      assert Triggers(hot, prefix, key);
      for i := 0 to |fns|
        invariant calls == Calls(prefix, fns[..i], changed[key])
      {
        calls := calls + [Call(prefix, fns[i], changed[key])];
      }
      assert fns[..|fns|] == fns;
      return;
    }
  }

  /** The calls of the listeners registered under prefix. */
  function CallsOf(calls: seq<Call>, prefix: string): seq<Call> {
    if calls == [] then [] else
      var n := |calls| - 1;
      CallsOf(calls[..n], prefix) + if calls[n].prefix == prefix then [calls[n]] else []
  }

  lemma {:induction false} CallsOfMore(calls: seq<Call>, more: seq<Call>, k: string, prefix: string)
    requires forall c | c in more :: c.prefix == k
    ensures CallsOf(calls + more, prefix) ==
              if prefix == k then CallsOf(calls, prefix) + more else CallsOf(calls, prefix)
  {
    if more == [] {
      assert calls + more == calls;
    } else {
      var n := |more| - 1;
      CallsOfMore(calls, more[..n], k, prefix);
      assert (calls + more)[..|calls| + n] == calls + more[..n];
      assert more[n] in more && more == more[..n] + [more[n]];
    }
  }

  /** Each of fns is called exactly once, in order of registration. */
  predicate EachOnce(calls: seq<Call>, fns: seq<nat>) {
    |calls| == |fns| && forall i | 0 <= i < |fns| :: calls[i].fn == fns[i]
  }

  /** The listeners under the prefixes visited have been called as they should, and no others. */
  ghost predicate FiredFor(hot: Prefixes, listeners: map<string, seq<nat>>, visited: set<string>,
                           changed: map<string, Change>, calls: seq<Call>)
    requires visited <= listeners.Keys
  {
    && (forall prefix | prefix in visited :: FiredOnce(hot, prefix, listeners[prefix], changed, CallsOf(calls, prefix)))
    && (forall prefix | prefix !in visited :: CallsOf(calls, prefix) == [])
  }

  lemma FiredMore(hot: Prefixes, listeners: map<string, seq<nat>>, visited: set<string>, changed: map<string, Change>,
                  calls: seq<Call>, prefix: string, more: seq<Call>)
    requires visited <= listeners.Keys && FiredFor(hot, listeners, visited, changed, calls)
    requires prefix in listeners && prefix !in visited && FiredOnce(hot, prefix, listeners[prefix], changed, more)
    ensures FiredFor(hot, listeners, visited + {prefix}, changed, calls + more)
  {
    CallsAlike(hot, prefix, listeners[prefix], changed, more);
    forall other ensures CallsOf(calls + more, other) == if other == prefix then more else CallsOf(calls, other) {
      CallsOfMore(calls, more, prefix, other);
      if other == prefix { assert CallsOf(calls, other) == [] && [] + more == more; }
    }
    forall other | other in visited + {prefix}
      ensures FiredOnce(hot, other, listeners[other], changed, CallsOf(calls + more, other))
    {
    }
  }

  lemma CallsAlike(hot: Prefixes, prefix: string, fns: seq<nat>, changed: map<string, Change>, calls: seq<Call>)
    requires FiredOnce(hot, prefix, fns, changed, calls)
    ensures forall c | c in calls :: c.prefix == prefix
  {
  }

  class Loader {
    const hotReload: Prefixes
    const render: Render
    var listeners: map<string, seq<nat>>

    constructor (hotReload: Prefixes, render: Render)
      ensures this.hotReload == hotReload && this.render == render && listeners == map[]
    {
      this.hotReload, this.render, listeners := hotReload, render, map[];
    }

    /** OnChange. */
    method OnChange(prefix: string, fn: nat)
      modifies this
      ensures listeners ==
                old(listeners)[prefix := (if prefix in old(listeners) then old(listeners)[prefix] else []) + [fn]]
    {
      var fns := if prefix in listeners then listeners[prefix] else [];
      listeners := listeners[prefix := fns + [fn]];
    }

    /** The outer loop of fireDiff, visiting the listeners in any order. */
    method FireAll(changed: map<string, Change>) returns (calls: seq<Call>)
      ensures FiredFor(hotReload, listeners, listeners.Keys, changed, calls)
    {
      calls := [];
      var todo := listeners.Keys;
      ghost var visited: set<string> := {};
      while todo != {}
        invariant todo <= listeners.Keys && visited == listeners.Keys - todo
        invariant FiredFor(hotReload, listeners, visited, changed, calls)
      {
        var prefix :| prefix in todo;
        var more := FirePrefix(hotReload, prefix, listeners[prefix], changed);
        FiredMore(hotReload, listeners, visited, changed, calls, prefix, more);
        calls := calls + more;
        todo, visited := todo - {prefix}, visited + {prefix};
      }
      assert visited == listeners.Keys;
    }

    /** fireDiff on two settings trees; calls are the listener calls in the order they are made. */
    method FireDiff(oldTree: Value, newTree: Value) returns (calls: seq<Call>)
      requires IsTable(oldTree) && IsTable(newTree)
      ensures exists oldFlat, newFlat, changed ::
                && Flattened("", oldTree, oldTree.slots.Keys, oldFlat)
                && Flattened("", newTree, newTree.slots.Keys, newFlat)
                && IsDiff(render, oldFlat, newFlat, changed)
                && FiredFor(hotReload, listeners, listeners.Keys, changed, calls)
      ensures NiceTree(oldTree) && NiceTree(newTree) ==>
                FiredOnTrees(hotReload, render, oldTree, newTree, listeners, calls)
      ensures NiceTree(oldTree) && NiceTree(newTree) ==>
                forall p, prefix | prefix in listeners && KeyOfAncestor(p, prefix)
                                   && (hotReload.None? || exists h :: h in hotReload.value && KeyOfAncestor(p, h))
                                   && (LeafAt(oldTree, p).Some? != LeafAt(newTree, p).Some?
                                       || (LeafAt(oldTree, p).Some? && LeafAt(newTree, p).Some?
                                           && render(LeafAt(oldTree, p).value) != render(LeafAt(newTree, p).value))) ::
                  EachOnce(CallsOf(calls, prefix), listeners[prefix])
      ensures NiceTree(oldTree) && NiceTree(newTree) ==>
                forall prefix | prefix in listeners && CallsOf(calls, prefix) != [] ::
                  exists p :: KeyOfAncestor(p, prefix)
                              && (hotReload.None? || exists h :: h in hotReload.value && KeyOfAncestor(p, h))
                              && (LeafAt(oldTree, p).Some? != LeafAt(newTree, p).Some?
                                  || (LeafAt(oldTree, p).Some? && LeafAt(newTree, p).Some?
                                      && render(LeafAt(oldTree, p).value) != render(LeafAt(newTree, p).value)))
    {
      var oldFlat := Flatten("", oldTree);
      var newFlat := Flatten("", newTree);
      var changed := Diff(render, oldFlat, newFlat);
      if |changed| == 0 {
        calls := [];
      } else {
        calls := FireAll(changed);
      }
      assert FiredFor(hotReload, listeners, listeners.Keys, changed, calls);
      if NiceTree(oldTree) && NiceTree(newTree) {
        CallsOnTrees(hotReload, render, oldTree, newTree, oldFlat, newFlat, changed, listeners, calls);
        CallsOnPaths(hotReload, render, oldTree, newTree, listeners, calls);
      }
    }
  }

  // ------------------------------------------------------- what it means on trees

  ghost predicate NiceTree(t: Value) { forall p | LeafAt(t, p).Some? :: NicePath(p) }

  /** There is a leaf at p in one of the trees only, or in both with different renderings. */
  ghost predicate LeafChanged(render: Render, oldTree: Value, newTree: Value, p: Path) {
    var a, b := LeafAt(oldTree, p), LeafAt(newTree, p);
    a.Some? != b.Some? || (a.Some? && b.Some? && render(a.value) != render(b.value))
  }

  /** p lies under one of the hot-reloadable paths. */
  ghost predicate Hot(hot: Prefixes, p: Path) {
    hot.None? || exists prefix :: prefix in hot.value && KeyOfAncestor(p, prefix)
  }

  lemma FlatLeaf(t: Value, flat: Flat, p: Path)
    requires IsTable(t) && NiceTree(t) && Flattened("", t, t.slots.Keys, flat) && NicePath(p)
    ensures At(flat, DotKey("", p)) == LeafAt(t, p)
  {
    if DotKey("", p) in flat {
      var q :| Files("", t, q, flat, DotKey("", p));
      PrefixIsPathPrefix(p, q);
    }
  }

  /** Some leaf in the subtree at prefix changed and lies under a hot-reloadable path. */
  ghost predicate SubtreeChanged(hot: Prefixes, render: Render, oldTree: Value, newTree: Value, prefix: string) {
    exists p :: LeafChanged(render, oldTree, newTree, p) && KeyOfAncestor(p, prefix) && Hot(hot, p)
  }

  /** The calls made for prefix are each of its listeners once, with the old and new value of a leaf p in its subtree
      that changed and lies under a hot-reloadable path. */
  ghost predicate FiredFrom(hot: Prefixes, render: Render, oldTree: Value, newTree: Value, prefix: string,
                            fns: seq<nat>, calls: seq<Call>, p: Path) {
    && LeafChanged(render, oldTree, newTree, p) && KeyOfAncestor(p, prefix) && Hot(hot, p)
    && calls == Calls(prefix, fns, Change(LeafAt(oldTree, p), LeafAt(newTree, p)))
  }

  /** Each listener is called exactly once if its subtree changed, and not at all otherwise. */
  ghost predicate FiredOnTrees(hot: Prefixes, render: Render, oldTree: Value, newTree: Value,
                               listeners: map<string, seq<nat>>, calls: seq<Call>) {
    forall prefix | prefix in listeners ::
      if SubtreeChanged(hot, render, oldTree, newTree, prefix)
      then exists p :: FiredFrom(hot, render, oldTree, newTree, prefix, listeners[prefix], CallsOf(calls, prefix), p)
      else CallsOf(calls, prefix) == []
  }

  /** For trees with such names, a change triggers a prefix exactly if some leaf in the subtree at its path
      changed and lies under a hot-reloadable path, whatever order the maps are visited in. */
  lemma FiresIffSubtreeChanged(render: Render, hot: Prefixes, oldTree: Value, newTree: Value, oldFlat: Flat,
                               newFlat: Flat, changed: map<string, Change>, prefix: string)
    requires IsTable(oldTree) && NiceTree(oldTree) && Flattened("", oldTree, oldTree.slots.Keys, oldFlat)
    requires IsTable(newTree) && NiceTree(newTree) && Flattened("", newTree, newTree.slots.Keys, newFlat)
    requires IsDiff(render, oldFlat, newFlat, changed)
    ensures Triggered(hot, prefix, changed) <==> SubtreeChanged(hot, render, oldTree, newTree, prefix)
  {
    if Triggered(hot, prefix, changed) {
      var key :| key in changed && Triggers(hot, prefix, key);
      var p := PathOfKey(oldTree, newTree, oldFlat, newFlat, key);
      KeyFacts(render, hot, oldTree, newTree, oldFlat, newFlat, p, prefix);
    }
    if p :| LeafChanged(render, oldTree, newTree, p) && KeyOfAncestor(p, prefix) && Hot(hot, p) {
      KeyFacts(render, hot, oldTree, newTree, oldFlat, newFlat, p, prefix);
      assert DotKey("", p) in changed && Triggers(hot, prefix, DotKey("", p));
    }
  }

  lemma CallsOnTrees(hot: Prefixes, render: Render, oldTree: Value, newTree: Value, oldFlat: Flat, newFlat: Flat,
                     changed: map<string, Change>, listeners: map<string, seq<nat>>, calls: seq<Call>)
    requires IsTable(oldTree) && NiceTree(oldTree) && Flattened("", oldTree, oldTree.slots.Keys, oldFlat)
    requires IsTable(newTree) && NiceTree(newTree) && Flattened("", newTree, newTree.slots.Keys, newFlat)
    requires IsDiff(render, oldFlat, newFlat, changed) && FiredFor(hot, listeners, listeners.Keys, changed, calls)
    ensures FiredOnTrees(hot, render, oldTree, newTree, listeners, calls)
  {
    forall prefix | prefix in listeners
      ensures if SubtreeChanged(hot, render, oldTree, newTree, prefix)
              then exists p ::
                     FiredFrom(hot, render, oldTree, newTree, prefix, listeners[prefix], CallsOf(calls, prefix), p)
              else CallsOf(calls, prefix) == []
    {
      FiresIffSubtreeChanged(render, hot, oldTree, newTree, oldFlat, newFlat, changed, prefix);
      var fired := CallsOf(calls, prefix);
      assert FiredOnce(hot, prefix, listeners[prefix], changed, fired);
      if Triggered(hot, prefix, changed) {
        var key :| key in changed && Triggers(hot, prefix, key)
                   && fired == Calls(prefix, listeners[prefix], changed[key]);
        var p := PathOfKey(oldTree, newTree, oldFlat, newFlat, key);
        KeyFacts(render, hot, oldTree, newTree, oldFlat, newFlat, p, prefix);
        assert FiredFrom(hot, render, oldTree, newTree, prefix, listeners[prefix], fired, p);
      }
    }
  }

  lemma CallsOnPaths(hot: Prefixes, render: Render, oldTree: Value, newTree: Value, listeners: map<string, seq<nat>>,
                     calls: seq<Call>)
    requires FiredOnTrees(hot, render, oldTree, newTree, listeners, calls)
    ensures forall p, prefix | prefix in listeners && KeyOfAncestor(p, prefix)
                       && (hot.None? || exists h :: h in hot.value && KeyOfAncestor(p, h))
                       && (LeafAt(oldTree, p).Some? != LeafAt(newTree, p).Some?
                           || (LeafAt(oldTree, p).Some? && LeafAt(newTree, p).Some?
                               && render(LeafAt(oldTree, p).value) != render(LeafAt(newTree, p).value))) ::
              EachOnce(CallsOf(calls, prefix), listeners[prefix])
    ensures forall prefix | prefix in listeners && CallsOf(calls, prefix) != [] ::
              exists p :: KeyOfAncestor(p, prefix)
                          && (hot.None? || exists h :: h in hot.value && KeyOfAncestor(p, h))
                          && (LeafAt(oldTree, p).Some? != LeafAt(newTree, p).Some?
                              || (LeafAt(oldTree, p).Some? && LeafAt(newTree, p).Some?
                                  && render(LeafAt(oldTree, p).value) != render(LeafAt(newTree, p).value)))
  {
    forall p, prefix | prefix in listeners && KeyOfAncestor(p, prefix) && Hot(hot, p)
                       && LeafChanged(render, oldTree, newTree, p)
      ensures EachOnce(CallsOf(calls, prefix), listeners[prefix])
    {
      assert SubtreeChanged(hot, render, oldTree, newTree, prefix);
      var q :| FiredFrom(hot, render, oldTree, newTree, prefix, listeners[prefix], CallsOf(calls, prefix), q);
    }
    forall prefix | prefix in listeners && CallsOf(calls, prefix) != []
      ensures SubtreeChanged(hot, render, oldTree, newTree, prefix)
    {
    }
  }

  lemma PathOfKey(oldTree: Value, newTree: Value, oldFlat: Flat, newFlat: Flat, key: string) returns (p: Path)
    requires IsTable(oldTree) && Flattened("", oldTree, oldTree.slots.Keys, oldFlat)
    requires IsTable(newTree) && Flattened("", newTree, newTree.slots.Keys, newFlat)
    requires key in oldFlat || key in newFlat
    ensures DotKey("", p) == key && (LeafAt(oldTree, p).Some? || LeafAt(newTree, p).Some?)
  {
    if key in oldFlat {
      p :| Files("", oldTree, p, oldFlat, key);
    } else {
      p :| Files("", newTree, p, newFlat, key);
    }
  }

  lemma KeyFacts(render: Render, hot: Prefixes, oldTree: Value, newTree: Value, oldFlat: Flat, newFlat: Flat, p: Path,
                 prefix: string)
    requires IsTable(oldTree) && NiceTree(oldTree) && Flattened("", oldTree, oldTree.slots.Keys, oldFlat)
    requires IsTable(newTree) && NiceTree(newTree) && Flattened("", newTree, newTree.slots.Keys, newFlat)
    requires LeafAt(oldTree, p).Some? || LeafAt(newTree, p).Some?
    ensures var key := DotKey("", p);
            && At(oldFlat, key) == LeafAt(oldTree, p) && At(newFlat, key) == LeafAt(newTree, p)
            && (Triggers(hot, prefix, key) <==> KeyOfAncestor(p, prefix) && Hot(hot, p))
  {
    FlatLeaf(oldTree, oldFlat, p);
    FlatLeaf(newTree, newFlat, p);
    DotKeyIsJoin("", p);
    MatchesAncestors(p, prefix);
    if hot.Some? {
      forall h | h in hot.value ensures KeyMatchesPrefix(Join(p), h) <==> KeyOfAncestor(p, h) {
        MatchesAncestors(p, h);
      }
    }
  }
}
