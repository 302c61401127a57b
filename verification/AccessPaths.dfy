/**
 The access paths of a type: the paths of fields from the type to its leaves.
 They are collected in a vector that is meant to be a set.
 */
module AccessPaths {
  import opened Seqs

  /** Types are finite trees; a schema has its fields by name. */
  datatype Type = PrimitiveType | EntityType(fields: map<string, Type>)

  /** A path is stored with its last selector first, so that a parent can be pushed onto the end. */
  datatype AccessPath = AccessPath(reverseSelectors: seq<string>) {

    function WithParent(parent: string): AccessPath {
      AccessPath(reverseSelectors + [parent])
    }

    /** The selectors from parent to child. */
    function Selectors(): seq<string> {
      Reversed(reverseSelectors)
    }
  }

  function Reversed(s: seq<string>): seq<string> {
    if s == [] then [] else [s[|s| - 1]] + Reversed(s[..|s| - 1])
  }

  lemma WithParentAddsFirst(p: AccessPath, parent: string)
    ensures p.WithParent(parent).Selectors() == [parent] + p.Selectors()
  {
  }

  /** Different stored paths are different paths. */
  lemma {:induction false} ReversedIsInjective(s: seq<string>, t: seq<string>)
    requires Reversed(s) == Reversed(t)
    ensures s == t
    decreases |s|
  {
    if s != [] && t != [] {
      var (m, n) := (|s| - 1, |t| - 1);
      assert Reversed(s)[0] == s[m] && Reversed(t)[0] == t[n];
      assert Reversed(s)[1..] == Reversed(s[..m]) && Reversed(t)[1..] == Reversed(t[..n]);
      ReversedIsInjective(s[..m], t[..n]);
      assert s == s[..m] + [s[m]] && t == t[..n] + [t[n]];
    }
  }

  // ---------- What the paths of a type are ----------

  /** Following the fields of `path` from `t` ends at a leaf: a primitive type or a schema without fields. */
  predicate IsLeafPath(t: Type, path: seq<string>)
    decreases |path|
  {
    match t
    case PrimitiveType => path == []
    case EntityType(fields) =>
      if fields == map[] then path == []
      else path != [] && path[0] in fields && IsLeafPath(fields[path[0]], path[1..])
  }

  ghost function LeafCount(t: Type): nat
    decreases t, 1, 0
  {
    match t
    case PrimitiveType => 1
    case EntityType(fields) => if fields == map[] then 1 else LeavesBelow(t, fields.Keys)
  }

  /** The number of leaves below the given fields of a schema. */
  ghost function LeavesBelow(t: Type, names: set<string>): nat
    requires t.EntityType? && names <= t.fields.Keys
    decreases t, 0, |names|
  {
    if names == {} then 0
    else
      var name :| name in names;
      LeafCount(t.fields[name]) + LeavesBelow(t, names - {name})
  }

  lemma {:induction false} LeavesBelowOneMore(t: Type, names: set<string>, name: string)
    requires t.EntityType? && names <= t.fields.Keys && name in names
    ensures LeavesBelow(t, names) == LeafCount(t.fields[name]) + LeavesBelow(t, names - {name})
    decreases |names|
  {
    var n :| n in names && LeavesBelow(t, names) == LeafCount(t.fields[n]) + LeavesBelow(t, names - {n});
    if n != name {
      LeavesBelowOneMore(t, names - {n}, name);
      LeavesBelowOneMore(t, names - {name}, n);
      assert names - {n} - {name} == names - {name} - {n};
    }
  }

  // ---------- The vector-backed set ----------

  predicate HasNoDuplicates(v: seq<AccessPath>) {
    forall i, j :: 0 <= i < j < |v| ==> v[i] != v[j]
  }

  /** Appends, without looking for duplicates. */
  function Union(a: seq<AccessPath>, b: seq<AccessPath>): seq<AccessPath> {
    a + b
  }

  method AddParentToAll(parent: string, children: seq<AccessPath>) returns (r: seq<AccessPath>)
    ensures |r| == |children|
    ensures forall i :: 0 <= i < |r| ==> r[i] == children[i].WithParent(parent)
  {
    r := [];
    for i := 0 to |children|
      invariant |r| == i
      invariant forall j :: 0 <= j < i ==> r[j] == children[j].WithParent(parent)
    {
      r := r + [children[i].WithParent(parent)];
    }
  }

  /** The elements of the second set that are in the first, in their order. */
  function Common(a: seq<AccessPath>, b: seq<AccessPath>): seq<AccessPath> {
    if b == [] then []
    else Common(a, b[..|b| - 1]) + if b[|b| - 1] in a then [b[|b| - 1]] else []
  }

  method Intersect(a: seq<AccessPath>, b: seq<AccessPath>) returns (r: seq<AccessPath>)
    ensures r == Common(a, b)
    ensures forall p :: p in r <==> p in a && p in b
    ensures HasNoDuplicates(b) ==> HasNoDuplicates(r)
  {
    var lookup := set p | p in a;
    r := [];
    for i := 0 to |b|
      invariant r == Common(a, b[..i])
      invariant forall p :: p in r <==> p in a && p in b[..i]
      invariant HasNoDuplicates(b) ==> HasNoDuplicates(r)
    {
      assert b[..i + 1] == b[..i] + [b[i]];
      assert b[..i + 1][..i] == b[..i];
      if b[i] in lookup {
        if HasNoDuplicates(b) {
          forall j | 0 <= j < |r|
            ensures r[j] != b[i]
          {
            assert r[j] in r;
          }
        }
        InAppended(r, b[i]);
        r := r + [b[i]];
      }
    }
    assert b[..|b|] == b;
  }

  lemma InAppended(r: seq<AccessPath>, p: AccessPath)
    ensures forall q :: q in r + [p] <==> q in r || q == p
  {
  }

  function Elements(v: seq<AccessPath>): set<AccessPath> {
    set p | p in v
  }

  /** Making it a real set loses nothing when there are no duplicates. */
  lemma {:induction false} ElementsCount(v: seq<AccessPath>)
    requires HasNoDuplicates(v)
    ensures |Elements(v)| == |v|
  {
    if v != [] {
      var n := |v| - 1;
      ElementsCount(v[..n]);
      forall p
        ensures p in v <==> p in v[..n] || p == v[n]
      {
        InInitOrLast(v, p);
      }
      assert Elements(v) == Elements(v[..n]) + {v[n]};
      assert v[n] !in v[..n];
    }
  }

  // ---------- Enumeration ----------

  /** `v` lists exactly the paths to the leaves of `t`, each once. */
  ghost predicate IsExact(t: Type, v: seq<AccessPath>) {
    (forall p: AccessPath :: p in v <==> IsLeafPath(t, p.Selectors())) && HasNoDuplicates(v) && |v| == LeafCount(t)
  }

  /** `p` leads through one of the given fields to a leaf. */
  ghost predicate IsPathBelow(t: Type, names: set<string>, p: AccessPath)
    requires t.EntityType? && names <= t.fields.Keys
  {
    var s := p.Selectors();
    s != [] && s[0] in names && IsLeafPath(t.fields[s[0]], s[1..])
  }

  ghost predicate IsExactBelow(t: Type, names: set<string>, v: seq<AccessPath>)
    requires t.EntityType? && names <= t.fields.Keys
  {
    (forall p: AccessPath :: p in v <==> IsPathBelow(t, names, p)) && HasNoDuplicates(v) && |v| == LeavesBelow(t, names)
  }

  lemma OneMoreFieldPaths(t: Type, name: string, paths: seq<AccessPath>, longer: seq<AccessPath>, p: AccessPath)
    requires t.EntityType? && name in t.fields && IsExact(t.fields[name], paths)
    requires |longer| == |paths| && forall i :: 0 <= i < |longer| ==> longer[i] == paths[i].WithParent(name)
    ensures p in longer <==> IsPathBelow(t, {name}, p)
  {
    hide IsLeafPath, LeafCount;
    if p in longer {
      var i :| 0 <= i < |longer| && longer[i] == p;
      assert paths[i] in paths;
      WithParentAddsFirst(paths[i], name);
    }
    if IsPathBelow(t, {name}, p) {
      var s := p.reverseSelectors;
      var q := AccessPath(s[..|s| - 1]);
      assert p == q.WithParent(name) by {
        assert s == s[..|s| - 1] + [s[|s| - 1]];
      }
      WithParentAddsFirst(q, name);
      assert q in paths;
      var i :| 0 <= i < |paths| && paths[i] == q;
      assert longer[i] == p;
    }
  }

  lemma LongerPathsDiffer(name: string, paths: seq<AccessPath>, longer: seq<AccessPath>)
    requires HasNoDuplicates(paths)
    requires |longer| == |paths| && forall i :: 0 <= i < |longer| ==> longer[i] == paths[i].WithParent(name)
    ensures HasNoDuplicates(longer)
  {
    forall i, j | 0 <= i < j < |longer|
      ensures longer[i] != longer[j]
    {
      var (a, b) := (paths[i].reverseSelectors, paths[j].reverseSelectors);
      assert (a + [name])[..|a|] == a && (b + [name])[..|b|] == b;
    }
  }

  lemma AppendedHasNoDuplicates(v: seq<AccessPath>, w: seq<AccessPath>)
    requires HasNoDuplicates(v) && HasNoDuplicates(w) && forall p :: p in v ==> p !in w
    ensures HasNoDuplicates(v + w)
  {
    forall i, j | 0 <= i < j < |v + w|
      ensures (v + w)[i] != (v + w)[j]
    {
      if i < |v| <= j {
        assert v[i] in v && w[j - |v|] in w;
      }
    }
  }

  /** Paths through different fields differ, so appending the paths of one more field adds no duplicate. */
  lemma OneMoreField(t: Type, names: set<string>, name: string, v: seq<AccessPath>, paths: seq<AccessPath>, longer: seq<AccessPath>)
    requires t.EntityType? && names <= t.fields.Keys && name in t.fields && name !in names
    requires IsExactBelow(t, names, v) && IsExact(t.fields[name], paths)
    requires |longer| == |paths| && forall i :: 0 <= i < |longer| ==> longer[i] == paths[i].WithParent(name)
    ensures IsExactBelow(t, names + {name}, Union(v, longer))
  {
    hide IsLeafPath, AccessPath.WithParent, AccessPath.Selectors, LeafCount, LeavesBelow;
    LongerPathsDiffer(name, paths, longer);
    forall p: AccessPath
      ensures p in longer <==> IsPathBelow(t, {name}, p)
      ensures p in v + longer <==> p in v || p in longer
    {
      OneMoreFieldPaths(t, name, paths, longer, p);
      InConcat(v, longer, p);
    }
    AppendedHasNoDuplicates(v, longer);
    LeavesBelowOneMore(t, names + {name}, name);
    assert names + {name} - {name} == names;
  }

  lemma ExactBelowAll(t: Type, v: seq<AccessPath>)
    requires t.EntityType? && t.fields != map[] && IsExactBelow(t, t.fields.Keys, v)
    ensures IsExact(t, v)
  {
  }

  lemma OnlyEmptyPath(t: Type)
    requires t.PrimitiveType? || t.fields == map[]
    ensures IsExact(t, [AccessPath([])])
  {
  }

  /**
   The access paths of a type: exactly its root-to-leaf paths, one for each
   leaf, and never a duplicate, in whatever order the fields are visited.
   */
  method GetAccessPathSelectorsSet(t: Type) returns (r: seq<AccessPath>)
    ensures IsExact(t, r)
    decreases t
  {
    hide IsExact, IsExactBelow;
    if t.PrimitiveType? || t.fields == map[] {
      OnlyEmptyPath(t);
      return [AccessPath([])];
    }
    r := [];
    var left := t.fields.Keys;
    ghost var done: set<string> := {};
    NothingBelow(t);
    while left != {}
      invariant left + done == t.fields.Keys && left !! done && IsExactBelow(t, done, r)
      decreases left
    {
      var name :| name in left;
      var paths := GetAccessPathSelectorsSet(t.fields[name]);
      var longer := AddParentToAll(name, paths);
      OneMoreField(t, done, name, r, paths, longer);
      r := Union(r, longer);
      left, done := left - {name}, done + {name};
    }
    assert done == t.fields.Keys;
    ExactBelowAll(t, r);
  }

  lemma NothingBelow(t: Type)
    requires t.EntityType?
    ensures IsExactBelow(t, {}, [])
  {
  }
}
