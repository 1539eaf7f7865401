/** The dentry cache as a value: a partial view of the directory tree. */
module DentryCache {
  import opened Results
  import opened Bytes
  import opened DirTable
  import opened Acl
  import opened Volumes
  import opened FsSpec
  import opened FsTree

  const MAX_DENTRIES: nat := 64
  const ROOT: nat := 0

  /** A cache slot, free when nobody refers to it; `node` is the inode it stands for. */
  datatype Dentry = Dentry(refs: nat, name: Name, node: Option<nat>, parent: Option<nat>, children: seq<nat>)

  type Cache = seq<Dentry>

  predicate Alive(c: Cache, d: nat) {
    d < |c| && c[d].refs > 0
  }

  /** Dentry `e` hangs below dentry `d`. */
  ghost predicate ChildOk(c: Cache, d: nat, e: nat) {
    Alive(c, e) && e != ROOT && c[e].parent == Some(d)
  }

  /** The dentries in `k` all hang below `d` and have different names. */
  ghost predicate ListOk(c: Cache, d: nat, k: seq<nat>) {
    (forall i :: 0 <= i < |k| ==> ChildOk(c, d, k[i])) &&
    (forall i, j :: 0 <= i < j < |k| && k[i] < |c| && k[j] < |c| ==> c[k[i]].name != c[k[j]].name)
  }

  ghost predicate ChildrenOk(c: Cache, d: nat)
    requires d < |c|
  {
    ListOk(c, d, c[d].children)
  }

  /** No dentry in `k` has this name. */
  ghost predicate Unused(c: Cache, k: seq<nat>, name: Name) {
    forall i :: 0 <= i < |k| && k[i] < |c| ==> c[k[i]].name != name
  }

  /** All dentries but `e` have the same parent, name and references in both. */
  ghost predicate SameButOne(c: Cache, c': Cache, e: nat) {
    |c'| == |c| && forall a :: 0 <= a < |c| && a != e ==> c'[a].refs == c[a].refs && c'[a].parent == c[a].parent && c'[a].name == c[a].name
  }

  lemma ListSame(c: Cache, c': Cache, d: nat, k: seq<nat>, e: nat)
    requires ListOk(c, d, k) && SameButOne(c, c', e) && e !in k
    ensures ListOk(c', d, k)
  {
    forall i | 0 <= i < |k| ensures ChildOk(c', d, k[i]) && c'[k[i]].name == c[k[i]].name { assert ChildOk(c, d, k[i]); }
  }

  lemma ListMore(c: Cache, d: nat, k: seq<nat>, e: nat)
    requires ListOk(c, d, k) && ChildOk(c, d, e) && Unused(c, k, c[e].name)
    ensures ListOk(c, d, [e] + k)
  {
    var k' := [e] + k;
    assert forall i :: 0 < i < |k'| ==> k'[i] == k[i - 1];
    forall i, j | 0 <= i < j < |k'| && k'[i] < |c| && k'[j] < |c| ensures c[k'[i]].name != c[k'[j]].name {
      if i == 0 { assert c[k[j - 1]].name != c[e].name; } else { assert c[k[i - 1]].name != c[k[j - 1]].name; }
    }
  }

  lemma ListLess(c: Cache, d: nat, k: seq<nat>, i: nat)
    requires ListOk(c, d, k) && i < |k|
    ensures ListOk(c, d, k[..i] + k[i + 1..]) && k[i] !in k[..i] + k[i + 1..]
    ensures forall x :: x in k && x != k[i] ==> x in k[..i] + k[i + 1..]
  {
    var k' := k[..i] + k[i + 1..];
    assert forall j :: 0 <= j < |k'| ==> k'[j] == k[if j < i then j else j + 1];
    forall j | 0 <= j < |k'| ensures k'[j] != k[i] {
      var j' := if j < i then j else j + 1;
      assert ChildOk(c, d, k[j']) && ChildOk(c, d, k[i]);
      if j' < i { assert c[k[j']].name != c[k[i]].name; } else { assert c[k[i]].name != c[k[j']].name; }
    }
    forall x | x in k && x != k[i] ensures x in k' { StillListed(k, i, x); }
  }

  /** The edge from a dentry to its parent is a directory entry. */
  ghost predicate LinkOk(c: Cache, fs: Fs, d: nat)
    requires d < |c|
  {
    c[d].parent.Some? && c[d].node.Some? &&
    var p := c[d].parent.value;
    Alive(c, p) && d in c[p].children && c[p].node.Some? && c[p].node.value in fs &&
    c[d].name in fs[c[p].node.value].entries && fs[c[p].node.value].entries[c[d].name].ino == c[d].node.value
  }

  ghost predicate DentOk(c: Cache, fs: Fs, d: nat) {
    Alive(c, d) && c[d].node.Some? && c[d].node.value in fs && ChildrenOk(c, d) && (d != ROOT ==> LinkOk(c, fs, d))
  }

  /** The cache is a part of the tree: it starts at the root, and every edge in it is an
      entry of the directory it stands for. */
  ghost predicate Coherent(c: Cache, fs: Fs) {
    |c| == MAX_DENTRIES && Alive(c, ROOT) && c[ROOT].node == Some(ROOT_INO) && c[ROOT].parent.None? &&
    forall d {:trigger DentOk(c, fs, d)} :: 0 <= d < |c| && c[d].refs > 0 ==> DentOk(c, fs, d)
  }

  ghost function NodeOf(c: Cache, d: nat): nat {
    if d < |c| && c[d].node.Some? then c[d].node.value else 0
  }

  lemma DentFact(c: Cache, fs: Fs, d: nat)
    requires Coherent(c, fs) && Alive(c, d)
    ensures DentOk(c, fs, d)
  {
  }

  // A cached edge, as a named entry of the tree.
  lemma LinkNamed(c: Cache, fs: Fs, home: Homes, d: nat)
    requires Coherent(c, fs) && FsNamed(fs, home) && Alive(c, d) && d != ROOT
    ensures LinkOk(c, fs, d)
    ensures var x := NodeOf(c, d);
            x in fs && x != ROOT_INO && x in home && home[x] == Place(NodeOf(c, c[d].parent.value), c[d].name)
  {
    hide Coherent;
    DentFact(c, fs, d);
    assert EntryNamed(fs, home, NodeOf(c, c[d].parent.value), c[d].name);
  }

  /** An inode has at most one dentry. */
  lemma {:induction false} UniqueDentry(c: Cache, fs: Fs, home: Homes, level: Levels, d: nat, e: nat)
    requires Coherent(c, fs) && FsNamed(fs, home) && Ranked(fs, home, level)
    requires Alive(c, d) && Alive(c, e) && NodeOf(c, d) == NodeOf(c, e) && NodeOf(c, d) in level
    ensures d == e
    decreases level[NodeOf(c, d)]
  {
    hide Coherent, FsNamed;
    RootFact(c, fs);
    if d != ROOT { LinkNamed(c, fs, home, d); }
    if e != ROOT { LinkNamed(c, fs, home, e); }
    if d != ROOT && e != ROOT {
      var p, q := c[d].parent.value, c[e].parent.value;
      assert home[NodeOf(c, d)].dir in fs;
      UniqueDentry(c, fs, home, level, p, q);
      DentFact(c, fs, p);
      SameChild(c, p, d, e);
    }
  }

  lemma RootFact(c: Cache, fs: Fs)
    requires Coherent(c, fs)
    ensures Alive(c, ROOT) && NodeOf(c, ROOT) == ROOT_INO && c[ROOT].parent.None?
  {
  }

  lemma SameChild(c: Cache, p: nat, d: nat, e: nat)
    requires p < |c| && ChildrenOk(c, p) && d in c[p].children && e in c[p].children && d < |c| && e < |c| && c[d].name == c[e].name
    ensures d == e
  {
    var i :| 0 <= i < |c[p].children| && c[p].children[i] == d;
    var j :| 0 <= j < |c[p].children| && c[p].children[j] == e;
  }

  // ----------------------------------------------------------------------------------
  // Ancestors in the cache

  /** Dentry `x` is `d` or above it. */
  ghost predicate Above(c: Cache, level: Levels, x: nat, d: nat)
    decreases if NodeOf(c, d) in level then level[NodeOf(c, d)] else 0
  {
    x == d ||
    (d < |c| && c[d].parent.Some? && NodeOf(c, d) in level && NodeOf(c, c[d].parent.value) in level &&
     level[NodeOf(c, c[d].parent.value)] < level[NodeOf(c, d)] && Above(c, level, x, c[d].parent.value))
  }

  /** If an inode lies above the inode of a dentry in the tree, then it has a dentry above
      that dentry, which is cached under its own name in its own directory's dentry. */
  lemma {:induction false} AncestorCached(c: Cache, fs: Fs, home: Homes, level: Levels, d: nat, t: nat, p: nat)
    requires Coherent(c, fs) && FsNamed(fs, home) && Ranked(fs, home, level) && Alive(c, d) && NodeOf(c, d) in level
    requires Under(home, level, t, NodeOf(c, d)) && t in home && Alive(c, p) && NodeOf(c, p) == home[t].dir
    ensures exists x: nat :: Above(c, level, x, d) && Alive(c, x) && x in c[p].children && c[x].name == home[t].name
    decreases level[NodeOf(c, d)]
  {
    hide Coherent, FsNamed;
    RootFact(c, fs);
    RootUnnamed(fs, home);
    LinkNamed(c, fs, home, d);
    var q := c[d].parent.value;
    assert home[NodeOf(c, d)].dir in fs;
    if NodeOf(c, d) == t {
      UniqueDentry(c, fs, home, level, q, p);
      assert Above(c, level, d, d);
    } else {
      AncestorCached(c, fs, home, level, q, t, p);
      var x: nat :| Above(c, level, x, q) && Alive(c, x) && x in c[p].children && c[x].name == home[t].name;
      assert Above(c, level, x, d);
    }
  }

  lemma RootUnnamed(fs: Fs, home: Homes)
    requires FsNamed(fs, home)
    ensures ROOT_INO !in home
  {
    forall c | c in home ensures c != ROOT_INO {
      assert HomeNamed(fs, home, c);
      assert EntryNamed(fs, home, home[c].dir, home[c].name);
    }
  }

  // ----------------------------------------------------------------------------------
  // Steps on the cache

  function Attached(c: Cache, p: nat, e: nat): Cache
    requires p < |c|
  {
    c[p := c[p].(children := [e] + c[p].children)]
  }

  function Detached(c: Cache, p: nat, i: nat): Cache
    requires p < |c| && i < |c[p].children|
  {
    c[p := c[p].(children := c[p].children[..i] + c[p].children[i + 1..])]
  }

  function Cleared(c: Cache, e: nat): Cache
    requires e < |c|
  {
    c[e := c[e].(refs := 0, node := None, parent := None, children := [])]
  }

  /** A fresh dentry in slot `e`, hung below `p`. */
  function WithChild(c: Cache, p: nat, e: nat, name: Name, x: nat): Cache
    requires p < |c| && e < |c| && p != e
  {
    Attached(c[e := Dentry(1, name, Some(x), Some(p), [])], p, e)
  }

  lemma WithChildCoherent(c: Cache, fs: Fs, p: nat, e: nat, name: Name, x: nat)
    requires Coherent(c, fs) && Alive(c, p) && e < |c| && c[e].refs == 0
    requires NodeOf(c, p) in fs && name in fs[NodeOf(c, p)].entries && fs[NodeOf(c, p)].entries[name].ino == x && x in fs
    requires Unused(c, c[p].children, name)
    ensures p != e && Coherent(WithChild(c, p, e, name, x), fs)
  {
    hide ListOk, Unused;
    var c' := WithChild(c, p, e, name, x);
    DentFact(c, fs, p);
    forall d | 0 <= d < |c'| && c'[d].refs > 0 ensures DentOk(c', fs, d) {
      if d != e {
        DentFact(c, fs, d);
        NotListed(c, fs, d, e);
        ListSame(c, c', d, c[d].children, e);
        if d == p { UnusedSame(c, c', d, c[p].children, e, name); ListMore(c', d, c[p].children, e); }
      } else {
        NoChildrenOk(c', e);
      }
    }
  }

  lemma NoChildrenOk(c: Cache, d: nat)
    ensures ListOk(c, d, [])
  {
  }

  // A free dentry is nobody's child.
  lemma NotListed(c: Cache, fs: Fs, d: nat, e: nat)
    requires Coherent(c, fs) && Alive(c, d) && e < |c| && c[e].refs == 0
    ensures e !in c[d].children
  {
    DentFact(c, fs, d);
  }

  lemma UnusedSame(c: Cache, c': Cache, d: nat, k: seq<nat>, e: nat, name: Name)
    requires Unused(c, k, name) && SameButOne(c, c', e) && e !in k
    ensures Unused(c', k, name)
  {
  }

  /** `c` without the childless dentry `e`, child number `i` of `p`. */
  function WithoutChild(c: Cache, p: nat, i: nat): Cache
    requires p < |c| && i < |c[p].children| && c[p].children[i] < |c|
  {
    Cleared(Detached(c, p, i), c[p].children[i])
  }

  lemma WithoutChildCoherent(c: Cache, fs: Fs, p: nat, i: nat)
    requires Coherent(c, fs) && Alive(c, p) && i < |c[p].children| && c[p].children[i] < |c| && c[c[p].children[i]].children == []
    ensures Coherent(WithoutChild(c, p, i), fs) && c[p].children[i] != p
  {
    hide ListOk;
    var e := c[p].children[i];
    DentFact(c, fs, p);
    ListedChild(c, p, c[p].children, i);
    var c' := WithoutChild(c, p, i);
    forall d | 0 <= d < |c'| && c'[d].refs > 0 ensures DentOk(c', fs, d) {
      DentFact(c, fs, d);
      if d == p {
        ListLess(c, d, c[p].children, i);
        ListSame(c, c', d, c'[p].children, e);
      } else {
        OnlyChildOf(c, fs, d, p, e);
        ListSame(c, c', d, c[d].children, e);
      }
      if d != ROOT {
        if c[d].parent.value == p { StillListed(c[p].children, i, d); }
        assert c[d].parent.value != e;
      }
    }
  }

  lemma ListedChild(c: Cache, d: nat, k: seq<nat>, i: nat)
    requires ListOk(c, d, k) && i < |k|
    ensures ChildOk(c, d, k[i])
  {
  }

  // A dentry is in no other children list than its parent's.
  lemma OnlyChildOf(c: Cache, fs: Fs, d: nat, p: nat, e: nat)
    requires Coherent(c, fs) && Alive(c, d) && d != p && e < |c| && c[e].parent == Some(p)
    ensures e !in c[d].children
  {
    DentFact(c, fs, d);
    forall i | 0 <= i < |c[d].children| ensures c[d].children[i] != e { assert ChildOk(c, d, c[d].children[i]); }
  }

  lemma StillListed(k: seq<nat>, i: nat, d: nat)
    requires i < |k| && d in k && d != k[i]
    ensures d in k[..i] + k[i + 1..]
  {
    var j :| 0 <= j < |k| && k[j] == d;
    var k' := k[..i] + k[i + 1..];
    assert k'[if j < i then j else j - 1] == d;
  }

  // ----------------------------------------------------------------------------------
  // Moving a dentry

  /** `c` after child number `i` of `p` was taken out, renamed and hung below `q`. */
  function Renamed(c: Cache, p: nat, i: nat, q: nat, name: Name): Cache
    requires p < |c| && q < |c| && i < |c[p].children| && c[p].children[i] < |c|
  {
    var x := c[p].children[i];
    var c1 := Detached(c, p, i);
    Attached(c1[x := c1[x].(name := name, parent := Some(q))], q, x)
  }

  lemma RenamedCoherent(c: Cache, a: Fs, b: Fs, p: nat, i: nat, q: nat, n1: Name, n2: Name)
    requires Coherent(c, a) && Alive(c, p) && Alive(c, q) && i < |c[p].children| && c[p].children[i] < |c| && c[c[p].children[i]].name == n1
    requires Moved(a, b, NodeOf(c, p), n1, NodeOf(c, q), n2) && !(NodeOf(c, p) == NodeOf(c, q) && n1 == n2)
    requires forall e {:trigger NodeOf(c, e)} :: Alive(c, e) && NodeOf(c, e) == NodeOf(c, p) ==> e == p
    requires c[p].children[i] != p && c[p].children[i] != q && Unused(c, c[q].children, n2)
    ensures Coherent(Renamed(c, p, i, q, n2), b)
  {
    hide ListOk, Unused;
    var x := c[p].children[i];
    DentFact(c, a, p);
    DentFact(c, a, q);
    ListedChild(c, p, c[p].children, i);
    DentFact(c, a, x);
    var c' := Renamed(c, p, i, q, n2);
    forall d | 0 <= d < |c'| && c'[d].refs > 0 ensures DentOk(c', b, d) {
      DentFact(c, a, d);
      RenamedList(c, a, p, i, q, n2, d);
      if d != ROOT { RenamedLink(c, a, b, p, i, q, n1, n2, d); }
    }
  }

  // The children lists after the move.
  lemma RenamedList(c: Cache, fs: Fs, p: nat, i: nat, q: nat, name: Name, d: nat)
    requires Coherent(c, fs) && Alive(c, p) && Alive(c, q) && i < |c[p].children| && c[p].children[i] < |c| && Alive(c, d)
    requires c[p].children[i] != p && c[p].children[i] != q && Unused(c, c[q].children, name)
    ensures ChildrenOk(Renamed(c, p, i, q, name), d)
  {
    hide ListOk;
    var x := c[p].children[i];
    var c' := Renamed(c, p, i, q, name);
    DentFact(c, fs, p);
    DentFact(c, fs, d);
    ListedChild(c, p, c[p].children, i);
    ListLess(c, p, c[p].children, i);
    if d != p { OnlyChildOf(c, fs, d, p, x); }
    var k := if d == p then c[p].children[..i] + c[p].children[i + 1..] else c[d].children;
    ListSame(c, c', d, k, x);
    if d == q {
      assert Unused(c, k, name);
      UnusedSame(c, c', d, k, x, name);
      ListMore(c', d, k, x);
    }
  }

  // The edges after the move: the moved one, and any other.
  lemma RenamedLink(c: Cache, a: Fs, b: Fs, p: nat, i: nat, q: nat, n1: Name, n2: Name, d: nat)
    requires Coherent(c, a) && Alive(c, p) && Alive(c, q) && i < |c[p].children| && c[p].children[i] < |c| && c[c[p].children[i]].name == n1
    requires Moved(a, b, NodeOf(c, p), n1, NodeOf(c, q), n2) && !(NodeOf(c, p) == NodeOf(c, q) && n1 == n2)
    requires forall e {:trigger NodeOf(c, e)} :: Alive(c, e) && NodeOf(c, e) == NodeOf(c, p) ==> e == p
    requires c[p].children[i] != p && c[p].children[i] != q && Alive(c, d) && d != ROOT
    ensures LinkOk(Renamed(c, p, i, q, n2), b, d)
  {
    hide ListOk, Coherent;
    var x := c[p].children[i];
    ChildFact(c, a, p, x);
    DentFact(c, a, q);
    DentFact(c, a, d);
    if d != x { RenamedOther(c, a, b, p, i, q, n1, n2, d); }
  }

  lemma RenamedOther(c: Cache, a: Fs, b: Fs, p: nat, i: nat, q: nat, n1: Name, n2: Name, d: nat)
    requires Alive(c, p) && Alive(c, q) && i < |c[p].children| && c[p].children[i] < |c| && c[c[p].children[i]].name == n1
    requires Moved(a, b, NodeOf(c, p), n1, NodeOf(c, q), n2) && !(NodeOf(c, p) == NodeOf(c, q) && n1 == n2)
    requires forall e {:trigger NodeOf(c, e)} :: Alive(c, e) && NodeOf(c, e) == NodeOf(c, p) ==> e == p
    requires c[p].children[i] != p && c[p].children[i] != q && d != c[p].children[i]
    requires d < |c| && LinkOk(c, a, d) && ChildrenOk(c, p)
    ensures LinkOk(Renamed(c, p, i, q, n2), b, d)
  {
    hide ListOk;
    var r := c[d].parent.value;
    if NodeOf(c, r) == NodeOf(c, p) && c[d].name == n1 { SameChild(c, p, d, c[p].children[i]); }
    if r == p { StillListed(c[p].children, i, d); }
  }

  /** Nodes and edges of the cache are still in the tree after it changed. */
  lemma StillCoherent(c: Cache, a: Fs, b: Fs)
    requires Coherent(c, a)
    requires forall d {:trigger NodeOf(c, d)} :: 0 <= d < |c| && c[d].refs > 0 ==> NodeOf(c, d) in b
    requires forall d {:trigger LinkOk(c, a, d)} :: 0 < d < |c| && c[d].refs > 0 && LinkOk(c, a, d) ==> LinkOk(c, b, d)
    ensures Coherent(c, b)
  {
    forall d | 0 <= d < |c| && c[d].refs > 0 ensures DentOk(c, b, d) {
      DentFact(c, a, d);
      assert NodeOf(c, d) in b;
      if d != ROOT { assert LinkOk(c, a, d); }
    }
  }

  // ----------------------------------------------------------------------------------
  // Paths

  predicate Child(c: Cache, p: nat, name: Name, d: nat) {
    p < |c| && d in c[p].children && d < |c| && c[d].name == name
  }

  /** Following these names down from the root of the cache leads to dentry `d`. */
  ghost predicate PathTo(c: Cache, names: seq<Name>, d: nat)
    decreases |names|
  {
    if names == [] then d == ROOT
    else
      var front, last := names[..|names| - 1], names[|names| - 1];
      exists p: nat :: PathTo(c, front, p) && Child(c, p, last, d)
  }

  ghost predicate Cached(c: Cache, names: seq<Name>) {
    exists d: nat :: PathTo(c, names, d)
  }

  predicate Names(fs: Fs, y: nat, name: Name, x: nat) {
    y in fs && name in fs[y].entries && fs[y].entries[name].ino == x
  }

  /** Following these names down from the root directory leads to inode `x`. */
  ghost predicate Leads(fs: Fs, names: seq<Name>, x: nat)
    decreases |names|
  {
    if names == [] then x == ROOT_INO
    else
      var front, last := names[..|names| - 1], names[|names| - 1];
      exists y: nat :: Leads(fs, front, y) && Names(fs, y, last, x)
  }

  /** A path in the cache is a path in the file system. */
  lemma {:induction false} CachedLeads(c: Cache, fs: Fs, names: seq<Name>, d: nat)
    requires Coherent(c, fs) && PathTo(c, names, d)
    ensures Alive(c, d) && Leads(fs, names, NodeOf(c, d))
    decreases |names|
  {
    hide Coherent;
    RootFact(c, fs);
    if names != [] {
      var n := |names| - 1;
      var p: nat :| PathTo(c, names[..n], p) && Child(c, p, names[n], d);
      CachedLeads(c, fs, names[..n], p);
      ChildFact(c, fs, p, d);
      assert Names(fs, NodeOf(c, p), names[n], NodeOf(c, d));
    }
  }

  lemma ChildFact(c: Cache, fs: Fs, p: nat, d: nat)
    requires Coherent(c, fs) && Alive(c, p) && d in c[p].children
    ensures ChildOk(c, p, d) && DentOk(c, fs, d) && DentOk(c, fs, p)
  {
    DentFact(c, fs, p);
    var i :| 0 <= i < |c[p].children| && c[p].children[i] == d;
    assert ChildOk(c, p, c[p].children[i]);
  }

  // The last step of a path: from the parent, by the dentry's own name.
  lemma LastStep(c: Cache, fs: Fs, names: seq<Name>, d: nat)
    requires Coherent(c, fs) && PathTo(c, names, d) && names != []
    ensures var n := |names| - 1;
            d != ROOT && Alive(c, d) && c[d].parent.Some? && PathTo(c, names[..n], c[d].parent.value) && c[d].name == names[n] &&
            Alive(c, c[d].parent.value) && ChildrenOk(c, c[d].parent.value) && d in c[c[d].parent.value].children
  {
    hide Coherent, ListOk;
    var n := |names| - 1;
    var p: nat :| PathTo(c, names[..n], p) && Child(c, p, names[n], d);
    CachedLeads(c, fs, names[..n], p);
    ChildFact(c, fs, p, d);
  }

  /** A dentry has one path, and a path one dentry. */
  lemma {:induction false} OnePath(c: Cache, fs: Fs, a: seq<Name>, b: seq<Name>, d: nat, e: nat)
    requires Coherent(c, fs) && PathTo(c, a, d) && PathTo(c, b, e)
    ensures d == e <==> a == b
    decreases |a|
  {
    hide Coherent, ListOk;
    if a != [] { LastStep(c, fs, a, d); }
    if b != [] { LastStep(c, fs, b, e); }
    if a != [] && b != [] {
      var n, m := |a| - 1, |b| - 1;
      assert a == a[..n] + [a[n]] && b == b[..m] + [b[m]];
      var p, q := c[d].parent.value, c[e].parent.value;
      OnePath(c, fs, a[..n], b[..m], p, q);
      hide PathTo;
      if p == q && a[n] == b[m] { SameChild(c, p, d, e); }
    }
  }

  /** Dentries were only added. */
  ghost predicate Grows(c: Cache, c': Cache) {
    |c'| == |c| &&
    forall d {:trigger c'[d]} :: 0 <= d < |c| && c[d].refs > 0 ==>
      c'[d].refs > 0 && c'[d].name == c[d].name && c'[d].node == c[d].node && c'[d].parent == c[d].parent &&
      forall e :: e in c[d].children ==> e in c'[d].children
  }

  lemma {:induction false} GrowsPath(c: Cache, c': Cache, fs: Fs, names: seq<Name>, d: nat)
    requires Coherent(c, fs) && Grows(c, c') && PathTo(c, names, d)
    ensures PathTo(c', names, d)
    decreases |names|
  {
    hide Coherent;
    if names != [] {
      var n := |names| - 1;
      var p: nat :| PathTo(c, names[..n], p) && Child(c, p, names[n], d);
      CachedLeads(c, fs, names[..n], p);
      CachedLeads(c, fs, names, d);
      GrowsPath(c, c', fs, names[..n], p);
      assert Child(c', p, names[n], d);
    }
  }

  /** A path leads to one inode. */
  lemma {:induction false} LeadsOnce(fs: Fs, names: seq<Name>, x: nat, y: nat)
    requires Leads(fs, names, x) && Leads(fs, names, y)
    ensures x == y
    decreases |names|
  {
    if names != [] {
      var n := |names| - 1;
      var p: nat :| Leads(fs, names[..n], p) && Names(fs, p, names[n], x);
      var q: nat :| Leads(fs, names[..n], q) && Names(fs, q, names[n], y);
      LeadsOnce(fs, names[..n], p, q);
    }
  }

  /** One dentry lies above another exactly when its path is a prefix of the other's. */
  lemma {:induction false} AboveIsPrefix(c: Cache, fs: Fs, home: Homes, level: Levels, a: seq<Name>, b: seq<Name>, x: nat, d: nat)
    requires Coherent(c, fs) && FsNamed(fs, home) && Ranked(fs, home, level) && PathTo(c, a, x) && PathTo(c, b, d)
    ensures Above(c, level, x, d) <==> a <= b
    decreases |b|
  {
    hide Coherent, FsNamed, ListOk, PathTo;
    OnePath(c, fs, a, b, x, d);
    if b == [] {
      RootPath(c, d);
      RootFact(c, fs);
    } else {
      var n := |b| - 1;
      LastStep(c, fs, b, d);
      CachedLeads(c, fs, b[..n], c[d].parent.value);
      LinkNamed(c, fs, home, d);
      assert home[NodeOf(c, d)].dir in fs;
      AboveIsPrefix(c, fs, home, level, a, b[..n], x, c[d].parent.value);
      assert a <= b <==> a == b || a <= b[..n];
    }
  }

  lemma RootPath(c: Cache, d: nat)
    requires PathTo(c, [], d)
    ensures d == ROOT
  {
  }

  /** A new dentry adds one cached path. */
  lemma WithChildPaths(c: Cache, fs: Fs, p: nat, e: nat, name: Name, x: nat, at: seq<Name>, names: seq<Name>)
    requires Coherent(c, fs) && Alive(c, p) && e < |c| && c[e].refs == 0 && p != e && PathTo(c, at, p)
    requires Coherent(WithChild(c, p, e, name, x), fs)
    ensures Cached(WithChild(c, p, e, name, x), names) <==> Cached(c, names) || names == at + [name]
  {
    hide Coherent, PathTo, WithChild, Grows;
    var c' := WithChild(c, p, e, name, x);
    WithChildGrows(c, fs, p, e, name, x);
    GrowsPath(c, c', fs, at, p);
    OneMore(c', at, p, name, e);
    if Cached(c, names) {
      var d: nat :| PathTo(c, names, d);
      GrowsPath(c, c', fs, names, d);
    }
    if Cached(c', names) {
      var d: nat :| PathTo(c', names, d);
      WithChildPath(c, fs, p, e, name, x, at, names, d);
    }
  }

  lemma OneMore(c: Cache, at: seq<Name>, p: nat, name: Name, e: nat)
    requires PathTo(c, at, p) && Child(c, p, name, e)
    ensures PathTo(c, at + [name], e)
  {
    var names := at + [name];
    assert names[..|names| - 1] == at;
  }

  lemma {:induction false} WithChildPath(c: Cache, fs: Fs, p: nat, e: nat, name: Name, x: nat, at: seq<Name>, names: seq<Name>, d: nat)
    requires Coherent(c, fs) && Alive(c, p) && e < |c| && c[e].refs == 0 && p != e && PathTo(c, at, p)
    requires Coherent(WithChild(c, p, e, name, x), fs) && PathTo(WithChild(c, p, e, name, x), names, d)
    ensures PathTo(c, names, d) || (names == at + [name] && d == e)
    decreases |names|
  {
    hide Coherent, Grows, ListOk;
    var c' := WithChild(c, p, e, name, x);
    if names != [] {
      var n := |names| - 1;
      var y: nat :| PathTo(c', names[..n], y) && Child(c', y, names[n], d);
      hide PathTo;
      WithChildPath(c, fs, p, e, name, x, at, names[..n], y);
      assert c'[e].children == [];
      if d == e {
        CachedLeads(c, fs, names[..n], y);
        NotListed(c, fs, y, e);
        OnePath(c, fs, at, names[..n], p, y);
        assert names == names[..n] + [names[n]];
      } else {
        assert Child(c, y, names[n], d);
        assert names == names[..n] + [names[n]];
        OneMore(c, names[..n], y, names[n], d);
      }
    }
  }

  /** Every live dentry is reached by some path. */
  lemma {:induction false} HasPath(c: Cache, fs: Fs, home: Homes, level: Levels, d: nat)
    requires Coherent(c, fs) && FsNamed(fs, home) && Ranked(fs, home, level) && Alive(c, d)
    ensures exists names: seq<Name> :: PathTo(c, names, d)
    decreases if NodeOf(c, d) in level then level[NodeOf(c, d)] else 0
  {
    hide Coherent, FsNamed, ListOk;
    RootFact(c, fs);
    DentFact(c, fs, d);
    if d == ROOT {
      assert PathTo(c, [], d);
    } else {
      LinkNamed(c, fs, home, d);
      var p := c[d].parent.value;
      assert home[NodeOf(c, d)].dir in fs;
      HasPath(c, fs, home, level, p);
      var names: seq<Name> :| PathTo(c, names, p);
      OneMore(c, names, p, c[d].name, d);
    }
  }

  /** Every edge but those to dentry `x` is still there. */
  ghost predicate EdgesKept(c: Cache, c': Cache, x: nat) {
    forall p: nat, e: nat {:trigger Edged(c', p, e)} :: Edged(c, p, e) && e != x ==> Edged(c', p, e) && c'[e].name == c[e].name
  }

  predicate Edged(c: Cache, p: nat, e: nat) {
    p < |c| && e < |c| && e in c[p].children
  }

  /** The paths that do not go through `x` stay. */
  lemma {:induction false} KeptPath(c: Cache, c': Cache, fs: Fs, stop: seq<Name>, x: nat, names: seq<Name>, d: nat)
    requires Coherent(c, fs) && PathTo(c, stop, x) && PathTo(c, names, d) && !(stop <= names) && EdgesKept(c, c', x)
    ensures PathTo(c', names, d)
    decreases |names|
  {
    hide Coherent, ListOk;
    if names != [] {
      var n := |names| - 1;
      var p: nat :| PathTo(c, names[..n], p) && Child(c, p, names[n], d);
      assert names == names[..n] + [names[n]];
      OnePath(c, fs, stop, names, x, d);
      KeptPath(c, c', fs, stop, x, names[..n], p);
      hide PathTo;
      assert Edged(c, p, d) && Edged(c', p, d);
      OneMore(c', names[..n], p, names[n], d);
    }
  }

  /** The paths through `x` move with it. */
  lemma {:induction false} MovedPath(c: Cache, c': Cache, fs: Fs, from: seq<Name>, x: nat, to: seq<Name>, rest: seq<Name>, d: nat)
    requires Coherent(c, fs) && PathTo(c, from, x) && PathTo(c', to, x) && PathTo(c, from + rest, d) && EdgesKept(c, c', x)
    ensures PathTo(c', to + rest, d)
    decreases |rest|
  {
    hide Coherent, ListOk;
    if rest == [] {
      assert from + rest == from && to + rest == to;
      OnePath(c, fs, from, from, x, d);
    } else {
      var n := |rest| - 1;
      var names := from + rest;
      assert names[..|names| - 1] == from + rest[..n] && names[|names| - 1] == rest[n];
      var p: nat :| PathTo(c, from + rest[..n], p) && Child(c, p, rest[n], d);
      OnePath(c, fs, from, names, x, d);
      MovedPath(c, c', fs, from, x, to, rest[..n], p);
      hide PathTo;
      assert Edged(c, p, d) && Edged(c', p, d);
      OneMore(c', to + rest[..n], p, rest[n], d);
      assert to + rest[..n] + [rest[n]] == to + rest;
    }
  }

  // A path with an uncached prefix is not cached.
  lemma {:induction false} UncachedBelow(c: Cache, names: seq<Name>, i: nat)
    requires i <= |names| && !Cached(c, names[..i])
    ensures !Cached(c, names)
    decreases |names|
  {
    if i == |names| {
      assert names[..i] == names;
    } else {
      var n := |names| - 1;
      assert names[..n][..i] == names[..i];
      UncachedBelow(c, names[..n], i);
      forall d: nat ensures !PathTo(c, names, d) {
        if PathTo(c, names, d) {
          var p: nat :| PathTo(c, names[..n], p) && Child(c, p, names[n], d);
        }
      }
    }
  }

  /** Where a path was before `from` was renamed to `to`. */
  function Origin(names: seq<Name>, from: seq<Name>, to: seq<Name>): seq<Name> {
    if to <= names then from + names[|to|..] else names
  }

  /** The cached paths below `from` are below `to` now, and all others are the same. */
  ghost predicate PathsMoved(c: Cache, c': Cache, from: seq<Name>, to: seq<Name>) {
    forall names: seq<Name> {:trigger Cached(c', names)} ::
      Cached(c', names) <==> (to <= names || !(from <= names)) && Cached(c, Origin(names, from, to))
  }

  /** Moving a dentry moves the cached paths through it and no others. */
  lemma RenamedPaths(c: Cache, c': Cache, fs: Fs, fs': Fs, home: Homes, level: Levels, from: seq<Name>, x: nat, to: seq<Name>)
    requires Coherent(c, fs) && Coherent(c', fs') && FsNamed(fs, home) && Ranked(fs, home, level)
    requires PathTo(c, from, x) && PathTo(c', to, x) && EdgesKept(c, c', x) && !Cached(c, to)
    requires |c'| == |c| && forall d :: 0 <= d < |c| && c'[d].refs > 0 ==> c[d].refs > 0
    ensures PathsMoved(c, c', from, to)
  {
    hide Coherent, FsNamed, ListOk, PathTo, Ranked, EdgesKept;
    forall names: seq<Name> ensures Cached(c', names) <==> (to <= names || !(from <= names)) && Cached(c, Origin(names, from, to)) {
      if Cached(c', names) {
        var d: nat :| PathTo(c', names, d);
        CachedLeads(c', fs', names, d);
        HasPath(c, fs, home, level, d);
        var was: seq<Name> :| PathTo(c, was, d);
        MovedWhere(c, c', fs, from, x, to, was, d);
        var now := if from <= was then to + was[|from|..] else was;
        OnePath(c', fs', names, now, d, d);
        OriginOf(from, to, was);
      }
      if Cached(c, Origin(names, from, to)) && (to <= names || !(from <= names)) {
        var was := Origin(names, from, to);
        var d: nat :| PathTo(c, was, d);
        MovedWhere(c, c', fs, from, x, to, was, d);
        OriginBack(from, to, names);
        assert PathTo(c', names, d);
      }
    }
  }

  lemma OriginOf(from: seq<Name>, to: seq<Name>, was: seq<Name>)
    requires !(to <= was)
    ensures var now := if from <= was then to + was[|from|..] else was;
            (to <= now || !(from <= now)) && Origin(now, from, to) == was
  {
    if from <= was {
      var rest := was[|from|..];
      assert to <= to + rest && (to + rest)[|to|..] == rest && from + rest == was;
    }
  }

  lemma OriginBack(from: seq<Name>, to: seq<Name>, names: seq<Name>)
    requires to <= names || !(from <= names)
    ensures var was := Origin(names, from, to);
            (from <= was ==> to + was[|from|..] == names) && (!(from <= was) ==> was == names)
  {
    if to <= names {
      var rest := names[|to|..];
      assert from <= from + rest && (from + rest)[|from|..] == rest && to + rest == names;
    }
  }

  lemma MovedWhere(c: Cache, c': Cache, fs: Fs, from: seq<Name>, x: nat, to: seq<Name>, was: seq<Name>, d: nat)
    requires Coherent(c, fs) && PathTo(c, from, x) && PathTo(c', to, x) && EdgesKept(c, c', x) && !Cached(c, to) && PathTo(c, was, d)
    ensures PathTo(c', if from <= was then to + was[|from|..] else was, d) && Cached(c, was)
    ensures !(to <= was) && (from <= was ==> from + was[|from|..] == was && (to + was[|from|..])[|to|..] == was[|from|..])
  {
    hide Coherent, ListOk, PathTo, EdgesKept;
    assert Cached(c, was);
    if to <= was { assert was[..|to|] == to; UncachedBelow(c, was, |to|); }
    if from <= was {
      assert from + was[|from|..] == was;
      MovedPath(c, c', fs, from, x, to, was[|from|..], d);
    } else {
      KeptPath(c, c', fs, from, x, was, d);
    }
  }

  /** Taking a childless dentry out takes one cached path away. */
  lemma WithoutChildPaths(c: Cache, fs: Fs, fs': Fs, home: Homes, level: Levels, p: nat, i: nat, path: seq<Name>)
    requires Coherent(c, fs) && FsNamed(fs, home) && Ranked(fs, home, level) && Alive(c, p) && i < |c[p].children| && c[p].children[i] < |c|
    requires c[c[p].children[i]].children == [] && PathTo(c, path, c[p].children[i]) && Coherent(WithoutChild(c, p, i), fs')
    ensures forall names: seq<Name> {:trigger Cached(WithoutChild(c, p, i), names)} ::
              Cached(WithoutChild(c, p, i), names) <==> names != path && Cached(c, names)
  {
    hide Coherent, FsNamed, ListOk, PathTo, Ranked, EdgesKept;
    var c', x := WithoutChild(c, p, i), c[p].children[i];
    ChildFact(c, fs, p, x);
    WithoutEdges(c, fs, p, i);
    forall names: seq<Name> ensures Cached(c', names) <==> names != path && Cached(c, names) {
      if Cached(c', names) {
        var d: nat :| PathTo(c', names, d);
        CachedLeads(c', fs', names, d);
        assert d != x;
        HasPath(c, fs, home, level, d);
        var was: seq<Name> :| PathTo(c, was, d);
        NotThrough(c, fs, path, x, was, d);
        KeptPath(c, c', fs, path, x, was, d);
        OnePath(c', fs', names, was, d, d);
        OnePath(c, fs, path, was, x, d);
      }
      if names != path && Cached(c, names) {
        var d: nat :| PathTo(c, names, d);
        OnePath(c, fs, path, names, x, d);
        NotThrough(c, fs, path, x, names, d);
        KeptPath(c, c', fs, path, x, names, d);
      }
    }
  }

  lemma WithoutEdges(c: Cache, fs: Fs, p: nat, i: nat)
    requires Coherent(c, fs) && Alive(c, p) && i < |c[p].children| && c[p].children[i] < |c| && c[c[p].children[i]].children == []
    ensures EdgesKept(c, WithoutChild(c, p, i), c[p].children[i])
  {
    hide Coherent, ListOk;
    var c', x := WithoutChild(c, p, i), c[p].children[i];
    forall q: nat, e: nat | Edged(c, q, e) && e != x ensures Edged(c', q, e) && c'[e].name == c[e].name {
      if q == p { StillListed(c[p].children, i, e); }
    }
  }

  // No path goes on from a dentry without children.
  lemma {:induction false} NotThrough(c: Cache, fs: Fs, path: seq<Name>, x: nat, names: seq<Name>, d: nat)
    requires Coherent(c, fs) && PathTo(c, path, x) && x < |c| && c[x].children == [] && PathTo(c, names, d) && d != x
    ensures !(path <= names)
    decreases |names|
  {
    hide Coherent, ListOk;
    if path <= names {
      OnePath(c, fs, path, names, x, d);
      var n := |names| - 1;
      var p: nat :| PathTo(c, names[..n], p) && Child(c, p, names[n], d);
      assert path <= names[..n];
      if p == x { assert false; }
      NotThrough(c, fs, path, x, names[..n], p);
    }
  }

  lemma WithChildGrows(c: Cache, fs: Fs, p: nat, e: nat, name: Name, x: nat)
    requires Coherent(c, fs) && Alive(c, p) && e < |c| && c[e].refs == 0 && p != e
    ensures Grows(c, WithChild(c, p, e, name, x)) && Child(WithChild(c, p, e, name, x), p, name, e)
  {
  }
}
