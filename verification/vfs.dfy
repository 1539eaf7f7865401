/** Path operations through the dentry cache, on one volume mounted at the root. */
module Vfs {
  import opened Results
  import opened Bytes
  import opened Streams
  import opened Store
  import opened DirTable
  import opened DirHash
  import opened Acl
  import opened Volumes
  import opened FsSpec
  import opened Nyfs
  import opened FsTree
  import opened DentryCache
  import opened VfsSpec

  /** The cache as the code leaves it after renaming a cached entry to its own name: the
      dentry is freed and then hung up again. */
  function SelfRenamed(c: Cache, p: nat, i: nat, name: Name): Cache
    requires p < |c| && i < |c[p].children| && c[p].children[i] < |c|
  {
    var x := c[p].children[i];
    var c1 := Cleared(Detached(c, p, i), x);
    if p < |c1| then Attached(c1[x := c1[x].(name := name, parent := Some(p))], p, x) else c1
  }

  /** A freed dentry is in the tree, and its slot will be handed out again. */
  lemma SelfRenameBreaks(c: Cache, fs: Fs, p: nat, i: nat, name: Name)
    requires p < |c| && i < |c[p].children| && c[p].children[i] < |c| && c[p].children[i] != p && c[p].refs > 0
    ensures !Coherent(SelfRenamed(c, p, i, name), fs)
  {
    var c' := SelfRenamed(c, p, i, name);
    var x := c[p].children[i];
    assert c'[p].children[0] == x && c'[x].refs == 0;
    if Coherent(c', fs) { ChildFact(c', fs, p, x); }
  }

  /** The first place of `e` in a list of children. */
  predicate FirstAt(k: seq<nat>, i: nat, e: nat) {
    i < |k| && k[i] == e && forall j :: 0 <= j < i ==> k[j] != e
  }

  class VfsCache {
    const vol: Volume
    var dents: Cache

    ghost function Now(): Moment
      reads this, vol, vol.st
    {
      Moment(vol.V(), vol.st.S(), dents)
    }

    ghost predicate Sound()
      reads this, vol, vol.st
    {
      vol.Valid() && Acyclic(vol.Tree(), vol.home)
    }

    ghost predicate Valid()
      reads this, vol, vol.st
    {
      Sound() && Coherent(dents, vol.Tree())
    }

    /** A volume mounted at the root of an empty cache. */
    constructor (vol: Volume)
      requires vol.Valid() && Acyclic(vol.Tree(), vol.home)
      ensures Valid() && this.vol == vol && dents == EmptyCache()
    {
      this.vol := vol;
      dents := EmptyCache();
      hide Inv, Contents, Singles, VolInv, Abs, Coherent, Acyclic, EmptyCache, FsNamed;
      VolumeNamed(vol.V());
      EmptyCoherent(vol.Tree(), vol.home);
    }

    static function EmptyCache(): Cache {
      [Dentry(1, [], Some(ROOT_INO), None, [])] + seq(MAX_DENTRIES - 1, _ => Dentry(0, [], None, None, []))
    }

    static lemma EmptyCoherent(fs: Fs, home: Homes)
      requires FsNamed(fs, home)
      ensures Coherent(EmptyCache(), fs)
    {
      var c := EmptyCache();
      assert forall d :: 0 < d < MAX_DENTRIES ==> c[d].refs == 0;
      assert c[ROOT].children == [];
    }

    // ------------------------------------------------------------------------------
    // The cache

    /** Looks for a child by name. */
    method FindChild(d: nat, name: Name) returns (r: Option<nat>, ghost i: nat)
      requires d < |dents| && forall k :: 0 <= k < |dents[d].children| ==> dents[d].children[k] < |dents|
      ensures r == ChildNamed(dents, d, name)
      ensures r.Some? ==> i < |dents[d].children| && dents[d].children[i] == r.value && r.value < |dents| && dents[r.value].name == name
      ensures r.None? ==> Unused(dents, dents[d].children, name)
    {
      ghost var all := dents[d].children;
      var k := 0;
      while k < |dents[d].children|
        invariant 0 <= k <= |all| && FirstNamed(dents, all[k..], name) == FirstNamed(dents, all, name)
      {
        if dents[dents[d].children[k]].name == name {
          return Some(dents[d].children[k]), k;
        }
        k := k + 1;
      }
      return None, 0;
    }

    /** Takes the first free slot for a new dentry below `p`. */
    method AddDentry(name: Name, x: nat, p: nat) returns (r: Option<nat>)
      requires p < |dents| && dents[p].refs > 0
      modifies this`dents
      ensures r.None? <==> FreeSlots(old(dents)) == 0
      ensures r.None? ==> dents == old(dents)
      ensures r.Some? ==> r.value < |old(dents)| && old(dents)[r.value].refs == 0 && p != r.value && dents == WithChild(old(dents), p, r.value, name, x)
      ensures r.Some? ==> FreeSlots(dents) == FreeSlots(old(dents)) - 1
    {
      var e := 0;
      while e < |dents|
        invariant 0 <= e <= |dents| && forall j :: 0 <= j < e ==> dents[j].refs > 0
      {
        if dents[e].refs == 0 {
          SlotTaken(dents, p, e, name, x);
          dents := dents[e := Dentry(1, name, Some(x), Some(p), [])];
          dents := dents[p := dents[p].(children := [e] + dents[p].children)];
          return Some(e);
        }
        e := e + 1;
      }
      assert FreeSet(dents) == {};
      return None;
    }

    static lemma SlotTaken(c: Cache, p: nat, e: nat, name: Name, x: nat)
      requires p < |c| && c[p].refs > 0 && e < |c| && c[e].refs == 0
      ensures FreeSlots(c) > 0 && FreeSlots(WithChild(c, p, e, name, x)) == FreeSlots(c) - 1
    {
      assert e in FreeSet(c) && FreeSet(WithChild(c, p, e, name, x)) == FreeSet(c) - {e};
    }

    /** Takes child `e` out of the children of `p`, if it is there. */
    method Detach(p: nat, e: nat)
      requires p < |dents|
      modifies this`dents
      ensures |dents| == |old(dents)| && (e !in old(dents)[p].children ==> dents == old(dents))
      ensures forall i :: FirstAt(old(dents)[p].children, i, e) ==> dents == Detached(old(dents), p, i)
    {
      var i := 0;
      while i < |dents[p].children|
        invariant 0 <= i <= |dents[p].children| && forall j :: 0 <= j < i ==> dents[p].children[j] != e
      {
        if dents[p].children[i] == e {
          dents := dents[p := dents[p].(children := dents[p].children[..i] + dents[p].children[i + 1..])];
          return;
        }
        i := i + 1;
      }
    }

    method FreeDentry(e: nat)
      requires e < |dents|
      modifies this`dents
      ensures dents == Cleared(old(dents), e)
    {
      dents := dents[e := dents[e].(refs := 0, node := None, parent := None, children := [])];
    }

    /** Asks the file system for an entry and caches it. */
    method LoadChild(d: nat, name: Name, cred: Cred) returns (status: Status, e: nat)
      requires Valid() && Alive(dents, d) && Unused(dents, dents[d].children, name)
      modifies this`dents
      ensures Valid() && status == LoadStatus(vol.V(), FreeSlots(old(dents)), NodeOf(old(dents), d), name, cred)
      ensures status != Ok ==> dents == old(dents)
      ensures status == Ok ==> Loaded(vol.Tree(), old(dents), dents, d, e, name)
    {
      hide Inv, Contents, Singles, VolInv, Abs, Coherent, ListOk, Acyclic, Unused, FsNamed, Allowed, Grows, FreeSlots, DirCheck;
      e := 0;
      ghost var c, fs := dents, vol.Tree();
      VolumeNamed(vol.V());
      DentFact(c, fs, d);
      NodeRange(vol.V(), NodeOf(c, d));
      var dir := dents[d].node.value;
      status := vol.CheckDir(dir, cred, EXECUTE);
      if status != Ok {
        return;
      }
      var found := vol.FindName(dir, name);
      if found.status != Ok {
        return found.status, 0;
      }
      var slot := AddDentry(name, found.ino, d);
      if slot.None? {
        return OutOfMemory, 0;
      }
      EntryLive(fs, vol.home, dir, name);
      WithChildCoherent(c, fs, d, slot.value, name, found.ino);
      return Ok, slot.value;
    }

    // The entry `name` of the directory of `d` has been cached in slot `e`.
    static ghost predicate Loaded(fs: Fs, c: Cache, c': Cache, d: nat, e: nat, name: Name) {
      Alive(c, d) && e < |c| && c[e].refs == 0 && FreeSlots(c') == FreeSlots(c) - 1 &&
      var x := NodeOf(c, d);
      x in fs && name in fs[x].entries && c' == WithChild(c, d, e, name, fs[x].entries[name].ino)
    }

    static lemma NodeRange(v: Vol, x: nat)
      requires VolInv(v) && x in Abs(v)
      ensures Live(v, x)
    {
      hide VolInv;
    }

    static lemma EntryLive(fs: Fs, home: Homes, d: nat, n: Name)
      requires FsNamed(fs, home) && d in fs && n in fs[d].entries
      ensures fs[d].entries[n].ino in fs
    {
      assert EntryNamed(fs, home, d, n);
    }

    // ------------------------------------------------------------------------------
    // Paths

    /** Resolves a path from the root, asking the file system where the cache ends. */
    method Walk(path: Path, cred: Cred) returns (status: Status, d: nat)
      requires Valid()
      modifies this`dents
      ensures Valid() && status == Resolution(vol.V(), old(dents), ROOT, path, cred) && Walked(vol.V(), old(dents), dents, path, cred)
      ensures status == Ok ==> Alive(dents, d) && PathTo(dents, path, d) && Leads(vol.Tree(), path, NodeOf(dents, d))
      ensures Cached(old(dents), path) ==> status == Ok && dents == old(dents)
    {
      hide Inv, Contents, Singles, VolInv, Abs, Coherent, PathTo, Leads, ListOk, Acyclic, Grows, Cached, Unused, PathsAfter, FreeSlots,
           LoadStatus, Loaded, Progress, Resolution, Loads, Loading, FirstNamed, Walked;
      ghost var c, v := dents, vol.V();
      ghost var fs := vol.Tree();
      RootFact(c, fs);
      StartPath(c, v, path, cred);
      GrowsNot(c);
      d := ROOT;
      var i := 0;
      while i < |path|
        invariant 0 <= i <= |path| && Valid() && Grows(c, dents) && Alive(dents, d) && PathTo(dents, path[..i], d)
        invariant PathsAfter(c, dents, path[..i]) && Progress(v, c, dents, d, path[..i], cred)
        invariant Cached(c, path) ==> dents == c
      {
        ChildBounds(dents, fs, d);
        ghost var before := dents;
        ghost var pre := path[..i];
        OneLonger(path, i, path);
        var child;
        ghost var at;
        child, at := FindChild(d, path[i]);
        if child.None? {
          if dents == c { NotCached(c, fs, path, i, d); }
          LoadNext(v, c, dents, d, pre, path[i], cred);
          var e;
          status, e := LoadChild(d, path[i], cred);
          if status != Ok {
            WalkFails(v, c, dents, d, path, i, cred);
            return;
          }
          LoadedNext(v, c, before, dents, d, e, pre, path[i], cred);
          LoadedPath(c, before, dents, fs, path, i, d, e);
          d := e;
        } else {
          FollowNext(v, c, dents, d, child.value, pre, path[i], cred);
          FoundPath(c, dents, fs, path, i, d, child.value);
          d := child.value;
        }
        i := i + 1;
      }
      assert path[..i] == path;
      WalkEnd(v, c, dents, d, path, cred);
      CachedLeads(dents, fs, path, d);
      status := Ok;
    }

    // What is still to be resolved after `pre`, at dentry `d`: in the cache `c` as it was, or
    // at a dentry that was just loaded.
    static ghost predicate Ahead(v: Vol, c: Cache, now: Cache, d: nat, pre: Path, rest: Path, cred: Cred) {
      if now == c then
        Resolution(v, c, ROOT, pre + rest, cred) == Resolution(v, c, d, rest, cred) && Loads(c, ROOT, pre + rest) == Loads(c, d, rest)
      else
        Resolution(v, c, ROOT, pre + rest, cred) == Loading(v, FreeSlots(now), NodeOf(now, d), rest, cred) &&
        Loads(c, ROOT, pre + rest) == FreeSlots(c) - FreeSlots(now) + |rest|
    }

    static ghost predicate Progress(v: Vol, c: Cache, now: Cache, d: nat, pre: Path, cred: Cred) {
      d < |now| && (now != c ==> now[d].children == []) &&
      forall rest: Path {:trigger Ahead(v, c, now, d, pre, rest, cred)} :: Ahead(v, c, now, d, pre, rest, cred)
    }

    // The same where the name `x` after `pre` is not cached.
    static ghost predicate AtEdge(v: Vol, c: Cache, now: Cache, d: nat, pre: Path, x: Name, rest: Path, cred: Cred) {
      Resolution(v, c, ROOT, pre + [x] + rest, cred) == Loading(v, FreeSlots(now), NodeOf(now, d), [x] + rest, cred) &&
      Loads(c, ROOT, pre + [x] + rest) == FreeSlots(c) - FreeSlots(now) + 1 + |rest|
    }

    static lemma LoadNext(v: Vol, c: Cache, now: Cache, d: nat, pre: Path, x: Name, cred: Cred)
      requires Progress(v, c, now, d, pre, cred) && ChildNamed(now, d, x).None?
      ensures forall rest: Path {:trigger AtEdge(v, c, now, d, pre, x, rest, cred)} :: AtEdge(v, c, now, d, pre, x, rest, cred)
    {
      hide FreeSlots, Loading, FirstNamed;
      forall rest: Path ensures AtEdge(v, c, now, d, pre, x, rest, cred) {
        assert Ahead(v, c, now, d, pre, [x] + rest, cred);
        assert pre + ([x] + rest) == pre + [x] + rest && ([x] + rest)[0] == x;
      }
    }

    static lemma LoadedNext(v: Vol, c: Cache, before: Cache, now: Cache, d: nat, e: nat, pre: Path, x: Name, cred: Cred)
      requires LoadStatus(v, FreeSlots(before), NodeOf(before, d), x, cred) == Ok && Loaded(Abs(v), before, now, d, e, x)
      requires forall rest: Path {:trigger AtEdge(v, c, before, d, pre, x, rest, cred)} :: AtEdge(v, c, before, d, pre, x, rest, cred)
      requires Grows(c, before)
      ensures Progress(v, c, now, e, pre + [x], cred)
    {
      hide FreeSlots, LoadStatus, Abs, Resolution, Loads;
      assert now[e].refs != before[e].refs;
      forall rest: Path ensures Ahead(v, c, now, e, pre + [x], rest, cred) {
        assert AtEdge(v, c, before, d, pre, x, rest, cred);
        assert ([x] + rest)[0] == x && ([x] + rest)[1..] == rest;
      }
    }

    static lemma FollowNext(v: Vol, c: Cache, now: Cache, d: nat, e: nat, pre: Path, x: Name, cred: Cred)
      requires Progress(v, c, now, d, pre, cred) && ChildNamed(now, d, x) == Some(e) && e < |now|
      ensures now == c && Progress(v, c, now, e, pre + [x], cred)
    {
      hide FreeSlots, Loading;
      assert now == c;
      forall rest: Path ensures Ahead(v, c, now, e, pre + [x], rest, cred) {
        assert Ahead(v, c, now, d, pre, [x] + rest, cred);
        assert pre + ([x] + rest) == pre + [x] + rest && ([x] + rest)[0] == x && ([x] + rest)[1..] == rest;
      }
    }

    // So far everything was resolved.
    static lemma SoFar(v: Vol, c: Cache, now: Cache, d: nat, pre: Path, cred: Cred)
      requires Progress(v, c, now, d, pre, cred)
      ensures Resolution(v, c, ROOT, pre, cred) == Ok && FreeSlots(now) == FreeSlots(c) - Loads(c, ROOT, pre)
    {
      hide FreeSlots;
      assert Ahead(v, c, now, d, pre, [], cred);
      assert pre + [] == pre;
    }

    static lemma WalkEnd(v: Vol, c: Cache, now: Cache, d: nat, path: Path, cred: Cred)
      requires Progress(v, c, now, d, path, cred) && Grows(c, now) && Coherent(now, Abs(v)) && PathsAfter(c, now, path)
      ensures Resolution(v, c, ROOT, path, cred) == Ok && Walked(v, c, now, path, cred)
    {
      hide FreeSlots, Progress, Coherent, Grows, PathsAfter, Resolution, Loads;
      SoFar(v, c, now, d, path, cred);
    }

    static lemma WalkFails(v: Vol, c: Cache, now: Cache, d: nat, path: Path, i: nat, cred: Cred)
      requires i < |path| && Progress(v, c, now, d, path[..i], cred) && Grows(c, now) && Coherent(now, Abs(v)) && PathsAfter(c, now, path[..i])
      requires forall rest: Path {:trigger AtEdge(v, c, now, d, path[..i], path[i], rest, cred)} ::
                 AtEdge(v, c, now, d, path[..i], path[i], rest, cred)
      requires LoadStatus(v, FreeSlots(now), NodeOf(now, d), path[i], cred) != Ok
      ensures Resolution(v, c, ROOT, path, cred) == LoadStatus(v, FreeSlots(now), NodeOf(now, d), path[i], cred)
      ensures Walked(v, c, now, path, cred)
    {
      hide FreeSlots, Progress, Coherent, Grows, PathsAfter, Resolution, Loads, LoadStatus;
      var pre, x, rest := path[..i], path[i], path[i + 1..];
      SoFar(v, c, now, d, pre, cred);
      assert path == pre + [x] + rest;
      assert AtEdge(v, c, now, d, pre, x, rest, cred);
      assert ([x] + rest)[0] == x;
      forall r: Path ensures Fails(v, c, pre, x, r, cred) {
        assert AtEdge(v, c, now, d, pre, x, r, cred);
        assert ([x] + r)[0] == x;
      }
      ReachedIs(v, c, pre, x, rest, cred);
    }

    static lemma StartPath(c: Cache, v: Vol, path: Path, cred: Cred)
      requires |c| > 0
      ensures PathTo(c, path[..0], ROOT) && PathsAfter(c, c, path[..0]) && Progress(v, c, c, ROOT, path[..0], cred)
    {
      hide Resolution, Loads;
      assert PathTo(c, [], ROOT);
      forall rest: Path ensures Ahead(v, c, c, ROOT, path[..0], rest, cred) { assert path[..0] + rest == rest; }
    }

    /** Looks a whole path up in the cache, without asking the file system. */
    method FindPath(path: Path) returns (r: Option<nat>)
      requires Valid()
      ensures r.Some? <==> Cached(dents, path)
      ensures r.Some? ==> PathTo(dents, path, r.value)
    {
      hide Inv, Contents, Singles, VolInv, Abs, Coherent, PathTo, ListOk, Acyclic, Unused, FirstNamed, Progress, PathsAfter;
      ghost var fs := vol.Tree();
      RootFact(dents, fs);
      RootCached(dents, path);
      var d := ROOT;
      var i := 0;
      while i < |path|
        invariant 0 <= i <= |path| && Alive(dents, d) && PathTo(dents, path[..i], d)
      {
        ChildBounds(dents, fs, d);
        var child;
        ghost var at;
        child, at := FindChild(d, path[i]);
        if child.None? {
          NotCached(dents, fs, path, i, d);
          return None;
        }
        ChildFact(dents, fs, d, child.value);
        StepPath(dents, path, i, d, child.value);
        d := child.value;
        i := i + 1;
      }
      assert path[..i] == path;
      return Some(d);
    }

    static lemma RootCached(c: Cache, path: Path)
      ensures PathTo(c, path[..0], ROOT)
    {
    }

    static lemma GrowsNot(c: Cache)
      ensures Grows(c, c)
    {
    }

    static lemma ChildBounds(c: Cache, fs: Fs, d: nat)
      requires Coherent(c, fs) && Alive(c, d)
      ensures forall k :: 0 <= k < |c[d].children| ==> c[d].children[k] < |c|
    {
      hide Coherent;
      DentFact(c, fs, d);
      forall k | 0 <= k < |c[d].children| ensures c[d].children[k] < |c| { assert ChildOk(c, d, c[d].children[k]); }
    }

    static lemma FoundPath(c0: Cache, c: Cache, fs: Fs, path: Path, i: nat, d: nat, e: nat)
      requires Coherent(c, fs) && i < |path| && PathTo(c, path[..i], d) && Alive(c, d) && e in c[d].children && e < |c| && c[e].name == path[i]
      requires PathsAfter(c0, c, path[..i])
      ensures PathTo(c, path[..i + 1], e) && Alive(c, e) && PathsAfter(c0, c, path[..i + 1])
    {
      hide Coherent, PathTo;
      ChildFact(c, fs, d, e);
      StepPath(c, path, i, d, e);
      forall y: Path ensures Cached(c, y) <==> Cached(c0, y) || y <= path[..i + 1] {
        OneLonger(path, i, y);
        assert Cached(c, y) <==> Cached(c0, y) || y <= path[..i];
      }
    }

    static lemma OneLonger(path: Path, i: nat, x: Path)
      requires i < |path|
      ensures path[..i + 1] == path[..i] + [path[i]]
      ensures x <= path[..i + 1] <==> x <= path[..i] || x == path[..i + 1]
    {
      if x <= path[..i + 1] && |x| <= i { assert x == path[..i + 1][..|x|] == path[..i][..|x|]; }
      if x <= path[..i] { assert x == path[..i][..|x|] == path[..i + 1][..|x|]; }
    }

    static lemma StepPath(c: Cache, path: Path, i: nat, d: nat, e: nat)
      requires i < |path| && PathTo(c, path[..i], d) && Child(c, d, path[i], e)
      ensures PathTo(c, path[..i + 1], e)
    {
      var p := path[..i + 1];
      assert p[..|p| - 1] == path[..i] && p[|p| - 1] == path[i];
    }

    static lemma LoadedPath(c: Cache, before: Cache, after: Cache, fs: Fs, path: Path, i: nat, d: nat, e: nat)
      requires Coherent(before, fs) && Coherent(after, fs) && i < |path| && PathTo(before, path[..i], d) && Grows(c, before)
      requires Loaded(fs, before, after, d, e, path[i]) && PathsAfter(c, before, path[..i])
      ensures PathTo(after, path[..i + 1], e) && Alive(after, e) && Grows(c, after) && PathsAfter(c, after, path[..i + 1])
    {
      hide Coherent, PathTo, Cached;
      var x := fs[NodeOf(before, d)].entries[path[i]].ino;
      WithChildGrows(before, fs, d, e, path[i], x);
      GrowsPath(before, after, fs, path[..i], d);
      StepPath(after, path, i, d, e);
      forall y: Path ensures Cached(after, y) <==> Cached(c, y) || y <= path[..i + 1] {
        OneLonger(path, i, y);
        WithChildPaths(before, fs, d, e, path[i], x, path[..i], y);
        assert Cached(before, y) <==> Cached(c, y) || y <= path[..i];
      }
    }

    // A path whose next name is not among the children is not cached.
    static lemma NotCached(c: Cache, fs: Fs, path: Path, i: nat, d: nat)
      requires Coherent(c, fs) && i < |path| && PathTo(c, path[..i], d) && Unused(c, c[d].children, path[i]) && Alive(c, d)
      ensures !Cached(c, path)
    {
      hide Coherent, PathTo, ListOk;
      forall z: nat ensures !PathTo(c, path, z) {
        if PathTo(c, path, z) { CachedPrefix(c, fs, path, z, i, d); }
      }
    }

    // Along a cached path, the next dentry is a child with the next name.
    static lemma {:induction false} CachedPrefix(c: Cache, fs: Fs, path: Path, z: nat, i: nat, d: nat)
      requires Coherent(c, fs) && i < |path| && PathTo(c, path[..i], d) && PathTo(c, path, z)
      ensures Alive(c, d) && exists k :: 0 <= k < |c[d].children| && c[d].children[k] < |c| && c[c[d].children[k]].name == path[i]
      decreases |path|
    {
      hide Coherent, ListOk;
      LastStep(c, fs, path, z);
      var n := |path| - 1;
      if i == n {
        hide PathTo;
        OnePath(c, fs, path[..n], path[..n], d, c[z].parent.value);
      } else {
        assert path[..n][..i] == path[..i];
        CachedPrefix(c, fs, path[..n], c[z].parent.value, i, d);
      }
    }

    // ------------------------------------------------------------------------------
    // Create, mkdir, unlink

    /** Resolves all but the last name of a path. */
    method WalkParent(path: Path, cred: Cred) returns (status: Status, p: nat, name: Name)
      requires Valid()
      modifies this`dents
      ensures Valid() && Grows(old(dents), dents) && status == Resolution(vol.V(), old(dents), ROOT, Front(path), cred)
      ensures Walked(vol.V(), old(dents), dents, Front(path), cred) && (path == [] ==> dents == old(dents))
      ensures status == Ok ==> name == Last(path) && Alive(dents, p)
      ensures status == Ok ==> PathTo(dents, Front(path), p) && Leads(vol.Tree(), Front(path), NodeOf(dents, p))
      ensures status == Ok ==> PathsAfter(old(dents), dents, Front(path))
      ensures status == Ok ==> FreeSlots(dents) == FreeSlots(old(dents)) - Loads(old(dents), ROOT, Front(path))
    {
      hide Inv, Contents, Singles, VolInv, Abs, Coherent, PathTo, Leads, ListOk, Acyclic, Grows, Cached, PathsAfter, FreeSlots, Resolution, Loads;
      if path == [] {
        EmptyPath(dents, vol.V(), vol.Tree(), cred);
        GrowsNot(dents);
        return Ok, ROOT, [];
      }
      status, p := Walk(path[..|path| - 1], cred);
      name := path[|path| - 1];
    }

    static lemma EmptyPath(c: Cache, v: Vol, fs: Fs, cred: Cred)
      requires Coherent(c, fs)
      ensures Resolution(v, c, ROOT, [], cred) == Ok && Loads(c, ROOT, []) == 0 && Alive(c, ROOT) && PathTo(c, [], ROOT)
      ensures Leads(fs, [], NodeOf(c, ROOT)) && PathsAfter(c, c, [])
    {
      hide Coherent;
      RootFact(c, fs);
      assert PathTo(c, [], ROOT);
    }

    // Once the front of a path is cached, so is the path, if it was from the start.
    static lemma CachedFrom(c0: Cache, c: Cache, fs: Fs, path: Path, p: nat)
      requires Coherent(c, fs) && path != [] && PathTo(c, Front(path), p) && Alive(c, p) && PathsAfter(c0, c, Front(path))
      ensures HasChild(c, p, Last(path)) <==> Cached(c0, path)
    {
      hide Coherent, PathTo, HasChild, Cached;
      CachedHere(c, fs, path, p);
      assert Cached(c, path) <==> Cached(c0, path);
    }

    /** Create and mkdir. */
    method Make(path: Path, isDir: bool, mode: bv16, cred: Cred) returns (status: Status)
      requires Valid()
      modifies this`dents, vol, vol.st
      ensures Valid() && MakeStep(old(Now()), Now(), path, isDir, mode, cred, status)
    {
      hide Inv, Contents, Singles, VolInv, Abs, Coherent, PathTo, Leads, ListOk, Acyclic, Grows, Cached, Unused, AddCheck, FsNamed, Volume.ChildMade,
           PathsAfter, FreeSlots, Resolution, Loads, MakeIn, Volume.AddSpace, HasChild, Added, FirstNamed, Last, Front, Walked, MakeStep;
      ghost var a := Now();
      ghost var fs := vol.Tree();
      var p, name;
      status, p, name := WalkParent(path, cred);
      if path == [] {
        MakeStops(a, Now(), path, isDir, mode, cred, InvalidArg);
        return InvalidArg;
      }
      if status != Ok {
        MakeStops(a, Now(), path, isDir, mode, cred, status);
        return;
      }
      ghost var c := dents;
      VolumeNamed(vol.V());
      ShapeFact(a.v);
      DentFact(c, fs, p);
      NodeRange(vol.V(), NodeOf(c, p));
      ChildBounds(c, fs, p);
      CachedFrom(a.c, c, fs, path, p);
      var existing;
      ghost var at;
      existing, at := FindChild(p, name);
      ChildOrNot(c, p, existing, name);
      var dir := dents[p].node.value;
      if existing.Some? {
        MadeNot(a, Now(), dir, path, isDir, mode, cred, AlreadyExists);
        return AlreadyExists;
      }
      ghost var v := vol.V();
      var ino;
      status, ino := vol.AddChild(dir, name, isDir, mode, cred);
      if status != Ok {
        MadeNot(a, Now(), dir, path, isDir, mode, cred, status);
        return;
      }
      status := MakeDone(p, name, ino, a, isDir, mode, cred, path);
    }

    // The node is there: it gets a dentry, and the call is answered.
    method MakeDone(p: nat, name: Name, ino: nat, ghost a: Moment, ghost isDir: bool, ghost mode: bv16, ghost cred: Cred, ghost path: Path)
      returns (status: Status)
      requires vol.Valid() && VolInv(a.v) && Acyclic(Abs(a.v), a.v.home) && Coherent(dents, Abs(a.v)) && Alive(dents, p) && path != [] && name == Last(path)
      requires PathTo(dents, Front(path), p) && PathsAfter(a.c, dents, Front(path)) && Leads(Abs(a.v), Front(path), NodeOf(dents, p))
      requires FreeSlots(dents) == FreeSlots(a.c) - Loads(a.c, ROOT, Front(path)) && Resolution(a.v, a.c, ROOT, Front(path), cred) == Ok
      requires !HasChild(dents, p, name) && !Cached(a.c, path) && Walked(a.v, a.c, dents, Front(path), cred)
      requires Volume.ChildMade(a.v, vol.V(), NodeOf(dents, p), name, ino, isDir, mode & 0x0FFF, cred)
      requires AddCheck(Abs(a.v), |a.v.inodes|, NodeOf(dents, p), name, cred) == Ok && a.v.free > 0
      requires Volume.AddSpace(a.v, a.s, vol.V(), vol.st.S(), NodeOf(dents, p), |name|, isDir, Ok)
      modifies this`dents
      ensures Valid() && MakeStep(a, Now(), path, isDir, mode, cred, status)
    {
      hide Inv, Contents, Singles, VolInv, Abs, Coherent, PathTo, Leads, ListOk, Acyclic, Grows, Cached, Unused, AddCheck, FsNamed, Volume.ChildMade,
           PathsAfter, FreeSlots, Resolution, Loads, MakeIn, Volume.AddSpace, HasChild, Added, Last, Front, Walked;
      ghost var dir := NodeOf(dents, p);
      VolumeNamed(a.v);
      NoneNamed(dents, p, name);
      MadeFacts(a.v, vol.V(), dir, name, ino, isDir, mode & 0x0FFF, cred);
      status := CacheMade(p, name, ino, Abs(a.v), a.v.home, Abs(vol.V())[ino], a.c, path);
      MadeChild(a, Now(), dir, path, isDir, mode, cred, ino, status);
    }

    // A new entry gets a dentry, if there is one left.
    method CacheMade(p: nat, name: Name, ino: nat, ghost fs: Fs, ghost home: Homes, ghost node: Node, ghost c0: Cache, ghost path: Path)
      returns (status: Status)
      requires vol.Valid() && FsNamed(fs, home) && Acyclic(fs, home) && Coherent(dents, fs) && Alive(dents, p)
      requires Added(fs, vol.Tree(), NodeOf(dents, p), name, ino, node) && vol.home == home[ino := Place(NodeOf(dents, p), name)]
      requires Unused(dents, dents[p].children, name) && path != [] && name == Last(path)
      requires PathTo(dents, Front(path), p) && PathsAfter(c0, dents, Front(path))
      modifies this`dents
      ensures Valid() && status == (if FreeSlots(old(dents)) == 0 then OutOfMemory else Ok)
      ensures status == Ok ==> PathsAfter(c0, dents, path) && FreeSlots(dents) == FreeSlots(old(dents)) - 1
      ensures status != Ok ==> dents == old(dents)
    {
      hide Inv, Contents, Singles, VolInv, Abs, Coherent, ListOk, Acyclic, Unused, FsNamed, FreeSlots, Added, PathTo, PathsAfter, Front, Last;
      ghost var c := dents;
      AddedRanked(fs, vol.Tree(), home, vol.home, NodeOf(c, p), name, ino, node);
      AddedStill(c, fs, vol.Tree(), NodeOf(c, p), name, ino, node);
      var slot := AddDentry(name, ino, p);
      if slot.None? {
        return OutOfMemory;
      }
      WithChildCoherent(c, vol.Tree(), p, slot.value, name, ino);
      OnePathMore(c0, c, vol.Tree(), p, slot.value, name, ino, path);
      return Ok;
    }

    static lemma OnePathMore(c0: Cache, c: Cache, fs: Fs, p: nat, e: nat, name: Name, x: nat, path: Path)
      requires Coherent(c, fs) && Alive(c, p) && e < |c| && c[e].refs == 0 && p != e && path != [] && name == Last(path)
      requires PathTo(c, Front(path), p) && PathsAfter(c0, c, Front(path)) && Coherent(WithChild(c, p, e, name, x), fs)
      ensures PathsAfter(c0, WithChild(c, p, e, name, x), path)
    {
      hide Coherent, PathTo, Cached, WithChild;
      var c', n := WithChild(c, p, e, name, x), |path| - 1;
      assert path[..n + 1] == path;
      forall y: Path ensures Cached(c', y) <==> Cached(c0, y) || y <= path {
        WithChildPaths(c, fs, p, e, name, x, Front(path), y);
        OneLonger(path, n, y);
        assert Cached(c, y) <==> Cached(c0, y) || y <= Front(path);
      }
    }

    static lemma ChildOrNot(c: Cache, p: nat, r: Option<nat>, name: Name)
      requires p < |c| && r == ChildNamed(c, p, name)
      ensures r.Some? <==> HasChild(c, p, name)
    {
    }

    static lemma MakeStops(a: Moment, b: Moment, path: Path, isDir: bool, mode: bv16, cred: Cred, status: Status)
      requires b.v == a.v && status != Ok && status == if path == [] then InvalidArg else Resolution(a.v, a.c, ROOT, Front(path), cred)
      requires if path == [] then b.c == a.c else Walked(a.v, a.c, b.c, Front(path), cred)
      ensures MakeStep(a, b, path, isDir, mode, cred, status)
    {
      hide Resolution, Walked, MakeIn;
    }

    static lemma MadeNot(a: Moment, b: Moment, d: nat, path: Path, isDir: bool, mode: bv16, cred: Cred, status: Status)
      requires Leads(Abs(a.v), Front(path), d) && Abs(b.v) == Abs(a.v) && status != Ok && a.v.free >= 0
      requires if Cached(a.c, path) then status == AlreadyExists
               else var check := AddCheck(Abs(a.v), |a.v.inodes|, d, Last(path), cred);
                    (check != Ok ==> status == check) && (check == Ok && a.v.free == 0 ==> status == OutOfMemory) &&
                    (check == Ok && a.v.free > 0 ==> Volume.AddSpace(a.v, a.s, b.v, b.s, d, |Last(path)|, isDir, status))
      requires path != [] && Resolution(a.v, a.c, ROOT, Front(path), cred) == Ok && Walked(a.v, a.c, b.c, Front(path), cred)
      ensures MakeStep(a, b, path, isDir, mode, cred, status)
    {
      hide Resolution, Walked;
      assert MakeIn(a, b, d, path, isDir, mode, cred, status);
      hide Abs, Leads, Cached, AddCheck, Volume.AddStatus, FreeSlots, Loads;
    }

    static lemma MadeChild(a: Moment, b: Moment, d: nat, path: Path, isDir: bool, mode: bv16, cred: Cred, ino: nat, status: Status)
      requires Leads(Abs(a.v), Front(path), d) && !Cached(a.c, path) && a.v.free >= 0
      requires var check := AddCheck(Abs(a.v), |a.v.inodes|, d, Last(path), cred);
               check == Ok && a.v.free != 0 && (a.v.free > 0 ==> Volume.AddSpace(a.v, a.s, b.v, b.s, d, |Last(path)|, isDir, Ok))
      requires Volume.ChildMade(a.v, b.v, d, Last(path), ino, isDir, mode & 0x0FFF, cred)
      requires status == (if FreeSlots(a.c) == Loads(a.c, ROOT, Front(path)) then OutOfMemory else Ok)
      ensures MakeIn(a, b, d, path, isDir, mode, cred, status)
    {
      hide Abs, Leads, Cached, AddCheck, Volume.AddStatus, FreeSlots, Loads, Inherited;
      assert AddedChild(Abs(a.v), Abs(b.v), d, Last(path), ino, isDir, mode, cred);
      assert ino in Abs(b.v);
    }

    static lemma MadeFacts(v: Vol, w: Vol, dir: nat, name: Name, ino: nat, isDir: bool, mode: bv16, cred: Cred)
      requires Volume.ChildMade(v, w, dir, name, ino, isDir, mode, cred)
      ensures ino in Abs(w) && Added(Abs(v), Abs(w), dir, name, ino, Abs(w)[ino]) && w.home == v.home[ino := Place(dir, name)]
    {
      hide Abs, Inherited;
    }

    static lemma AddedStill(c: Cache, a: Fs, b: Fs, dir: nat, name: Name, ino: nat, node: Node)
      requires Coherent(c, a) && Added(a, b, dir, name, ino, node)
      ensures Coherent(c, b) && b != a && dir in b && name in b[dir].entries && b[dir].entries[name].ino == ino && ino in b
    {
      hide Coherent;
      forall d | 0 <= d < |c| && c[d].refs > 0 ensures NodeOf(c, d) in b { DentFact(c, a, d); }
      StillCoherent(c, a, b);
    }

    /** Unlink; a cached dentry goes with the entry. */
    method Unlink(path: Path, cred: Cred) returns (status: Status)
      requires Valid()
      modifies this`dents, vol, vol.st
      ensures Valid() && UnlinkStep(old(Now()), Now(), path, cred, status)
    {
      hide Inv, Contents, Singles, VolInv, Abs, Coherent, PathTo, Leads, ListOk, Acyclic, Grows, Cached, Unused, RemoveCheck, FsNamed,
           Volume.RemoveEffect, Dropped, PathsAfter, FreeSlots, Resolution, Loads, Walked, HasChild, FirstNamed;
      ghost var a, home := Now(), vol.home;
      ghost var fs := vol.Tree();
      var p, name;
      status, p, name := WalkParent(path, cred);
      if path == [] {
        return InvalidArg;
      }
      if status != Ok {
        return;
      }
      ghost var c := dents;
      VolumeNamed(vol.V());
      DentFact(c, fs, p);
      NodeRange(vol.V(), NodeOf(c, p));
      ChildBounds(c, fs, p);
      var dir := dents[p].node.value;
      ghost var v := vol.V();
      status := vol.Remove(dir, name, cred);
      if status != Ok {
        assert UnlinkIn(a, Now(), dir, path, cred, status);
        return;
      }
      RemovedFacts(v, vol.V(), fs, |v.inodes|, dir, name, cred);
      DroppedRanked(fs, vol.Tree(), home, vol.home, dir, name);
      UncacheName(p, name, fs, home, dir, a.c, path);
      assert UnlinkIn(a, Now(), dir, path, cred, status);
    }

    // The entry is gone: its dentry goes too, if it has one.
    method UncacheName(p: nat, name: Name, ghost fs: Fs, ghost home: Homes, ghost dir: nat, ghost c0: Cache, ghost path: Path)
      requires Sound() && Coherent(dents, fs) && FsNamed(fs, home) && Acyclic(fs, home) && Alive(dents, p) && NodeOf(dents, p) == dir
      requires Dropped(fs, vol.Tree(), dir, name) && fs[fs[dir].entries[name].ino].entries == map[]
      requires path != [] && name == Last(path) && PathTo(dents, Front(path), p) && PathsAfter(c0, dents, Front(path))
      modifies this`dents
      ensures Valid()
      ensures forall x: Path {:trigger Cached(dents, x)} :: Cached(dents, x) <==> x != path && (Cached(c0, x) || x <= Front(path))
      ensures FreeSlots(dents) == FreeSlots(old(dents)) + (if Cached(c0, path) then 1 else 0)
    {
      hide Inv, Contents, Singles, VolInv, Abs, Coherent, PathTo, ListOk, Acyclic, Cached, Unused, FsNamed, Dropped, PathsAfter, FreeSlots, HasChild, FirstNamed;
      ghost var c := dents;
      ChildBounds(c, fs, p);
      var existing;
      ghost var at;
      existing, at := FindChild(p, name);
      ChildOrNot(c, p, existing, name);
      CachedFrom(c0, c, fs, path, p);
      if existing.Some? {
        DroppedEntry(fs, vol.Tree(), dir, name);
        DropsChild(c, fs, vol.Tree(), home, p, at, dir, name);
        Detach(p, existing.value);
        FreeDentry(existing.value);
        assert dents == WithoutChild(c, p, at);
        PathGone(c0, c, fs, vol.Tree(), home, p, at, path);
      } else {
        PathNotThere(c0, c, fs, path, p);
        DropsNone(c, fs, vol.Tree(), home, p, dir, name);
      }
    }

    static lemma DroppedEntry(a: Fs, b: Fs, dir: nat, name: Name)
      requires Dropped(a, b, dir, name)
      ensures dir in a && name in a[dir].entries
    {
    }

    // The path was cached: its dentry went, and nothing hung below it.
    static lemma PathGone(c0: Cache, c: Cache, fs: Fs, fs': Fs, home: Homes, p: nat, i: nat, path: Path)
      requires Coherent(c, fs) && FsNamed(fs, home) && Acyclic(fs, home) && Alive(c, p) && path != [] && PathTo(c, Front(path), p)
      requires i < |c[p].children| && c[p].children[i] < |c| && c[c[p].children[i]].name == Last(path) && c[c[p].children[i]].children == []
      requires Coherent(WithoutChild(c, p, i), fs') && PathsAfter(c0, c, Front(path))
      ensures forall x: Path {:trigger Cached(WithoutChild(c, p, i), x)} ::
                Cached(WithoutChild(c, p, i), x) <==> x != path && (Cached(c0, x) || x <= Front(path))
      ensures FreeSlots(WithoutChild(c, p, i)) == FreeSlots(c) + 1
    {
      hide Coherent, FsNamed, PathTo, Cached, ListOk;
      var level := LevelOf(fs, home);
      var x := c[p].children[i];
      ChildFact(c, fs, p, x);
      OneMore(c, Front(path), p, Last(path), x);
      assert Front(path) + [Last(path)] == path;
      WithoutChildPaths(c, fs, fs', home, level, p, i, path);
      assert FreeSet(WithoutChild(c, p, i)) == FreeSet(c) + {x};
      forall y: Path ensures Cached(c, y) <==> Cached(c0, y) || y <= Front(path) {}
    }

    static lemma PathNotThere(c0: Cache, c: Cache, fs: Fs, path: Path, p: nat)
      requires Coherent(c, fs) && path != [] && PathTo(c, Front(path), p) && Alive(c, p) && PathsAfter(c0, c, Front(path)) && !HasChild(c, p, Last(path))
      ensures forall x: Path {:trigger Cached(c, x)} :: Cached(c, x) <==> x != path && (Cached(c0, x) || x <= Front(path))
    {
      hide Coherent, PathTo, Cached, HasChild;
      CachedHere(c, fs, path, p);
    }

    static lemma RemovedFacts(v: Vol, w: Vol, fs: Fs, count: nat, dir: nat, name: Name, cred: Cred)
      requires VolInv(v) && fs == Abs(v) && Volume.RemoveEffect(v, w, dir, name) && RemoveCheck(fs, count, dir, name, cred) == Ok
      ensures Dropped(Abs(v), Abs(w), dir, name)
      ensures var t := fs[dir].entries[name].ino; t in fs && fs[t].entries == map[] && w.home == v.home - {t}
    {
      hide VolInv, Abs, Allowed;
      var t := fs[dir].entries[name].ino;
      FilesEmpty(v, t);
    }

    static lemma FilesEmpty(v: Vol, t: nat)
      requires VolInv(v) && t in Abs(v)
      ensures !Abs(v)[t].isDir ==> Abs(v)[t].entries == map[]
    {
      hide VolInv, TableOk, AclOk, InodeDataOk;
      InodeFact(v, t);
    }

    // The removed entry was not cached, so no dentry stands for its inode.
    static lemma DropsNone(c: Cache, a: Fs, b: Fs, home: Homes, p: nat, dir: nat, name: Name)
      requires Coherent(c, a) && FsNamed(a, home) && Acyclic(a, home) && Dropped(a, b, dir, name) && Alive(c, p) && NodeOf(c, p) == dir
      requires a[a[dir].entries[name].ino].entries == map[] && Unused(c, c[p].children, name)
      ensures Coherent(c, b)
    {
      hide Coherent, FsNamed, Acyclic, ListOk;
      var t := a[dir].entries[name].ino;
      forall d | 0 <= d < |c| && c[d].refs > 0 ensures NodeOf(c, d) in b {
        DentFact(c, a, d);
        NotTarget(c, a, home, p, dir, name, d);
      }
      forall d | 0 < d < |c| && c[d].refs > 0 && LinkOk(c, a, d) ensures LinkOk(c, b, d) {
        LinkNamed(c, a, home, d);
        NotTarget(c, a, home, p, dir, name, d);
        NotTarget(c, a, home, p, dir, name, c[d].parent.value);
      }
      StillCoherent(c, a, b);
    }

    static lemma NotTarget(c: Cache, fs: Fs, home: Homes, p: nat, dir: nat, name: Name, d: nat)
      requires Coherent(c, fs) && FsNamed(fs, home) && Acyclic(fs, home) && Alive(c, p) && NodeOf(c, p) == dir && dir in fs && name in fs[dir].entries
      requires Unused(c, c[p].children, name) && Alive(c, d)
      ensures NodeOf(c, d) != fs[dir].entries[name].ino
    {
      hide Coherent, FsNamed, ListOk;
      var t := fs[dir].entries[name].ino;
      RootFact(c, fs);
      EntryPlace(fs, home, dir, name);
      if NodeOf(c, d) == t {
        LinkNamed(c, fs, home, d);
        var level :| Ranked(fs, home, level);
        UniqueDentry(c, fs, home, level, c[d].parent.value, p);
        assert false;
      }
    }

    static lemma EntryPlace(fs: Fs, home: Homes, d: nat, n: Name)
      requires FsNamed(fs, home) && d in fs && n in fs[d].entries
      ensures var t := fs[d].entries[n].ino; t in fs && t != ROOT_INO && t in home && home[t] == Place(d, n)
    {
      assert EntryNamed(fs, home, d, n);
    }

    // The dentry of the removed entry has no children and can go.
    static lemma DropsChild(c: Cache, a: Fs, b: Fs, home: Homes, p: nat, i: nat, dir: nat, name: Name)
      requires Coherent(c, a) && FsNamed(a, home) && Acyclic(a, home) && Dropped(a, b, dir, name) && Alive(c, p) && NodeOf(c, p) == dir
      requires a[a[dir].entries[name].ino].entries == map[]
      requires i < |c[p].children| && c[p].children[i] < |c| && c[c[p].children[i]].name == name
      ensures Coherent(WithoutChild(c, p, i), b) && c[c[p].children[i]].children == []
      ensures forall j :: 0 <= j < i ==> c[p].children[j] != c[p].children[i]
    {
      hide Coherent, FsNamed, Acyclic, ListOk;
      var x := c[p].children[i];
      ChildFact(c, a, p, x);
      Childless(c, a, x);
      WithoutChildCoherent(c, a, p, i);
      FirstPlace(c, p, i);
      var c' := WithoutChild(c, p, i);
      StillUnused(c, p, i);
      DropsNone(c', a, b, home, p, dir, name);
    }

    static lemma Childless(c: Cache, fs: Fs, x: nat)
      requires Coherent(c, fs) && Alive(c, x) && NodeOf(c, x) in fs && fs[NodeOf(c, x)].entries == map[]
      ensures c[x].children == []
    {
      hide Coherent;
      if c[x].children != [] { ChildFact(c, fs, x, c[x].children[0]); }
    }

    static lemma FirstPlace(c: Cache, p: nat, i: nat)
      requires p < |c| && ChildrenOk(c, p) && i < |c[p].children|
      ensures forall j :: 0 <= j < i ==> c[p].children[j] != c[p].children[i]
    {
      assert ChildOk(c, p, c[p].children[i]);
    }

    static lemma StillUnused(c: Cache, p: nat, i: nat)
      requires p < |c| && ChildrenOk(c, p) && i < |c[p].children| && c[p].children[i] < |c| && c[p].children[i] != p
      ensures var c' := WithoutChild(c, p, i); Unused(c', c'[p].children, c[c[p].children[i]].name)
    {
      var k := c[p].children;
      var c' := WithoutChild(c, p, i);
      forall j | 0 <= j < |c'[p].children| ensures var j' := if j < i then j else j + 1; c'[p].children[j] == k[j'] && ChildOk(c, p, k[j']) { }
    }

    // ------------------------------------------------------------------------------
    // Rename

    /** Walks up from `q` looking for `x`. */
    method IsAbove(x: nat, q: nat, ghost home: Homes, ghost level: Levels) returns (found: bool)
      requires Valid() && FsNamed(vol.Tree(), home) && Ranked(vol.Tree(), home, level) && Alive(dents, q)
      ensures found <==> Above(dents, level, x, q)
    {
      hide Inv, Contents, Singles, VolInv, Abs, Coherent, ListOk, Acyclic, FsNamed;
      var w: Option<nat> := Some(q);
      while w.Some?
        invariant w.Some? ==> Alive(dents, w.value) && (Above(dents, level, x, q) <==> Above(dents, level, x, w.value))
        invariant w.None? ==> !Above(dents, level, x, q)
        decreases if w.Some? && NodeOf(dents, w.value) in level then 1 + level[NodeOf(dents, w.value)] else 0
      {
        if w.value == x {
          return true;
        }
        UpStep(dents, vol.Tree(), home, level, w.value);
        w := dents[w.value].parent;
      }
      return false;
    }

    // The parent of a dentry stands for a directory of a lower level.
    static lemma UpStep(c: Cache, fs: Fs, home: Homes, level: Levels, d: nat)
      requires Coherent(c, fs) && FsNamed(fs, home) && Ranked(fs, home, level) && Alive(c, d)
      ensures NodeOf(c, d) in level
      ensures c[d].parent.Some? ==>
                Alive(c, c[d].parent.value) && NodeOf(c, c[d].parent.value) in level && level[NodeOf(c, c[d].parent.value)] < level[NodeOf(c, d)]
    {
      hide Coherent, FsNamed, ListOk;
      DentFact(c, fs, d);
      RootFact(c, fs);
      if d != ROOT {
        LinkNamed(c, fs, home, d);
        assert home[NodeOf(c, d)].dir in level;
      }
    }

    /** What the checks establish: the moved inode is not above its new directory. */
    static lemma NotUnder(c: Cache, fs: Fs, home: Homes, level: Levels, p: nat, n1: Name, q: nat, existing: Option<nat>)
      requires Coherent(c, fs) && FsNamed(fs, home) && Ranked(fs, home, level) && Alive(c, p) && Alive(c, q)
      requires NodeOf(c, p) in fs && n1 in fs[NodeOf(c, p)].entries
      requires existing.None? ==> Unused(c, c[p].children, n1)
      requires existing.Some? ==> existing.value in c[p].children && existing.value < |c| && c[existing.value].name == n1 && !Above(c, level, existing.value, q)
      ensures !Under(home, level, fs[NodeOf(c, p)].entries[n1].ino, NodeOf(c, q))
    {
      hide Coherent, FsNamed, ListOk, Under, Above;
      var t := fs[NodeOf(c, p)].entries[n1].ino;
      EntryPlace(fs, home, NodeOf(c, p), n1);
      DentFact(c, fs, p);
      DentFact(c, fs, q);
      if Under(home, level, t, NodeOf(c, q)) {
        AncestorCached(c, fs, home, level, q, t, p);
        var x: nat :| Above(c, level, x, q) && Alive(c, x) && x in c[p].children && c[x].name == n1;
        if existing.Some? { SameChild(c, p, x, existing.value); }
        assert false;
      }
    }

    /** The cache side of a rename: whatever is cached under the new name is freed, and the
        dentry under the old name moves. */
    method MoveDentry(p: nat, existing: Option<nat>, ghost at: nat, q: nat, n1: Name, n2: Name)
      requires p < |dents| && q < |dents| && ChildrenOk(dents, p) && ChildrenOk(dents, q)
      requires existing.None? ==> Unused(dents, dents[p].children, n1)
      requires existing.Some? ==>
                 at < |dents[p].children| && dents[p].children[at] == existing.value && existing.value < |dents| &&
                 dents[existing.value].name == n1 && existing.value != p && existing.value != q
      modifies this`dents
      ensures existing.None? && (Unused(old(dents), old(dents)[q].children, n2) || (p == q && n1 == n2)) ==> dents == old(dents)
      ensures existing.Some? && Unused(old(dents), old(dents)[q].children, n2) ==> dents == Renamed(old(dents), p, at, q, n2)
      ensures existing.Some? && p == q && n1 == n2 ==> dents == SelfRenamed(old(dents), p, at, n2)
    {
      hide Unused, ListOk;
      ghost var c := dents;
      InBounds(c, q);
      var taken;
      ghost var place;
      taken, place := FindChild(q, n2);
      if taken.Some? {
        UsedName(c, q, place, n2);
        FirstPlace(c, q, place);
        if existing.Some? && p == q && n1 == n2 { SameChild(c, p, existing.value, taken.value); FirstPlace(c, p, at); SamePlaceIndex(c, p, at, place); }
        Detach(q, taken.value);
        FreeDentry(taken.value);
      }
      if existing.Some? {
        var x := existing.value;
        FirstPlace(c, p, at);
        if taken.Some? && p == q && n1 == n2 { ListLess(c, p, c[p].children, at); }
        DetachAndHang(p, x, q, n2);
      }
    }

    // Takes dentry `x` out of the children of `p` and hangs it below `q` under a new name.
    method DetachAndHang(p: nat, x: nat, q: nat, name: Name)
      requires p < |dents| && q < |dents| && x < |dents| && x != q && x != p
      modifies this`dents
      ensures |dents| == |old(dents)|
      ensures forall i :: FirstAt(old(dents)[p].children, i, x) ==> dents == Renamed(old(dents), p, i, q, name)
      ensures x !in old(dents)[p].children ==>
                dents == Attached(old(dents)[x := old(dents)[x].(name := name, parent := Some(q))], q, x)
    {
      Detach(p, x);
      dents := dents[x := dents[x].(name := name, parent := Some(q))];
      dents := dents[q := dents[q].(children := [x] + dents[q].children)];
    }

    static lemma InBounds(c: Cache, d: nat)
      requires d < |c| && ChildrenOk(c, d)
      ensures forall k :: 0 <= k < |c[d].children| ==> c[d].children[k] < |c|
    {
      forall k | 0 <= k < |c[d].children| ensures c[d].children[k] < |c| { assert ChildOk(c, d, c[d].children[k]); }
    }

    static lemma UsedName(c: Cache, q: nat, i: nat, name: Name)
      requires q < |c| && i < |c[q].children| && c[q].children[i] < |c| && c[c[q].children[i]].name == name
      ensures !Unused(c, c[q].children, name)
    {
    }

    static lemma SamePlaceIndex(c: Cache, p: nat, i: nat, j: nat)
      requires p < |c| && ChildrenOk(c, p) && i < |c[p].children| && j < |c[p].children| && c[p].children[i] == c[p].children[j]
      ensures i == j
    {
      FirstPlace(c, p, i);
      FirstPlace(c, p, j);
    }

    /** Rename. The volume stays valid and free of cycles whatever happens; the cache stays
        coherent except when a cached path is renamed to itself, or loses its entry. */
    method Rename(from: Path, to: Path, cred: Cred) returns (status: Status)
      requires Valid()
      modifies this`dents, vol, vol.st
      ensures Sound() && RenameStep(old(Now()), Now(), from, to, cred, status)
      ensures Coherent(dents, vol.Tree()) <==> !Breaks(old(Now()), from, to, status)
    {
      hide Inv, Contents, Singles, VolInv, Abs, Coherent, PathTo, Leads, ListOk, Acyclic, Grows, Cached, Unused, RenameCheck, FsNamed,
           Volume.RenameEffect, Moved, Above, Under, Ranked, PathsAfter, FreeSlots, Resolution, Loads, RenameIn, NoRoom, HasChild, Walked, PathsRenamed;
      ghost var a, fs := Now(), vol.Tree();
      var p, n1;
      status, p, n1 := WalkParent(from, cred);
      ResolutionStatus(a.v, a.c, ROOT, Front(from), cred);
      if status != Ok {
        return;
      }
      ghost var mid := dents;
      var q, n2;
      status, q, n2 := WalkParent(to, cred);
      ResolutionStatus(a.v, mid, ROOT, Front(to), cred);
      if status != Ok {
        RenameStopped(a, Now(), mid, from, to, cred, status);
        return;
      }
      GrowsAlive(mid, dents, p);
      if from == [] || to == [] {
        RenameStopped(a, Now(), mid, from, to, cred, InvalidArg);
        return InvalidArg;
      }
      PathGrows(mid, dents, fs, Front(from), p);
      ghost var c := dents;
      CachedLeads(c, fs, Front(from), p);
      SelfPath(a.c, mid, c, fs, from, to, p, q);
      status := RenameAt(p, n1, q, n2, cred, a, from, to);
      RenameDone(a, Now(), mid, c, p, q, from, to, cred, status);
    }

    // The second walk failed, or one of the paths was empty.
    static lemma RenameStopped(a: Moment, b: Moment, mid: Cache, from: Path, to: Path, cred: Cred, status: Status)
      requires Walked(a.v, a.c, mid, Front(from), cred) && Walked(a.v, mid, b.c, Front(to), cred) && b.v == a.v && status != Ok
      requires var walk := Resolution(a.v, mid, ROOT, Front(to), cred);
               if walk != Ok then status == walk else (from == [] || to == []) && status == InvalidArg
      ensures RenameFrom(a, b, mid, from, to, cred, status)
    {
      hide Walked, Resolution, Abs, RenameIn;
      assert RenameWalked(a, b, mid, b.c, from, to, cred, status);
    }

    // A resolution fails for lack of permission, name or dentry, never of disk space.
    static lemma {:induction false} LoadingStatus(v: Vol, free: nat, x: nat, path: Path, cred: Cred)
      ensures Loading(v, free, x, path, cred) != DiskFull
      decreases |path|
    {
      hide Abs, Allowed;
      if path != [] && LoadStatus(v, free, x, path[0], cred) == Ok {
        LoadingStatus(v, free - 1, Abs(v)[x].entries[path[0]].ino, path[1..], cred);
      }
    }

    static lemma {:induction false} ResolutionStatus(v: Vol, c: Cache, d: nat, path: Path, cred: Cred)
      ensures Resolution(v, c, d, path, cred) != DiskFull
      decreases |path|
    {
      hide Loading, FreeSlots;
      LoadingStatus(v, FreeSlots(c), NodeOf(c, d), path, cred);
      if path != [] && ChildNamed(c, d, path[0]).Some? {
        ResolutionStatus(v, c, ChildNamed(c, d, path[0]).value, path[1..], cred);
      }
    }

    // What `RenameAt` did to the dentries' inodes, said of the paths.
    static lemma RenameDone(a: Moment, b: Moment, mid: Cache, c: Cache, p: nat, q: nat, from: Path, to: Path, cred: Cred, status: Status)
      requires from != [] && to != [] && Walked(a.v, a.c, mid, Front(from), cred) && Resolution(a.v, mid, ROOT, Front(to), cred) == Ok
      requires Walked(a.v, mid, c, Front(to), cred) && PathsRenamed(c, b.c, from, to, status)
      requires Leads(Abs(a.v), Front(from), NodeOf(c, p)) && Leads(Abs(a.v), Front(to), NodeOf(c, q))
      requires RenameIn(a, b, NodeOf(c, p), NodeOf(c, q), from, to, cred, status)
      requires Coherent(b.c, Abs(b.v)) <==> !BreaksAt(a, c, p, q, from, to, status)
      requires p == q && Last(from) == Last(to) && HasChild(c, p, Last(from)) <==> from == to && Cached(a.c, from)
      requires !(from <= Front(to)) ==> (HasChild(c, p, Last(from)) <==> Cached(a.c, from))
      requires status == DiskFull ==> !(from <= Front(to))
      ensures RenameFrom(a, b, mid, from, to, cred, status)
      ensures Coherent(b.c, Abs(b.v)) <==> !Breaks(a, from, to, status)
    {
      hide Coherent, Abs, Leads, Walked, PathsRenamed, Resolution, RenameIn, HasChild, Cached, Volume.Fits;
      assert RenameWalked(a, b, mid, c, from, to, cred, status);
      NoRoomOnce(a, NodeOf(c, p), NodeOf(c, q), from, to);
    }

    static lemma NoRoomOnce(a: Moment, d1: nat, d2: nat, from: Path, to: Path)
      requires Leads(Abs(a.v), Front(from), d1) && Leads(Abs(a.v), Front(to), d2)
      ensures NoRoom(a, from, to) <==> NoRoomIn(a, d1, d2, from, to)
    {
      hide Abs, Leads, Volume.Fits;
      if NoRoom(a, from, to) {
        var e1: nat, e2: nat :| NoRoomIn(a, e1, e2, from, to);
        LeadsOnce(Abs(a.v), Front(from), d1, e1);
        LeadsOnce(Abs(a.v), Front(to), d2, e2);
      }
    }

    // The same condition as `Breaks`, in terms of dentries.
    static ghost predicate BreaksAt(a: Moment, c: Cache, p: nat, q: nat, from: Path, to: Path, status: Status) {
      HasChild(c, p, Last(from)) &&
      ((status == Ok && p == q && Last(from) == Last(to)) ||
       (status == DiskFull && NoRoomIn(a, NodeOf(c, p), NodeOf(c, q), from, to)))
    }

    static lemma GrowsAlive(c: Cache, c': Cache, d: nat)
      requires Grows(c, c') && Alive(c, d)
      ensures Alive(c', d)
    {
    }

    static lemma PathGrows(c: Cache, c': Cache, fs: Fs, names: Path, d: nat)
      requires Coherent(c, fs) && Grows(c, c') && PathTo(c, names, d)
      ensures PathTo(c', names, d)
    {
      hide Coherent, PathTo, Grows;
      GrowsPath(c, c', fs, names, d);
    }

    /** Some child of `p` has this name. */
    static ghost predicate HasChild(c: Cache, p: nat, name: Name) {
      p < |c| && !Unused(c, c[p].children, name)
    }

    // Both paths end at the same cached dentry exactly when they are the same path and it
    // was cached from the start; unless the second walk led through the first path, that is
    // cached exactly if it was. `c0`, `c1` and `c2` are the cache before, between and after
    // the two walks to the parents `p` and `q`.
    static lemma SelfPath(c0: Cache, c1: Cache, c2: Cache, fs: Fs, from: Path, to: Path, p: nat, q: nat)
      requires Coherent(c2, fs) && from != [] && to != [] && Alive(c2, p)
      requires PathTo(c2, Front(from), p) && PathTo(c2, Front(to), q)
      requires PathsAfter(c0, c1, Front(from)) && PathsAfter(c1, c2, Front(to))
      ensures p == q && Last(from) == Last(to) && HasChild(c2, p, Last(from)) <==> from == to && Cached(c0, from)
      ensures !(from <= Front(to)) ==> (HasChild(c2, p, Last(from)) <==> Cached(c0, from))
      ensures from <= Front(to) ==> HasChild(c2, p, Last(from))
    {
      hide Coherent, PathTo, ListOk, HasChild, Cached;
      assert from == Front(from) + [Last(from)] && to == Front(to) + [Last(to)];
      OnePath(c2, fs, Front(from), Front(to), p, q);
      CachedHere(c2, fs, from, p);
      assert Cached(c2, from) <==> Cached(c1, from) || from <= Front(to);
      assert Cached(c1, from) <==> Cached(c0, from) || from <= Front(from);
    }

    static lemma CachedHere(c: Cache, fs: Fs, path: Path, p: nat)
      requires Coherent(c, fs) && path != [] && PathTo(c, path[..|path| - 1], p) && Alive(c, p)
      ensures HasChild(c, p, path[|path| - 1]) <==> Cached(c, path)
    {
      hide Coherent, ListOk;
      var n := |path| - 1;
      if HasChild(c, p, path[n]) {
        var i :| 0 <= i < |c[p].children| && c[p].children[i] < |c| && c[c[p].children[i]].name == path[n];
        assert Child(c, p, path[n], c[p].children[i]);
        assert PathTo(c, path, c[p].children[i]);
      } else {
        assert path[..n] == path[..|path| - 1];
        NotCached(c, fs, path, n, p);
      }
    }

    static ghost function LevelOf(fs: Fs, home: Homes): (level: Levels)
      requires Acyclic(fs, home)
      ensures Ranked(fs, home, level)
    {
      var level :| Ranked(fs, home, level);
      level
    }

    /** Rename, once both parents are resolved. */
    method RenameAt(p: nat, n1: Name, q: nat, n2: Name, cred: Cred, ghost a: Moment, ghost from: Path, ghost to: Path) returns (status: Status)
      requires a.v == vol.V() && a.s == vol.st.S()
      requires Valid() && Alive(dents, p) && Alive(dents, q) && from != [] && to != [] && n1 == Last(from) && n2 == Last(to)
      requires PathTo(dents, Front(from), p) && PathTo(dents, Front(to), q)
      requires from <= Front(to) ==> HasChild(dents, p, n1)
      modifies this`dents, vol, vol.st
      ensures Sound() && RenameIn(a, Now(), NodeOf(old(dents), p), NodeOf(old(dents), q), from, to, cred, status)
      ensures status == DiskFull ==> !(from <= Front(to))
      ensures Coherent(dents, vol.Tree()) <==> !BreaksAt(a, old(dents), p, q, from, to, status)
      ensures PathsRenamed(old(dents), dents, from, to, status)
    {
      hide Inv, Contents, Singles, VolInv, Abs, Coherent, ListOk, Acyclic, Unused, RenameCheck, FsNamed, Volume.RenameEffect, Moved, Above, Under, Ranked,
           PathTo, Leads, RenameIn, BreaksAt, HasChild, Volume.Fits, FirstNamed, Front, Last, PathsRenamed;
      CacheSame(dents, from, to);
      ghost var c, v, fs, home := dents, vol.V(), vol.Tree(), vol.home;
      VolumeNamed(v);
      ghost var level := LevelOf(fs, home);
      DentFact(c, fs, p);
      DentFact(c, fs, q);
      NodeRange(v, NodeOf(c, p));
      NodeRange(v, NodeOf(c, q));
      ChildBounds(c, fs, p);
      CachedLeads(c, fs, Front(from), p);
      CachedLeads(c, fs, Front(to), q);
      var existing;
      ghost var at;
      existing, at := FindChild(p, n1);
      ChildOrNot(c, p, existing, n1);
      if existing.Some? {
        var above := IsAbove(existing.value, q, home, level);
        ChildPrefix(c, fs, home, level, p, existing.value, q, from, to);
        if above {
          RefusedBelow(a, Now(), c, p, q, from, to, cred);
          return InvalidArg;
        }
        ChildApart(c, fs, home, level, p, existing.value, q);
      }
      status := vol.Rename(dents[p].node.value, n1, dents[q].node.value, n2, cred);
      ghost var w := vol.V();
      ghost var b := Now();
      RenameAnswered(a, b, NodeOf(c, p), NodeOf(c, q), from, to, cred, status);
      if status != Ok {
        RenameFailed(a, Now(), c, fs, home, level, p, q, from, to, cred, status);
        return;
      }
      RenameHappened(v, w, fs, home, NodeOf(c, p), n1, NodeOf(c, q), n2, a.s, cred);
      MoveDentry(p, existing, at, q, n1, n2);
      RenameCache(c, dents, fs, Abs(w), home, w.home, level, p, existing, at, q, n1, n2);
      BreaksOk(a, c, p, q, from, to);
      CachedPathsMoved(c, dents, fs, Abs(w), home, level, p, existing, at, q, from, to);
      OtherCache(a, b, Now(), NodeOf(c, p), NodeOf(c, q), from, to, cred);
    }

    static lemma CacheSame(c: Cache, from: Path, to: Path)
      ensures forall status: Status {:trigger PathsRenamed(c, c, from, to, status)} :: status != Ok ==> PathsRenamed(c, c, from, to, status)
    {
    }

    // The cached paths after a successful rename.
    static lemma CachedPathsMoved(c: Cache, c': Cache, a: Fs, b: Fs, home: Homes, level: Levels, p: nat, existing: Option<nat>, at: nat, q: nat, from: Path, to: Path)
      requires Coherent(c, a) && FsNamed(a, home) && Ranked(a, home, level) && Alive(c, p) && Alive(c, q) && from != [] && to != []
      requires PathTo(c, Front(from), p) && PathTo(c, Front(to), q) && Moved(a, b, NodeOf(c, p), Last(from), NodeOf(c, q), Last(to))
      requires existing.None? ==> Unused(c, c[p].children, Last(from))
      requires existing.Some? ==>
                 at < |c[p].children| && c[p].children[at] == existing.value && existing.value < |c| && c[existing.value].name == Last(from) &&
                 existing.value != p && existing.value != q && !(from <= Front(to))
      requires existing.None? && (Unused(c, c[q].children, Last(to)) || (p == q && Last(from) == Last(to))) ==> c' == c
      requires existing.Some? && Unused(c, c[q].children, Last(to)) ==> c' == Renamed(c, p, at, q, Last(to))
      requires Coherent(c', b) <==> !(p == q && Last(from) == Last(to) && HasChild(c, p, Last(from)))
      ensures PathsRenamed(c, c', from, to, Ok)
    {
      hide Coherent, FsNamed, ListOk, PathTo, Ranked, Unused, HasChild, EdgesKept, Renamed, Origin, Cached;
      OnePath(c, a, Front(from), Front(to), p, q);
      CachedHere(c, a, from, p);
      if existing.Some? { UsedName(c, p, at, Last(from)); }
      NoneNamed(c, p, Last(from));
      if from == to {
        SelfCached(c, c', from, to);
      } else {
        DentFact(c, a, q);
        assert from == Front(from) + [Last(from)] && to == Front(to) + [Last(to)];
        DifferentPlace(c, a, home, level, p, q, from, to);
        NewNameUnused(c, a, q, Last(to));
        NoneNamed(c, q, Last(to));
        CachedHere(c, a, to, q);
        if existing.None? {
          NothingMoves(c, from, to);
        } else {
          RenamedEdges(c, a, p, at, q, from, to);
          RenamedPaths(c, c', a, b, home, level, from, existing.value, to);
          SameSlots(c, p, at, q, Last(to));
        }
      }
    }

    // Different paths with cached fronts are different places in the tree.
    static lemma DifferentPlace(c: Cache, fs: Fs, home: Homes, level: Levels, p: nat, q: nat, from: Path, to: Path)
      requires Coherent(c, fs) && FsNamed(fs, home) && Ranked(fs, home, level) && Alive(c, p) && Alive(c, q)
      requires from == Front(from) + [Last(from)] && to == Front(to) + [Last(to)] && from != to
      requires p == q <==> Front(from) == Front(to)
      ensures !(NodeOf(c, p) == NodeOf(c, q) && Last(from) == Last(to)) && !(p == q && Last(from) == Last(to))
    {
      hide Coherent, FsNamed, Ranked;
      KeysRanked(fs, home, level);
      DentFact(c, fs, p);
      if NodeOf(c, p) == NodeOf(c, q) { UniqueDentry(c, fs, home, level, p, q); }
    }

    static lemma NoneNamed(c: Cache, p: nat, name: Name)
      requires p < |c|
      ensures Unused(c, c[p].children, name) <==> !HasChild(c, p, name)
    {
    }

    static lemma SelfCached(c: Cache, c': Cache, from: Path, to: Path)
      requires from == to && (Cached(c, from) || c' == c)
      ensures PathsRenamed(c, c', from, to, Ok)
    {
      hide Cached;
    }

    static lemma NothingMoves(c: Cache, from: Path, to: Path)
      requires !Cached(c, from) && !Cached(c, to) && from != to
      ensures PathsRenamed(c, c, from, to, Ok)
    {
      hide Cached, FreeSlots;
      forall names: Path ensures Cached(c, names) <==> (to <= names || !(from <= names)) && Cached(c, Origin(names, from, to)) {
        if to <= names {
          var was := from + names[|to|..];
          assert names[..|to|] == to && was[..|from|] == from;
          UncachedBelow(c, names, |to|);
          UncachedBelow(c, was, |from|);
        } else if from <= names {
          assert names[..|from|] == from;
          UncachedBelow(c, names, |from|);
        }
      }
    }

    // The moved dentry is at the end of its new path, and every other edge is as it was.
    static lemma RenamedEdges(c: Cache, fs: Fs, p: nat, i: nat, q: nat, from: Path, to: Path)
      requires Coherent(c, fs) && Alive(c, p) && Alive(c, q) && i < |c[p].children| && c[p].children[i] < |c| && from != [] && to != []
      requires c[p].children[i] != p && c[p].children[i] != q && c[c[p].children[i]].name == Last(from)
      requires PathTo(c, Front(from), p) && PathTo(c, Front(to), q) && !(from <= Front(to))
      ensures var c', x := Renamed(c, p, i, q, Last(to)), c[p].children[i];
              EdgesKept(c, c', x) && PathTo(c, from, x) && PathTo(c', to, x) && |c'| == |c| &&
              forall d :: 0 <= d < |c| && c'[d].refs > 0 ==> c[d].refs > 0
    {
      hide Coherent, ListOk, PathTo;
      var c', x := Renamed(c, p, i, q, Last(to)), c[p].children[i];
      MovedEdges(c, p, i, q, Last(to));
      hide EdgesKept, Renamed;
      assert from == Front(from) + [Last(from)] && to == Front(to) + [Last(to)];
      OneMore(c, Front(from), p, Last(from), x);
      KeptPath(c, c', fs, from, x, Front(to), q);
      OneMore(c', Front(to), q, Last(to), x);
    }

    static lemma MovedEdges(c: Cache, p: nat, i: nat, q: nat, name: Name)
      requires p < |c| && q < |c| && i < |c[p].children| && c[p].children[i] < |c| && c[p].children[i] != p && c[p].children[i] != q
      ensures var c', x := Renamed(c, p, i, q, name), c[p].children[i];
              EdgesKept(c, c', x) && Child(c', q, name, x) && |c'| == |c| && forall d :: 0 <= d < |c| && c'[d].refs > 0 ==> c[d].refs > 0
    {
      var c', x := Renamed(c, p, i, q, name), c[p].children[i];
      forall r: nat, e: nat | Edged(c, r, e) && e != x ensures Edged(c', r, e) && c'[e].name == c[e].name {
        if r == p { StillListed(c[p].children, i, e); }
      }
    }

    static lemma SameSlots(c: Cache, p: nat, i: nat, q: nat, name: Name)
      requires p < |c| && q < |c| && i < |c[p].children| && c[p].children[i] < |c|
      ensures FreeSlots(Renamed(c, p, i, q, name)) == FreeSlots(c)
    {
      assert FreeSet(Renamed(c, p, i, q, name)) == FreeSet(c);
    }

    static lemma OtherCache(a: Moment, b: Moment, b': Moment, d1: nat, d2: nat, from: Path, to: Path, cred: Cred)
      requires RenameIn(a, b, d1, d2, from, to, cred, Ok) && b'.v == b.v
      ensures RenameIn(a, b', d1, d2, from, to, cred, Ok)
    {
      hide Abs, Leads, RenameCheck, Moved, Volume.Fits;
    }

    // The dentry under the old name lies above the new directory exactly when the old path
    // is a prefix of the new directory's.
    static lemma ChildPrefix(c: Cache, fs: Fs, home: Homes, level: Levels, p: nat, x: nat, q: nat, from: Path, to: Path)
      requires Coherent(c, fs) && FsNamed(fs, home) && Ranked(fs, home, level) && from != []
      requires PathTo(c, Front(from), p) && PathTo(c, Front(to), q) && Child(c, p, Last(from), x)
      ensures Above(c, level, x, q) <==> from <= Front(to)
    {
      hide Coherent, FsNamed, Ranked, PathTo, Above;
      OneMore(c, Front(from), p, Last(from), x);
      assert from == Front(from) + [Last(from)];
      AboveIsPrefix(c, fs, home, level, from, Front(to), x, q);
    }

    static lemma RefusedBelow(a: Moment, b: Moment, c: Cache, p: nat, q: nat, from: Path, to: Path, cred: Cred)
      requires from <= Front(to) && b.v == a.v && Leads(Abs(a.v), Front(from), NodeOf(c, p)) && Leads(Abs(a.v), Front(to), NodeOf(c, q))
      ensures RenameIn(a, b, NodeOf(c, p), NodeOf(c, q), from, to, cred, InvalidArg) && !BreaksAt(a, c, p, q, from, to, InvalidArg)
    {
      hide Abs, Leads, HasChild, NoRoomIn;
    }

    // The volume's answer and effect.
    static lemma RenameAnswered(a: Moment, b: Moment, d1: nat, d2: nat, from: Path, to: Path, cred: Cred, status: Status)
      requires !(from <= Front(to)) && Leads(Abs(a.v), Front(from), d1) && Leads(Abs(a.v), Front(to), d2)
      requires var n1, n2 := Last(from), Last(to);
               var check := RenameCheck(Abs(a.v), |a.v.inodes|, d1, n1, d2, n2, cred);
               if check != Ok then status == check && b.v == a.v
               else Volume.RenameEffect(a.v, b.v, status, Volume.Fits(a.v, a.s, d1, |n1|), Volume.Fits(a.v, a.s, d2, |n2|), d1, n1, d2, n2)
      ensures RenameIn(a, b, d1, d2, from, to, cred, status)
    {
      hide Abs, Leads, RenameCheck, Moved, Volume.Fits;
    }

    static lemma BreaksOk(a: Moment, c: Cache, p: nat, q: nat, from: Path, to: Path)
      ensures BreaksAt(a, c, p, q, from, to, Ok) <==> p == q && Last(from) == Last(to) && HasChild(c, p, Last(from))
    {
      hide HasChild, NoRoomIn;
    }

    // A child is neither its parent nor, unless it is above it, another given dentry.
    static lemma ChildApart(c: Cache, fs: Fs, home: Homes, level: Levels, p: nat, x: nat, q: nat)
      requires Coherent(c, fs) && FsNamed(fs, home) && Ranked(fs, home, level) && Alive(c, p) && x in c[p].children && !Above(c, level, x, q)
      ensures x != p && x != q
    {
      hide Coherent, FsNamed, ListOk, Ranked;
      ChildFact(c, fs, p, x);
      UpStep(c, fs, home, level, x);
    }

    // A rename that failed: there is no cycle, and the cache still agrees with the tree unless
    // the entry of a cached dentry was lost.
    static lemma RenameFailed(a: Moment, b: Moment, c: Cache, fs: Fs, home: Homes, level: Levels, p: nat, q: nat, from: Path, to: Path, cred: Cred, status: Status)
      requires fs == Abs(a.v) && home == a.v.home && FsNamed(fs, home) && Ranked(fs, home, level) && status != Ok
      requires Coherent(c, fs) && b.c == c && Alive(c, p) && Alive(c, q)
      requires Leads(fs, Front(from), NodeOf(c, p)) && Leads(fs, Front(to), NodeOf(c, q))
      requires var d1, d2, n1, n2 := NodeOf(c, p), NodeOf(c, q), Last(from), Last(to);
               var check := RenameCheck(fs, |a.v.inodes|, d1, n1, d2, n2, cred);
               if check != Ok then status == check && b.v == a.v
               else Volume.RenameEffect(a.v, b.v, status, Volume.Fits(a.v, a.s, d1, |n1|), Volume.Fits(a.v, a.s, d2, |n2|), d1, n1, d2, n2)
      ensures Acyclic(Abs(b.v), b.v.home)
      ensures Coherent(b.c, Abs(b.v)) <==> !BreaksAt(a, c, p, q, from, to, status)
    {
      hide Abs, Coherent, FsNamed, Leads, Volume.Fits, HasChild, Ranked, Unbind, Acyclic;
      var d1, n1 := NodeOf(c, p), Last(from);
      KeysRanked(fs, home, level);
      CheckStatus(fs, |a.v.inodes|, d1, n1, NodeOf(c, q), Last(to), cred);
      hide RenameCheck;
      if status == DiskFull && NoRoomIn(a, d1, NodeOf(c, q), from, to) {
        UnboundRanked(fs, home, b.v.home, d1, n1);
        EntryLost(c, fs, home, level, p, n1);
      }
    }

    static lemma CheckStatus(fs: Fs, count: nat, d1: nat, n1: Name, d2: nat, n2: Name, cred: Cred)
      ensures RenameCheck(fs, count, d1, n1, d2, n2, cred) != DiskFull
    {
      hide Allowed;
    }

    /** Without its entry a cached dentry stands for nothing; any other is as it was. */
    static lemma EntryLost(c: Cache, fs: Fs, home: Homes, level: Levels, p: nat, name: Name)
      requires Coherent(c, fs) && FsNamed(fs, home) && Ranked(fs, home, level) && Alive(c, p) && NodeOf(c, p) in fs
      ensures Coherent(c, Unbind(fs, NodeOf(c, p), name)) <==> !HasChild(c, p, name)
    {
      hide Coherent, FsNamed, ListOk, Ranked;
      var b := Unbind(fs, NodeOf(c, p), name);
      if HasChild(c, p, name) {
        var i :| 0 <= i < |c[p].children| && c[p].children[i] < |c| && c[c[p].children[i]].name == name;
        if Coherent(c, b) { ChildFact(c, b, p, c[p].children[i]); }
      } else {
        KeysRanked(fs, home, level);
        forall d | 0 <= d < |c| && c[d].refs > 0 ensures NodeOf(c, d) in b { DentFact(c, fs, d); }
        forall d | 0 < d < |c| && c[d].refs > 0 && LinkOk(c, fs, d) ensures LinkOk(c, b, d) {
          var r := c[d].parent.value;
          if NodeOf(c, r) == NodeOf(c, p) {
            UniqueDentry(c, fs, home, level, r, p);
            var i :| 0 <= i < |c[p].children| && c[p].children[i] == d;
          }
        }
        StillCoherent(c, fs, b);
      }
    }

    static lemma RenameHappened(v: Vol, w: Vol, fs: Fs, home: Homes, d1: nat, n1: Name, d2: nat, n2: Name, s: State, cred: Cred)
      requires fs == Abs(v) && home == v.home
      requires var check := RenameCheck(Abs(v), |v.inodes|, d1, n1, d2, n2, cred);
               if check != Ok then Ok == check && w == v
               else Volume.RenameEffect(v, w, Ok, Volume.Fits(v, s, d1, |n1|), Volume.Fits(v, s, d2, |n2|), d1, n1, d2, n2)
      ensures Moved(fs, Abs(w), d1, n1, d2, n2) && w.home == home[fs[d1].entries[n1].ino := Place(d2, n2)]
    {
      hide Abs, Allowed, RenameCheck, Volume.Fits;
    }

    /** After a successful rename there is still no cycle, and the cache is coherent unless
        a cached entry was renamed to itself. */
    static lemma RenameCache(c: Cache, c': Cache, a: Fs, b: Fs, home: Homes, home': Homes, level: Levels, p: nat, existing: Option<nat>, at: nat, q: nat, n1: Name, n2: Name)
      requires Coherent(c, a) && FsNamed(a, home) && Ranked(a, home, level) && Alive(c, p) && Alive(c, q)
      requires Moved(a, b, NodeOf(c, p), n1, NodeOf(c, q), n2) && home' == home[a[NodeOf(c, p)].entries[n1].ino := Place(NodeOf(c, q), n2)]
      requires existing.None? ==> Unused(c, c[p].children, n1)
      requires existing.Some? ==>
                 at < |c[p].children| && c[p].children[at] == existing.value && existing.value < |c| && c[existing.value].name == n1 &&
                 existing.value != p && existing.value != q && !Above(c, level, existing.value, q)
      requires existing.None? && (Unused(c, c[q].children, n2) || (p == q && n1 == n2)) ==> c' == c
      requires existing.Some? && Unused(c, c[q].children, n2) ==> c' == Renamed(c, p, at, q, n2)
      requires existing.Some? && p == q && n1 == n2 ==> c' == SelfRenamed(c, p, at, n2)
      ensures Acyclic(b, home') && (Coherent(c', b) <==> !(p == q && n1 == n2 && HasChild(c, p, n1)))
    {
      hide Coherent, FsNamed, ListOk, Above, Under, Ranked, Unused;
      DentFact(c, a, p);
      DentFact(c, a, q);
      KeysRanked(a, home, level);
      if existing.Some? { UsedName(c, p, at, n1); }
      forall e | Alive(c, e) && NodeOf(c, e) == NodeOf(c, p) ensures e == p { UniqueDentry(c, a, home, level, e, p); }
      if NodeOf(c, p) == NodeOf(c, q) && n1 == n2 {
        EntryPlace(a, home, NodeOf(c, p), n1);
        assert home' == home;
        assert Acyclic(a, home);
        if existing.Some? { SelfRenameBreaks(c, b, p, at, n2); }
      } else {
        NotUnder(c, a, home, level, p, n1, q, existing);
        MovedRanked(a, b, home, home', level, NodeOf(c, p), n1, NodeOf(c, q), n2);
        NewNameUnused(c, a, q, n2);
        if existing.Some? { RenamedCoherent(c, a, b, p, at, q, n1, n2); } else { MovesNone(c, a, b, p, q, n1, n2); }
      }
    }

    static lemma KeysRanked(fs: Fs, home: Homes, level: Levels)
      requires Ranked(fs, home, level)
      ensures level.Keys == fs.Keys && Acyclic(fs, home)
    {
    }

    static lemma NewNameUnused(c: Cache, fs: Fs, q: nat, name: Name)
      requires Coherent(c, fs) && Alive(c, q) && NodeOf(c, q) in fs && name !in fs[NodeOf(c, q)].entries
      ensures Unused(c, c[q].children, name)
    {
      hide Coherent, ListOk;
      forall i | 0 <= i < |c[q].children| && c[q].children[i] < |c| ensures c[c[q].children[i]].name != name {
        ChildFact(c, fs, q, c[q].children[i]);
      }
    }

    // The moved entry was not cached.
    static lemma MovesNone(c: Cache, a: Fs, b: Fs, p: nat, q: nat, n1: Name, n2: Name)
      requires Coherent(c, a) && Alive(c, p) && Alive(c, q) && Moved(a, b, NodeOf(c, p), n1, NodeOf(c, q), n2)
      requires !(NodeOf(c, p) == NodeOf(c, q) && n1 == n2) && Unused(c, c[p].children, n1)
      requires forall e {:trigger NodeOf(c, e)} :: Alive(c, e) && NodeOf(c, e) == NodeOf(c, p) ==> e == p
      ensures Coherent(c, b)
    {
      hide Coherent, ListOk;
      forall d | 0 <= d < |c| && c[d].refs > 0 ensures NodeOf(c, d) in b { DentFact(c, a, d); }
      forall d | 0 < d < |c| && c[d].refs > 0 && LinkOk(c, a, d) ensures LinkOk(c, b, d) {
        if NodeOf(c, c[d].parent.value) == NodeOf(c, p) {
          var i :| 0 <= i < |c[p].children| && c[p].children[i] == d;
        }
      }
      StillCoherent(c, a, b);
    }
  }
}
