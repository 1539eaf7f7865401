/** The path operations as seen from outside: which status they answer, told from the tree
    and the cache before the call, and how the tree changes. */
module VfsSpec {
  import opened Results
  import opened Bytes
  import opened Streams
  import opened DirTable
  import opened Acl
  import opened Volumes
  import opened FsSpec
  import opened Nyfs
  import opened FsTree
  import opened DentryCache

  type Path = seq<Name>

  /** A moment of a run: the volume, the blocks under it, and the cache above it. */
  datatype Moment = Moment(v: Vol, s: State, c: Cache)

  /** All but the last name of a path. */
  function Front(path: Path): Path {
    if path == [] then [] else path[..|path| - 1]
  }

  function Last(path: Path): Name {
    if path == [] then [] else path[|path| - 1]
  }

  // ----------------------------------------------------------------------------------
  // Resolution

  /** The first of the dentries in `k` that has this name. */
  function FirstNamed(c: Cache, k: seq<nat>, name: Name): (r: Option<nat>)
    ensures r.Some? ==> r.value in k && r.value < |c| && c[r.value].name == name
    ensures r.None? ==> Unused(c, k, name)
  {
    if |k| == 0 then None
    else if k[0] < |c| && c[k[0]].name == name then Some(k[0])
    else FirstNamed(c, k[1..], name)
  }

  function ChildNamed(c: Cache, d: nat, name: Name): Option<nat> {
    if d < |c| then FirstNamed(c, c[d].children, name) else None
  }

  ghost function FreeSet(c: Cache): set<nat> {
    set d: nat | d < |c| && c[d].refs == 0
  }

  /** The dentries that can still be handed out. */
  ghost function FreeSlots(c: Cache): nat {
    |FreeSet(c)|
  }

  /** One name that is not cached: search permission, the name, and a dentry for it. */
  ghost function LoadStatus(v: Vol, free: nat, x: nat, name: Name, cred: Cred): Status {
    var s := DirCheck(Abs(v), |v.inodes|, x, cred, EXECUTE);
    if s != Ok then s
    else if NameCheck(Abs(v), x, name) != Ok then NameCheck(Abs(v), x, name)
    else if free == 0 then OutOfMemory
    else Ok
  }

  /** Names that are not cached, from directory `x` on, with `free` dentries to spare. */
  ghost function Loading(v: Vol, free: nat, x: nat, path: Path, cred: Cred): Status
    decreases |path|
  {
    if path == [] then Ok
    else
      var s := LoadStatus(v, free, x, path[0], cred);
      if s != Ok then s else Loading(v, free - 1, Abs(v)[x].entries[path[0]].ino, path[1..], cred)
  }

  /** A path from dentry `d` on. Cached names are followed without asking for permission. */
  ghost function Resolution(v: Vol, c: Cache, d: nat, path: Path, cred: Cred): Status
    decreases |path|
  {
    if path == [] then Ok
    else
      match ChildNamed(c, d, path[0])
      case Some(e) => Resolution(v, c, e, path[1..], cred)
      case None => Loading(v, FreeSlots(c), NodeOf(c, d), path, cred)
  }

  /** The number of dentries a successful resolution takes. */
  function Loads(c: Cache, d: nat, path: Path): (n: nat)
    ensures n <= |path|
    decreases |path|
  {
    if path == [] then 0
    else
      match ChildNamed(c, d, path[0])
      case Some(e) => Loads(c, e, path[1..])
      case None => |path|
  }

  /** The cached paths of `c'` are those of `c` and the prefixes of `path`. */
  ghost predicate PathsAfter(c: Cache, c': Cache, path: Path) {
    forall x: Path {:trigger Cached(c', x)} :: Cached(c', x) <==> Cached(c, x) || x <= path
  }

  /** The part of a path that is resolved before anything fails. */
  ghost function Reached(v: Vol, c: Cache, path: Path, cred: Cred): (got: Path)
    ensures got <= path && (Resolution(v, c, ROOT, path, cred) == Ok ==> got == path)
    decreases |path|
  {
    if path == [] || Resolution(v, c, ROOT, path, cred) == Ok then path else Reached(v, c, Front(path), cred)
  }

  /** The cache after a walk along `path`, whether it succeeds or not: a dentry for each name
      on the part that was resolved, and none beside. */
  ghost predicate Walked(v: Vol, c: Cache, c': Cache, path: Path, cred: Cred) {
    Grows(c, c') && Coherent(c', Abs(v)) &&
    var got := Reached(v, c, path, cred);
    PathsAfter(c, c', got) && FreeSlots(c') == FreeSlots(c) - Loads(c, ROOT, got)
  }

  // The path `pre` is resolved and the name `x` after it cannot be.
  ghost predicate Fails(v: Vol, c: Cache, pre: Path, x: Name, rest: Path, cred: Cred) {
    Resolution(v, c, ROOT, pre + [x] + rest, cred) != Ok
  }

  lemma {:induction false} ReachedIs(v: Vol, c: Cache, pre: Path, x: Name, rest: Path, cred: Cred)
    requires Resolution(v, c, ROOT, pre, cred) == Ok
    requires forall r: Path {:trigger Fails(v, c, pre, x, r, cred)} :: Fails(v, c, pre, x, r, cred)
    ensures Reached(v, c, pre + [x] + rest, cred) == pre
    decreases |rest|
  {
    hide Resolution;
    assert Fails(v, c, pre, x, rest, cred);
    if rest == [] {
      assert pre + [x] + rest == pre + [x] && Front(pre + [x]) == pre;
    } else {
      assert Front(pre + [x] + rest) == pre + [x] + Front(rest);
      ReachedIs(v, c, pre, x, Front(rest), cred);
    }
  }

  // ----------------------------------------------------------------------------------
  // What a resolution means

  /** From inode `x` these names can be followed to the end. */
  ghost predicate Follows(fs: Fs, x: nat, path: Path)
    decreases |path|
  {
    path == [] || (x in fs && path[0] in fs[x].entries && Follows(fs, fs[x].entries[path[0]].ino, path[1..]))
  }

  lemma {:induction false} LeadsPrefix(fs: Fs, path: Path, y: nat, i: nat)
    requires Leads(fs, path, y) && i <= |path|
    ensures exists z: nat :: Leads(fs, path[..i], z)
    decreases |path|
  {
    var n := |path| - 1;
    if i <= n {
      var p: nat :| Leads(fs, path[..n], p) && Names(fs, p, path[n], y);
      LeadsPrefix(fs, path[..n], p, i);
      assert path[..n][..i] == path[..i];
    } else {
      assert path[..i] == path;
    }
  }

  lemma LeadsStep(fs: Fs, pre: Path, x: nat, name: Name, y: nat)
    requires Leads(fs, pre, x) && Names(fs, x, name, y)
    ensures Leads(fs, pre + [name], y)
  {
    var names := pre + [name];
    assert names[..|names| - 1] == pre;
  }

  lemma {:induction false} FollowsLeads(fs: Fs, pre: Path, x: nat, path: Path)
    requires Leads(fs, pre, x)
    ensures Follows(fs, x, path) <==> exists y: nat :: Leads(fs, pre + path, y)
    decreases |path|
  {
    hide Leads;
    if path == [] {
      assert pre + path == pre;
    } else {
      assert pre + path == pre + [path[0]] + path[1..];
      if x in fs && path[0] in fs[x].entries {
        LeadsStep(fs, pre, x, path[0], fs[x].entries[path[0]].ino);
        FollowsLeads(fs, pre + [path[0]], fs[x].entries[path[0]].ino, path[1..]);
      } else {
        forall y: nat ensures !Leads(fs, pre + path, y) {
          if Leads(fs, pre + path, y) {
            LeadsPrefix(fs, pre + path, y, |pre| + 1);
            assert (pre + path)[..|pre| + 1] == pre + [path[0]];
            NoStep(fs, pre, x, path[0]);
          }
        }
      }
    }
  }

  lemma NoStep(fs: Fs, pre: Path, x: nat, name: Name)
    requires Leads(fs, pre, x) && !(x in fs && name in fs[x].entries)
    ensures forall z: nat :: !Leads(fs, pre + [name], z)
  {
    var names := pre + [name];
    assert names[..|names| - 1] == pre;
    forall z: nat ensures !Leads(fs, names, z) {
      if Leads(fs, names, z) {
        var y: nat :| Leads(fs, pre, y) && Names(fs, y, name, z);
        LeadsOnce(fs, pre, x, y);
      }
    }
  }

  // To the superuser an entry that is there can be loaded, if there is a dentry for it.
  lemma LoadsExisting(v: Vol, free: nat, x: nat, name: Name, cred: Cred)
    requires VolInv(v) && cred.uid == 0 && free > 0
    ensures LoadStatus(v, free, x, name, cred) == Ok <==> x in Abs(v) && name in Abs(v)[x].entries
  {
    hide VolInv, TableOk, Gathered, AclOk, InodeDataOk, AllDescending, AllApart, AllListed, ChainsOk;
    if x in Abs(v) && name in Abs(v)[x].entries {
      InodeFact(v, x);
      NameLength(v, x, name);
    }
  }

  lemma NameLength(v: Vol, x: nat, name: Name)
    requires VolInv(v) && Live(v, x) && name in NodeAt(v, x).entries
    ensures 1 <= |name| <= NAME_MAX && x != 0 && v.inodes[x].isDir
  {
    hide VolInv, Gathered, AclOk, InodeDataOk, AllDescending, AllApart, AllListed, ChainsOk;
    InodeFact(v, x);
    ShapeFact(v);
    EntryFact(v, x, name);
  }

  lemma {:induction false} LoadingMeans(v: Vol, free: nat, x: nat, path: Path, cred: Cred)
    requires VolInv(v) && cred.uid == 0 && free >= |path|
    ensures Loading(v, free, x, path, cred) == Ok <==> Follows(Abs(v), x, path)
    decreases |path|
  {
    hide VolInv, Abs, LoadStatus;
    if path != [] {
      LoadsExisting(v, free, x, path[0], cred);
      if LoadStatus(v, free, x, path[0], cred) == Ok {
        LoadingMeans(v, free - 1, Abs(v)[x].entries[path[0]].ino, path[1..], cred);
      }
    }
  }

  lemma {:induction false} ResolutionFollows(v: Vol, c: Cache, d: nat, path: Path, cred: Cred)
    requires VolInv(v) && cred.uid == 0 && Coherent(c, Abs(v)) && Alive(c, d) && FreeSlots(c) >= Loads(c, d, path)
    ensures Resolution(v, c, d, path, cred) == Ok <==> Follows(Abs(v), NodeOf(c, d), path)
    decreases |path|
  {
    hide VolInv, Abs, LoadStatus, Coherent, FreeSlots, ListOk, Loading;
    if path != [] {
      match ChildNamed(c, d, path[0])
      case Some(e) =>
        ChildFact(c, Abs(v), d, e);
        ResolutionFollows(v, c, e, path[1..], cred);
      case None => LoadingMeans(v, FreeSlots(c), NodeOf(c, d), path, cred);
    }
  }

  /** Whatever is cached: with dentries to spare the superuser resolves exactly the paths
      that lead somewhere. */
  lemma ResolutionMeans(v: Vol, c: Cache, path: Path, cred: Cred)
    requires VolInv(v) && cred.uid == 0 && Coherent(c, Abs(v)) && FreeSlots(c) >= Loads(c, ROOT, path)
    ensures Resolution(v, c, ROOT, path, cred) == Ok <==> exists x: nat :: Leads(Abs(v), path, x)
  {
    hide VolInv, Abs, Coherent, FreeSlots, Resolution, Follows, Loads;
    RootFact(c, Abs(v));
    ResolutionFollows(v, c, ROOT, path, cred);
    FollowsLeads(Abs(v), [], ROOT_INO, path);
    assert [] + path == path;
  }

  /** Resolution asks nothing of a cache but its paths and its free dentries: two caches that
      agree with the tree and in these give the same answers. */
  lemma {:induction false} SameResolution(v: Vol, c: Cache, c': Cache, d: nat, d': nat, pre: Path, path: Path, cred: Cred)
    requires Coherent(c, Abs(v)) && Coherent(c', Abs(v)) && FreeSlots(c') == FreeSlots(c)
    requires forall x: Path {:trigger Cached(c', x)} :: Cached(c', x) <==> Cached(c, x)
    requires PathTo(c, pre, d) && PathTo(c', pre, d')
    ensures Resolution(v, c', d', path, cred) == Resolution(v, c, d, path, cred) && Loads(c', d', path) == Loads(c, d, path)
    decreases |path|
  {
    hide Abs, Coherent, FreeSlots, PathTo, Cached, Loading, ListOk, FirstNamed;
    CachedLeads(c, Abs(v), pre, d);
    CachedLeads(c', Abs(v), pre, d');
    LeadsOnce(Abs(v), pre, NodeOf(c, d), NodeOf(c', d'));
    if path != [] {
      NamedIsCached(c, Abs(v), pre, d, path[0]);
      NamedIsCached(c', Abs(v), pre, d', path[0]);
      assert Cached(c', pre + [path[0]]) <==> Cached(c, pre + [path[0]]);
      if ChildNamed(c, d, path[0]).Some? {
        SameResolution(v, c, c', ChildNamed(c, d, path[0]).value, ChildNamed(c', d', path[0]).value, pre + [path[0]], path[1..], cred);
      }
    }
  }

  lemma NoneNamed(c: Cache, d: nat, name: Name)
    requires ChildNamed(c, d, name).None?
    ensures d < |c| ==> forall e :: e in c[d].children && e < |c| ==> c[e].name != name
  {
  }

  lemma NamedIsCached(c: Cache, fs: Fs, pre: Path, d: nat, name: Name)
    requires Coherent(c, fs) && PathTo(c, pre, d)
    ensures ChildNamed(c, d, name).Some? <==> Cached(c, pre + [name])
    ensures ChildNamed(c, d, name).Some? ==> PathTo(c, pre + [name], ChildNamed(c, d, name).value)
  {
    hide Coherent, PathTo, ListOk;
    CachedLeads(c, fs, pre, d);
    DentFact(c, fs, d);
    if ChildNamed(c, d, name).Some? {
      OneMore(c, pre, d, name, ChildNamed(c, d, name).value);
    } else if Cached(c, pre + [name]) {
      NoneNamed(c, d, name);
      var e: nat :| PathTo(c, pre + [name], e);
      LastStep(c, fs, pre + [name], e);
      assert (pre + [name])[..|pre|] == pre;
      OnePath(c, fs, pre, pre, d, c[e].parent.value);
      assert false;
    }
  }

  // ----------------------------------------------------------------------------------
  // Create, mkdir and unlink

  /** A new empty node of the caller's, with the list it inherits. */
  ghost predicate AddedChild(a: Fs, b: Fs, d: nat, name: Name, ino: nat, isDir: bool, mode: bv16, cred: Cred) {
    d in a && Added(a, b, d, name, ino, Node(isDir, mode & 0x0FFF, cred.uid, cred.gid, [], map[], Inherited(a[d].acl, isDir)))
  }

  /** Create and mkdir of the last name of a path whose front leads to directory `d`. */
  ghost predicate MakeIn(a: Moment, b: Moment, d: nat, path: Path, isDir: bool, mode: bv16, cred: Cred, status: Status) {
    Leads(Abs(a.v), Front(path), d) &&
    var name := Last(path);
    var check := if Cached(a.c, path) then AlreadyExists else AddCheck(Abs(a.v), |a.v.inodes|, d, name, cred);
    if check != Ok then status == check && Abs(b.v) == Abs(a.v)
    else if a.v.free == 0 then status == OutOfMemory && Abs(b.v) == Abs(a.v)
    else if Abs(b.v) == Abs(a.v) then status != Ok && Volume.AddStatus(a.v, a.s, d, |name|, isDir, status)
    else
      Volume.AddStatus(a.v, a.s, d, |name|, isDir, Ok) && d in Abs(a.v) &&
      status == (if FreeSlots(a.c) == Loads(a.c, ROOT, Front(path)) then OutOfMemory else Ok) &&
      exists ino: nat :: AddedChild(Abs(a.v), Abs(b.v), d, name, ino, isDir, mode, cred)
  }

  /** The cached paths after a create or mkdir: on success the prefixes of the path and no
      others are new. */
  ghost predicate PathsMade(a: Moment, b: Moment, path: Path, cred: Cred, status: Status) {
    if path == [] then b.c == a.c
    else if status == Ok then
      PathsAfter(a.c, b.c, path) && FreeSlots(b.c) == FreeSlots(a.c) - Loads(a.c, ROOT, Front(path)) - 1
    else Walked(a.v, a.c, b.c, Front(path), cred)
  }

  /** Create and mkdir. Out of dentries, the status says so although the file is there. */
  ghost predicate MakeStep(a: Moment, b: Moment, path: Path, isDir: bool, mode: bv16, cred: Cred, status: Status) {
    PathsMade(a, b, path, cred, status) &&
    var walk := if path == [] then InvalidArg else Resolution(a.v, a.c, ROOT, Front(path), cred);
    if walk != Ok then status == walk && Abs(b.v) == Abs(a.v)
    else exists d: nat :: MakeIn(a, b, d, path, isDir, mode, cred, status)
  }

  ghost predicate UnlinkIn(a: Moment, b: Moment, d: nat, path: Path, cred: Cred, status: Status) {
    Leads(Abs(a.v), Front(path), d) && status == RemoveCheck(Abs(a.v), |a.v.inodes|, d, Last(path), cred) &&
    if status == Ok then Dropped(Abs(a.v), Abs(b.v), d, Last(path)) else Abs(b.v) == Abs(a.v)
  }

  /** The cached paths after an unlink: on success the path is not cached any more. */
  ghost predicate PathsUnlinked(a: Moment, b: Moment, path: Path, cred: Cred, status: Status) {
    if path == [] then b.c == a.c
    else if status == Ok then
      (forall x: Path {:trigger Cached(b.c, x)} :: Cached(b.c, x) <==> x != path && (Cached(a.c, x) || x <= Front(path))) &&
      FreeSlots(b.c) == FreeSlots(a.c) - Loads(a.c, ROOT, Front(path)) + (if Cached(a.c, path) then 1 else 0)
    else Walked(a.v, a.c, b.c, Front(path), cred)
  }

  ghost predicate UnlinkStep(a: Moment, b: Moment, path: Path, cred: Cred, status: Status) {
    PathsUnlinked(a, b, path, cred, status) &&
    var walk := if path == [] then InvalidArg else Resolution(a.v, a.c, ROOT, Front(path), cred);
    if walk != Ok then status == walk && Abs(b.v) == Abs(a.v)
    else exists d: nat :: UnlinkIn(a, b, d, path, cred, status)
  }

  // ----------------------------------------------------------------------------------
  // Rename

  /** Rename between the directories `d1` and `d2` that the fronts of the paths lead to.
      A path is not moved below itself. Without room for the new record the tree is as it
      was if there is room for the old one, and has lost the entry if not. */
  ghost predicate RenameIn(a: Moment, b: Moment, d1: nat, d2: nat, from: Path, to: Path, cred: Cred, status: Status) {
    Leads(Abs(a.v), Front(from), d1) && Leads(Abs(a.v), Front(to), d2) &&
    var n1, n2 := Last(from), Last(to);
    var check := if from <= Front(to) then InvalidArg else RenameCheck(Abs(a.v), |a.v.inodes|, d1, n1, d2, n2, cred);
    if check != Ok then status == check && Abs(b.v) == Abs(a.v)
    else if (d1 == d2 && n1 == n2) || Volume.Fits(a.v, a.s, d2, |n2|) then status == Ok && Moved(Abs(a.v), Abs(b.v), d1, n1, d2, n2)
    else
      status == DiskFull && d1 in Abs(a.v) && n1 in Abs(a.v)[d1].entries &&
      Abs(b.v) == (if Volume.Fits(a.v, a.s, d1, |n1|) then Abs(a.v) else Unbind(Abs(a.v), d1, n1))
  }

  /** The cached paths after a rename that found the cache `c` after its walks: on success
      those below the old path are below the new one. Only the rename of a cached path to
      itself is not described: it breaks the cache. */
  ghost predicate PathsRenamed(c: Cache, c': Cache, from: Path, to: Path, status: Status) {
    if status == Ok && from != to then PathsMoved(c, c', from, to) && FreeSlots(c') == FreeSlots(c)
    else c' == c || (status == Ok && Cached(c, from))
  }

  ghost predicate RenameWalked(a: Moment, b: Moment, mid: Cache, c: Cache, from: Path, to: Path, cred: Cred, status: Status) {
    Walked(a.v, mid, c, Front(to), cred) && PathsRenamed(c, b.c, from, to, status)
  }

  /** The rest of a rename, when the first walk has left the cache `mid`. */
  ghost predicate RenameFrom(a: Moment, b: Moment, mid: Cache, from: Path, to: Path, cred: Cred, status: Status) {
    Walked(a.v, a.c, mid, Front(from), cred) &&
    (exists c: Cache :: RenameWalked(a, b, mid, c, from, to, cred, status)) &&
    var walk := Resolution(a.v, mid, ROOT, Front(to), cred);
    if walk != Ok then status == walk && Abs(b.v) == Abs(a.v)
    else if from == [] || to == [] then status == InvalidArg && Abs(b.v) == Abs(a.v)
    else exists d1: nat, d2: nat :: RenameIn(a, b, d1, d2, from, to, cred, status)
  }

  ghost predicate RenameStep(a: Moment, b: Moment, from: Path, to: Path, cred: Cred, status: Status) {
    var walk := Resolution(a.v, a.c, ROOT, Front(from), cred);
    if walk != Ok then status == walk && Abs(b.v) == Abs(a.v) && Walked(a.v, a.c, b.c, Front(from), cred)
    else exists mid: Cache :: RenameFrom(a, b, mid, from, to, cred, status)
  }

  /** There is room neither for the new record nor, afterwards, for the old one. */
  ghost predicate NoRoom(a: Moment, from: Path, to: Path) {
    exists d1: nat, d2: nat :: NoRoomIn(a, d1, d2, from, to)
  }

  ghost predicate NoRoomIn(a: Moment, d1: nat, d2: nat, from: Path, to: Path) {
    Leads(Abs(a.v), Front(from), d1) && Leads(Abs(a.v), Front(to), d2) &&
    !Volume.Fits(a.v, a.s, d1, |Last(from)|) && !Volume.Fits(a.v, a.s, d2, |Last(to)|)
  }

  /** What makes the cache disagree with the tree: renaming a cached path to itself, or
      losing the entry of a cached path. */
  ghost predicate Breaks(a: Moment, from: Path, to: Path, status: Status) {
    Cached(a.c, from) && ((status == Ok && from == to) || (status == DiskFull && NoRoom(a, from, to)))
  }
}
