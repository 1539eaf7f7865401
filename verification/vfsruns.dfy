/** Runs of path operations on a volume that is changed only through the cache. */
module VfsRuns {
  import opened Results
  import opened Bytes
  import opened Streams
  import opened Store
  import opened DirTable
  import opened Acl
  import opened Volumes
  import opened FsSpec
  import opened Nyfs
  import opened FsTree
  import opened DentryCache
  import opened VfsSpec
  import opened Vfs

  datatype Op =
    | Resolve(path: Path, cred: Cred)
    | Make(path: Path, isDir: bool, mode: bv16, cred: Cred)
    | Unlink(path: Path, cred: Cred)
    | Rename(from: Path, to: Path, cred: Cred)

  /** One step: the status, and what became of the tree and of the cached paths. */
  ghost predicate OpStep(a: Moment, op: Op, status: Status, b: Moment) {
    match op
    case Resolve(path, cred) => status == Resolution(a.v, a.c, ROOT, path, cred) && b.v == a.v && Walked(a.v, a.c, b.c, path, cred)
    case Make(path, isDir, mode, cred) => MakeStep(a, b, path, isDir, mode, cred, status)
    case Unlink(path, cred) => UnlinkStep(a, b, path, cred, status)
    case Rename(from, to, cred) => RenameStep(a, b, from, to, cred, status)
  }

  /** A step after which the cache no longer agrees with the tree. */
  ghost predicate OpBreaks(a: Moment, op: Op, status: Status) {
    op.Rename? && Breaks(a, op.from, op.to, status)
  }

  /** The tree has no cycle, and the cache agrees with it. */
  ghost predicate Good(a: Moment) {
    Acyclic(Abs(a.v), a.v.home) && Coherent(a.c, Abs(a.v))
  }

  /** A run: a moment before the first operation and after each one, all good but perhaps
      the last. */
  ghost predicate VfsRun(trace: seq<Moment>, ops: seq<Op>, statuses: seq<Status>) {
    |trace| == |statuses| + 1 && |statuses| <= |ops| &&
    forall k :: 0 <= k < |statuses| ==> Good(trace[k]) && OpStep(trace[k], ops[k], statuses[k], trace[k + 1])
  }

  /** Executes one operation; `kept` tells whether the cache still agrees with the tree. */
  method Step(v: VfsCache, op: Op) returns (status: Status, kept: bool)
    requires v.Valid()
    modifies v`dents, v.vol, v.vol.st
    ensures v.Sound() && OpStep(old(v.Now()), op, status, v.Now())
    ensures kept <==> Coherent(v.dents, v.vol.Tree())
    ensures kept <==> !OpBreaks(old(v.Now()), op, status)
  {
    hide Inv, Contents, Singles, VolInv, Abs, Coherent, Acyclic, PathTo, Leads, Grows, Cached, MakeStep, UnlinkStep, RenameStep, Breaks,
         Resolution, PathsAfter, FreeSlots, Loads, Walked;
    kept := true;
    match op {
      case Resolve(path, cred) =>
        var d;
        status, d := v.Walk(path, cred);
      case Make(path, isDir, mode, cred) =>
        status := v.Make(path, isDir, mode, cred);
      case Unlink(path, cred) =>
        status := v.Unlink(path, cred);
      case Rename(from, to, cred) =>
        status, kept := RenameAndLook(v, from, to, cred);
    }
  }

  // A rename. If the old path was cached, looks whether its entry is still where it was.
  method RenameAndLook(v: VfsCache, from: Path, to: Path, cred: Cred) returns (status: Status, kept: bool)
    requires v.Valid()
    modifies v`dents, v.vol, v.vol.st
    ensures v.Sound() && RenameStep(old(v.Now()), v.Now(), from, to, cred, status)
    ensures Coherent(v.dents, v.vol.Tree()) <==> !Breaks(old(v.Now()), from, to, status)
    ensures kept <==> !Breaks(old(v.Now()), from, to, status)
  {
    hide Inv, Contents, Singles, VolInv, Abs, Coherent, Acyclic, PathTo, Leads, Cached, RenameStep, NoRoom;
    ghost var a := v.Now();
    var x := v.FindPath(from);
    var dir := 0;
    if x.Some? && from != [] {
      dir := ParentInode(v, from, x.value);
    }
    status := v.Rename(from, to, cred);
    kept := x.None? || !(status == Ok && from == to);
    if x.Some? && status == DiskFull {
      LostOrNot(a, v.Now(), from, to, cred, dir);
      DirLive(v.vol.V(), dir);
      var found := v.vol.FindName(dir, from[|from| - 1]);
      kept := found.status == Ok;
    }
  }

  // The inode of the directory that holds a cached path.
  method ParentInode(v: VfsCache, path: Path, x: nat) returns (dir: nat)
    requires v.Valid() && path != [] && PathTo(v.dents, path, x)
    ensures Leads(v.vol.Tree(), Front(path), dir)
  {
    hide Inv, Contents, Singles, VolInv, Abs, Coherent, Acyclic, PathTo, Leads;
    LastStep(v.dents, v.vol.Tree(), path, x);
    var p := v.dents[x].parent.value;
    CachedLeads(v.dents, v.vol.Tree(), path[..|path| - 1], p);
    DentFact(v.dents, v.vol.Tree(), p);
    dir := v.dents[p].node.value;
  }

  lemma DirLive(v: Vol, d: nat)
    requires VolInv(v) && d in Abs(v) && Abs(v)[d].isDir
    ensures Live(v, d) && d in v.dirs
  {
    hide VolInv, Gathered, Bindings;
    DirFact(v, d);
  }

  // Out of space the entry is gone exactly when there was no room to put it back.
  lemma LostOrNot(a: Moment, b: Moment, from: Path, to: Path, cred: Cred, dir: nat)
    requires RenameStep(a, b, from, to, cred, DiskFull) && (from != [] ==> Leads(Abs(a.v), Front(from), dir))
    ensures from != [] && dir in Abs(b.v) && Abs(b.v)[dir].isDir && 1 <= |Last(from)| <= NAME_MAX
    ensures Last(from) in Abs(b.v)[dir].entries <==> !NoRoom(a, from, to)
  {
    hide Abs, Leads, Resolution, Walked, RenameWalked, Allowed, Volume.Fits;
    VfsCache.ResolutionStatus(a.v, a.c, ROOT, Front(from), cred);
    var mid: Cache :| RenameFrom(a, b, mid, from, to, cred, DiskFull);
    VfsCache.ResolutionStatus(a.v, mid, ROOT, Front(to), cred);
    var d1: nat, d2: nat :| RenameIn(a, b, d1, d2, from, to, cred, DiskFull);
    LeadsOnce(Abs(a.v), Front(from), dir, d1);
    VfsCache.NoRoomOnce(a, d1, d2, from, to);
  }

  /** Any run. Every operation does one step of the file system; no cycle ever appears, and
      the cache agrees with the tree throughout. The run goes on to its end unless a rename
      breaks that: one of a cached path to itself, or one that loses a cached entry. */
  method Run(v: VfsCache, ops: seq<Op>) returns (statuses: seq<Status>, ghost trace: seq<Moment>)
    requires v.Valid()
    modifies v`dents, v.vol, v.vol.st
    ensures v.Sound() && VfsRun(trace, ops, statuses) && trace[0] == old(v.Now()) && trace[|statuses|] == v.Now()
    ensures !Broken(trace, ops, statuses) ==> |statuses| == |ops|
    ensures v.Valid() <==> !Broken(trace, ops, statuses)
  {
    hide VfsCache.Sound, Coherent, Acyclic, Abs, OpStep, OpBreaks, Good, Broken;
    statuses, trace := [], [v.Now()];
    var kept := true;
    NoRun(v.Now(), ops);
    while kept && |statuses| < |ops|
      invariant v.Sound() && VfsRun(trace, ops, statuses) && trace[0] == old(v.Now()) && trace[|statuses|] == v.Now()
      invariant kept <==> Coherent(v.dents, v.vol.Tree())
      invariant kept <==> !Broken(trace, ops, statuses)
      decreases |ops| - |statuses|
    {
      SoundMoment(v);
      var status;
      status, kept := Step(v, ops[|statuses|]);
      RunOn(trace, ops, statuses, v.Now(), status);
      statuses := statuses + [status];
      trace := trace + [v.Now()];
    }
  }

  /** The last step of the run broke the agreement of cache and tree. */
  ghost predicate Broken(trace: seq<Moment>, ops: seq<Op>, statuses: seq<Status>)
    requires VfsRun(trace, ops, statuses)
  {
    var n := |statuses|;
    n > 0 && OpBreaks(trace[n - 1], ops[n - 1], statuses[n - 1])
  }

  lemma NoRun(a: Moment, ops: seq<Op>)
    ensures VfsRun([a], ops, []) && !Broken([a], ops, [])
  {
  }

  lemma SoundMoment(v: VfsCache)
    requires v.Valid()
    ensures Good(v.Now())
  {
    hide Coherent, Acyclic, Abs, Inv, VolInv;
  }

  lemma RunOn(trace: seq<Moment>, ops: seq<Op>, statuses: seq<Status>, b: Moment, status: Status)
    requires VfsRun(trace, ops, statuses) && |statuses| < |ops| && Good(trace[|statuses|])
    requires OpStep(trace[|statuses|], ops[|statuses|], status, b)
    ensures VfsRun(trace + [b], ops, statuses + [status]) && (trace + [b])[0] == trace[0]
    ensures Broken(trace + [b], ops, statuses + [status]) <==> OpBreaks(trace[|statuses|], ops[|statuses|], status)
  {
    hide Good, OpStep, OpBreaks;
    var t, ss := trace + [b], statuses + [status];
    forall k | 0 <= k < |ss| ensures Good(t[k]) && OpStep(t[k], ops[k], ss[k], t[k + 1]) {
      if k < |statuses| { assert t[k] == trace[k] && t[k + 1] == trace[k + 1] && ss[k] == statuses[k]; }
    }
  }

  /** Every run from a successful format, mounted at the root: at first there is the root
      directory and an empty cache. */
  method FormatMountRun(shift: nat, blocks: Disk, asked: nat, hash: Name -> nat, ops: seq<Op>)
    returns (status: Status, v: VfsCache?, statuses: seq<Status>, ghost trace: seq<Moment>)
    requires forall b :: 0 <= b < |blocks| ==> |blocks[b]| == Volume.Pow2(shift)
    requires Addressable(|blocks|, Volume.Pow2(shift)) && Volume.InodeCount(|blocks|, asked) < U64_LIMIT
    ensures status == Ok ==> v != null && v.Sound() && VfsRun(trace, ops, statuses) && trace[|statuses|] == v.Now()
    ensures status == Ok ==>
              Abs(trace[0].v) == map[ROOT_INO := Node(true, 0x1ED, 0, 0, [], map[], [])] && trace[0].c == VfsCache.EmptyCache()
    ensures status == Ok ==>
              (!Broken(trace, ops, statuses) ==> |statuses| == |ops|) && (v.Valid() <==> !Broken(trace, ops, statuses))
  {
    hide Volume.Valid, Abs, VfsRun, Broken, Acyclic, Coherent, Volume.FirstData, Volume.InodeCount, Volume.Pow2, Addressable, VfsCache.EmptyCache;
    v, statuses, trace := null, [], [];
    var vol;
    status, vol := Volume.Format(shift, blocks, asked, hash);
    if status == Ok {
      FreshTree(vol.V());
      v := new VfsCache(vol);
      statuses, trace := Run(v, ops);
    }
  }

  /** In a volume seen through the cache no directory contains itself, at any depth. */
  lemma NoDirectoryCycle(v: VfsCache, chain: seq<nat>)
    requires v.Sound() && |chain| > 1 && forall i :: 0 <= i < |chain| - 1 ==> Edge(v.vol.Tree(), chain[i], chain[i + 1])
    ensures chain[0] != chain[|chain| - 1]
  {
    hide Inv, Contents, Singles, VolInv, Abs, Acyclic, FsNamed;
    VolumeNamed(v.vol.V());
    NoCycle(v.vol.Tree(), v.vol.home, chain);
  }

  /** What a cached path resolves to is what the file system has under that path. */
  lemma CacheTellsTheTruth(v: VfsCache, path: Path, d: nat)
    requires v.Valid() && PathTo(v.dents, path, d)
    ensures Alive(v.dents, d) && Leads(v.vol.Tree(), path, NodeOf(v.dents, d))
  {
    hide Inv, Contents, Singles, VolInv, Abs, Acyclic, Coherent, PathTo, Leads;
    CachedLeads(v.dents, v.vol.Tree(), path, d);
  }

  /** A freshly formatted volume has no cycle, so it can be mounted. */
  lemma FreshTree(v: Vol)
    requires v.home == map[]
    ensures Acyclic(Abs(v), v.home)
  {
    hide Abs;
    var level: Levels := map x | x in Abs(v) :: 0;
    assert Ranked(Abs(v), v.home, level);
  }
}
