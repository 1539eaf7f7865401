/** Whole runs of volume operations, from format on. */
module NyfsRuns {
  import opened Results
  import opened Bytes
  import opened Bits
  import Extents
  import opened Streams
  import opened Store
  import opened DirTable
  import opened Acl
  import opened Volumes
  import opened FsSpec
  import opened Nyfs

  datatype Op =
    | Add(dir: nat, name: Name, isDir: bool, mode: bv16, cred: Cred)
    | Remove(dir: nat, name: Name, cred: Cred)
    | Write(ino: nat, off: nat, data: seq<Byte>, cred: Cred)
    | Rename(d1: nat, n1: Name, d2: nat, n2: Name, cred: Cred)

  /** What happened: an operation with the status it answered and the inode it made, or
      one that was not issued because it names an inode that is no longer live. */
  datatype Event = Done(op: Op, status: Status, ino: nat) | Skipped(op: Op)

  /** A moment of a run: the volume, and the blocks under it. */
  datatype Snap = Snap(v: Vol, s: State)

  ghost function Now(vol: Volume): Snap
    reads vol, vol.st
  {
    Snap(vol.V(), vol.st.S())
  }

  /** One step of the file system, seen from outside; `lost` if a rename loses the name. */
  ghost predicate FsStep(a: Fs, e: Event, lost: bool, b: Fs) {
    match e
    case Skipped(_) => b == a
    case Done(op, status, ino) =>
      match op
      case Add(dir, name, isDir, mode, cred) =>
        if status == Ok then dir in a && Added(a, b, dir, name, ino,
          Node(isDir, mode & 0x0FFF, cred.uid, cred.gid, [], map[], Inherited(a[dir].acl, isDir)))
        else b == a
      case Remove(dir, name, _) => if status == Ok then Dropped(a, b, dir, name) else b == a
      case Write(i, off, data, _) => if status == Ok then Stored(a, b, i, off, data) else b == a
      case Rename(d1, n1, d2, n2, _) =>
        if lost then status == DiskFull && d1 in a && n1 in a[d1].entries && b == Unbind(a, d1, n1)
        else if status == Ok then Moved(a, b, d1, n1, d2, n2)
        else b == a
  }

  ghost predicate SameName(op: Op) {
    op.Rename? && op.d1 == op.d2 && op.n1 == op.n2
  }

  /** A rename that passes its checks and finds room neither for the new record nor for the
      old one: that, and nothing else, loses the name. */
  ghost predicate LosesName(a: Snap, op: Op) {
    op.Rename? && RenameCheck(Abs(a.v), |a.v.inodes|, op.d1, op.n1, op.d2, op.n2, op.cred) == Ok && !SameName(op) &&
    !Volume.Fits(a.v, a.s, op.d2, |op.n2|) && !Volume.Fits(a.v, a.s, op.d1, |op.n1|)
  }

  /** What is answered, told from the state before the step. */
  ghost predicate Answers(a: Snap, e: Event) {
    (e.Skipped? <==> !Posed(a.v, e.op)) &&
    (e.Done? ==>
      match e.op
      case Add(dir, name, isDir, _, cred) =>
        var check := AddCheck(Abs(a.v), |a.v.inodes|, dir, name, cred);
        if check != Ok then e.status == check
        else if a.v.free == 0 then e.status == OutOfMemory
        else Volume.AddStatus(a.v, a.s, dir, |name|, isDir, e.status)
      case Remove(dir, name, cred) => e.status == RemoveCheck(Abs(a.v), |a.v.inodes|, dir, name, cred)
      case Write(i, off, data, cred) =>
        var check := FileCheck(Abs(a.v), |a.v.inodes|, i, cred, WRITE_DATA);
        if check != Ok then e.status == check
        else (e.status == Ok || e.status == DiskFull) && Volume.WriteSpace(a.v, a.s, i, off, |data|, e.status)
      case Rename(d1, n1, d2, n2, cred) =>
        var check := RenameCheck(Abs(a.v), |a.v.inodes|, d1, n1, d2, n2, cred);
        e.status == if check == Ok && !SameName(e.op) && !Volume.Fits(a.v, a.s, d2, |n2|) then DiskFull else check)
  }

  ghost predicate VolStep(a: Snap, e: Event, b: Snap) {
    Answers(a, e) && FsStep(Abs(a.v), e, LosesName(a, e.op), Abs(b.v))
  }

  /** A run: a state before the first event and after each one. */
  ghost predicate FsRun(trace: seq<Snap>, events: seq<Event>) {
    |trace| == |events| + 1 && forall k :: 0 <= k < |events| ==> VolStep(trace[k], events[k], trace[k + 1])
  }

  /** No rename of the run loses a name. */
  ghost predicate NoneLost(trace: seq<Snap>, events: seq<Event>)
    requires |trace| == |events| + 1
  {
    forall k :: 0 <= k < |events| ==> !LosesName(trace[k], events[k].op)
  }

  predicate InRange(v: Vol, i: nat) {
    i == 0 || i >= |v.inodes| || Live(v, i)
  }

  /** The operations a run may issue: on live inodes, and writes that carry data. */
  predicate Posed(v: Vol, op: Op) {
    match op
    case Add(dir, _, _, _, _) => InRange(v, dir)
    case Remove(dir, _, _) => InRange(v, dir)
    case Write(i, _, data, _) => InRange(v, i) && |data| > 0
    case Rename(d1, _, d2, _, _) => InRange(v, d1) && InRange(v, d2)
  }

  /** Every live inode but the root has a name. */
  ghost predicate AllNamed(v: Vol) {
    forall i :: i in Abs(v) && i != ROOT_INO ==> i in v.home
  }

  // ----------------------------------------------------------------------------------
  // Access

  /** What an access check looks at, and what no operation ever changes. */
  ghost predicate SameGuard(n: Node, n': Node) {
    n'.(data := [], entries := map[]) == n.(data := [], entries := map[])
  }

  /** What a caller may do to a node it may not write to (mask 2): nothing to its bytes, and no
      name is added to it; and to one it may not delete children of (mask 8): no name goes. */
  ghost predicate Guarded(n: Node, n': Node, write: bool, delete: bool) {
    SameGuard(n, n') &&
    (!write ==> n'.data == n.data && forall name :: name in n'.entries ==> name in n.entries && n'.entries[name] == n.entries[name]) &&
    (!delete ==> forall name :: name in n.entries ==> name in n'.entries && n'.entries[name] == n.entries[name])
  }

  lemma StepGuarded(a: Snap, e: Event, b: Snap, x: nat)
    requires VolStep(a, e, b) && x in Abs(a.v) && x in Abs(b.v)
    ensures Guarded(Abs(a.v)[x], Abs(b.v)[x], Allowed(Abs(a.v)[x], e.op.cred, 0x02), Allowed(Abs(a.v)[x], e.op.cred, 0x08))
  {
    hide Abs, Allowed, Inherited, DataWritten, Volume.Fits, Volume.AddStatus, Volume.WriteSpace, NameCheck;
  }

  lemma AllowedBy(n: Node, n': Node, c: Cred, request: bv32)
    requires SameGuard(n, n')
    ensures Allowed(n', c, request) == Allowed(n, c, request)
  {
    hide Verdict, Within, ModeMask;
    assert n'.acl == n.(data := [], entries := map[]).acl;
  }

  /** The callers of all operations of the run so far are refused this access to a node. */
  ghost predicate AllRefused(n: Node, events: seq<Event>, j: nat, request: bv32) {
    forall k :: 0 <= k < j && k < |events| ==> !Allowed(n, events[k].op.cred, request)
  }

  /** Over any run: as long as a node lives, its bytes stay and it gains no names if all callers
      are refused writing to it at the start, and it loses none if all are refused deleting its
      children; and who is refused at the start is refused ever after. */
  lemma {:induction false} AccessKept(trace: seq<Snap>, events: seq<Event>, x: nat, j: nat)
    requires FsRun(trace, events) && j <= |events| && forall k :: 0 <= k <= j ==> x in Abs(trace[k].v)
    ensures var n, n' := Abs(trace[0].v)[x], Abs(trace[j].v)[x];
            Guarded(n, n', !AllRefused(n, events, j, 0x02), !AllRefused(n, events, j, 0x08)) &&
            forall c: Cred, request: bv32 :: Allowed(n', c, request) == Allowed(n, c, request)
    decreases j
  {
    hide Abs, Allowed, VolStep;
    if j > 0 {
      AccessKept(trace, events, x, j - 1);
      var n, m := Abs(trace[0].v)[x], Abs(trace[j - 1].v)[x];
      assert VolStep(trace[j - 1], events[j - 1], trace[j - 1 + 1]);
      StepGuarded(trace[j - 1], events[j - 1], trace[j], x);
      forall c: Cred, request: bv32 ensures Allowed(Abs(trace[j].v)[x], c, request) == Allowed(n, c, request) {
        AllowedBy(m, Abs(trace[j].v)[x], c, request);
      }
    }
  }

  /** Executes one operation on a volume. */
  method Step(vol: Volume, op: Op) returns (e: Event)
    requires vol.Valid()
    modifies vol, vol.st
    ensures vol.Valid() && e.op == op && VolStep(old(Now(vol)), e, Now(vol))
    ensures AllNamed(vol.V()) <==> AllNamed(old(vol.V())) && !LosesName(old(Now(vol)), op)
  {
    hide Inv, Contents, Singles, VolInv, Abs, Inherited, AddCheck, RemoveCheck, RenameCheck, FileCheck, Volume.WriteEffect, Volume.ChildMade,
         Volume.RenameEffect, Volume.RemoveEffect, AllNamed, Volume.AddSpace, Volume.AddStatus, Volume.WriteSpace, Volume.Fits, FsStep, Answers, Posed;
    var posed := IsPosed(vol, op);
    ghost var a := Now(vol);
    if !posed {
      SkippedStep(a, op);
      return Skipped(op);
    }
    PosedRange(a.v, op);
    FreeCount(a.v);
    match op
    case Add(dir, name, isDir, mode, cred) =>
      var status, ino := vol.AddChild(dir, name, isDir, mode, cred);
      e := Done(op, status, ino);
      AddStep(a, Now(vol), e);
    case Remove(dir, name, cred) =>
      var status := vol.Remove(dir, name, cred);
      e := Done(op, status, 0);
      if status == Ok {
        RemovedName(a.v, vol.V(), dir, name);
      }
      RemoveStep(a, Now(vol), e);
    case Write(i, off, data, cred) =>
      var status, written := vol.Write(i, off, data, cred);
      e := Done(op, status, 0);
      WriteStep(a, Now(vol), e);
    case Rename(d1, n1, d2, n2, cred) =>
      var status := vol.Rename(d1, n1, d2, n2, cred);
      e := Done(op, status, 0);
      RenameStep(a, Now(vol), e);
  }

  lemma SkippedStep(a: Snap, op: Op)
    requires !Posed(a.v, op)
    ensures VolStep(a, Skipped(op), a) && !LosesName(a, op)
  {
    hide Allowed, NodeAt;
  }

  lemma PosedRange(v: Vol, op: Op)
    requires Posed(v, op)
    ensures op.Add? || op.Remove? ==> InRange(v, op.dir)
    ensures op.Write? ==> InRange(v, op.ino) && |op.data| > 0
    ensures op.Rename? ==> InRange(v, op.d1) && InRange(v, op.d2)
  {
  }

  method IsPosed(vol: Volume, op: Op) returns (posed: bool)
    requires vol.Valid()
    ensures posed == Posed(vol.V(), op)
  {
    hide Inv, Contents, Singles, VolInv;
    SizesAgree(vol.V());
    posed := match op
      case Add(dir, _, _, _, _) => LiveOrNone(vol.used, dir)
      case Remove(dir, _, _) => LiveOrNone(vol.used, dir)
      case Write(i, _, data, _) => LiveOrNone(vol.used, i) && |data| > 0
      case Rename(d1, _, d2, _, _) => LiveOrNone(vol.used, d1) && LiveOrNone(vol.used, d2);
  }

  predicate LiveOrNone(used: seq<bool>, i: nat) {
    i == 0 || i >= |used| || used[i]
  }

  lemma SizesAgree(v: Vol)
    requires VolInv(v)
    ensures |v.inodes| == |v.used|
  {
    hide InodesOk, RefsOk, NamesOk;
  }

  lemma AddStep(a: Snap, b: Snap, e: Event)
    requires e.Done? && e.op.Add? && Posed(a.v, e.op) && a.v.free >= 0
    requires var check := AddCheck(Abs(a.v), |a.v.inodes|, e.op.dir, e.op.name, e.op.cred);
             (check != Ok ==> e.status == check) && (check == Ok && a.v.free == 0 ==> e.status == OutOfMemory) &&
             (check == Ok && a.v.free > 0 ==> Volume.AddSpace(a.v, a.s, b.v, b.s, e.op.dir, |e.op.name|, e.op.isDir, e.status))
    requires e.status != Ok ==> Abs(b.v) == Abs(a.v) && b.v.home == a.v.home
    requires e.status == Ok ==>
               Volume.ChildMade(a.v, b.v, e.op.dir, e.op.name, e.ino, e.op.isDir, e.op.mode & 0x0FFF, e.op.cred)
    ensures VolStep(a, e, b) && !LosesName(a, e.op) && (AllNamed(b.v) <==> AllNamed(a.v))
  {
    hide Abs, Inherited, AddCheck, Volume.AddStatus, Posed;
    if e.status == Ok && AllNamed(b.v) {
      forall i | i in Abs(a.v) && i != ROOT_INO ensures i in a.v.home { assert i in Abs(b.v); }
    }
  }

  lemma FreeCount(v: Vol)
    requires VolInv(v)
    ensures v.free >= 0
  {
    hide InodesOk, RefsOk, NamesOk;
  }

  lemma RemovedName(v: Vol, w: Vol, dir: nat, name: Name)
    requires VolInv(v) && Volume.RemoveEffect(v, w, dir, name)
    ensures dir in Abs(v) && name in Abs(v)[dir].entries && Abs(v)[dir].entries[name].ino in v.home
  {
    hide VolInv, Abs;
    NamedFacts(v, dir, name);
  }

  lemma RemoveStep(a: Snap, b: Snap, e: Event)
    requires e.Done? && e.op.Remove? && Posed(a.v, e.op)
    requires e.status == RemoveCheck(Abs(a.v), |a.v.inodes|, e.op.dir, e.op.name, e.op.cred)
    requires e.status != Ok ==> b.v == a.v
    requires e.status == Ok ==> Volume.RemoveEffect(a.v, b.v, e.op.dir, e.op.name) && Abs(a.v)[e.op.dir].entries[e.op.name].ino in a.v.home
    ensures VolStep(a, e, b) && !LosesName(a, e.op) && (AllNamed(b.v) <==> AllNamed(a.v))
  {
    hide Abs, RemoveCheck, Posed;
    if e.status == Ok {
      if AllNamed(b.v) {
        forall i | i in Abs(a.v) && i != ROOT_INO ensures i in a.v.home { assert i in a.v.home || i in Abs(b.v); }
      }
    }
  }

  lemma WriteStep(a: Snap, b: Snap, e: Event)
    requires e.Done? && e.op.Write? && Posed(a.v, e.op)
    requires var check := FileCheck(Abs(a.v), |a.v.inodes|, e.op.ino, e.op.cred, WRITE_DATA);
             if check != Ok then e.status == check
             else (e.status == Ok || e.status == DiskFull) && Volume.WriteSpace(a.v, a.s, e.op.ino, e.op.off, |e.op.data|, e.status)
    requires e.status == Ok ==> Volume.WriteEffect(a.v, b.v, e.op.ino, e.op.off, e.op.data)
    requires e.status != Ok ==> Abs(b.v) == Abs(a.v) && b.v.home == a.v.home
    ensures VolStep(a, e, b) && !LosesName(a, e.op) && (AllNamed(b.v) <==> AllNamed(a.v))
  {
    hide Abs, DataWritten, FileCheck, Volume.WriteSpace, Posed;
  }

  lemma RenameStep(a: Snap, b: Snap, e: Event)
    requires e.Done? && e.op.Rename? && Posed(a.v, e.op) && VolInv(a.v)
    requires var op := e.op;
             var check := RenameCheck(Abs(a.v), |a.v.inodes|, op.d1, op.n1, op.d2, op.n2, op.cred);
             if check != Ok then e.status == check && b.v == a.v
             else Volume.RenameEffect(a.v, b.v, e.status, Volume.Fits(a.v, a.s, op.d1, |op.n1|), Volume.Fits(a.v, a.s, op.d2, |op.n2|),
                                      op.d1, op.n1, op.d2, op.n2)
    ensures VolStep(a, e, b) && (AllNamed(b.v) <==> AllNamed(a.v) && !LosesName(a, e.op))
  {
    hide VolInv, Abs, RenameCheck, Volume.Fits, Posed;
    var op := e.op;
    if RenameCheck(Abs(a.v), |a.v.inodes|, op.d1, op.n1, op.d2, op.n2, op.cred) == Ok {
      NamedFacts(a.v, op.d1, op.n1);
      assert Abs(b.v).Keys == Abs(a.v).Keys;
      if LosesName(a, op) { assert Abs(a.v)[op.d1].entries[op.n1].ino in Abs(b.v); }
      if AllNamed(b.v) {
        forall i | i in Abs(a.v) && i != ROOT_INO ensures i in a.v.home { assert i in Abs(b.v); }
      }
    }
  }

  /** A whole run. From any valid volume, whatever operations are issued and whichever of
      them fail: the volume stays valid, what is visible is a run of the abstract file
      system, and at the end every inode has its name exactly if it had at the start and no
      rename found itself without room for either record. */
  method Run(vol: Volume, ops: seq<Op>) returns (events: seq<Event>, ghost trace: seq<Snap>)
    requires vol.Valid()
    modifies vol, vol.st
    ensures vol.Valid() && |events| == |ops| && FsRun(trace, events)
    ensures trace[0] == old(Now(vol)) && trace[|ops|] == Now(vol)
    ensures forall k :: 0 <= k < |ops| ==> events[k].op == ops[k]
    ensures AllNamed(vol.V()) <==> AllNamed(old(vol.V())) && NoneLost(trace, events)
  {
    hide Volume.Valid, Now, VolStep, AllNamed, LosesName;
    events, trace := [], [Now(vol)];
    ghost var named := AllNamed(vol.V());
    while |events| < |ops|
      invariant vol.Valid() && |events| <= |ops| && FsRun(trace, events)
      invariant trace[0] == old(Now(vol)) && trace[|events|] == Now(vol)
      invariant forall k :: 0 <= k < |events| ==> events[k].op == ops[k]
      invariant AllNamed(vol.V()) <==> named && NoneLost(trace, events)
    {
      var n := |events|;
      var e := Step(vol, ops[n]);
      LostSoFar(trace, events, Now(vol), e);
      RunOn(trace, events, Now(vol), e);
      events := events + [e];
      trace := trace + [Now(vol)];
    }
  }

  lemma LostSoFar(trace: seq<Snap>, events: seq<Event>, b: Snap, e: Event)
    requires |trace| == |events| + 1
    ensures NoneLost(trace + [b], events + [e]) <==> NoneLost(trace, events) && !LosesName(trace[|events|], e.op)
  {
    hide LosesName;
    var t, es := trace + [b], events + [e];
    assert forall k :: 0 <= k < |events| ==> t[k] == trace[k] && es[k] == events[k];
    assert t[|events|] == trace[|events|] && es[|events|] == e;
  }

  lemma RunOn(trace: seq<Snap>, events: seq<Event>, b: Snap, e: Event)
    requires FsRun(trace, events) && VolStep(trace[|events|], e, b)
    ensures FsRun(trace + [b], events + [e])
  {
    hide VolStep;
    var t, es := trace + [b], events + [e];
    forall k | 0 <= k < |es| ensures VolStep(t[k], es[k], t[k + 1]) {
      if k < |events| { assert t[k] == trace[k] && t[k + 1] == trace[k + 1] && es[k] == events[k]; }
    }
  }

  /** Every run from a successful format: the root directory is all there is at first, and
      at the end the volume is valid and shows a run of the abstract file system. */
  method FormatAndRun(shift: nat, blocks: Disk, asked: nat, hash: Name -> nat, ops: seq<Op>)
    returns (status: Status, vol: Volume?, events: seq<Event>, ghost trace: seq<Snap>)
    requires forall b :: 0 <= b < |blocks| ==> |blocks[b]| == Volume.Pow2(shift)
    requires Addressable(|blocks|, Volume.Pow2(shift)) && Volume.InodeCount(|blocks|, asked) < U64_LIMIT
    ensures status == Ok ==> vol != null && vol.Valid() && |events| == |ops| && FsRun(trace, events)
    ensures status == Ok ==> Abs(trace[0].v) == map[ROOT_INO := Node(true, 0x1ED, 0, 0, [], map[], [])] && trace[|ops|] == Now(vol)
    ensures status == Ok ==> (AllNamed(vol.V()) <==> NoneLost(trace, events))
  {
    hide Volume.Valid, Abs, FsRun, NoneLost, Volume.FirstData, Volume.InodeCount, Volume.Pow2, Addressable;
    events, trace := [], [];
    status, vol := Volume.Format(shift, blocks, asked, hash);
    if status == Ok {
      events, trace := Run(vol, ops);
    }
  }

  // ----------------------------------------------------------------------------------
  // A rename that loses the name

  lemma SmallGeometry()
    ensures Volume.Pow2(9) == 512 && Volume.InodeCount(64, 118) == 118 && Volume.FirstData(512, 64, 118) == 62
    ensures Addressable(64, 512)
  {
    assert Volume.Pow2(5) == 32;
  }

  function LongName(b: Byte): Name {
    seq(NAME_MAX, _ => b)
  }

  // The root directory of a new volume has room for one long name without a new block.
  lemma FirstFits(v: Vol, s: State, w: Vol, t: State, status: Status)
    requires Abs(v) == map[ROOT_INO := Node(true, 0x1ED, 0, 0, [], map[], [])]
    requires v.dirs == map[ROOT_INO := Dir(EmptyTable(), FIRST_RECORD)] && Volume.TableLength(v, ROOT_INO) == 512 && s.free == 0
    ensures AddCheck(Abs(v), |v.inodes|, ROOT_INO, LongName(1), Cred(0, 0)) == Ok
    ensures Volume.AddSpace(v, s, w, t, ROOT_INO, NAME_MAX, false, status) ==> status == Ok
  {
    hide Abs;
    InRoot(v);
    assert Inherited([], false) == [];
  }

  lemma InRoot(v: Vol)
    requires ROOT_INO in Abs(v)
    ensures ROOT_INO < |v.inodes| && Live(v, ROOT_INO)
  {
  }

  // After that it has room for no other, and there is no block left to append.
  lemma NoRoomAfter(v: Vol, s: State, w: Vol, t: State, ino: nat)
    requires Abs(v) == map[ROOT_INO := Node(true, 0x1ED, 0, 0, [], map[], [])] && s.free == 0
    requires v.dirs == map[ROOT_INO := Dir(EmptyTable(), FIRST_RECORD)] && Volume.TableLength(v, ROOT_INO) == 512
    requires Volume.AddSpace(v, s, w, t, ROOT_INO, NAME_MAX, false, Ok) && w.files == Contents(t)
    requires Volume.ChildMade(v, w, ROOT_INO, LongName(1), ino, false, 0, Cred(0, 0))
    ensures LosesName(Snap(w, t), Rename(ROOT_INO, LongName(1), ROOT_INO, LongName(2), Cred(0, 0)))
    ensures Abs(w) == map[ROOT_INO := Node(true, 0x1ED, 0, 0, [], map[LongName(1) := Entry(ino, KIND_FILE)], []),
                          ino := Node(false, 0, 0, 0, [], map[], [])]
    ensures ino != ROOT_INO
  {
    hide Abs, Contents;
    InRoot(w);
    assert Inherited([], false) == [];
    assert LongName(1)[0] == 1 && LongName(2)[0] == 2;
  }

  lemma LossChecked(w: Vol, t: State)
    requires LosesName(Snap(w, t), Rename(ROOT_INO, LongName(1), ROOT_INO, LongName(2), Cred(0, 0)))
    ensures RenameCheck(Abs(w), |w.inodes|, ROOT_INO, LongName(1), ROOT_INO, LongName(2), Cred(0, 0)) == Ok
    ensures Live(w, ROOT_INO)
  {
    hide NodeAt, Allowed, Volume.Fits;
  }

  lemma NameGone(w: Vol, t: State, x: Vol, status: Status, ino: nat)
    requires LosesName(Snap(w, t), Rename(ROOT_INO, LongName(1), ROOT_INO, LongName(2), Cred(0, 0))) && ino != ROOT_INO
    requires Abs(w) == map[ROOT_INO := Node(true, 0x1ED, 0, 0, [], map[LongName(1) := Entry(ino, KIND_FILE)], []),
                           ino := Node(false, 0, 0, 0, [], map[], [])]
    requires Volume.RenameEffect(w, x, status, Volume.Fits(w, t, ROOT_INO, NAME_MAX), Volume.Fits(w, t, ROOT_INO, NAME_MAX),
                                 ROOT_INO, LongName(1), ROOT_INO, LongName(2))
    ensures status == DiskFull && ino in Abs(x) && ino !in x.home && ROOT_INO in Abs(x) && Abs(x)[ROOT_INO].entries == map[]
  {
    hide Abs, Volume.Fits, RenameCheck;
  }

  // The one file of that volume, with a name that fills the root directory.
  method FillDirectory(vol: Volume) returns (ino: nat)
    requires vol.Valid() && vol.freeInodes > 0 && vol.st.freeBlocks == 0 && Volume.TableLength(vol.V(), ROOT_INO) == 512
    requires vol.Tree() == map[ROOT_INO := Node(true, 0x1ED, 0, 0, [], map[], [])]
    requires vol.dirs == map[ROOT_INO := Dir(EmptyTable(), FIRST_RECORD)]
    modifies vol, vol.st
    ensures vol.Valid() && ino != ROOT_INO
    ensures LosesName(Now(vol), Rename(ROOT_INO, LongName(1), ROOT_INO, LongName(2), Cred(0, 0)))
    ensures vol.Tree() == map[ROOT_INO := Node(true, 0x1ED, 0, 0, [], map[LongName(1) := Entry(ino, KIND_FILE)], []),
                              ino := Node(false, 0, 0, 0, [], map[], [])]
  {
    hide Inv, Contents, Singles, VolInv, Abs, Inherited, Volume.ChildMade, AddCheck, Volume.AddSpace, LosesName, LongName;
    ghost var v, s := vol.V(), vol.st.S();
    InRoot(v);
    LongNames();
    var added, i := vol.AddChild(ROOT_INO, LongName(1), false, 0, Cred(0, 0));
    ino := i;
    FirstFits(v, s, vol.V(), vol.st.S(), added);
    NoRoomAfter(v, s, vol.V(), vol.st.S(), ino);
  }

  lemma LongNames()
    ensures |LongName(1)| == |LongName(2)| == NAME_MAX && (0 as bv16) & 0x0FFF == 0
  {
  }

  /** A full volume on which a rename loses the name: 64 blocks of 512 bytes of which the
      two behind the metadata hold the root directory, and one record of a 255-byte name
      that leaves no room for another. The file stays, live and without a name. */
  method RenameOnFullVolume(blocks: Disk, hash: Name -> nat) returns (vol: Volume, ino: nat, status: Status)
    requires |blocks| == 64 && forall b :: 0 <= b < |blocks| ==> |blocks[b]| == 512
    ensures fresh(vol) && fresh(vol.st) && vol.Valid() && status == DiskFull
    ensures ino in vol.Tree() && ino != ROOT_INO && ino !in vol.home
    ensures ROOT_INO in vol.Tree() && vol.Tree()[ROOT_INO].entries == map[]
  {
    hide Inv, Contents, Singles, VolInv, Abs, Volume.FirstData, Volume.InodeCount, Volume.Pow2, Addressable, Inherited, Volume.ChildMade,
         Volume.RenameEffect, RenameCheck, Volume.Fits, LosesName, LongName, Volume.TableLength;
    SmallGeometry();
    var made, volume := Volume.Format(9, blocks, 118, hash);
    vol := volume;
    ino := FillDirectory(vol);
    ghost var w, t := vol.V(), vol.st.S();
    LossChecked(w, t);
    LongNames();
    status := vol.Rename(ROOT_INO, LongName(1), ROOT_INO, LongName(2), Cred(0, 0));
    NameGone(w, t, vol.V(), status, ino);
  }

  // ----------------------------------------------------------------------------------
  // What validity means, in terms of blocks and names

  /** Every block of a valid volume is used exactly when it is metadata, a list or data
      block of a stream, or a block handed out on its own; the cached counts are exact. */
  lemma BlockLedger(vol: Volume, b: nat)
    requires vol.Valid() && b < |vol.st.used|
    ensures vol.st.used[b] <==>
              b < vol.st.firstData || b in Singles(vol.st.S()) ||
              exists r :: r in vol.st.streams && (b in Extents.Lists(vol.st.streams[r]) || b in Extents.Blocks(vol.st.streams[r]))
    ensures vol.st.freeBlocks == ClearBits(vol.st.used) && vol.freeInodes == ClearBits(vol.used)
  {
    hide Inv, VolInv, Extents.Blocks, Singles;
    ShapeFact(vol.V());
    Ledger(vol.st.S(), b);
  }

  /** The streams two live inodes use are different streams, and so (with StreamsDisjoint)
      share no block; a file never shares a stream with a directory's table. */
  lemma StreamsNotShared(v: Vol, i: nat, j: nat)
    requires VolInv(v) && Live(v, i) && Live(v, j)
    ensures v.inodes[i].dataRoot != 0 && v.inodes[i].dataRoot == v.inodes[j].dataRoot ==> i == j
    ensures v.inodes[i].hashRoot != 0 && v.inodes[i].hashRoot == v.inodes[j].hashRoot ==> i == j
    ensures v.inodes[i].dataRoot != 0 ==> v.inodes[i].dataRoot != v.inodes[j].hashRoot
    ensures v.inodes[i].aclBlock != 0 && v.inodes[i].aclBlock == v.inodes[j].aclBlock ==> i == j
  {
    hide VolInv, TableOk, Gathered;
    InodeFact(v, i);
    InodeFact(v, j);
    assert v.inodes[i].isDir || v.inodes[i].hashRoot == 0;
    assert v.inodes[j].isDir || v.inodes[j].hashRoot == 0;
  }

  /** No inode is named twice, no entry dangles, the root is named nowhere, and every named
      inode has link count one. */
  lemma NamedOnce(v: Vol, d1: nat, n1: Name, d2: nat, n2: Name)
    requires VolInv(v) && d1 in Abs(v) && d2 in Abs(v) && n1 in Abs(v)[d1].entries && n2 in Abs(v)[d2].entries
    ensures var c := Abs(v)[d1].entries[n1].ino;
            c in Abs(v) && c != ROOT_INO && v.inodes[c].links == 1 &&
            Abs(v)[d1].entries[n1].kind == (if Abs(v)[c].isDir then KIND_DIR else KIND_FILE) &&
            c in v.home && v.home[c] == Place(d1, n1)
    ensures Abs(v)[d1].entries[n1].ino == Abs(v)[d2].entries[n2].ino ==> d1 == d2 && n1 == n2
  {
    hide VolInv, TableOk, Gathered;
    NamedFacts(v, d1, n1);
    NamedFacts(v, d2, n2);
  }

  lemma NamedFacts(v: Vol, d: nat, n: Name)
    requires VolInv(v) && d in Abs(v) && n in Abs(v)[d].entries
    ensures var c := Abs(v)[d].entries[n].ino;
            c in Abs(v) && c != ROOT_INO && v.inodes[c].links == 1 &&
            Abs(v)[d].entries[n].kind == (if Abs(v)[c].isDir then KIND_DIR else KIND_FILE) &&
            c in v.home && v.home[c] == Place(d, n)
  {
    hide VolInv, TableOk, Gathered, HashOk, AclOk, InodeDataOk;
    InodeFact(v, d);
    EntryFact(v, d, n);
    InodeFact(v, v.dirs[d].table.recs[n].ino);
  }
}
