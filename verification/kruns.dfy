/** Whole runs of the kernel: memory ownership, scheduling safety and bounded waiting. */
module KernelRuns {
  import opened Results
  import opened Bytes
  import opened Counting
  import opened Entries
  import opened Frames
  import opened Translation
  import opened Effects
  import opened Paging
  import opened UserPages
  import opened Umem
  import opened Elf
  import opened Scheduling
  import opened KernMem
  import opened Kernels

  datatype Op =
    | Yield | Spawn(open: Status, file: seq<Byte>) | NewThread | Exit(code: int) | Kill(pid: nat) | Sleep(ticks: nat)
    | ReapNow | MoveBreak(inc: int) | Tick

  predicate Creates(op: Op) {
    op.Spawn? || op.NewThread?
  }

  /** Whether an operation calls the scheduler. */
  predicate Calls(k: Kern, op: Op) {
    k.current < |k.procs| &&
    match op
    case Yield => true
    case Exit(_) => k.current != 0
    case Sleep(_) => k.current != 0
    case Kill(pid) => pid != 0 && Kernel.Live(k, k.current, pid)
    case _ => false
  }

  /** What an operation does to the distance of waiting processes. */
  ghost predicate Moves(k: Kern, op: Op, k': Kern) {
    if Calls(k, op) then Closer(k, k') else if Creates(op) then OneFarther(k, k') else NotFarther(k, k')
  }

  /** What an operation answered: a status, and a process number or a break; nothing if it
      does not return to its caller, or was not issued because the idle process cannot exit. */
  datatype Answer = Done(status: Status, value: nat) | Silent

  /** The process table and memory at one moment. */
  datatype Moment = Moment(k: Kern, m: Mem)

  ghost function Now(kern: Kernel): Moment
    reads kern, kern.mac
  {
    Moment(kern.K(), kern.mac.M())
  }

  /** One owner for every frame, one running process with its own space loaded, the idle
      process able to run, every heap in order. */
  ghost predicate Good(a: Moment) {
    Inv(a.m) && KernOk(a.k) && MemOk(a.k, a.m, 0) && a.k.nextPid > 0
  }

  ghost predicate ReapStep(a: Moment, b: Moment) {
    ReapedTable(a.k, b.k) && ReapedMem(a.k, a.m, b.m) && NoneLeft(b.k)
  }

  ghost predicate SpawnStep(a: Moment, open: Status, file: seq<Byte>, r: Answer, b: Moment) {
    r.Done? &&
    (if open != Ok then r.status == open else Kernel.SpawnOutcome(a.k, a.m, file, r.status)) &&
    if r.status == Ok
    then Kernel.SpawnEffect(a.k, b.k, a.m, b.m, file, r.value) && exists s :: Kernel.Starts(b.m.cfg.nx, b.m.ram, b.k, s, r.value, file)
    else b.k == a.k && FramesBack(a.m, b.m)
  }

  ghost predicate BreakStep(a: Moment, inc: int, r: Answer, b: Moment) {
    r.Done? && a.k.current < |a.k.procs| &&
    var p := a.k.procs[a.k.current];
    var check := BrkCheck(p.root, p.heapStart, p.heapBrk, inc);
    b.k == a.k.(procs := a.k.procs[a.k.current := p.(heapBrk := r.value)]) &&
    if check != Ok then r.status == check && r.value == p.heapBrk && b.m == a.m
    else if inc > 0 && |a.m.free| < HeapCost(a.m, p.root, p.heapBrk, inc) then
      r.status == OutOfMemory && r.value == p.heapBrk && Restored(a.m, b.m, p.root)
    else r.status == Ok && r.value == p.heapBrk + inc && BrkMoved(a.m, b.m, p.root, p.heapBrk, r.value)
  }

  ghost predicate KillStep(a: Moment, pid: nat, r: Answer, b: Moment) {
    r.Done? &&
    r.status == (if pid == 0 then Permission else if exists s :: 0 <= s < |a.k.procs| && Kernel.Live(a.k, s, pid) then Ok else NotFound) &&
    if r.status == Ok then Kernel.TerminateEffect(a.k, b.k, a.m, b.m, pid) else b == a
  }

  /** One operation: its answer, told from the moment before, and the moment after. */
  ghost predicate KernStep(a: Moment, op: Op, r: Answer, b: Moment) {
    match op
    case Yield => a.k.current in a.k.order && a.k.current < |a.k.procs| && Scheduled(a.k, b.k) && b.m == a.m && r == Done(Ok, 0)
    case Spawn(open, file) => SpawnStep(a, open, file, r, b)
    case NewThread =>
      r.Done? && r.status == (if Kernel.HasSlot(a.k) then Ok else ProcessFailed) &&
      (if r.status == Ok then r.value == a.k.nextPid && exists s: nat :: Kernel.Created(a.k, b.k, a.m, b.m, s, EMPTY) else b == a)
    case Exit(code) =>
      r == Silent && b.m == a.m && a.k.current < |a.k.procs| &&
      (if a.k.current == 0 then b == a else Kernel.StopsAs(a.k, Kernel.Ended(a.k.procs[a.k.current], code), b.k))
    case Kill(pid) => KillStep(a, pid, r, b)
    case Sleep(ticks) =>
      r == Done(if a.k.current == 0 then Permission else Ok, 0) && b.m == a.m && a.k.current < |a.k.procs| &&
      (if a.k.current == 0 then b == a else Kernel.StopsAs(a.k, Kernel.Asleep(a.k.procs[a.k.current], a.k.tick, ticks), b.k))
    case ReapNow => r == Silent && ReapStep(a, b)
    case MoveBreak(inc) => BreakStep(a, inc, r, b)
    case Tick => r == Silent && b == a.(k := a.k.(tick := a.k.tick + 1))
  }

  /** Executes one operation. */
  method Perform(kern: Kernel, op: Op) returns (r: Answer)
    requires kern.Valid() && (op.MoveBreak? ==> I64_MIN <= op.inc <= 0x7FFF_FFFF_FFFF_FFFF)
    modifies kern, kern.mac
    ensures kern.Valid() && KernStep(old(Now(kern)), op, r, Now(kern)) && Moves(old(kern.K()), op, kern.K())
  {
    hide KernOk, MemOk, Inv, Closer, NotFarther, Kernel.TerminateEffect, ReapedTable, Kernel.SpawnEffect, Kernel.Starts, OneFarther, Waiting, Kernel.Created, FramesBack, ReapedMem,
         BrkMoved, Restored, ElfCheck, HeaderCheck, Scheduled, Kernel.SpawnOutcome, Kernel.HasSlot, HeapCost, NoneLeft, Kernel.StopsAs, Dead;
    ghost var k, m := kern.K(), kern.mac.M();
    Kernel.CurrentFacts(k);
    Kernel.CurrentListed(k);
    Kernel.SameRanks(k, k);
    r := Silent;
    match op
    case Yield =>
      kern.Yield();
      r := Done(Ok, 0);
    case Spawn(open, file) =>
      var status, pid := kern.Spawn(open, file);
      r := Done(status, pid);
      SpawnMoves(Moment(k, m), open, file, r, Now(kern));
    case NewThread =>
      var status, pid := kern.CreateThread();
      r := Done(status, pid);
      ThreadMoves(Moment(k, m), r, Now(kern));
    case Exit(code) =>
      if kern.current != 0 {
        kern.Exit(code);
      }
    case Kill(pid) =>
      var status := kern.Terminate(pid);
      KillMoves(k, kern.K(), m, kern.mac.M(), pid, status);
      r := Done(status, 0);
    case Sleep(ticks) =>
      var status := kern.Sleep(ticks);
      r := Done(status, 0);
    case ReapNow =>
      kern.ReapTerminated();
      TableMoves(k, kern.K());
    case MoveBreak(inc) =>
      var status, brk := kern.MoveBreak(inc);
      r := Done(status, brk);
    case Tick => kern.Tick();
  }

  lemma TableMoves(k: Kern, k': Kern)
    requires ReapedTable(k, k')
    ensures NotFarther(k, k')
  {
  }

  // The new process comes last, and the dead leave: nobody waits for more than one call longer.
  lemma CreateMoves(k: Kern, k': Kern, m: Mem, m': Mem, s: nat, p: Proc)
    requires KernOk(k) && KernOk(k') && Kernel.Created(k, k', m, m', s, p)
    ensures OneFarther(k, k')
  {
    hide PidsOk, RootsOk, RunOk, ReapedMem, NoneLeft, NotFarther, Index;
    var k1: Kern :| ReapedTable(k, k1) && ReapedMem(k, m, m') && NoneLeft(k1) && |k1.order| > 0 && k1.order[|k1.order| - 1] < |k1.procs| &&
      s < |k1.procs| && !k1.procs[s].inUse && (forall t :: 0 <= t < s ==> k1.procs[t].inUse) && k' == Appended(k1, s, p);
    CurrentUsed(k, k1);
    Kernel.CurrentListed(k');
    Kernel.CurrentFacts(k);
    Kernel.CurrentListed(k);
    assert SameSlot(k.procs[k.current], k1.procs[k.current]) || k1.procs[k.current] == EMPTY;
    forall q: nat | Waiting(k, q) ensures q in k'.order && Rank(k', q) <= Rank(k, q) + 1 {
      assert SameSlot(k.procs[q], k1.procs[q]);
      assert k'.procs[q].inUse;
      AppendedRank(k, k1, k', s, q);
    }
  }

  lemma AppendedRank(k: Kern, k1: Kern, k': Kern, s: nat, q: nat)
    requires ListOk(k') && NotFarther(k, k1) && k'.order == k1.order + [s] && k'.current == k1.current && k1.current in k1.order
    requires q in k'.order && q != s
    ensures q in k1.order && q in k.order && Rank(k', q) <= Rank(k, q) + 1
  {
    hide ListOk, Index;
    ListFacts(k');
    IndexIs(k'.order, Index(k1.order, q));
    IndexIs(k'.order, Index(k1.order, k1.current));
  }

  lemma ThreadMoves(a: Moment, r: Answer, b: Moment)
    requires KernOk(a.k) && KernOk(b.k) && NotFarther(a.k, a.k) && KernStep(a, NewThread, r, b)
    ensures OneFarther(a.k, b.k)
  {
    hide KernOk, Kernel.Created, Kernel.HasSlot, OneFarther;
    if r.status == Ok {
      var s: nat :| Kernel.Created(a.k, b.k, a.m, b.m, s, EMPTY);
      CreateMoves(a.k, b.k, a.m, b.m, s, EMPTY);
    } else {
      StillMoves(a.k);
    }
  }

  lemma StillMoves(k: Kern)
    requires NotFarther(k, k)
    ensures OneFarther(k, k)
  {
  }

  lemma SpawnMoves(a: Moment, open: Status, file: seq<Byte>, r: Answer, b: Moment)
    requires KernOk(a.k) && KernOk(b.k) && NotFarther(a.k, a.k) && SpawnStep(a, open, file, r, b)
    ensures OneFarther(a.k, b.k)
  {
    hide KernOk, Kernel.Created, Kernel.SpawnEffect, Kernel.Starts, Kernel.SpawnOutcome, OneFarther, FramesBack;
    if r.status == Ok {
      var m3, s, p := Spawned(a.k, b.k, a.m, b.m, file, r.value);
      CreateMoves(a.k, b.k, m3, b.m, s, p);
    } else {
      StillMoves(a.k);
    }
  }

  lemma KillMoves(k: Kern, k': Kern, m: Mem, m': Mem, pid: nat, status: Status)
    requires KernOk(k) && NotFarther(k, k)
    requires status == if pid == 0 then Permission else if exists s :: 0 <= s < |k.procs| && Kernel.Live(k, s, pid) then Ok else NotFound
    requires if status != Ok then k' == k else Kernel.TerminateEffect(k, k', m, m', pid)
    ensures Moves(k, Kill(pid), k')
  {
    hide KernOk, Closer, NotFarther, ReapedTable, ReapedMem, Scheduled, NoneLeft;
    Kernel.CurrentFacts(k);
    if status == Ok {
      var s := Ender(k, k', m, m', pid);
      Kernel.UniquePid(k, s, pid);
    }
  }

  /** The slot of a process that was ended. */
  lemma Ender(k: Kern, k': Kern, m: Mem, m': Mem, pid: nat) returns (s: nat)
    requires Kernel.TerminateEffect(k, k', m, m', pid)
    ensures Kernel.Live(k, s, pid) && k.current in k.order && k.current < |k.procs|
    ensures var k1 := Kernel.Marked(k, s, k.procs[s].(state := Terminated));
            if s == k.current then Scheduled(k1, k') && k'.current != k.current && Closer(k, k') && m' == m
            else ReapedTable(k1, k') && ReapedMem(k1, m, m') && NoneLeft(k') && NotFarther(k, k') && s < |k'.procs| && !k'.procs[s].inUse
  {
    hide Closer, NotFarther, ReapedTable, ReapedMem, Scheduled, NoneLeft;
    s :| Kernel.Live(k, s, pid) && k.current in k.order && k.current < |k.procs| &&
      var k1 := Kernel.Marked(k, s, k.procs[s].(state := Terminated));
      if s == k.current then Scheduled(k1, k') && k'.current != k.current && Closer(k, k') && m' == m
      else ReapedTable(k1, k') && ReapedMem(k1, m, m') && NoneLeft(k') && NotFarther(k, k') && s < |k'.procs| && !k'.procs[s].inUse;
  }

  /** A run: the moments it goes through, each good and followed by one step. */
  ghost predicate KernRun(trace: seq<Moment>, ops: seq<Op>, answers: seq<Answer>) {
    |trace| == |ops| + 1 && |answers| == |ops| && (forall i :: 0 <= i <= |ops| ==> Good(trace[i])) &&
    forall i {:trigger ops[i]} :: 0 <= i < |ops| ==>
      KernStep(trace[i], ops[i], answers[i], trace[i + 1]) && Moves(trace[i].k, ops[i], trace[i + 1].k)
  }

  /** Any run of any operations: each does its step with its answer, and every moment is
      good. */
  method Run(kern: Kernel, ops: seq<Op>) returns (answers: seq<Answer>, ghost trace: seq<Moment>)
    requires kern.Valid() && forall i :: 0 <= i < |ops| && ops[i].MoveBreak? ==> I64_MIN <= ops[i].inc <= 0x7FFF_FFFF_FFFF_FFFF
    modifies kern, kern.mac
    ensures kern.Valid() && KernRun(trace, ops, answers) && trace[0] == old(Now(kern)) && trace[|ops|] == Now(kern)
  {
    hide KernOk, MemOk, Inv, Moves, KernStep;
    answers, trace := [], [Now(kern)];
    var i := 0;
    while i < |ops|
      invariant 0 <= i <= |ops| && kern.Valid() && KernRun(trace, ops[..i], answers) && trace[0] == old(Now(kern)) && trace[i] == Now(kern)
    {
      var r := Perform(kern, ops[i]);
      RunOn(trace, ops, answers, i, r, Now(kern));
      answers, trace := answers + [r], trace + [Now(kern)];
      i := i + 1;
    }
    assert ops[..i] == ops;
  }

  lemma RunOn(trace: seq<Moment>, ops: seq<Op>, answers: seq<Answer>, i: nat, r: Answer, b: Moment)
    requires i < |ops| && KernRun(trace, ops[..i], answers) && Good(b)
    requires KernStep(trace[i], ops[i], r, b) && Moves(trace[i].k, ops[i], b.k)
    ensures KernRun(trace + [b], ops[..i + 1], answers + [r]) && (trace + [b])[0] == trace[0]
  {
    hide Good, Moves, KernStep;
    var t, o, a := trace + [b], ops[..i + 1], answers + [r];
    assert o == ops[..i] + [ops[i]];
    forall j | 0 <= j <= |o| ensures Good(t[j]) { if j < |o| { assert t[j] == trace[j]; } }
    forall j | 0 <= j < |o| ensures KernStep(t[j], o[j], a[j], t[j + 1]) && Moves(t[j].k, o[j], t[j + 1].k) {
      if j < i { assert o[j] == ops[..i][j] && t[j] == trace[j] && t[j + 1] == trace[j + 1] && a[j] == answers[j]; }
    }
  }

  /** Every run from power-on: the free list filled from the memory map, the kernel started
      with the idle process alone, and then any operations. */
  method BootAndRun(cfg: Config, ram: map<nat, Page>, regions: seq<Region>, image: Range, initrd: Range, limit: nat, ops: seq<Op>)
    returns (kern: Kernel, answers: seq<Answer>, ghost trace: seq<Moment>)
    requires Fits(cfg.hhdm) && Fits(cfg.image) && limit <= HHDM_MAX && forall f :: 0 <= f < limit / PAGE_SIZE ==> f in ram
    requires forall i, j, f :: 0 <= i < j < |regions| ==> !(InRegion(regions[i], limit, f) && InRegion(regions[j], limit, f))
    requires forall i :: 0 <= i < |ops| && ops[i].MoveBreak? ==> I64_MIN <= ops[i].inc <= 0x7FFF_FFFF_FFFF_FFFF
    ensures fresh(kern) && fresh(kern.mac) && kern.Valid() && KernRun(trace, ops, answers) && trace[|ops|] == Now(kern)
    ensures trace[0].k.order == [0] && trace[0].k.current == 0 && trace[0].m.spaces == map[]
    ensures forall f :: f in trace[0].m.own <==> exists i :: 0 <= i < |regions| && InRegion(regions[i], limit, f) && !Reserved(f, image, initrd)
  {
    hide KernOk, MemOk, Inv, Moves, InRegion, Reserved, KernStep;
    var mac := new Machine(cfg, ram);
    mac.Init(regions, image, initrd, limit);
    kern := new Kernel(mac);
    ghost var m := mac.M();
    answers, trace := Run(kern, ops);
    assert trace[0].m == m;
  }

  // ----------------------------------------------------------------------------------
  // Bounded waiting

  /** How many of the operations from the `i`-th up to the `j`-th called the scheduler. */
  function CallsIn(trace: seq<Moment>, ops: seq<Op>, i: nat, j: nat): nat
    requires i <= j <= |ops| < |trace|
    decreases j
  {
    if i == j then 0 else CallsIn(trace, ops, i, j - 1) + if Calls(trace[j - 1].k, ops[j - 1]) then 1 else 0
  }

  /** How many of them create a process. */
  function CreatesIn(ops: seq<Op>, i: nat, j: nat): nat
    requires i <= j <= |ops|
    decreases j
  {
    if i == j then 0 else CreatesIn(ops, i, j - 1) + if Creates(ops[j - 1]) then 1 else 0
  }

  lemma {:induction false} RankRuns(trace: seq<Moment>, ops: seq<Op>, answers: seq<Answer>, i: nat, j: nat, p: nat)
    requires KernRun(trace, ops, answers) && i <= j <= |ops|
    requires forall m :: i <= m <= j ==> Waiting(trace[m].k, p)
    ensures var k, k' := trace[i].k, trace[j].k;
            k.current in k.order && k'.current in k'.order && p in k.order && p in k'.order &&
            CallsIn(trace, ops, i, j) + Rank(k', p) <= Rank(k, p) + CreatesIn(ops, i, j)
    decreases j
  {
    hide KernOk, Inv, MemOk, KernStep;
    assert Good(trace[i]) && Good(trace[j]);
    Kernel.CurrentListed(trace[i].k);
    Kernel.CurrentListed(trace[j].k);
    if i < j {
      RankRuns(trace, ops, answers, i, j - 1, p);
      assert ops[j - 1] in ops && Moves(trace[j - 1].k, ops[j - 1], trace[j - 1 + 1].k);
      assert Waiting(trace[j - 1].k, p) && Waiting(trace[j].k, p);
    }
  }

  /** However long a stretch of a run: a process that waits all along, ready or with its sleep
      over, has been passed over by fewer scheduler calls than there are other processes in
      the list, not counting one for every process created meanwhile. */
  lemma BoundedWaiting(trace: seq<Moment>, ops: seq<Op>, answers: seq<Answer>, i: nat, j: nat, p: nat)
    requires KernRun(trace, ops, answers) && i <= j <= |ops| && forall m :: i <= m <= j ==> Waiting(trace[m].k, p)
    ensures CallsIn(trace, ops, i, j) < |trace[i].k.order| - 1 + CreatesIn(ops, i, j)
  {
    hide PidsOk, RootsOk, Inv, MemOk, KernStep, Moves;
    RankRuns(trace, ops, answers, i, j, p);
    assert Good(trace[i]) && Good(trace[j]);
    RankBound(trace[i].k, p);
    RankBound(trace[j].k, p);
  }

  /** Slot `s` is not the current one and holds the process `was`, as it was but for its link. */
  ghost predicate Parked(k: Kern, s: nat, was: Proc) {
    s < |k.procs| && s != k.current && k.procs[s].(next := None) == was.(next := None)
  }

  /** The process `was` in slot `s` has got the processor, with its sleep over. */
  ghost predicate Resumed(k: Kern, s: nat, was: Proc) {
    s < |k.procs| && s == k.current && k.procs[s].state == Running && (was.state == Blocked ==> k.procs[s].wake == 0) &&
    k.procs[s].(next := None, state := Ready, wake := 0) == was.(next := None, state := Ready, wake := 0)
  }

  ghost predicate Parkable(p: Proc) {
    p.inUse && (p.state == Ready || p.state == Blocked)
  }

  lemma SchedulerParks(k: Kern, k': Kern, s: nat, was: Proc)
    requires k.current in k.order && k.current < |k.procs| && Scheduled(k, k') && Parked(k, s, was) && Parkable(was)
    ensures Parked(k', s, was) || Resumed(k', s, was)
  {
  }

  lemma StopParks(k: Kern, p: Proc, k': Kern, s: nat, was: Proc)
    requires Kernel.StopsAs(k, p, k') && Parked(k, s, was) && Parkable(was)
    ensures Parked(k', s, was) || Resumed(k', s, was)
  {
    hide Scheduled;
    SchedulerParks(Kernel.Marked(k, k.current, p), k', s, was);
  }

  lemma ReapParks(k: Kern, k': Kern, s: nat, was: Proc)
    requires ReapedTable(k, k') && Parked(k, s, was) && Parkable(was)
    ensures Parked(k', s, was)
  {
    Kernel.SameCurrent(k, k');
    hide NotFarther;
    assert SameSlot(k.procs[s], k'.procs[s]);
  }

  lemma CreateParks(k: Kern, k': Kern, m: Mem, m': Mem, t: nat, p: Proc, s: nat, was: Proc)
    requires Kernel.Created(k, k', m, m', t, p) && Parked(k, s, was) && Parkable(was)
    ensures Parked(k', s, was)
  {
    hide ReapedTable, ReapedMem, NoneLeft;
    var k1: Kern :| ReapedTable(k, k1) && ReapedMem(k, m, m') && NoneLeft(k1) && |k1.order| > 0 && k1.order[|k1.order| - 1] < |k1.procs| &&
      t < |k1.procs| && !k1.procs[t].inUse && (forall u :: 0 <= u < t ==> k1.procs[u].inUse) && k' == Appended(k1, t, p);
    ReapParks(k, k1, s, was);
    CurrentUsed(k, k1);
  }

  lemma KillParks(a: Moment, b: Moment, victim: nat, s: nat, was: Proc)
    requires Kernel.TerminateEffect(a.k, b.k, a.m, b.m, victim) && Parked(a.k, s, was) && Parkable(was) && was.pid != victim
    ensures Parked(b.k, s, was) || Resumed(b.k, s, was)
  {
    hide ReapedTable, ReapedMem, NoneLeft, Closer, NotFarther, Scheduled;
    var t := Ender(a.k, b.k, a.m, b.m, victim);
    var k1 := Kernel.Marked(a.k, t, a.k.procs[t].(state := Terminated));
    if t == a.k.current { SchedulerParks(k1, b.k, s, was); } else { ReapParks(k1, b.k, s, was); }
  }

  // Whatever happens, who has not got the processor and is not ended is where it was.
  lemma StepParks(a: Moment, op: Op, r: Answer, b: Moment, s: nat, was: Proc)
    requires KernStep(a, op, r, b) && Parked(a.k, s, was) && Parkable(was) && (was.pid != 0 ==> op != Kill(was.pid))
    ensures Parked(b.k, s, was) || Resumed(b.k, s, was)
  {
    hide Parked, Resumed, Parkable, Scheduled, Kernel.StopsAs, ReapedTable, ReapedMem, NoneLeft, FramesBack, Restored, BrkMoved, Kernel.TerminateEffect,
         Kernel.Created, Kernel.SpawnEffect, Kernel.Starts, Kernel.SpawnOutcome, Kernel.HasSlot, HeapCost, Kernel.Live;
    match op
    case Yield => SchedulerParks(a.k, b.k, s, was);
    case Spawn(open, file) =>
      if r.status == Ok {
        var m3, t, p := Spawned(a.k, b.k, a.m, b.m, file, r.value);
        CreateParks(a.k, b.k, m3, b.m, t, p, s, was);
      }
    case NewThread =>
      if r.status == Ok {
        var t: nat :| Kernel.Created(a.k, b.k, a.m, b.m, t, EMPTY);
        CreateParks(a.k, b.k, a.m, b.m, t, EMPTY, s, was);
      }
    case Exit(code) => if a.k.current != 0 { StopParks(a.k, Kernel.Ended(a.k.procs[a.k.current], code), b.k, s, was); }
    case Kill(victim) => if r.status == Ok { KillParks(a, b, victim, s, was); }
    case Sleep(ticks) => if a.k.current != 0 { StopParks(a.k, Kernel.Asleep(a.k.procs[a.k.current], a.k.tick, ticks), b.k, s, was); }
    case ReapNow => ReapParks(a.k, b.k, s, was);
    case MoveBreak(inc) => SamePark(a.k, b.k, s, was);
    case Tick => SamePark(a.k, b.k, s, was);
  }

  lemma SamePark(k: Kern, k': Kern, s: nat, was: Proc)
    requires Parked(k, s, was) && k'.current == k.current && |k'.procs| == |k.procs|
    requires forall t :: 0 <= t < |k.procs| && t != k.current ==> k'.procs[t] == k.procs[t]
    ensures Parked(k', s, was)
  {
  }

  /** Nobody ends this process between the `i`-th and the `j`-th operation. */
  ghost predicate Spared(ops: seq<Op>, i: nat, j: nat, pid: nat) {
    pid != 0 ==> forall m :: i <= m < j && m < |ops| ==> ops[m] != Kill(pid)
  }

  lemma {:induction false} StaysParked(trace: seq<Moment>, ops: seq<Op>, answers: seq<Answer>, i: nat, j: nat, s: nat, was: Proc)
    requires KernRun(trace, ops, answers) && i <= j <= |ops| && Parked(trace[i].k, s, was) && Parkable(was) && Spared(ops, i, j, was.pid)
    ensures Parked(trace[j].k, s, was) || exists m :: i < m <= j && Resumed(trace[m].k, s, was)
    decreases j
  {
    hide KernStep, Moves, Good, Parked, Resumed, Parkable;
    if i < j {
      StaysParked(trace, ops, answers, i, j - 1, s, was);
      assert KernStep(trace[j - 1], ops[j - 1], answers[j - 1], trace[j - 1 + 1]);
      if Parked(trace[j - 1].k, s, was) { StepParks(trace[j - 1], ops[j - 1], answers[j - 1], trace[j], s, was); }
    }
  }

  lemma {:induction false} NotBefore(trace: seq<Moment>, ops: seq<Op>, answers: seq<Answer>, i: nat, j: nat)
    requires KernRun(trace, ops, answers) && i <= j <= |ops|
    ensures trace[i].k.tick <= trace[j].k.tick
    decreases j
  {
    hide KernRun;
    if i < j {
      NotBefore(trace, ops, answers, i, j - 1);
      Earlier(trace, ops, answers, j - 1);
    }
  }

  // A slot that is parked waits from when its sleep is over.
  lemma ParkedWaits(k: Kern, s: nat, was: Proc)
    requires ListOk(k) && Parked(k, s, was) && was.inUse && (was.state == Ready || (was.state == Blocked && 0 < was.wake <= k.tick))
    ensures Waiting(k, s)
  {
  }

  /** Whoever waits is served: unless it is ended, within as many scheduler calls as there are
      other processes in the list, and one for every process created meanwhile, it has had the
      processor, running, as it was, and with no wake tick if it slept. */
  lemma Served(trace: seq<Moment>, ops: seq<Op>, answers: seq<Answer>, i: nat, j: nat, s: nat)
    requires KernRun(trace, ops, answers) && i <= j <= |ops| && Waiting(trace[i].k, s) && Spared(ops, i, j, trace[i].k.procs[s].pid)
    requires CallsIn(trace, ops, i, j) >= |trace[i].k.order| - 1 + CreatesIn(ops, i, j)
    ensures exists m :: i < m <= j && Resumed(trace[m].k, s, trace[i].k.procs[s])
  {
    hide KernStep, Moves, Inv, MemOk, PidsOk, RootsOk, RunOk, ListOk, Parked, Resumed;
    var was := trace[i].k.procs[s];
    if forall m :: i < m <= j ==> !Resumed(trace[m].k, s, was) {
      forall m | i <= m <= j ensures Waiting(trace[m].k, s) {
        assert Good(trace[m]);
        ParkedSelf(trace[i].k, s);
        StaysParked(trace, ops, answers, i, m, s, was);
        NotBefore(trace, ops, answers, i, m);
        ParkedWaits(trace[m].k, s, was);
      }
      BoundedWaiting(trace, ops, answers, i, j, s);
      assert false;
    }
  }

  lemma ParkedSelf(k: Kern, s: nat)
    requires s < |k.procs| && s != k.current
    ensures Parked(k, s, k.procs[s])
  {
  }

  // ----------------------------------------------------------------------------------
  // Sleeping

  /** The process with this number is not running: it has been ended, or sleeps until tick
      `until`. */
  ghost predicate Sleeping(k: Kern, pid: nat, until: nat) {
    pid < k.nextPid &&
    forall s {:trigger AsleepAt(k, s, pid, until)} :: 0 <= s < |k.procs| ==> AsleepAt(k, s, pid, until)
  }

  ghost predicate AsleepAt(k: Kern, s: nat, pid: nat, until: nat) {
    s < |k.procs| && k.procs[s].inUse && k.procs[s].pid == pid ==>
      s != k.current && (k.procs[s].state == Terminated || (k.procs[s].state == Blocked && k.procs[s].wake == until))
  }

  // The scheduler does not choose a sleeper before its time.
  lemma SchedulerSpares(k: Kern, k': Kern, pid: nat, until: nat)
    requires k.current in k.order && k.current < |k.procs| && Scheduled(k, k') && Sleeping(k, pid, until) && k.tick < until
    ensures Sleeping(k', pid, until) && k'.tick == k.tick
  {
    if k' != k {
      var s: nat, d: nat :| Picked(k, s, d) && k' == Switched(k.(procs := k.procs[s := Woken(k.procs[s])]), s);
      assert AsleepAt(k, s, pid, until) && AsleepAt(k, k.current, pid, until);
      forall t | 0 <= t < |k'.procs| ensures AsleepAt(k', t, pid, until) { assert AsleepAt(k, t, pid, until); }
    }
  }

  lemma StopSpares(k: Kern, p: Proc, k': Kern, pid: nat, until: nat)
    requires Kernel.StopsAs(k, p, k') && p.pid == k.procs[k.current].pid && p.inUse == k.procs[k.current].inUse
    requires Sleeping(k, pid, until) && k.tick < until
    ensures Sleeping(k', pid, until) && k'.tick == k.tick
  {
    hide Scheduled;
    var k1 := Kernel.Marked(k, k.current, p);
    assert AsleepAt(k, k.current, pid, until);
    forall t | 0 <= t < |k1.procs| ensures AsleepAt(k1, t, pid, until) { assert AsleepAt(k, t, pid, until); }
    SchedulerSpares(k1, k', pid, until);
  }

  lemma ReapSpares(k: Kern, k': Kern, pid: nat, until: nat)
    requires ReapedTable(k, k') && Sleeping(k, pid, until)
    ensures Sleeping(k', pid, until) && k'.tick == k.tick
  {
    Kernel.SameCurrent(k, k');
    hide NotFarther;
    forall t | 0 <= t < |k'.procs| ensures AsleepAt(k', t, pid, until) {
      assert AsleepAt(k, t, pid, until);
      assert SameSlot(k.procs[t], k'.procs[t]) || k'.procs[t] == EMPTY;
    }
  }

  lemma CreateSpares(k: Kern, k': Kern, m: Mem, m': Mem, s: nat, p: Proc, pid: nat, until: nat)
    requires Kernel.Created(k, k', m, m', s, p) && Sleeping(k, pid, until)
    ensures Sleeping(k', pid, until) && k'.tick == k.tick
  {
    hide ReapedTable, ReapedMem, NoneLeft;
    var k1: Kern :| ReapedTable(k, k1) && ReapedMem(k, m, m') && NoneLeft(k1) && |k1.order| > 0 && k1.order[|k1.order| - 1] < |k1.procs| &&
      s < |k1.procs| && !k1.procs[s].inUse && (forall t :: 0 <= t < s ==> k1.procs[t].inUse) && k' == Appended(k1, s, p);
    ReapSpares(k, k1, pid, until);
    forall t | 0 <= t < |k'.procs| ensures AsleepAt(k', t, pid, until) { assert AsleepAt(k1, t, pid, until); }
    assert AsleepAt(k1, k1.current, pid, until);
    CurrentUsed(k, k1);
  }

  lemma CurrentUsed(k: Kern, k': Kern)
    requires ReapedTable(k, k')
    ensures k'.current == k.current && k'.nextPid == k.nextPid
  {
    hide SameSlot;
    Kernel.SameCurrent(k, k');
  }

  // Ending a process wakes nobody.
  lemma KillSpares(a: Moment, b: Moment, victim: nat, pid: nat, until: nat)
    requires Kernel.TerminateEffect(a.k, b.k, a.m, b.m, victim) && Sleeping(a.k, pid, until) && a.k.tick < until
    ensures Sleeping(b.k, pid, until) && b.k.tick == a.k.tick
  {
    hide ReapedTable, ReapedMem, NoneLeft, Closer, NotFarther, Scheduled;
    var s := Ender(a.k, b.k, a.m, b.m, victim);
    var k1 := Kernel.Marked(a.k, s, a.k.procs[s].(state := Terminated));
    assert AsleepAt(a.k, s, pid, until);
    forall t | 0 <= t < |k1.procs| ensures AsleepAt(k1, t, pid, until) { assert AsleepAt(a.k, t, pid, until); }
    if s == a.k.current { SchedulerSpares(k1, b.k, pid, until); } else { ReapSpares(k1, b.k, pid, until); }
  }

  lemma StepSpares(a: Moment, op: Op, r: Answer, b: Moment, pid: nat, until: nat)
    requires KernStep(a, op, r, b) && Sleeping(a.k, pid, until) && a.k.tick < until
    ensures Sleeping(b.k, pid, until) && a.k.tick <= b.k.tick
  {
    hide Sleeping, Scheduled, Kernel.StopsAs, ReapedTable, ReapedMem, NoneLeft, FramesBack, Restored, BrkMoved, Kernel.TerminateEffect, Kernel.Created,
         Kernel.SpawnEffect, Kernel.Starts, Kernel.SpawnOutcome, Kernel.HasSlot, HeapCost, Kernel.Live;
    match op
    case Yield => SchedulerSpares(a.k, b.k, pid, until);
    case Spawn(open, file) => if r.status == Ok { SpawnSpares(a, b, file, r.value, pid, until); }
    case NewThread =>
      if r.status == Ok {
        var s: nat :| Kernel.Created(a.k, b.k, a.m, b.m, s, EMPTY);
        CreateSpares(a.k, b.k, a.m, b.m, s, EMPTY, pid, until);
      }
    case Exit(code) => if a.k.current != 0 { StopSpares(a.k, Kernel.Ended(a.k.procs[a.k.current], code), b.k, pid, until); }
    case Kill(victim) => if r.status == Ok { KillSpares(a, b, victim, pid, until); }
    case Sleep(ticks) => if a.k.current != 0 { StopSpares(a.k, Kernel.Asleep(a.k.procs[a.k.current], a.k.tick, ticks), b.k, pid, until); }
    case ReapNow => ReapSpares(a.k, b.k, pid, until);
    case MoveBreak(inc) => SameSleep(a.k, b.k, pid, until);
    case Tick => SameSleep(a.k, b.k, pid, until);
  }

  lemma SpawnSpares(a: Moment, b: Moment, file: seq<Byte>, made: nat, pid: nat, until: nat)
    requires Kernel.SpawnEffect(a.k, b.k, a.m, b.m, file, made) && Sleeping(a.k, pid, until)
    ensures Sleeping(b.k, pid, until) && b.k.tick == a.k.tick
  {
    hide Sleeping, Kernel.Created;
    var m3, s, p := Spawned(a.k, b.k, a.m, b.m, file, made);
    CreateSpares(a.k, b.k, m3, b.m, s, p, pid, until);
  }

  /** What a spawn built, before the process was created. */
  lemma Spawned(k: Kern, k': Kern, m: Mem, m': Mem, file: seq<Byte>, pid: nat) returns (m3: Mem, s: nat, p: Proc)
    requires Kernel.SpawnEffect(k, k', m, m', file, pid)
    ensures p.root !in m.spaces && Only(m, m3, p.root, {}, {}) && Kernel.Created(k, k', m3, m', s, p) && pid == k.nextPid
  {
    hide Only, View, Loaded, ImageEnd, PagesAdded, Kernel.Created, HeaderCheck, Phdrs, EntryPoint;
    var r: nat, m1: Mem, m2: Mem, m4: Mem, t: nat, imageEnd: nat :|
      r !in m.spaces && Only(m, m4, r, {}, {}) && View(m1, r) == map[] &&
      Loaded(m1, m2, r, file, Phdrs(file), |Phdrs(file)|) && ImageEnd(Phdrs(file), imageEnd) &&
      PagesAdded(m2, m4, r, STACK_BASE / PAGE_SIZE, STACK_TOP / PAGE_SIZE) &&
      Kernel.Created(k, k', m4, m', t, Kernel.UserProc(r, EntryPoint(file), imageEnd)) && pid == k.nextPid;
    m3, s, p := m4, t, Kernel.UserProc(r, EntryPoint(file), imageEnd);
  }

  // Neither the break nor the clock has to do with who sleeps.
  lemma SameSleep(k: Kern, k': Kern, pid: nat, until: nat)
    requires Sleeping(k, pid, until) && k'.current == k.current && k'.nextPid == k.nextPid && |k'.procs| == |k.procs|
    requires forall s :: 0 <= s < |k.procs| ==> k'.procs[s].(heapBrk := 0) == k.procs[s].(heapBrk := 0)
    ensures Sleeping(k', pid, until)
  {
    forall t | 0 <= t < |k'.procs| ensures AsleepAt(k', t, pid, until) {
      assert AsleepAt(k, t, pid, until);
      assert k'.procs[t].(heapBrk := 0) == k.procs[t].(heapBrk := 0);
    }
  }

  // The process that just went to sleep.
  lemma FallsAsleep(a: Moment, ticks: nat, r: Answer, b: Moment)
    requires Good(a) && KernStep(a, Sleep(ticks), r, b) && r == Done(Ok, 0)
    ensures a.k.current < |a.k.procs| && b.k.tick == a.k.tick
    ensures Sleeping(b.k, a.k.procs[a.k.current].pid, a.k.tick + (if ticks > 0 then ticks else 1))
  {
    hide Inv, MemOk, RootsOk, RunOk;
    var k, s := a.k, a.k.current;
    var p := Kernel.Asleep(k.procs[s], k.tick, ticks);
    Kernel.CurrentFacts(k);
    var k1 := Kernel.Marked(k, s, p);
    Kernel.StoppedStays(k1, b.k, s);
    Kernel.ScheduledCurrent(k1, b.k);
    forall t | 0 <= t < |b.k.procs| ensures AsleepAt(b.k, t, p.pid, p.wake) { SamePids(k1, b.k, t); }
  }

  lemma SamePids(k: Kern, k': Kern, t: nat)
    requires k.current in k.order && k.current < |k.procs| && Scheduled(k, k')
    ensures |k'.procs| == |k.procs| && k'.nextPid == k.nextPid && k'.tick == k.tick
    ensures t < |k.procs| ==> k'.procs[t].pid == k.procs[t].pid && k'.procs[t].inUse == k.procs[t].inUse
  {
  }

  /** However the run goes on: a process that went to sleep for `n` ticks at tick `t` is not
      the current one at any later moment whose tick is below `t + max(1, n)`. */
  lemma SleepsOut(trace: seq<Moment>, ops: seq<Op>, answers: seq<Answer>, i: nat, j: nat)
    requires KernRun(trace, ops, answers) && i < j <= |ops| && ops[i].Sleep? && answers[i] == Done(Ok, 0)
    requires trace[j].k.tick < trace[i].k.tick + (if ops[i].ticks > 0 then ops[i].ticks else 1)
    ensures var k, k' := trace[i].k, trace[j].k;
            k.current < |k.procs| && k'.current < |k'.procs| && k'.procs[k'.current].pid != k.procs[k.current].pid
  {
    hide KernStep, Moves, KernOk, Inv, MemOk, Sleeping;
    assert Good(trace[i]) && Good(trace[j]) && KernStep(trace[i], ops[i], answers[i], trace[i + 1]);
    FallsAsleep(trace[i], ops[i].ticks, answers[i], trace[i + 1]);
    var k := trace[j].k;
    StillAsleep(trace, ops, answers, i + 1, j, trace[i].k.procs[trace[i].k.current].pid,
                trace[i].k.tick + (if ops[i].ticks > 0 then ops[i].ticks else 1));
    Kernel.CurrentFacts(k);
    NotCurrent(k, trace[i].k.procs[trace[i].k.current].pid, trace[i].k.tick + (if ops[i].ticks > 0 then ops[i].ticks else 1));
  }

  lemma NotCurrent(k: Kern, pid: nat, until: nat)
    requires Sleeping(k, pid, until) && k.current < |k.procs| && k.procs[k.current].inUse
    ensures k.procs[k.current].pid != pid
  {
    assert AsleepAt(k, k.current, pid, until);
  }

  lemma {:induction false} StillAsleep(trace: seq<Moment>, ops: seq<Op>, answers: seq<Answer>, i: nat, j: nat, pid: nat, until: nat)
    requires KernRun(trace, ops, answers) && i <= j <= |ops| && Sleeping(trace[i].k, pid, until) && trace[j].k.tick < until
    ensures Sleeping(trace[j].k, pid, until)
    decreases j
  {
    hide KernStep, Moves, Good, Sleeping;
    if i < j {
      Earlier(trace, ops, answers, j - 1);
      StillAsleep(trace, ops, answers, i, j - 1, pid, until);
      assert KernStep(trace[j - 1], ops[j - 1], answers[j - 1], trace[j - 1 + 1]);
      StepSpares(trace[j - 1], ops[j - 1], answers[j - 1], trace[j], pid, until);
    }
  }

  /** And it does wake up: once the tick has come, unless it is ended, it has the processor
      again within as many scheduler calls as there are other processes in the list, and one
      for every process created meanwhile, not before its time and with no wake tick left. */
  lemma SleepEnds(trace: seq<Moment>, ops: seq<Op>, answers: seq<Answer>, i: nat, m: nat, j: nat)
    requires KernRun(trace, ops, answers) && i < m <= j <= |ops| && ops[i].Sleep? && answers[i] == Done(Ok, 0)
    requires trace[m].k.tick >= trace[i].k.tick + (if ops[i].ticks > 0 then ops[i].ticks else 1)
    requires var k := trace[i].k; k.current < |k.procs| ==> Spared(ops, i + 1, j, k.procs[k.current].pid)
    requires CallsIn(trace, ops, m, j) >= |trace[m].k.order| - 1 + CreatesIn(ops, m, j)
    ensures var k := trace[i].k;
            k.current < |k.procs| &&
            exists q :: i < q <= j && BackAwake(trace[q].k, k.current, k.procs[k.current].pid, k.tick + (if ops[i].ticks > 0 then ops[i].ticks else 1))
  {
    hide KernStep, Moves, Inv, MemOk, PidsOk, RootsOk, RunOk, ListOk, Parked, Resumed, Scheduled;
    var k := trace[i].k;
    assert Good(trace[i]) && Good(trace[m]) && KernStep(trace[i], ops[i], answers[i], trace[i + 1]);
    var s, was := WasAsleep(trace[i], ops[i].ticks, answers[i], trace[i + 1]);
    StaysParked(trace, ops, answers, i + 1, m, s, was);
    var q: nat;
    if Parked(trace[m].k, s, was) {
      ParkedWaits(trace[m].k, s, was);
      ParkedAs(trace[m].k, s, was);
      Served(trace, ops, answers, m, j, s);
      q :| m < q <= j && Resumed(trace[q].k, s, trace[m].k.procs[s]);
    } else {
      q :| i + 1 < q <= m && Resumed(trace[q].k, s, was);
    }
    assert Good(trace[q]);
    Back(trace[q].k, s, if Parked(trace[m].k, s, was) then trace[m].k.procs[s] else was);
    if trace[q].k.tick < was.wake { SleepsOut(trace, ops, answers, i, q); }
    assert BackAwake(trace[q].k, s, was.pid, was.wake);
  }

  /** The process with this number has the processor in slot `s`, awake, at tick `until` or later. */
  ghost predicate BackAwake(k: Kern, s: nat, pid: nat, until: nat) {
    s < |k.procs| && k.current == s && k.procs[s].inUse && k.procs[s].pid == pid && k.procs[s].state == Running && k.procs[s].wake == 0 &&
    k.tick >= until
  }

  lemma Back(k: Kern, s: nat, was: Proc)
    requires Resumed(k, s, was) && was.inUse && was.state == Blocked
    ensures s < |k.procs| && k.current == s && k.procs[s].inUse && k.procs[s].pid == was.pid && k.procs[s].state == Running && k.procs[s].wake == 0
  {
  }

  lemma ParkedAs(k: Kern, s: nat, was: Proc)
    requires Parked(k, s, was)
    ensures s < |k.procs| && k.procs[s].(next := None) == was.(next := None)
  {
  }

  // The slot of a process that just went to sleep.
  lemma WasAsleep(a: Moment, ticks: nat, r: Answer, b: Moment) returns (s: nat, was: Proc)
    requires Good(a) && KernStep(a, Sleep(ticks), r, b) && r == Done(Ok, 0)
    ensures s == a.k.current < |a.k.procs| && Parked(b.k, s, was) && Parkable(was) && was.pid == a.k.procs[s].pid
    ensures was.state == Blocked && was.wake == a.k.tick + (if ticks > 0 then ticks else 1)
  {
    hide Inv, MemOk, RootsOk, RunOk;
    Kernel.CurrentFacts(a.k);
    s := a.k.current;
    was := Kernel.Asleep(a.k.procs[s], a.k.tick, ticks);
    Kernel.StoppedStays(Kernel.Marked(a.k, s, was), b.k, s);
  }

  // Time does not run backwards.
  lemma Earlier(trace: seq<Moment>, ops: seq<Op>, answers: seq<Answer>, i: nat)
    requires KernRun(trace, ops, answers) && i < |ops|
    ensures trace[i].k.tick <= trace[i + 1].k.tick
  {
    hide KernStep, Moves, Good;
    assert KernStep(trace[i], ops[i], answers[i], trace[i + 1]);
    TickUp(trace[i], ops[i], answers[i], trace[i + 1]);
  }

  lemma TickUp(a: Moment, op: Op, r: Answer, b: Moment)
    requires KernStep(a, op, r, b)
    ensures a.k.tick <= b.k.tick
  {
    hide Scheduled, ReapedTable, ReapedMem, NoneLeft, FramesBack, Restored, BrkMoved, Kernel.TerminateEffect, Kernel.Created,
         Kernel.SpawnEffect, Kernel.Starts, Kernel.SpawnOutcome, Kernel.HasSlot, HeapCost, Closer, NotFarther;
    match op
    case Yield => SamePids(a.k, b.k, 0);
    case Spawn(open, file) =>
      if r.status == Ok {
        var m3, s, p := Spawned(a.k, b.k, a.m, b.m, file, r.value);
        CreatedTick(a.k, b.k, m3, b.m, s, p);
      }
    case NewThread =>
      if r.status == Ok {
        var s: nat :| Kernel.Created(a.k, b.k, a.m, b.m, s, EMPTY);
        CreatedTick(a.k, b.k, a.m, b.m, s, EMPTY);
      }
    case Exit(code) => if a.k.current != 0 { SamePids(Kernel.Marked(a.k, a.k.current, Kernel.Ended(a.k.procs[a.k.current], code)), b.k, 0); }
    case Kill(victim) =>
      if r.status == Ok {
        var s := Ender(a.k, b.k, a.m, b.m, victim);
        var k1 := Kernel.Marked(a.k, s, a.k.procs[s].(state := Terminated));
        if s == a.k.current { SamePids(k1, b.k, 0); } else { ReapedTick(k1, b.k); }
      }
    case Sleep(ticks) => if a.k.current != 0 { SamePids(Kernel.Marked(a.k, a.k.current, Kernel.Asleep(a.k.procs[a.k.current], a.k.tick, ticks)), b.k, 0); }
    case ReapNow => ReapedTick(a.k, b.k);
    case MoveBreak(inc) =>
    case Tick =>
  }

  lemma ReapedTick(k: Kern, k': Kern)
    requires ReapedTable(k, k')
    ensures k'.tick == k.tick
  {
    hide NotFarther, SameSlot;
  }

  lemma CreatedTick(k: Kern, k': Kern, m: Mem, m': Mem, s: nat, p: Proc)
    requires Kernel.Created(k, k', m, m', s, p)
    ensures k'.tick == k.tick
  {
    hide NotFarther, SameSlot, ReapedMem, NoneLeft;
  }

  // ----------------------------------------------------------------------------------
  // What validity means

  /** Every managed frame is on the free list exactly once, or is one node of the address
      space of exactly one process; the free count is the length of the list. */
  lemma FrameLedger(a: Moment, f: nat)
    requires Good(a) && f in a.m.own
    ensures a.m.count == |a.m.free|
    ensures match a.m.own[f]
            case FreeAt(i) => i < |a.m.free| && a.m.free[i] == f && forall j :: 0 <= j < |a.m.free| && a.m.free[j] == f ==> j == i
            case Held => false
            case NodeOf(r, q) =>
              f !in a.m.free && r in a.m.spaces && q in a.m.spaces[r] && a.m.spaces[r][q] == f &&
              (exists s :: Owner(a.k, s, r)) && forall s, t :: Owner(a.k, s, r) && Owner(a.k, t, r) ==> s == t
  {
    hide KernOk, SpaceOk;
    var m, k := a.m, a.k;
    FrameFact(m, f);
    forall j | 0 <= j < |m.free| ensures m.free[j] in m.own && m.own[m.free[j]] == FreeAt(j) { FreeFact(m, j); }
    if m.own[f].NodeOf? {
      NonZeroRoot(m, m.own[f].root);
      assert Owned(k, m.own[f].root);
      Kernel.RootsOf(k);
    }
  }

  /** The loaded address space exists, whatever has been reaped; and it is that of the one
      running process. */
  lemma LoadedSpace(a: Moment)
    requires Good(a)
    ensures a.k.cr3 == 0 || a.k.cr3 in a.m.spaces
    ensures a.k.current < |a.k.procs| && a.k.cr3 == a.k.procs[a.k.current].root && a.k.procs[a.k.current].state == Running
    ensures forall s :: 0 <= s < |a.k.procs| && a.k.procs[s].inUse && a.k.procs[s].state == Running ==> s == a.k.current
  {
    hide Inv, HeapOk, ListOk, PidsOk, RootsOk;
    Kernel.CurrentFacts(a.k);
    if a.k.cr3 != 0 { Kernel.RootOwned(a.k, a.m, a.k.current, 0); }
  }

  // ----------------------------------------------------------------------------------
  // Where frames go

  lemma FreeTags(m: Mem)
    requires Inv(m)
    ensures |FreeFrames(m)| == |m.free|
  {
    hide SpaceOk, Field;
    forall j | 0 <= j < |m.free| ensures m.free[j] in m.own && m.own[m.free[j]] == FreeAt(j) { FreeFact(m, j); }
    forall f: nat ensures f in FreeFrames(m) <==> f in m.free {
      if f in FreeFrames(m) { FrameFact(m, f); }
      if f in m.free { var j :| 0 <= j < |m.free| && m.free[j] == f; }
    }
    forall i, j | 0 <= i < j < |m.free| ensures m.free[i] != m.free[j] {
      assert m.own[m.free[i]] == FreeAt(i) && m.own[m.free[j]] == FreeAt(j);
    }
    ListedSize(FreeFrames(m), m.free);
  }

  ghost function FreeFrames(m: Mem): set<nat> {
    set f | f in m.own && m.own[f].FreeAt?
  }

  /** The frames of processes that are dead and not yet reaped. */
  ghost function DeadFrames(a: Moment): set<nat> {
    set f | f in a.m.own && a.m.own[f].NodeOf? && DeadRoot(a.k, a.m.own[f].root)
  }

  /** Reaping returns exactly the frames of the dead: each becomes free, no other frame is
      touched, and the free count grows by their number. */
  lemma ReapReturns(a: Moment, b: Moment)
    requires Good(a) && Good(b) && ReapStep(a, b)
    ensures forall f :: f in a.m.own ==> f in b.m.own && if f in DeadFrames(a) then b.m.own[f].FreeAt? else Same(a.m, b.m, f)
    ensures |b.m.free| == |a.m.free| + |DeadFrames(a)|
  {
    hide Inv, KernOk, MemOk, ReapedTable, NoneLeft, DeadRoot, SpaceOk;
    forall f | f in a.m.own ensures f in b.m.own && if f in DeadFrames(a) then b.m.own[f].FreeAt? else Same(a.m, b.m, f) {
      if f in DeadFrames(a) { DeadReturned(a, b, f); }
      assert f in b.m.own;
      assert Same(a.m, b.m, f) || (a.m.own[f].NodeOf? && DeadRoot(a.k, a.m.own[f].root) && b.m.own[f].FreeAt?);
    }
    FreeTags(a.m);
    FreeTags(b.m);
    assert FreeFrames(b.m) == FreeFrames(a.m) + DeadFrames(a);
  }

  // A node of a dead process's space cannot still be one: nobody would own that space.
  lemma DeadReturned(a: Moment, b: Moment, f: nat)
    requires Good(a) && Good(b) && ReapStep(a, b) && f in a.m.own && a.m.own[f].NodeOf? && DeadRoot(a.k, a.m.own[f].root)
    ensures f in b.m.own && b.m.own[f].FreeAt?
  {
    hide Inv, KernOk, SpaceOk, HeapOk, NotFarther;
    var r := a.m.own[f].root;
    assert f in b.m.own;
    if Same(a.m, b.m, f) {
      FrameFact(b.m, f);
      NonZeroRoot(b.m, r);
      assert Owned(b.k, r);
      var t: nat :| Owner(b.k, t, r);
      assert SameSlot(a.k.procs[t], b.k.procs[t]);
      assert !Dead(b.k, t);
      Kernel.SameCurrent(a.k, b.k);
      DeadOwner(a.k, t);
      assert false;
    }
  }

  // ----------------------------------------------------------------------------------
  // Isolation

  /** Space `x` translates as before, and its pages hold the bytes they held. */
  ghost predicate Untouched(m: Mem, m': Mem, x: nat) {
    x in m.spaces && x in m'.spaces && View(m', x) == View(m, x) &&
    forall n {:trigger View(m, x)[n]} :: n in View(m, x) ==> Same(m, m', View(m, x)[n].frame)
  }

  ghost predicate NodesSame(m: Mem, m': Mem, x: nat) {
    x in m.spaces && x in m'.spaces && m'.spaces[x] == m.spaces[x] &&
    forall p {:trigger m.spaces[x][p]} :: p in m.spaces[x] ==> Same(m, m', m.spaces[x][p])
  }

  lemma NodesUntouched(m: Mem, m': Mem, x: nat)
    requires Inv(m) && Inv(m') && NodesSame(m, m', x)
    ensures Untouched(m, m', x)
  {
    hide Inv, View, TableRel, PathOf;
    SameView(m, m', x);
    forall n | n in View(m, x) ensures Same(m, m', View(m, x)[n].frame) {
      NoSharing(m, x, n, x, n);
      FrameFact(m, View(m, x)[n].frame);
      assert PathOf(n) in m.spaces[x];
    }
  }

  // An operation on another space.
  lemma OnlyNodes(m: Mem, m': Mem, r: nat, x: nat)
    requires Inv(m) && Only(m, m', r, {}, {}) && x in m.spaces && x != r
    ensures NodesSame(m, m', x)
  {
    hide Inv, TableRel;
    forall p | p in m.spaces[x] ensures Same(m, m', m.spaces[x][p]) {
      NodeFact(m, x, p);
      assert Foreign(m, r, m.spaces[x][p]);
    }
  }

  // Reaping, where the space is not a dead process's.
  lemma ReapedNodes(k: Kern, m: Mem, m1: Mem, m': Mem, x: nat)
    requires Inv(m) && NodesSame(m, m1, x) && ReapedMem(k, m1, m') && !DeadRoot(k, x)
    ensures NodesSame(m, m', x)
  {
    hide Inv, TableRel, DeadRoot;
    forall p | p in m.spaces[x] ensures Same(m, m', m.spaces[x][p]) {
      NodeFact(m, x, p);
      var f := m.spaces[x][p];
      assert Same(m, m1, f);
      assert f in m1.own && m1.own[f] == NodeOf(x, p);
      assert Same(m1, m', f);
    }
  }

  lemma SelfNodes(m: Mem, x: nat)
    requires Inv(m) && x in m.spaces
    ensures NodesSame(m, m, x)
  {
    hide Inv, TableRel;
    forall p | p in m.spaces[x] ensures Same(m, m, m.spaces[x][p]) { NodeFact(m, x, p); }
  }

  lemma BackNodes(m: Mem, m': Mem, x: nat)
    requires Inv(m) && FramesBack(m, m') && x in m.spaces
    ensures NodesSame(m, m', x)
  {
    hide Inv, TableRel;
    forall p | p in m.spaces[x] ensures Same(m, m', m.spaces[x][p]) {
      NodeFact(m, x, p);
      assert m.own[m.spaces[x][p]].NodeOf?;
    }
  }

  // A process that is still there after all dead ones were reaped was not dead.
  lemma Survivor(k: Kern, k': Kern, s: nat)
    requires KernOk(k) && ReapedTable(k, k') && NoneLeft(k') && s < |k.procs| && k.procs[s].inUse && k.procs[s].root != 0
    requires s < |k'.procs| && k'.procs[s].inUse
    ensures !DeadRoot(k, k.procs[s].root)
  {
    hide KernOk, NotFarther;
    Kernel.SameCurrent(k, k');
    assert SameSlot(k.procs[s], k'.procs[s]);
    assert !Dead(k', s);
    if DeadRoot(k, k.procs[s].root) {
      DeadOwner(k, s);
      assert false;
    }
  }

  // The one process that owns a dead root is the dead one.
  lemma DeadOwner(k: Kern, s: nat)
    requires KernOk(k) && s < |k.procs| && k.procs[s].inUse && k.procs[s].root != 0 && DeadRoot(k, k.procs[s].root)
    ensures Dead(k, s)
  {
    hide KernOk;
    Kernel.RootsOf(k);
    var t: nat :| Owner(k, t, k.procs[s].root) && Dead(k, t);
  }

  lemma CreatedNodes(k: Kern, k': Kern, m: Mem, m3: Mem, m': Mem, t: nat, p: Proc, s: nat)
    requires KernOk(k) && Inv(m) && Kernel.Created(k, k', m3, m', t, p) && s < |k.procs| && k.procs[s].inUse && k.procs[s].root != 0
    requires s < |k'.procs| && k'.procs[s].inUse && k'.procs[s].pid == k.procs[s].pid && k.procs[s].pid < k.nextPid
    requires NodesSame(m, m3, k.procs[s].root)
    ensures NodesSame(m, m', k.procs[s].root)
  {
    hide KernOk, Inv, ReapedMem, NoneLeft, NodesSame, DeadRoot;
    var k1: Kern :| ReapedTable(k, k1) && ReapedMem(k, m3, m') && NoneLeft(k1) && |k1.order| > 0 && k1.order[|k1.order| - 1] < |k1.procs| &&
      t < |k1.procs| && !k1.procs[t].inUse && (forall u :: 0 <= u < t ==> k1.procs[u].inUse) && k' == Appended(k1, t, p);
    CurrentUsed(k, k1);
    assert s != t;
    hide ReapedTable;
    Survivor(k, k1, s);
    ReapedNodes(k, m, m3, m', k.procs[s].root);
  }

  lemma SpaceOf(a: Moment, s: nat)
    requires Good(a) && s < |a.k.procs| && a.k.procs[s].inUse && a.k.procs[s].root != 0
    ensures a.k.procs[s].root in a.m.spaces && a.k.procs[s].pid < a.k.nextPid
    ensures forall t :: 0 <= t < |a.k.procs| && t != s && a.k.procs[t].inUse ==> a.k.procs[t].root != a.k.procs[s].root
  {
    hide Inv, ListOk, RunOk, HeapOk;
    Kernel.RootOwned(a.k, a.m, s, 0);
    if s == 0 { Kernel.IdleFacts(a.k); }
  }

  /** Whatever one operation does, it touches no memory of a process that lives on, except
      that of the current process when it moves its own break: same pages, same rights, same
      bytes. */
  lemma OthersKept(a: Moment, op: Op, r: Answer, b: Moment, s: nat)
    requires Good(a) && Good(b) && KernStep(a, op, r, b) && s < |a.k.procs| && a.k.procs[s].inUse && a.k.procs[s].root != 0
    requires s < |b.k.procs| && b.k.procs[s].inUse && b.k.procs[s].pid == a.k.procs[s].pid && !(op.MoveBreak? && s == a.k.current)
    ensures Untouched(a.m, b.m, a.k.procs[s].root)
  {
    hide Inv, KernOk, MemOk, Scheduled, ReapedTable, ReapedMem, NoneLeft, FramesBack, Restored, BrkMoved, Kernel.TerminateEffect, Kernel.Created,
         Kernel.SpawnEffect, Kernel.Starts, Kernel.SpawnOutcome, Kernel.HasSlot, HeapCost, Kernel.Live, Kernel.StopsAs, Closer, NotFarther, Only, NodesSame, Untouched, DeadRoot;
    var x := a.k.procs[s].root;
    SpaceOf(a, s);
    SelfNodes(a.m, x);
    match op {
      case Yield =>
      case Spawn(open, file) =>
        if r.status == Ok {
          var m3, t, p := Spawned(a.k, b.k, a.m, b.m, file, r.value);
          OnlyNodes(a.m, m3, p.root, x);
          CreatedNodes(a.k, b.k, a.m, m3, b.m, t, p, s);
        } else {
          BackNodes(a.m, b.m, x);
        }
      case NewThread =>
        if r.status == Ok {
          var t: nat :| Kernel.Created(a.k, b.k, a.m, b.m, t, EMPTY);
          CreatedNodes(a.k, b.k, a.m, a.m, b.m, t, EMPTY, s);
        }
      case Exit(code) =>
      case Kill(victim) => KilledNodes(a, b, victim, r, s);
      case Sleep(ticks) =>
      case ReapNow =>
        Survivor(a.k, b.k, s);
        ReapedNodes(a.k, a.m, a.m, b.m, x);
      case MoveBreak(inc) =>
        var p := a.k.procs[a.k.current];
        if BrkCheck(p.root, p.heapStart, p.heapBrk, inc) == Ok {
          Kernel.CurrentFacts(a.k);
          Kernel.MovedOnly(a.m, b.m, p.root, p.heapBrk, r.value, r.status);
          OnlyNodes(a.m, b.m, p.root, x);
        }
      case Tick =>
    }
    NodesUntouched(a.m, b.m, x);
  }

  lemma KilledNodes(a: Moment, b: Moment, victim: nat, r: Answer, s: nat)
    requires Good(a) && KillStep(a, victim, r, b) && s < |a.k.procs| && a.k.procs[s].inUse && a.k.procs[s].root != 0
    requires s < |b.k.procs| && b.k.procs[s].inUse && b.k.procs[s].pid == a.k.procs[s].pid && NodesSame(a.m, a.m, a.k.procs[s].root)
    ensures NodesSame(a.m, b.m, a.k.procs[s].root)
  {
    hide Inv, KernOk, MemOk, Scheduled, ReapedTable, ReapedMem, NoneLeft, NodesSame, DeadRoot, Closer, NotFarther, Kernel.TerminateEffect;
    if r.status == Ok {
      var t := Ender(a.k, b.k, a.m, b.m, victim);
      if t != a.k.current {
        Kernel.UniquePid(a.k, t, victim);
        Kernel.MarkedOk(a.k, t, a.k.procs[t].(state := Terminated), a.m);
        Survivor(Kernel.Marked(a.k, t, a.k.procs[t].(state := Terminated)), b.k, s);
        ReapedNodes(Kernel.Marked(a.k, t, a.k.procs[t].(state := Terminated)), a.m, a.m, b.m, a.k.procs[s].root);
      }
    }
  }

  /** No step gains or loses a managed frame. */
  lemma StepKeys(a: Moment, op: Op, r: Answer, b: Moment)
    requires KernStep(a, op, r, b)
    ensures b.m.own.Keys == a.m.own.Keys && b.m.cfg == a.m.cfg
  {
    hide Scheduled, ReapedTable, NoneLeft, FramesBack, Restored, BrkMoved, Kernel.TerminateEffect, Kernel.Created,
         Kernel.SpawnEffect, Kernel.Starts, Kernel.SpawnOutcome, Kernel.HasSlot, HeapCost, Kernel.Live, Kernel.StopsAs, Closer, NotFarther, Only;
    match op
    case Yield =>
    case Spawn(open, file) =>
      if r.status == Ok {
        var m3, s, p := Spawned(a.k, b.k, a.m, b.m, file, r.value);
        OnlyKeys(a.m, m3, p.root);
        CreatedKeys(a.k, b.k, m3, b.m, s, p);
      } else {
        BackKeys(a.m, b.m);
      }
    case NewThread =>
      if r.status == Ok {
        var s: nat :| Kernel.Created(a.k, b.k, a.m, b.m, s, EMPTY);
        CreatedKeys(a.k, b.k, a.m, b.m, s, EMPTY);
      }
    case Exit(code) =>
    case Kill(victim) => if r.status == Ok { var s := Ender(a.k, b.k, a.m, b.m, victim); }
    case Sleep(ticks) =>
    case ReapNow =>
    case MoveBreak(inc) =>
      var p := a.k.procs[a.k.current];
      if BrkCheck(p.root, p.heapStart, p.heapBrk, inc) == Ok {
        Kernel.MovedOnly(a.m, b.m, p.root, p.heapBrk, r.value, r.status);
        OnlyKeys(a.m, b.m, p.root);
      }
    case Tick =>
  }

  lemma OnlyKeys(m: Mem, m': Mem, r: nat)
    requires Only(m, m', r, {}, {})
    ensures m'.own.Keys == m.own.Keys && m'.cfg == m.cfg
  {
  }

  lemma BackKeys(m: Mem, m': Mem)
    requires FramesBack(m, m')
    ensures m'.own.Keys == m.own.Keys && m'.cfg == m.cfg
  {
  }

  lemma CreatedKeys(k: Kern, k': Kern, m: Mem, m': Mem, s: nat, p: Proc)
    requires Kernel.Created(k, k', m, m', s, p)
    ensures m'.own.Keys == m.own.Keys && m'.cfg == m.cfg
  {
    hide ReapedTable, NoneLeft;
  }

  /** Over a whole run the managed frames stay the same ones, and at every moment they are
      free or in use: whatever is spawned, grown, killed and reaped, none is lost. */
  lemma {:induction false} FramesConserved(trace: seq<Moment>, ops: seq<Op>, answers: seq<Answer>, j: nat)
    requires KernRun(trace, ops, answers) && j <= |ops|
    ensures trace[j].m.own.Keys == trace[0].m.own.Keys
    ensures |trace[j].m.free| + |UsedFrames(trace[j].m)| == |trace[0].m.own.Keys|
    decreases j
  {
    hide KernStep, Moves, Good;
    if j > 0 {
      FramesConserved(trace, ops, answers, j - 1);
      assert KernStep(trace[j - 1], ops[j - 1], answers[j - 1], trace[j - 1 + 1]);
      StepKeys(trace[j - 1], ops[j - 1], answers[j - 1], trace[j]);
    }
    FreeOrUsed(trace[j]);
  }

  /** The nodes of address spaces. */
  ghost function UsedFrames(m: Mem): set<nat> {
    set f | f in m.own && m.own[f].NodeOf?
  }

  lemma FreeOrUsed(a: Moment)
    requires Good(a)
    ensures |a.m.free| + |UsedFrames(a.m)| == |a.m.own.Keys|
  {
    hide Inv, KernOk;
    FreeTags(a.m);
    assert a.m.own.Keys == FreeFrames(a.m) + UsedFrames(a.m);
  }
}
