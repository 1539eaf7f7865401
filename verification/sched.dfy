/** The process table, the circular list through it, and round-robin selection. */
module Scheduling {
  import opened Results

  const PROCESS_MAX: nat := 16

  datatype PState = Ready | Running | Blocked | Terminated

  /** A slot of the process table. `root` is the frame of the address space, 0 for a kernel
      thread; `wake` is the tick a sleeper waits for, 0 if it waits for none. */
  datatype Proc = Proc(
    inUse: bool, pid: nat, state: PState, root: nat, entry: nat, stackTop: nat, heapStart: nat, heapBrk: nat,
    wake: nat, exitCode: int, next: Option<nat>)

  const EMPTY: Proc := Proc(false, 0, Ready, 0, 0, 0, 0, 0, 0, 0, None)

  /** Table, list head, current process, loaded address space and time; `order` is the list
      as a sequence of slots. */
  datatype Kern = Kern(
    procs: seq<Proc>, head: Option<nat>, current: nat, nextPid: nat, cr3: nat, tick: nat, order: seq<nat>)

  function NextIn(order: seq<nat>, i: nat): Option<nat> {
    if i + 1 < |order| then Some(order[i + 1]) else None
  }

  ghost predicate SlotOk(k: Kern, i: nat)
    requires i < |k.order|
  {
    var s := k.order[i];
    s < |k.procs| && k.procs[s].inUse && k.procs[s].next == NextIn(k.order, i)
  }

  /** The list goes through exactly the slots in use, each once, the idle slot first. */
  ghost predicate ListOk(k: Kern) {
    |k.procs| == PROCESS_MAX && |k.order| > 0 && k.order[0] == 0 && k.head == Some(0) &&
    (forall i {:trigger SlotOk(k, i)} :: 0 <= i < |k.order| ==> SlotOk(k, i)) &&
    (forall i, j :: 0 <= i < j < |k.order| ==> k.order[i] != k.order[j]) &&
    (forall s :: 0 <= s < |k.procs| && k.procs[s].inUse ==> s in k.order)
  }

  /** One running process, which is the current one; the idle process runnable or running;
      the loaded address space that of the current process. */
  ghost predicate RunOk(k: Kern) {
    k.current in k.order && k.current < |k.procs| && |k.procs| > 0 &&
    k.procs[k.current].state == Running && k.cr3 == k.procs[k.current].root &&
    (forall s :: 0 <= s < |k.procs| && k.procs[s].inUse && k.procs[s].state == Running ==> s == k.current) &&
    k.procs[0].pid == 0 && k.procs[0].root == 0 && (k.procs[0].state == Ready || k.procs[0].state == Running)
  }

  /** As RunOk, but the current process may just have stopped running (not the idle one). */
  ghost predicate StopOk(k: Kern) {
    k.current in k.order && k.current < |k.procs| && |k.procs| > 0 && k.cr3 == k.procs[k.current].root &&
    (forall s :: 0 <= s < |k.procs| && k.procs[s].inUse && k.procs[s].state == Running ==> s == k.current) &&
    k.procs[0].pid == 0 && k.procs[0].root == 0 &&
    k.procs[0].state == (if k.current == 0 then Running else Ready)
  }

  ghost predicate PidsOk(k: Kern) {
    (forall s :: 0 < s < |k.procs| && k.procs[s].inUse ==> 0 < k.procs[s].pid < k.nextPid) &&
    (forall s, t :: 0 <= s < t < |k.procs| && k.procs[s].inUse && k.procs[t].inUse ==> k.procs[s].pid != k.procs[t].pid)
  }

  /** No two processes share an address space. */
  ghost predicate RootsOk(k: Kern) {
    forall s, t :: 0 <= s < t < |k.procs| && k.procs[s].inUse && k.procs[t].inUse && k.procs[s].root != 0 ==> k.procs[s].root != k.procs[t].root
  }

  ghost predicate KernOk(k: Kern) {
    ListOk(k) && RunOk(k) && PidsOk(k) && RootsOk(k)
  }

  // ----------------------------------------------------------------------------------
  // Positions on the circle

  /** The position `d` steps after position `c` on a circle of `n`. */
  function Step(c: nat, d: nat, n: nat): nat
    requires c < n && d <= n
  {
    if c + d < n then c + d else c + d - n
  }

  /** How many steps it takes from position `c` to position `p`. */
  function Distance(c: nat, p: nat, n: nat): nat
    requires c < n && p < n
  {
    if p >= c then p - c else p + n - c
  }

  function Index(order: seq<nat>, s: nat): (i: nat)
    requires s in order
    ensures i < |order| && order[i] == s
  {
    if order[0] == s then 0 else 1 + Index(order[1..], s)
  }

  lemma IndexIs(order: seq<nat>, i: nat)
    requires i < |order| && forall a, b :: 0 <= a < b < |order| ==> order[a] != order[b]
    ensures order[i] in order && Index(order, order[i]) == i
  {
  }

  /** How far process `p` is from being considered. */
  ghost function Rank(k: Kern, p: nat): nat
    requires k.current in k.order && p in k.order
  {
    Distance(Index(k.order, k.current), Index(k.order, p), |k.order|)
  }

  // ----------------------------------------------------------------------------------
  // Selection

  /** A process that may run at time `tick`: ready, or asleep until then at the latest. */
  predicate Runnable(p: Proc, tick: nat) {
    p.inUse && (p.state == Ready || (p.state == Blocked && p.wake != 0 && tick >= p.wake))
  }

  /** Process `p` waits for the processor: it is ready, or it sleeps and its wake tick has
      come. */
  predicate Waiting(k: Kern, p: nat) {
    p in k.order && p < |k.procs| && p != k.current && k.procs[p].inUse &&
    (k.procs[p].state == Ready || (k.procs[p].state == Blocked && 0 < k.procs[p].wake <= k.tick))
  }

  function Woken(p: Proc): Proc {
    if p.state == Blocked then p.(state := Ready, wake := 0) else p
  }

  /** Slot `s` is the first runnable one after the current process, going round. */
  ghost predicate Picked(k: Kern, s: nat, d: nat)
    requires k.current in k.order
  {
    var c, n := Index(k.order, k.current), |k.order|;
    0 < d < n && k.order[Step(c, d, n)] == s && s < |k.procs| && Runnable(k.procs[s], k.tick) &&
    forall e :: 0 < e < d ==> k.order[Step(c, e, n)] < |k.procs| && !Runnable(k.procs[k.order[Step(c, e, n)]], k.tick)
  }

  /** Switching from the current process to the ready process `s`. */
  function Switched(k: Kern, s: nat): Kern
    requires s < |k.procs| && k.current < |k.procs|
  {
    var was := k.procs[k.current];
    var procs := k.procs[k.current := if was.state == Running then was.(state := Ready) else was];
    k.(procs := procs[s := procs[s].(state := Running)], current := s, cr3 := k.procs[s].root)
  }

  /** What a call of the scheduler does: the first runnable process gets the processor; a
      sleeper whose time has come is woken on the way; if nobody is runnable, nothing. */
  ghost predicate Scheduled(k: Kern, k': Kern)
    requires k.current in k.order && k.current < |k.procs|
  {
    (exists s: nat, d: nat :: Picked(k, s, d) && k' == Switched(k.(procs := k.procs[s := Woken(k.procs[s])]), s)) ||
    (k' == k && forall s :: s in k.order && s < |k.procs| && s != k.current ==> !Runnable(k.procs[s], k.tick))
  }

  // ----------------------------------------------------------------------------------
  // What selection guarantees

  lemma StepFacts(c: nat, d: nat, n: nat)
    requires c < n && 0 < d <= n
    ensures Step(c, d, n) < n && (Step(c, d, n) == c <==> d == n) && (d < n ==> Distance(c, Step(c, d, n), n) == d)
  {
  }

  lemma DistanceFacts(c: nat, p: nat, d: nat, n: nat)
    requires c < n && p < n && 0 < d <= Distance(c, p, n)
    ensures Step(c, Distance(c, p, n), n) == p && Distance(Step(c, d, n), p, n) == Distance(c, p, n) - d
  {
  }

  /** Somebody is always runnable when the current process stops, so the scheduler always
      finds a successor. */
  lemma SuccessorExists(k: Kern, k': Kern)
    requires ListOk(k) && StopOk(k) && k.current != 0 && Scheduled(k, k')
    ensures exists s: nat, d: nat :: Picked(k, s, d) && k' == Switched(k.(procs := k.procs[s := Woken(k.procs[s])]), s)
  {
    hide Picked;
    assert SlotOk(k, 0);
    assert Runnable(k.procs[0], k.tick);
    assert k.order[0] in k.order;
  }

  /** After the scheduler: exactly one running process, the current one, whose address
      space is loaded. */
  lemma SwitchedOk(k: Kern, s: nat, d: nat)
    requires ListOk(k) && StopOk(k) && PidsOk(k) && RootsOk(k) && Picked(k, s, d)
    ensures KernOk(Switched(k.(procs := k.procs[s := Woken(k.procs[s])]), s)) && s != k.current && s in k.order
  {
    hide PidsOk, RootsOk;
    var k' := Switched(k.(procs := k.procs[s := Woken(k.procs[s])]), s);
    StepFacts(Index(k.order, k.current), d, |k.order|);
    forall i | 0 <= i < |k'.order| ensures SlotOk(k', i) { assert SlotOk(k, i); }
    SameIds(k, k');
  }

  // States and wake times do not matter for the numbering of processes and spaces.
  lemma SameIds(k: Kern, k': Kern)
    requires PidsOk(k) && RootsOk(k) && |k'.procs| == |k.procs| && k'.nextPid == k.nextPid
    requires forall s :: 0 <= s < |k.procs| ==>
               k'.procs[s].inUse == k.procs[s].inUse && k'.procs[s].pid == k.procs[s].pid && k'.procs[s].root == k.procs[s].root
    ensures PidsOk(k') && RootsOk(k')
  {
  }

  /** While somebody waits, the scheduler takes the processor from the current process; and
      whoever waits and is passed over gets strictly closer. */
  lemma PassedOver(k: Kern, k': Kern, p: nat)
    requires ListOk(k) && k.current in k.order && k.current < |k.procs| && Scheduled(k, k') && Waiting(k, p)
    ensures k'.order == k.order && k'.current in k'.order && k'.current != k.current
    ensures k'.current != p ==> Rank(k', p) < Rank(k, p)
  {
    hide ListOk;
    ListFacts(k);
    var c, n, i := Index(k.order, k.current), |k.order|, Index(k.order, p);
    var s: nat, d: nat :| Picked(k, s, d) && k' == Switched(k.(procs := k.procs[s := Woken(k.procs[s])]), s);
    var far := Distance(c, i, n);
    DistanceFacts(c, i, far, n);
    assert k.order[Step(c, far, n)] == p && Runnable(k.procs[p], k.tick);
    assert d <= far;
    DistanceFacts(c, i, d, n);
    IndexIs(k.order, Step(c, d, n));
    StepFacts(c, d, n);
  }

  lemma ListFacts(k: Kern)
    requires ListOk(k)
    ensures forall i, j :: 0 <= i < j < |k.order| ==> k.order[i] != k.order[j]
  {
  }

  /** A ready process waits for fewer calls than there are others in the list. */
  lemma RankBound(k: Kern, p: nat)
    requires ListOk(k) && k.current in k.order && p in k.order && p != k.current
    ensures 0 < Rank(k, p) < |k.order|
  {
  }

  // ----------------------------------------------------------------------------------
  // Taking a slot out of the list

  /** `k` without list entry `i`, its slot cleared. */
  function Removed(k: Kern, i: nat): Kern
    requires 0 < i < |k.order| && k.order[i] < |k.procs| && k.order[i - 1] < |k.procs|
  {
    var before := k.order[i - 1];
    k.(procs := k.procs[before := k.procs[before].(next := NextIn(k.order, i))][k.order[i] := EMPTY],
       order := k.order[..i] + k.order[i + 1..])
  }

  lemma RemovedOk(k: Kern, i: nat)
    requires KernOk(k) && 0 < i < |k.order| && k.order[i] != k.current
    ensures k.order[i] < |k.procs| && k.order[i - 1] < |k.procs| && k.order[i] != 0 && KernOk(Removed(k, i))
  {
    hide PidsOk, RootsOk;
    assert SlotOk(k, i) && SlotOk(k, i - 1);
    var k' := Removed(k, i);
    forall j | 0 <= j < |k'.order| ensures SlotOk(k', j) {
      assert SlotOk(k, if j < i then j else j + 1);
    }
    RemovedMembers(k, i);
    RemovedIds(k, i);
  }

  lemma RemovedMembers(k: Kern, i: nat)
    requires ListOk(k) && 0 < i < |k.order| && k.order[i] < |k.procs| && k.order[i - 1] < |k.procs|
    ensures forall s :: s in Removed(k, i).order <==> s in k.order && s != k.order[i]
    ensures forall a, b :: 0 <= a < b < |Removed(k, i).order| ==> Removed(k, i).order[a] != Removed(k, i).order[b]
  {
    hide ListOk;
    ListFacts(k);
    CutMembers(k.order, i);
  }

  lemma CutMembers(o: seq<nat>, i: nat)
    requires i < |o| && forall a, b :: 0 <= a < b < |o| ==> o[a] != o[b]
    ensures var o' := o[..i] + o[i + 1..];
            (forall s :: s in o' <==> s in o && s != o[i]) && (forall a, b :: 0 <= a < b < |o'| ==> o'[a] != o'[b])
  {
    var o' := o[..i] + o[i + 1..];
    assert o == o[..i] + [o[i]] + o[i + 1..];
    forall s | s in o' ensures s != o[i] {
      var j :| 0 <= j < |o'| && o'[j] == s;
      assert o'[j] == o[if j < i then j else j + 1];
    }
  }

  lemma RemovedIds(k: Kern, i: nat)
    requires PidsOk(k) && RootsOk(k) && 0 < i < |k.order| && k.order[i] < |k.procs| && k.order[i - 1] < |k.procs|
    ensures PidsOk(Removed(k, i)) && RootsOk(Removed(k, i))
  {
  }

  /** Removing another process never makes one wait longer. */
  lemma RemovedRank(k: Kern, i: nat, p: nat)
    requires KernOk(k) && 0 < i < |k.order| && k.order[i] != k.current && p in k.order && p != k.order[i]
    requires k.order[i] < |k.procs| && k.order[i - 1] < |k.procs|
    ensures var k' := Removed(k, i); p in k'.order && k'.current in k'.order && Rank(k', p) <= Rank(k, p)
  {
    hide ListOk, PidsOk, RootsOk, Index;
    ListFacts(k);
    RemovedIndex(k, i, p);
    RemovedIndex(k, i, k.current);
    RemovedDistance(Index(k.order, k.current), Index(k.order, p), i, |k.order|);
  }

  lemma RemovedDistance(c: nat, p: nat, i: nat, n: nat)
    requires c < n && p < n && i < n && c != i && p != i
    ensures Distance(if c < i then c else c - 1, if p < i then p else p - 1, n - 1) <= Distance(c, p, n)
  {
  }

  lemma RemovedIndex(k: Kern, i: nat, p: nat)
    requires ListOk(k) && 0 < i < |k.order| && k.order[i] < |k.procs| && k.order[i - 1] < |k.procs| && p in k.order && p != k.order[i]
    ensures var k' := Removed(k, i);
            p in k'.order && var j := Index(k.order, p); j != i && Index(k'.order, p) == (if j < i then j else j - 1)
  {
    var o, o' := k.order, Removed(k, i).order;
    RemovedMembers(k, i);
    var j := Index(o, p);
    var j' := if j < i then j else j - 1;
    assert o'[j'] == p;
    IndexIs(o', j');
  }

  // ----------------------------------------------------------------------------------
  // Adding a slot at the end

  /** `k` with process `p` in the unused slot `s`, at the end of the list. */
  function Appended(k: Kern, s: nat, p: Proc): Kern
    requires s < |k.procs| && |k.order| > 0 && k.order[|k.order| - 1] < |k.procs|
  {
    var tail := k.order[|k.order| - 1];
    k.(procs := k.procs[s := p.(inUse := true, pid := k.nextPid, next := None)][tail := k.procs[tail].(next := Some(s))],
       order := k.order + [s], nextPid := k.nextPid + 1)
  }

  lemma AppendedOk(k: Kern, s: nat, p: Proc)
    requires KernOk(k) && 0 < s < |k.procs| && !k.procs[s].inUse && p.state == Ready && k.nextPid > 0
    requires p.root != 0 ==> forall t :: 0 <= t < |k.procs| && k.procs[t].inUse ==> k.procs[t].root != p.root
    ensures k.order[|k.order| - 1] < |k.procs| && KernOk(Appended(k, s, p))
  {
    hide PidsOk, RootsOk;
    assert SlotOk(k, |k.order| - 1);
    var k' := Appended(k, s, p);
    forall i | 0 <= i < |k.order| ensures k.order[i] != s { assert SlotOk(k, i); }
    forall i | 0 <= i < |k'.order| ensures SlotOk(k', i) {
      if i < |k.order| { assert SlotOk(k, i); }
    }
    forall t | 0 <= t < |k'.procs| && k'.procs[t].inUse ensures t in k'.order { }
    AppendedIds(k, s, p);
  }

  lemma AppendedIds(k: Kern, s: nat, p: Proc)
    requires PidsOk(k) && RootsOk(k) && |k.order| > 0 && 0 < s < |k.procs| && !k.procs[s].inUse && k.nextPid > 0 && k.procs[0].pid == 0
    requires k.order[|k.order| - 1] < |k.procs| && k.order[|k.order| - 1] != s
    requires p.root != 0 ==> forall t :: 0 <= t < |k.procs| && k.procs[t].inUse ==> k.procs[t].root != p.root
    ensures PidsOk(Appended(k, s, p)) && RootsOk(Appended(k, s, p))
  {
    var k' := Appended(k, s, p);
    assert k'.procs[s] == p.(inUse := true, pid := k.nextPid, next := None);
    assert forall t :: 0 <= t < |k.procs| && t != s ==>
      k'.procs[t].inUse == k.procs[t].inUse && k'.procs[t].pid == k.procs[t].pid && k'.procs[t].root == k.procs[t].root;
  }
}
