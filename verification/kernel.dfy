/** Processes: creation, scheduling, sleeping, termination and the return of their memory. */
module Kernels {
  import opened Results
  import opened Bytes
  import opened Entries
  import opened Frames
  import opened Translation
  import opened Processor
  import opened Effects
  import opened Paging
  import opened UserPages
  import opened Umem
  import opened Elf
  import opened Scheduling
  import opened KernMem

  const STACK_INIT: nat := 48

  /** Terminated, and neither running nor the idle process. */
  predicate Dead(k: Kern, s: nat) {
    s < |k.procs| && k.procs[s].inUse && k.procs[s].state == Terminated && s != k.current && k.procs[s].pid != 0
  }

  ghost predicate DeadRoot(k: Kern, x: nat) {
    exists s :: Owner(k, s, x) && Dead(k, s)
  }

  /** Every waiting process that was not chosen moved closer to being chosen. */
  ghost predicate Closer(k: Kern, k': Kern) {
    k.current in k.order && k'.current in k'.order &&
    forall p {:trigger Waiting(k, p)} :: Waiting(k, p) && p != k'.current ==> p in k'.order && Rank(k', p) < Rank(k, p)
  }

  /** The current process is the same and no process is farther from being chosen. */
  ghost predicate NotFarther(k: Kern, k': Kern) {
    k.current in k.order && k'.current == k.current && k'.current in k'.order &&
    forall p {:trigger p in k'.order} :: p in k'.order ==> p in k.order && Rank(k', p) <= Rank(k, p)
  }

  /** The current process is the same, and one process more may come before a waiting one. */
  ghost predicate OneFarther(k: Kern, k': Kern) {
    k.current in k.order && k'.current == k.current && k'.current in k'.order &&
    forall p {:trigger Waiting(k, p)} :: Waiting(k, p) ==> p in k'.order && Rank(k', p) <= Rank(k, p) + 1
  }

  predicate SameSlot(p: Proc, q: Proc) {
    q.(next := None) == p.(next := None)
  }

  /** The table after reaping: dead slots may be empty, the rest is as it was. */
  ghost predicate ReapedTable(k: Kern, k': Kern) {
    NotFarther(k, k') && k'.nextPid == k.nextPid && k'.cr3 == k.cr3 && k'.tick == k.tick && |k'.procs| == |k.procs| &&
    forall s {:trigger k'.procs[s]} :: 0 <= s < |k.procs| ==> SameSlot(k.procs[s], k'.procs[s]) || (Dead(k, s) && k'.procs[s] == EMPTY)
  }

  /** Memory after reaping: the frames of dead processes may be free, every other frame is
      untouched. */
  ghost predicate ReapedMem(k: Kern, m: Mem, m': Mem) {
    m'.cfg == m.cfg && m'.own.Keys == m.own.Keys &&
    (forall f {:trigger Same(m, m', f)} {:trigger m'.own[f]} :: f in m.own ==>
      Same(m, m', f) || (m.own[f].NodeOf? && DeadRoot(k, m.own[f].root) && m'.own[f].FreeAt?)) &&
    (forall x {:trigger x in m'.spaces} :: x in m'.spaces ==> x in m.spaces && m'.spaces[x] == m.spaces[x]) &&
    (forall x {:trigger x in m.spaces} :: x in m.spaces && x !in m'.spaces ==> DeadRoot(k, x))
  }

  /** Nobody is left to be reaped. */
  ghost predicate NoneLeft(k: Kern) {
    forall s :: 0 <= s < |k.procs| ==> !Dead(k, s)
  }

  class Kernel {
    const mac: Machine
    var procs: seq<Proc>
    var head: Option<nat>
    var current: nat
    var nextPid: nat
    var cr3: nat
    var tick: nat
    ghost var order: seq<nat>

    ghost function K(): Kern
      reads this
    {
      Kern(procs, head, current, nextPid, cr3, tick, order)
    }

    /** `extra` is an address space under construction, 0 for none. */
    ghost predicate ValidWith(extra: nat)
      reads this, mac
    {
      mac.Valid() && KernOk(K()) && MemOk(K(), mac.M(), extra) && nextPid > 0
    }

    ghost predicate Valid()
      reads this, mac
    {
      ValidWith(0)
    }

    /** The boot thread becomes the idle process. */
    constructor (mac: Machine)
      requires mac.Valid() && mac.spaces == map[] && Settled(mac.M())
      ensures Valid() && this.mac == mac && order == [0] && current == 0
    {
      this.mac := mac;
      procs := [EMPTY.(inUse := true, state := Running)] + seq(PROCESS_MAX - 1, _ => EMPTY);
      head, current, nextPid, cr3, tick := Some(0), 0, 1, 0, 0;
      order := [0];
      new;
      assert SlotOk(K(), 0);
    }

    // ------------------------------------------------------------------------------
    // Scheduling

    /** Goes once round the list from the current process to the first that may run. */
    method PickNext() returns (s: Option<nat>, ghost d: nat)
      requires ListOk(K()) && StopOk(K())
      modifies this`procs
      ensures s.Some? ==> Picked(old(K()), s.value, d) && K() == old(K()).(procs := old(procs)[s.value := Woken(old(procs)[s.value])])
      ensures s.None? ==> K() == old(K()) && forall t :: t in order && t < |procs| && t != current ==> !Runnable(procs[t], tick)
      ensures if s.Some? then Waiting(old(K()), s.value) && procs[s.value].state == Ready else forall t :: !Waiting(K(), t)
    {
      hide StopOk, Index, Waiting;
      ghost var k := K();
      StopFacts(k);
      ghost var c, n := Index(order, current), |order|;
      d := 1;
      NextSlot(k, c);
      var proc := if procs[current].next.Some? then procs[current].next.value else head.value;
      while proc != current
        invariant 1 <= d <= n && K() == k && proc == order[Step(c, d, n)] && (d == n <==> proc == current)
        invariant forall e :: 0 < e < d ==> order[Step(c, e, n)] < |procs| && !Runnable(procs[order[Step(c, e, n)]], tick)
        decreases n - d
      {
        assert SlotOk(k, Step(c, d, n));
        var p := procs[proc];
        if p.inUse && p.state == Blocked && p.wake != 0 && tick >= p.wake {
          procs := procs[proc := p.(state := Ready, wake := 0)];
        }
        if procs[proc].inUse && procs[proc].state == Ready {
          assert K() == k.(procs := k.procs[proc := Woken(k.procs[proc])]);
          RunnableWaits(k, proc);
          return Some(proc), d;
        }
        NextSlot(k, Step(c, d, n));
        StepNext(k, c, d);
        proc := if p.next.Some? then p.next.value else head.value;
        d := d + 1;
      }
      AllSeen(k, c);
      forall t ensures !Waiting(k, t) { NotWaiting(k, t); }
      return None, d;
    }

    static lemma RunnableWaits(k: Kern, s: nat)
      requires s in k.order && s < |k.procs| && s != k.current && Runnable(k.procs[s], k.tick)
      ensures Waiting(k, s)
    {
    }

    static lemma NotWaiting(k: Kern, t: nat)
      requires forall s :: s in k.order && s < |k.procs| && s != k.current ==> !Runnable(k.procs[s], k.tick)
      ensures !Waiting(k, t)
    {
    }

    static lemma StopFacts(k: Kern)
      requires StopOk(k)
      ensures k.current in k.order && k.current < |k.procs|
    {
    }

    // The link from list position `i`, wrapping round at the end.
    static lemma NextSlot(k: Kern, i: nat)
      requires ListOk(k) && i < |k.order|
      ensures var s := k.order[i];
              s < |k.procs| && k.procs[s].inUse && k.head == Some(0) &&
              (if k.procs[s].next.Some? then k.procs[s].next.value else 0) == k.order[Step(i, 1, |k.order|)] &&
              (Step(i, 1, |k.order|) == i <==> |k.order| == 1)
      ensures forall a, b :: 0 <= a < |k.order| && 0 <= b < |k.order| && k.order[a] == k.order[b] ==> a == b
    {
      assert SlotOk(k, i);
      assert forall a, b :: 0 <= a < b < |k.order| ==> k.order[a] != k.order[b];
    }

    static lemma StepNext(k: Kern, c: nat, d: nat)
      requires c < |k.order| && 0 < d < |k.order|
      ensures Step(Step(c, d, |k.order|), 1, |k.order|) == Step(c, d + 1, |k.order|)
      ensures Step(c, d + 1, |k.order|) == c <==> d + 1 == |k.order|
    {
    }

    static lemma AllSeen(k: Kern, c: nat)
      requires ListOk(k) && c < |k.order| && k.order[c] == k.current
      requires forall e :: 0 < e < |k.order| ==> k.order[Step(c, e, |k.order|)] < |k.procs| && !Runnable(k.procs[k.order[Step(c, e, |k.order|)]], k.tick)
      ensures forall t :: t in k.order && t < |k.procs| && t != k.current ==> !Runnable(k.procs[t], k.tick)
    {
      hide ListOk;
      forall t | t in k.order && t < |k.procs| && t != k.current ensures !Runnable(k.procs[t], k.tick) {
        var i :| 0 <= i < |k.order| && k.order[i] == t;
        DistanceFacts(c, i, Distance(c, i, |k.order|), |k.order|);
      }
    }

    /** Context switch: the processor, the kernel stack and the address space. */
    method Switch(s: nat) returns (status: Status)
      requires |procs| == PROCESS_MAX && s < |procs| && current < |procs|
      modifies this`procs, this`current, this`cr3
      ensures status == if !old(procs)[s].inUse || old(procs)[s].state != Ready then InvalidArg else Ok
      ensures status == Ok && s != old(current) ==> K() == Switched(old(K()), s)
      ensures status != Ok || s == old(current) ==> K() == old(K())
    {
      if !procs[s].inUse || procs[s].state != Ready {
        return InvalidArg;
      }
      if s == current {
        return Ok;
      }
      if procs[current].state == Running {
        procs := procs[current := procs[current].(state := Ready)];
      }
      cr3 := procs[s].root;
      current := s;
      procs := procs[s := procs[s].(state := Running)];
      return Ok;
    }

    /** Gives the processor to the next process that may run. */
    method Schedule()
      requires ListOk(K()) && StopOk(K()) && PidsOk(K()) && RootsOk(K()) && (procs[current].state == Running || current != 0)
      modifies this`procs, this`current, this`cr3
      ensures Scheduled(old(K()), K())
      ensures old(procs)[old(current)].state == Running ==> KernOk(K())
      ensures old(current) != 0 ==> KernOk(K()) && current != old(current)
      ensures |procs| == |old(procs)| && (forall t :: 0 <= t < |procs| ==> SameButState(old(procs)[t], procs[t])) && nextPid == old(nextPid)
    {
      hide PidsOk, RootsOk;
      ghost var k := K();
      var s;
      ghost var d;
      s, d := PickNext();
      if s.None? {
        StillOk(k);
        return;
      }
      SwitchedOk(k, s.value, d);
      var status := Switch(s.value);
    }

    static predicate SameButState(p: Proc, q: Proc) {
      q.(state := p.state, wake := p.wake) == p
    }

    static lemma StillOk(k: Kern)
      requires ListOk(k) && StopOk(k)
      requires forall t :: t in k.order && t < |k.procs| && t != k.current ==> !Runnable(k.procs[t], k.tick)
      ensures k.current == 0
      ensures RunOk(k)
    {
      assert SlotOk(k, 0) && k.order[0] in k.order;
    }

    /** Voluntarily gives up the processor. */
    method Yield()
      requires Valid()
      modifies this`procs, this`current, this`cr3
      ensures Valid() && Scheduled(old(K()), K()) && Closer(old(K()), K())
    {
      hide MemOk, PidsOk, RootsOk, Inv, Scheduled, ListOk, RunOk, Closer;
      ghost var k := K();
      RunStops(k);
      Schedule();
      MemSame(k, K(), mac.M(), 0);
      AllCloser(k, k, K());
    }

    static lemma RunStops(k: Kern)
      requires ListOk(k) && RunOk(k)
      ensures StopOk(k) && k.procs[k.current].state == Running && k.current in k.order && |k.procs| == PROCESS_MAX
    {
      assert SlotOk(k, 0);
    }

    // `k1` is `k` with the current process stopped, and then the scheduler was called.
    static lemma AllCloser(k: Kern, k1: Kern, k': Kern)
      requires ListOk(k1) && k1.current in k1.order && k1.current < |k1.procs| && Scheduled(k1, k') && k1.order == k.order && k1.current == k.current
      requires |k1.procs| == |k.procs| && (forall s :: 0 <= s < |k.procs| && s != k.current ==> k1.procs[s] == k.procs[s]) && k1.tick == k.tick
      ensures Closer(k, k')
    {
      hide ListOk, Scheduled;
      ScheduledCurrent(k1, k');
      forall p | Waiting(k, p) && p != k'.current ensures p in k'.order && Rank(k', p) < Rank(k, p) {
        PassedOver(k1, k', p);
      }
    }

    static lemma ScheduledCurrent(k: Kern, k': Kern)
      requires k.current in k.order && k.current < |k.procs| && Scheduled(k, k')
      ensures k'.order == k.order && k'.current in k'.order
    {
    }

    // ------------------------------------------------------------------------------
    // Reaping

    /** Takes every dead process out of the list and destroys its address space. */
    method Reap(ghost extra: nat)
      requires ValidWith(extra)
      modifies this`procs, this`head, this`order, mac
      ensures ValidWith(extra)
      ensures ReapedTable(old(K()), K()) && ReapedMem(old(K()), old(mac.M()), mac.M())
      ensures forall s :: 0 <= s < |procs| ==> !Dead(K(), s)
      ensures (forall s :: 0 <= s < |procs| && old(procs)[s].inUse ==> procs[s].inUse) ==> K() == old(K()) && mac.M() == old(mac.M())
    {
      hide KernOk, MemOk, Inv, ReapedTable, ReapedMem, Dead;
      ghost var k0, m0 := K(), mac.M();
      ReapNothing(k0, m0);
      ghost var i := 0;
      var p, prev: Option<nat> := head, None;
      KernFacts(k0);
      while p.Some?
        invariant ValidWith(extra) && i <= |order| && p == (if i < |order| then Some(order[i]) else None)
        invariant prev == (if i > 0 then Some(order[i - 1]) else None)
        invariant ReapedTable(k0, K()) && ReapedMem(k0, m0, mac.M())
        invariant forall j :: 0 <= j < i ==> !Dead(K(), order[j])
        invariant (forall s :: 0 <= s < |procs| && s < |k0.procs| && k0.procs[s].inUse ==> procs[s].inUse) ==> K() == k0 && mac.M() == m0
        decreases |order| - i
      {
        var s := p.value;
        ListPlace(K(), i);
        var next := procs[s].next;
        DeadIs(K(), s);
        if procs[s].state == Terminated && s != current && procs[s].pid != 0 {
          ghost var k := K();
          DeadPlace(k, i);
          RemoveDead(s, prev, next, i, k0, m0, extra);
          SlotGone(k0, k, i);
          DeadSame(k, i);
        } else {
          prev := p;
          i := i + 1;
        }
        p := next;
      }
      NoneDead(K());
    }

    /** Unlinks one dead process, destroys its address space and clears its slot. The idle
        process heads the list, so there always is one before it. */
    method RemoveDead(s: nat, prev: Option<nat>, next: Option<nat>, ghost i: nat, ghost k0: Kern, ghost m0: Mem, ghost extra: nat)
      requires ValidWith(extra) && KernOk(k0) && ReapedTable(k0, K()) && ReapedMem(k0, m0, mac.M())
      requires 0 < i < |order| && order[i] == s && Dead(K(), s) && order[i] < |procs| && order[i - 1] < |procs| && order[i - 1] != order[i]
      requires prev == Some(order[i - 1]) && next == NextIn(order, i)
      modifies this`procs, this`head, this`order, mac
      ensures ValidWith(extra) && K() == Removed(old(K()), i)
      ensures ReapedTable(k0, K()) && ReapedMem(k0, m0, mac.M()) && Dead(k0, s)
    {
      hide KernOk, MemOk, Inv, ReapedTable, ReapedMem;
      ghost var k, m := K(), mac.M();
      ReapStep(k0, k, m0, m, i, s);
      var root := procs[s].root;
      procs := procs[prev.value := procs[prev.value].(next := next)];
      if root != 0 {
        RootOwned(k, m, s, extra);
        mac.DestroySpace(root);
      }
      procs := procs[s := EMPTY];
      order := order[..i] + order[i + 1..];
      assert K() == Removed(k, i);
      ReapDone(k0, k, m0, m, mac.M(), i, s, extra);
    }

    // The slot was in use at the start and is not any more.
    static lemma SlotGone(k0: Kern, k: Kern, i: nat)
      requires KernOk(k) && 0 < i < |k.order| && k.order[i] < |k.procs| && k.order[i - 1] < |k.procs| && Dead(k0, k.order[i])
      ensures k.order[i] < |k0.procs| && k0.procs[k.order[i]].inUse && !Removed(k, i).procs[k.order[i]].inUse
      ensures |Removed(k, i).procs| == |k.procs|
    {
      hide KernOk;
      RemovedSame(k, i);
    }

    static lemma DeadIs(k: Kern, s: nat)
      requires s < |k.procs| && k.procs[s].inUse
      ensures Dead(k, s) <==> k.procs[s].state == Terminated && s != k.current && k.procs[s].pid != 0
    {
    }

    static lemma KernFacts(k: Kern)
      requires KernOk(k)
      ensures |k.procs| == PROCESS_MAX && |k.order| > 0 && k.order[0] == 0 && k.head == Some(0)
    {
    }

    static lemma ReapNothing(k: Kern, m: Mem)
      requires KernOk(k) && Inv(m)
      ensures ReapedTable(k, k) && ReapedMem(k, m, m)
    {
      hide PidsOk, RootsOk, SpaceOk, FreeSlot;
      forall f | f in m.own ensures Same(m, m, f) { FrameFact(m, f); }
    }

    static lemma ListPlace(k: Kern, i: nat)
      requires KernOk(k) && i < |k.order|
      ensures k.order[i] < |k.procs| && k.procs[k.order[i]].inUse && k.procs[k.order[i]].next == NextIn(k.order, i)
      ensures i > 0 ==> k.order[i - 1] < |k.procs| && k.order[i - 1] != k.order[i]
    {
      assert SlotOk(k, i);
      if i > 0 { assert SlotOk(k, i - 1); }
    }

    static lemma DeadPlace(k: Kern, i: nat)
      requires KernOk(k) && i < |k.order| && Dead(k, k.order[i])
      ensures i > 0 && k.order[i] != k.current && k.order[i] != 0
    {
    }

    static lemma RootOwned(k: Kern, m: Mem, s: nat, extra: nat)
      requires MemOk(k, m, extra) && s < |k.procs| && k.procs[s].inUse && k.procs[s].root != 0
      ensures k.procs[s].root in m.spaces
    {
      hide View;
      assert ProcMem(k, m, s);
    }

    // A dead process in the current table was dead at the start.
    static lemma ReapStep(k0: Kern, k: Kern, m0: Mem, m: Mem, i: nat, s: nat)
      requires ReapedTable(k0, k) && KernOk(k) && KernOk(k0) && i < |k.order| && k.order[i] == s && Dead(k, s)
      ensures s < |k0.procs| && Dead(k0, s) && SameSlot(k0.procs[s], k.procs[s])
    {
      hide KernOk, NotFarther;
      assert k.procs[s] != EMPTY;
      SameCurrent(k0, k);
    }

    static lemma SameCurrent(k0: Kern, k: Kern)
      requires NotFarther(k0, k)
      ensures k.current == k0.current
    {
    }

    static lemma ReapDone(k0: Kern, k: Kern, m0: Mem, m: Mem, m': Mem, i: nat, s: nat, extra: nat)
      requires KernOk(k) && KernOk(k0) && Inv(m) && Inv(m') && MemOk(k, m, extra) && ReapedTable(k0, k) && ReapedMem(k0, m0, m)
      requires 0 < i < |k.order| && k.order[i] == s && Dead(k, s) && s < |k0.procs| && Dead(k0, s) && SameSlot(k0.procs[s], k.procs[s])
      requires k.order[i] < |k.procs| && k.order[i - 1] < |k.procs|
      requires if k.procs[s].root == 0 then m' == m else Destroyed(m, m', k.procs[s].root)
      ensures KernOk(Removed(k, i)) && MemOk(Removed(k, i), m', extra)
      ensures ReapedTable(k0, Removed(k, i)) && ReapedMem(k0, m0, m')
    {
      hide KernOk, MemOk, Inv, ReapedMem, ReapedTable;
      RemovedOk(k, i);
      RootsOf(k);
      RemovedSame(k, i);
      MemReaped(k, Removed(k, i), m, m', s, extra);
      ReapTable(k0, k, i, s);
      if k.procs[s].root != 0 { ReapMem(k0, k, m0, m, m', s); }
    }

    static lemma RootsOf(k: Kern)
      requires KernOk(k)
      ensures RootsOk(k)
    {
    }

    static lemma RemovedSame(k: Kern, i: nat)
      requires KernOk(k) && 0 < i < |k.order| && k.order[i] < |k.procs| && k.order[i - 1] < |k.procs|
      ensures var k' := Removed(k, i);
              |k'.procs| == |k.procs| && k'.procs[k.order[i]] == EMPTY &&
              (forall t :: 0 <= t < |k.procs| && t != k.order[i] ==> SameSlot(k.procs[t], k'.procs[t])) &&
              (forall t :: 0 <= t < |k.procs| && t != k.order[i] && !k.procs[t].inUse ==> k'.procs[t] == k.procs[t])
    {
      hide PidsOk, RootsOk, RunOk;
      assert SlotOk(k, i - 1);
    }

    static lemma ReapTable(k0: Kern, k: Kern, i: nat, s: nat)
      requires KernOk(k) && ReapedTable(k0, k) && 0 < i < |k.order| && k.order[i] == s && Dead(k0, s) && s != k.current
      requires k.order[i] < |k.procs| && k.order[i - 1] < |k.procs| && KernOk(Removed(k, i))
      ensures ReapedTable(k0, Removed(k, i))
    {
      hide KernOk;
      var k' := Removed(k, i);
      RemovedSame(k, i);
      CurrentListed(k');
      forall p | p in k'.order ensures p in k0.order && Rank(k', p) <= Rank(k0, p) {
        ListedBefore(k, i, p);
        RemovedRank(k, i, p);
      }
    }

    static lemma CurrentListed(k: Kern)
      requires KernOk(k)
      ensures k.current in k.order
    {
    }

    static lemma ListedBefore(k: Kern, i: nat, p: nat)
      requires KernOk(k) && 0 < i < |k.order| && k.order[i] < |k.procs| && k.order[i - 1] < |k.procs| && p in Removed(k, i).order
      ensures p in k.order && p != k.order[i]
    {
      hide PidsOk, RootsOk, RunOk;
      RemovedMembers(k, i);
    }

    static lemma ReapMem(k0: Kern, k: Kern, m0: Mem, m: Mem, m': Mem, s: nat)
      requires Inv(m) && ReapedMem(k0, m0, m) && s < |k0.procs| && s < |k.procs| && Dead(k0, s) && SameSlot(k0.procs[s], k.procs[s])
      requires k.procs[s].root != 0 && Destroyed(m, m', k.procs[s].root)
      ensures ReapedMem(k0, m0, m')
    {
      hide Inv;
      var r := k.procs[s].root;
      assert Owner(k0, s, r);
      assert DeadRoot(k0, r);
      forall f | f in m0.own ensures Same(m0, m', f) || (m0.own[f].NodeOf? && DeadRoot(k0, m0.own[f].root) && m'.own[f].FreeAt?) {
        FrameFact(m, f);
        if m.own[f].NodeOf? && m.own[f].root == r { assert Same(m0, m, f); } else { assert Same(m, m', f); }
      }
    }

    static lemma DeadSame(k: Kern, i: nat)
      requires KernOk(k) && 0 < i < |k.order| && k.order[i] < |k.procs| && k.order[i - 1] < |k.procs|
      ensures var k' := Removed(k, i);
              |k'.order| == |k.order| - 1 && (forall j :: 0 <= j < i ==> k'.order[j] == k.order[j] && k.order[j] < |k.procs| && (Dead(k', k'.order[j]) <==> Dead(k, k.order[j]))) &&
              NextIn(k.order, i) == (if i < |k'.order| then Some(k'.order[i]) else None)
    {
      hide PidsOk, RootsOk, RunOk;
      forall j | 0 <= j < |k.order| ensures k.order[j] < |k.procs| { assert SlotOk(k, j); }
      RemovedSame(k, i);
    }

    static lemma NoneDead(k: Kern)
      requires KernOk(k) && forall j :: 0 <= j < |k.order| ==> !Dead(k, k.order[j])
      ensures forall s :: 0 <= s < |k.procs| ==> !Dead(k, s)
    {
      forall s | 0 <= s < |k.procs| ensures !Dead(k, s) {
        if k.procs[s].inUse { assert s in k.order; }
      }
    }

    // ------------------------------------------------------------------------------
    // Terminating and sleeping

    /** Looks a process up along the list. */
    method FindPid(pid: nat) returns (r: Option<nat>)
      requires KernOk(K())
      ensures r.Some? ==> r.value < |procs| && procs[r.value].inUse && procs[r.value].pid == pid && r.value in order
      ensures r.None? ==> forall s :: 0 <= s < |procs| && procs[s].inUse ==> procs[s].pid != pid
    {
      hide KernOk;
      KernFacts(K());
      ghost var i := 0;
      r := head;
      while r.Some?
        invariant i <= |order| && r == (if i < |order| then Some(order[i]) else None)
        invariant forall j :: 0 <= j < i ==> order[j] < |procs| && procs[order[j]].pid != pid
        decreases |order| - i
      {
        ListPlace(K(), i);
        if procs[r.value].inUse && procs[r.value].pid == pid {
          return;
        }
        r := procs[r.value].next;
        i := i + 1;
      }
      AllListed(K());
    }

    static lemma AllListed(k: Kern)
      requires KernOk(k)
      ensures forall s :: 0 <= s < |k.procs| && k.procs[s].inUse ==> s in k.order
    {
    }

    /** `k` with the process in slot `s` in another state. */
    static function Marked(k: Kern, s: nat, p: Proc): Kern
      requires s < |k.procs|
    {
      k.(procs := k.procs[s := p])
    }

    static predicate SameIdentity(p: Proc, q: Proc) {
      q.(state := p.state, wake := p.wake, exitCode := p.exitCode) == p
    }

    // The current process (not the idle one) stops running.
    static lemma StoppedOk(k: Kern, p: Proc, m: Mem)
      requires KernOk(k) && MemOk(k, m, 0) && k.current != 0 && k.current < |k.procs| && SameIdentity(k.procs[k.current], p) && p.state != Running
      ensures var k1 := Marked(k, k.current, p);
              ListOk(k1) && StopOk(k1) && PidsOk(k1) && RootsOk(k1) && MemOk(k1, m, 0) && k1.current in k1.order
    {
      hide PidsOk, RootsOk, MemOk;
      var k1 := Marked(k, k.current, p);
      assert SlotOk(k, 0);
      forall i | 0 <= i < |k1.order| ensures SlotOk(k1, i) { assert SlotOk(k, i); }
      SameIds(k, k1);
      MemSame(k, k1, m, 0);
    }

    /** The current process stops as `p` and another gets the processor. */
    method StopAs(p: Proc)
      requires Valid() && current != 0 && current < |procs| && SameIdentity(procs[current], p) && p.state != Running
      modifies this`procs, this`current, this`cr3
      ensures Valid() && current != old(current) && Closer(old(K()), K())
      ensures old(current) < |old(procs)| && old(current) in old(order) && Scheduled(Marked(old(K()), old(current), p), K())
    {
      hide KernOk, MemOk, PidsOk, RootsOk, Inv, Scheduled, Closer, ListOk, StopOk;
      ghost var k := K();
      StoppedOk(k, p, mac.M());
      procs := procs[current := p];
      ghost var k1 := K();
      assert k1 == Marked(k, k.current, p);
      CurrentListed(k);
      StopFacts(k1);
      Schedule();
      MemSame(k1, K(), mac.M(), 0);
      AllCloser(k, k1, K());
    }

    /** Ends a process. Ending oneself does not return to the caller: another process runs
        next, and always can. */
    method Terminate(pid: nat) returns (status: Status)
      requires Valid()
      modifies this`procs, this`head, this`order, this`current, this`cr3, mac
      ensures Valid()
      ensures status == if pid == 0 then Permission
                        else if exists s :: 0 <= s < |old(procs)| && Live(old(K()), s, pid) then Ok else NotFound
      ensures status != Ok ==> K() == old(K()) && mac.M() == old(mac.M())
      ensures status == Ok ==> TerminateEffect(old(K()), K(), old(mac.M()), mac.M(), pid)
    {
      hide KernOk, MemOk, Inv, Scheduled, TerminateEffect, Closer;
      if pid == 0 {
        return Permission;
      }
      ghost var k, m := K(), mac.M();
      var found := FindPid(pid);
      if found.None? {
        return NotFound;
      }
      var s := found.value;
      UniquePid(k, s, pid);
      if procs[s].state == Terminated {
        return NotFound;
      }
      assert Live(k, s, pid);
      var p := procs[s].(state := Terminated);
      if s == current {
        IdleFacts(k);
        StopAs(p);
        EndedSelf(k, K(), m, pid, p);
        return Ok;
      }
      MarkedOk(k, s, p, m);
      procs := procs[s := p];
      ghost var k1 := K();
      Reap(0);
      EndedOther(k, k1, K(), m, mac.M(), pid, s, p);
      return Ok;
    }

    static predicate Live(k: Kern, s: nat, pid: nat) {
      s < |k.procs| && k.procs[s].inUse && k.procs[s].pid == pid && k.procs[s].state != Terminated
    }

    static ghost predicate TerminateEffect(k: Kern, k': Kern, m: Mem, m': Mem, pid: nat) {
      exists s: nat ::
        Live(k, s, pid) && k.current in k.order && k.current < |k.procs| &&
        var k1 := Marked(k, s, k.procs[s].(state := Terminated));
        if s == k.current then Scheduled(k1, k') && k'.current != k.current && Closer(k, k') && m' == m
        else ReapedTable(k1, k') && ReapedMem(k1, m, m') && NoneLeft(k') && NotFarther(k, k') && s < |k'.procs| && !k'.procs[s].inUse
    }

    static lemma UniquePid(k: Kern, s: nat, pid: nat)
      requires KernOk(k) && s < |k.procs| && k.procs[s].inUse && k.procs[s].pid == pid
      ensures forall t :: 0 <= t < |k.procs| && Live(k, t, pid) ==> t == s
    {
      hide ListOk, RunOk, RootsOk;
    }

    static lemma IdleFacts(k: Kern)
      requires KernOk(k)
      ensures k.procs != [] && k.procs[0].pid == 0
    {
    }

    static lemma EndedSelf(k: Kern, k': Kern, m: Mem, pid: nat, p: Proc)
      requires k.current in k.order && k.current < |k.procs| && Live(k, k.current, pid) && p == k.procs[k.current].(state := Terminated)
      requires Scheduled(Marked(k, k.current, p), k') && k'.current != k.current && Closer(k, k')
      ensures TerminateEffect(k, k', m, m, pid)
    {
      hide Scheduled, Closer;
    }

    // A process that is not running is marked as terminated.
    static lemma MarkedOk(k: Kern, s: nat, p: Proc, m: Mem)
      requires KernOk(k) && MemOk(k, m, 0) && s < |k.procs| && s != k.current && k.procs[s].inUse && k.procs[s].pid != 0
      requires p == k.procs[s].(state := Terminated)
      ensures KernOk(Marked(k, s, p)) && MemOk(Marked(k, s, p), m, 0) && Dead(Marked(k, s, p), s) && k.current in k.order && k.current < |k.procs|
    {
      hide PidsOk, RootsOk, MemOk;
      var k1 := Marked(k, s, p);
      forall i | 0 <= i < |k1.order| ensures SlotOk(k1, i) { assert SlotOk(k, i); }
      SameIds(k, k1);
      MemSame(k, k1, m, 0);
    }

    static lemma EndedOther(k: Kern, k1: Kern, k': Kern, m: Mem, m': Mem, pid: nat, s: nat, p: Proc)
      requires s < |k.procs| && p == k.procs[s].(state := Terminated) && k1 == Marked(k, s, p) && Live(k, s, pid) && s != k.current
      requires k.current in k.order && k.current < |k.procs| && Dead(k1, s)
      requires ReapedTable(k1, k') && ReapedMem(k1, m, m') && forall t :: 0 <= t < |k'.procs| ==> !Dead(k', t)
      ensures TerminateEffect(k, k', m, m', pid)
    {
      assert !Dead(k', s);
      assert SameSlot(k1.procs[s], k'.procs[s]) || k'.procs[s] == EMPTY;
      SameCurrent(k1, k');
      assert NotFarther(k, k');
    }

    static function Ended(p: Proc, code: int): Proc {
      p.(exitCode := code, state := Terminated)
    }

    /** Asleep from tick `now` on, for at least one tick. */
    static function Asleep(p: Proc, now: nat, ticks: nat): Proc {
      p.(wake := now + (if ticks > 0 then ticks else 1), state := Blocked)
    }

    /** The current process stops as `p`, and the scheduler picks another. */
    static ghost predicate StopsAs(k: Kern, p: Proc, k': Kern) {
      k.current in k.order && k.current < |k.procs| && Scheduled(Marked(k, k.current, p), k') && k'.current != k.current
    }

    /** The current process ends with an exit code. */
    method Exit(code: int)
      requires Valid() && current != 0
      modifies this`procs, this`head, this`order, this`current, this`cr3, mac
      ensures Valid() && current != old(current) && Closer(old(K()), K()) && mac.M() == old(mac.M())
      ensures old(current) < |old(procs)| && StopsAs(old(K()), Ended(old(procs)[old(current)], code), K())
      ensures old(current) < |procs| && procs[old(current)].state == Terminated && procs[old(current)].exitCode == code
    {
      hide KernOk, MemOk, Inv, Scheduled, Closer;
      ghost var k := K();
      CurrentFacts(k);
      var p := Ended(procs[current], code);
      ghost var self := current;
      StopAs(p);
      StoppedStays(Marked(k, self, p), K(), self);
    }

    static lemma CurrentFacts(k: Kern)
      requires KernOk(k)
      ensures k.current < |k.procs| && k.procs[k.current].inUse && k.procs[k.current].state == Running && k.cr3 == k.procs[k.current].root
      ensures k.current != 0 ==> k.procs[k.current].pid != 0
      ensures k.procs[0].pid == 0
    {
      var i :| 0 <= i < |k.order| && k.order[i] == k.current;
      assert SlotOk(k, i);
    }

    /** The current process sleeps for at least one tick. The idle process cannot sleep; no
        other is ever refused for want of a process to run. */
    method Sleep(ticks: nat) returns (status: Status)
      requires Valid()
      modifies this`procs, this`current, this`cr3
      ensures Valid()
      ensures status == if old(current) == 0 then Permission else Ok
      ensures status != Ok ==> K() == old(K())
      ensures status == Ok ==> old(current) < |old(procs)| && StopsAs(old(K()), Asleep(old(procs)[old(current)], old(tick), ticks), K())
      ensures status == Ok ==>
                old(current) < |procs| && procs[old(current)].state == Blocked && Closer(old(K()), K()) &&
                procs[old(current)].wake == old(tick) + (if ticks > 0 then ticks else 1) && tick == old(tick)
    {
      hide KernOk, MemOk, Inv, Scheduled, Closer;
      ghost var k := K();
      CurrentFacts(k);
      if procs[current].pid == 0 {
        return Permission;
      }
      var p := Asleep(procs[current], tick, ticks);
      ghost var self := current;
      StopAs(p);
      StoppedStays(Marked(k, self, p), K(), self);
      return Ok;
    }

    static lemma StoppedStays(k: Kern, k': Kern, s: nat)
      requires k.current in k.order && k.current < |k.procs| && s == k.current && k.procs[s].state != Running && Scheduled(k, k') && k'.current != s
      ensures |k'.procs| == |k.procs| && k'.procs[s] == k.procs[s] && k'.tick == k.tick
    {
    }

    // ------------------------------------------------------------------------------
    // Creating processes

    /** The table after a process was created in slot `s`: all dead ones reaped, the new one
        ready at the end of the list, in the first free slot. */
    static ghost predicate Created(k: Kern, k': Kern, m: Mem, m': Mem, s: nat, p: Proc) {
      exists k1: Kern ::
        ReapedTable(k, k1) && ReapedMem(k, m, m') && NoneLeft(k1) && |k1.order| > 0 && k1.order[|k1.order| - 1] < |k1.procs| &&
        s < |k1.procs| && !k1.procs[s].inUse && (forall t :: 0 <= t < s ==> k1.procs[t].inUse) && k' == Appended(k1, s, p)
    }

    /** A slot of the process table is free, or will be once the dead are reaped. */
    static ghost predicate HasSlot(k: Kern) {
      exists s :: 0 <= s < |k.procs| && (!k.procs[s].inUse || Dead(k, s))
    }

    static lemma SlotFreed(k: Kern, k1: Kern, s: nat)
      requires ReapedTable(k, k1) && s < |k1.procs| && !k1.procs[s].inUse
      ensures HasSlot(k)
    {
      hide NotFarther;
      assert s < |k.procs| && (!k.procs[s].inUse || Dead(k, s));
    }

    /** Reaps, takes the first free slot and appends the process to the list. Without a
        free slot nothing has changed, not even by reaping. */
    method NewProcess(p: Proc) returns (status: Status, pid: nat)
      requires ValidWith(p.root) && p.state == Ready
      requires p.root != 0 ==> HeapOk(mac.M(), p.root, p.heapStart, p.heapBrk)
      modifies this`procs, this`head, this`order, this`nextPid, mac
      ensures status == if HasSlot(old(K())) then Ok else ProcessFailed
      ensures status == Ok ==> Valid() && pid == old(nextPid) && exists s :: Created(old(K()), K(), old(mac.M()), mac.M(), s, p)
      ensures status != Ok ==> ValidWith(p.root) && K() == old(K()) && mac.M() == old(mac.M())
    {
      hide KernOk, MemOk, Inv, ReapedTable, ReapedMem, Dead, HeapOk;
      ghost var k, m := K(), mac.M();
      KernFacts(k);
      IdleInUse(k);
      Reap(p.root);
      ghost var k1, m1 := K(), mac.M();
      KernFacts(k1);
      IdleInUse(k1);
      var slot := 1;
      while slot < PROCESS_MAX && procs[slot].inUse
        invariant 1 <= slot <= PROCESS_MAX && forall t :: 0 <= t < slot ==> procs[t].inUse
      {
        slot := slot + 1;
      }
      if slot == PROCESS_MAX {
        return ProcessFailed, 0;
      }
      HeapReaped(k, m, m1, p);
      SlotFreed(k, k1, slot);
      pid := AppendProcess(p, slot);
      assert Created(k, K(), m, m1, slot, p);
      return Ok, pid;
    }

    /** Fills a free slot and hangs it at the end of the list. */
    method AppendProcess(p: Proc, slot: nat) returns (pid: nat)
      requires ValidWith(p.root) && p.state == Ready && 0 < slot < |procs| && !procs[slot].inUse
      requires p.root != 0 ==> HeapOk(mac.M(), p.root, p.heapStart, p.heapBrk)
      modifies this`procs, this`order, this`nextPid
      ensures Valid() && pid == old(nextPid)
      ensures |old(order)| > 0 && old(order)[|old(order)| - 1] < |old(procs)| && K() == Appended(old(K()), slot, p)
    {
      hide KernOk, MemOk, Inv, HeapOk;
      ghost var k1 := K();
      KernFacts(k1);
      RootFree(k1, mac.M(), p.root);
      AppendedOk(k1, slot, p);
      var tail := 0;
      ghost var i := 0;
      ListPlace(k1, 0);
      while procs[tail].next.Some?
        invariant i < |order| && tail == order[i] && tail < |procs| && procs[tail].next == NextIn(order, i) && K() == k1
        decreases |order| - i
      {
        tail := procs[tail].next.value;
        i := i + 1;
        ListPlace(k1, i);
      }
      Adopted(k1, slot, p, mac.M());
      TailNotFree(k1, slot, i);
      pid := nextPid;
      procs := procs[slot := p.(inUse := true, pid := nextPid, next := None)];
      nextPid := nextPid + 1;
      procs := procs[tail := procs[tail].(next := Some(slot))];
      order := order + [slot];
      assert K() == Appended(k1, slot, p);
    }

    static lemma IdleInUse(k: Kern)
      requires KernOk(k)
      ensures k.procs != [] && k.procs[0].inUse
    {
      assert SlotOk(k, 0);
    }

    static lemma TailNotFree(k: Kern, s: nat, i: nat)
      requires KernOk(k) && s < |k.procs| && !k.procs[s].inUse && i < |k.order|
      ensures k.order[i] != s
    {
      assert SlotOk(k, i);
    }

    static lemma RootFree(k: Kern, m: Mem, root: nat)
      requires MemOk(k, m, root)
      ensures root != 0 ==> forall t :: 0 <= t < |k.procs| && k.procs[t].inUse ==> k.procs[t].root != root
    {
      forall t | 0 <= t < |k.procs| && k.procs[t].inUse ensures root != 0 ==> k.procs[t].root != root {
        if k.procs[t].root == root { assert Owner(k, t, root); }
      }
    }

    static lemma Adopted(k: Kern, s: nat, p: Proc, m: Mem)
      requires KernOk(k) && MemOk(k, m, p.root) && s < |k.procs| && !k.procs[s].inUse && |k.order| > 0 && k.order[|k.order| - 1] < |k.procs|
      requires p.root != 0 ==> HeapOk(m, p.root, p.heapStart, p.heapBrk)
      ensures MemOk(Appended(k, s, p), m, 0)
    {
      hide KernOk, MemOk, HeapOk;
      TailNotFree(k, s, |k.order| - 1);
      MemAdopted(k, Appended(k, s, p), m, s, p.root);
    }

    // Reaping other processes leaves the new space alone.
    static lemma HeapReaped(k: Kern, m: Mem, m': Mem, p: Proc)
      requires Inv(m) && Inv(m') && MemOk(k, m, p.root) && MemOk(k, m, p.root) && ReapedMem(k, m, m')
      requires p.root != 0 ==> HeapOk(m, p.root, p.heapStart, p.heapBrk)
      ensures p.root != 0 ==> HeapOk(m', p.root, p.heapStart, p.heapBrk)
    {
      hide Inv, HeapOk, View, TableRel;
      if p.root != 0 {
        HeapFacts(m, p.root, p.heapStart, p.heapBrk);
        DeadOwned(k, p.root);
        forall q | q in m.spaces[p.root] ensures Same(m, m', m.spaces[p.root][q]) { NodeFact(m, p.root, q); }
        SameView(m, m', p.root);
        HeapKept(m, m', p.root, p.heapStart, p.heapBrk);
      }
    }

    static lemma DeadOwned(k: Kern, x: nat)
      ensures DeadRoot(k, x) ==> Owned(k, x)
    {
    }

    /** A new kernel thread. */
    method CreateThread() returns (status: Status, pid: nat)
      requires Valid()
      modifies this`procs, this`head, this`order, this`nextPid, mac
      ensures Valid() && status == if HasSlot(old(K())) then Ok else ProcessFailed
      ensures status == Ok ==> pid == old(nextPid) && exists s :: Created(old(K()), K(), old(mac.M()), mac.M(), s, EMPTY)
      ensures status != Ok ==> K() == old(K()) && mac.M() == old(mac.M())
    {
      hide KernOk, MemOk, Inv, Created, HeapOk;
      status, pid := NewProcess(EMPTY);
    }

    /** Maps the user stack: zero pages from its base to its top. */
    method MapUserStack(r: nat) returns (status: Status)
      requires mac.Valid() && r in mac.spaces
      modifies mac
      ensures mac.Valid() && r in mac.spaces && Only(old(mac.M()), mac.M(), r, {}, {})
      ensures status == Ok ==> PagesAdded(old(mac.M()), mac.M(), r, STACK_BASE / PAGE_SIZE, STACK_TOP / PAGE_SIZE)
      ensures StackOutcome(old(mac.M()), mac.M(), r, status)
    {
      hide Inv, View, Extended, PagesAdded, Only, PagesKept, PageIs, Paid, Cost, NeedsAll, Needs, Clashes;
      ghost var m0 := mac.M();
      var page, top := STACK_BASE / PAGE_SIZE, STACK_TOP / PAGE_SIZE;
      ghost var base := page;
      PaidSoFar(m0, r, base);
      NoClash(m0, r, base);
      ExtendedNone(m0, r, base);
      AddedNone(m0, m0, r, base);
      while page < top
        invariant base <= page <= top && mac.Valid() && r in mac.spaces && PagesAdded(m0, mac.M(), r, base, page)
        invariant Paid(m0, mac.M(), r, NeedsAll(base, page)) && !Clashes(m0, r, base, page)
      {
        ghost var m1 := mac.M();
        AddedFacts(m0, m1, r, base, page);
        status := AddPage(mac, r, page, ZeroPage(), DATA_FLAGS);
        NextPage(m0, m1, mac.M(), r, base, page, top, DATA_FLAGS, status);
        ClashMore(m0, r, base, page, top);
        if status != Ok {
          AddedStill(m0, m1, mac.M(), r, base, page);
          AddedFacts(m0, mac.M(), r, base, page);
          ExtendedParts(m0, mac.M(), r, base, page);
          return;
        }
        AddedMore(m0, m1, mac.M(), r, base, page);
        AddedFacts(m0, mac.M(), r, base, page + 1);
        page := page + 1;
      }
      AddedFacts(m0, mac.M(), r, base, page);
      ExtendedParts(m0, mac.M(), r, base, page);
      PaidAll(m0, mac.M(), r, NeedsAll(base, top));
      status := Ok;
    }

    /** How mapping the stack ends. */
    static ghost predicate StackOutcome(m: Mem, m': Mem, r: nat, status: Status) {
      var base, top := STACK_BASE / PAGE_SIZE, STACK_TOP / PAGE_SIZE;
      Outcome(Clashes(m, r, base, top), false, |m.free| < Cost(m, r, NeedsAll(base, top)), status) &&
      (status == Ok ==> Paid(m, m', r, NeedsAll(base, top)))
    }

    static lemma NoClash(m: Mem, r: nat, a: nat)
      ensures !Clashes(m, r, a, a)
    {
    }

    static lemma ClashMore(m: Mem, r: nat, a: nat, b: nat, c: nat)
      requires a <= b < c
      ensures Clashes(m, r, a, b + 1) <==> Clashes(m, r, a, b) || b in View(m, r)
      ensures b in View(m, r) ==> Clashes(m, r, a, c)
    {
      hide View;
    }

    /** The new process, ready to run the program with an empty heap. */
    static function UserProc(root: nat, entry: nat, heapStart: nat): Proc {
      EMPTY.(root := root, entry := entry, stackTop := STACK_TOP - STACK_INIT, heapStart := heapStart, heapBrk := heapStart)
    }

    /** Byte `v` of a new stack: zero, for the program to write and not to execute. */
    static ghost predicate StackByte(nx: bool, ram: map<nat, Page>, r: nat, v: nat) {
      (match Walk(ram, r, v) case Some(a) => a.user && a.rw && a.exec == !nx case None => false) && ByteSeen(ram, r, v) == Some(0)
    }

    /** Address `v` is in the pages of the segment of program header `i`. */
    static predicate SegmentHolds(file: seq<Byte>, i: nat, v: nat) {
      |file| >= 64 && i < Field(file, 56, 2) && Field(file, 32, 8) + 56 * i + 56 <= |file| &&
      var h := Field(file, 32, 8) + 56 * i;
      Field(file, h, 4) == 1 && Field(file, h + 16, 8) <= v < (Field(file, h + 16, 8) + Field(file, h + 40, 8) + 0xFFF) / 0x1000 * 0x1000
    }

    static predicate SegmentTop(file: seq<Byte>, i: nat, end: nat) {
      end > 0 && SegmentHolds(file, i, end - 1)
    }

    /** The image of the file ends at `end`, a page boundary: the last address of its segments'
        pages is the one before. */
    static ghost predicate EndsImage(file: seq<Byte>, end: nat) {
      end % 0x1000 == 0 && end > 0 && (forall i: nat, v: nat :: SegmentHolds(file, i, v) ==> v < end) && exists i: nat :: SegmentTop(file, i, end)
    }

    /** Slot `s` holds the process the file describes, ready to run: it will begin at the file's
        entry point, which it may execute; the file's segments are in its memory; its stack
        pointer has 48 zero bytes above it, in 64 KiB of zeros that it may write and not
        execute; its heap is empty and begins where the image ends; and nothing else is mapped,
        neither the page below the stack nor where the heap will grow. */
    static ghost predicate Starts(nx: bool, ram: map<nat, Page>, k: Kern, s: nat, pid: nat, file: seq<Byte>) {
      s < |k.procs| && |file| >= 64 &&
      var p := k.procs[s];
      p.inUse && p.pid == pid && p.state == Ready && p.wake == 0 &&
      p.entry == Field(file, 24, 8) && EntryRuns(ram, p.root, file) && ImageInPlace(nx, ram, p.root, file) &&
      p.stackTop + 48 == 0x7FF8_0000_0000 &&
      (forall v: nat {:trigger StackByte(nx, ram, p.root, v)} :: 0x7FF7_FFFF_0000 <= v < 0x7FF8_0000_0000 ==> StackByte(nx, ram, p.root, v)) &&
      p.heapStart == p.heapBrk && EndsImage(file, p.heapStart) && p.heapStart < 0x7FF7_FFFF_0000 &&
      forall v: nat {:trigger Walk(ram, p.root, v)} :: v < USER_END && Walk(ram, p.root, v).Some? ==>
        0x7FF7_FFFF_0000 <= v < 0x7FF8_0000_0000 || exists i: nat :: SegmentHolds(file, i, v)
    }

    // The new space while the dead are reaped and the process is entered in the table.
    static lemma SpaceStays(k: Kern, k': Kern, m: Mem, m': Mem, s: nat, p: Proc)
      requires Inv(m) && Inv(m') && MemOk(k, m, p.root) && p.root != 0 && Created(k, k', m, m', s, p)
      ensures PagesKept(m, m', p.root) && View(m', p.root) == View(m, p.root) && m'.cfg == m.cfg
    {
      hide Inv, HeapOk, View, TableRel, ReapedTable, NoneLeft;
      var r := p.root;
      DeadOwned(k, r);
      forall q | q in m.spaces[r] ensures Same(m, m', m.spaces[r][q]) { NodeFact(m, r, q); }
      SameView(m, m', r);
    }

    static lemma NewSlot(k: Kern, k': Kern, m: Mem, m': Mem, s: nat, p: Proc)
      requires KernOk(k') && Created(k, k', m, m', s, p)
      ensures s < |k'.procs| && k'.procs[s].(next := None) == p.(inUse := true, pid := k.nextPid, next := None)
    {
      hide ReapedMem, NoneLeft, RunOk, PidsOk, RootsOk, NotFarther;
      assert SlotOk(k', |k'.order| - 1);
    }

    static lemma StackSeen(m: Mem, m1: Mem, m': Mem, r: nat, v: nat)
      requires Inv(m1) && Inv(m') && PagesAdded(m, m1, r, STACK_BASE / PAGE_SIZE, STACK_TOP / PAGE_SIZE) && PagesKept(m1, m', r) && View(m', r) == View(m1, r)
      requires 0x7FF7_FFFF_0000 <= v < 0x7FF8_0000_0000
      ensures StackByte(m1.cfg.nx, m'.ram, r, v)
    {
      hide Inv, View, Walk, PagesKept, Extended;
      assert ZeroHeapPage(m1, r, v / 0x1000);
      KeptSeen(m1, m', r, v);
      WalkIsView(m1, r, v);
    }

    static lemma SegmentIs(file: seq<Byte>, i: nat, v: nat)
      requires HeaderCheck(file) == Ok && SegmentsOk(Phdrs(file), |file|, EntryPoint(file))
      ensures SegmentHolds(file, i, v) <==> i < |Phdrs(file)| && InSeg(Phdrs(file)[i], v / PAGE_SIZE)
    {
      hide Field, HeaderCheck, Phdrs;
      if i < |Phdrs(file)| {
        HeaderBytes(file, i);
        SegmentsFact(Phdrs(file), |file|, EntryPoint(file));
      }
      HeaderFacts(file);
    }

    static lemma ImageEnds(file: seq<Byte>, end: nat)
      requires HeaderCheck(file) == Ok && SegmentsOk(Phdrs(file), |file|, EntryPoint(file))
      requires ImageEnd(Phdrs(file), end) && end % PAGE_SIZE == 0 && 0 < end
      ensures EndsImage(file, end)
    {
      hide Field, HeaderCheck, Phdrs, SegmentHolds;
      forall i: nat, v: nat | SegmentHolds(file, i, v) ensures v < end { SegmentIs(file, i, v); }
      var i :| 0 <= i < |Phdrs(file)| && Phdrs(file)[i].kind == PT_LOAD && PAGE_SIZE * End(Phdrs(file)[i]) == end;
      SegmentsFact(Phdrs(file), |file|, EntryPoint(file));
      SegmentBounds(Phdrs(file)[i], |file|);
      SegmentIs(file, i, end - 1);
      assert SegmentTop(file, i, end);
    }

    // What is mapped in the new space is the image and the stack.
    static lemma MappedOnly(m1: Mem, m2: Mem, m3: Mem, r: nat, file: seq<Byte>, v: nat)
      requires HeaderCheck(file) == Ok && SegmentsOk(Phdrs(file), |file|, EntryPoint(file)) && View(m1, r) == map[]
      requires Loaded(m1, m2, r, file, Phdrs(file), |Phdrs(file)|) && PagesAdded(m2, m3, r, STACK_BASE / PAGE_SIZE, STACK_TOP / PAGE_SIZE)
      requires v / PAGE_SIZE in View(m3, r)
      ensures 0x7FF7_FFFF_0000 <= v < 0x7FF8_0000_0000 || exists i: nat :: SegmentHolds(file, i, v)
    {
      hide View, Loaded, Field, HeaderCheck, Phdrs, PagesAdded, SegmentHolds;
      AddedFacts(m2, m3, r, STACK_BASE / PAGE_SIZE, STACK_TOP / PAGE_SIZE);
      LoadedPage(m1, m2, r, file, Phdrs(file), |Phdrs(file)|, v / PAGE_SIZE);
      if InSome(Phdrs(file), |Phdrs(file)|, v / PAGE_SIZE) {
        var i :| 0 <= i < |Phdrs(file)| && InSeg(Phdrs(file)[i], v / PAGE_SIZE);
        SegmentIs(file, i, v);
      }
    }

    static lemma AddedKeeps(m: Mem, m': Mem, r: nat, a: nat, b: nat)
      requires PagesAdded(m, m', r, a, b)
      ensures PagesKept(m, m', r) && ViewKept(m, m', r) && m'.cfg == m.cfg
    {
      hide View, PagesKept;
    }

    static lemma Started(k: Kern, k': Kern, m1: Mem, m2: Mem, m3: Mem, m': Mem, s: nat, r: nat, file: seq<Byte>, imageEnd: nat)
      requires Inv(m2) && Inv(m3) && Inv(m') && MemOk(k, m3, r) && KernOk(k') && r != 0
      requires HeaderCheck(file) == Ok && SegmentsOk(Phdrs(file), |file|, EntryPoint(file)) && View(m1, r) == map[]
      requires Loaded(m1, m2, r, file, Phdrs(file), |Phdrs(file)|) && ImageInPlace(m2.cfg.nx, m2.ram, r, file) && EntryRuns(m2.ram, r, file)
      requires ImageEnd(Phdrs(file), imageEnd) && imageEnd % PAGE_SIZE == 0 && 0 < imageEnd < STACK_GUARD
      requires PagesAdded(m2, m3, r, STACK_BASE / PAGE_SIZE, STACK_TOP / PAGE_SIZE)
      requires Created(k, k', m3, m', s, UserProc(r, EntryPoint(file), imageEnd))
      ensures Starts(m'.cfg.nx, m'.ram, k', s, k.nextPid, file) && |file| >= EHDR_SIZE
    {
      hide Inv, MemOk, KernOk, View, Walk, Loaded, Field, HeaderCheck, Phdrs, PagesAdded, SegmentHolds, EndsImage, PagesKept, ViewKept, Created, ImageInPlace,
           EntryRuns, SegmentsOk, ImageEnd, StackByte;
      var p := UserProc(r, EntryPoint(file), imageEnd);
      HeaderFacts(file);
      NewSlot(k, k', m3, m', s, p);
      AddedKeeps(m2, m3, r, STACK_BASE / PAGE_SIZE, STACK_TOP / PAGE_SIZE);
      ImageKept(m2, m3, r, m2.cfg.nx, file);
      SpaceStays(k, k', m3, m', s, p);
      SameKept(m3, m', r);
      ImageKept(m3, m', r, m2.cfg.nx, file);
      ImageEnds(file, imageEnd);
      EntryLow(file);
      forall v: nat | 0x7FF7_FFFF_0000 <= v < 0x7FF8_0000_0000 ensures StackByte(m'.cfg.nx, m'.ram, r, v) { StackSeen(m2, m3, m', r, v); }
      forall v: nat | v < USER_END && Walk(m'.ram, r, v).Some?
        ensures 0x7FF7_FFFF_0000 <= v < 0x7FF8_0000_0000 || exists i: nat :: SegmentHolds(file, i, v)
      {
        WalkIsView(m', r, v);
        MappedOnly(m1, m2, m3, r, file, v);
      }
    }

    static lemma StartedSomewhere(k: Kern, k': Kern, m1: Mem, m2: Mem, m3: Mem, m': Mem, r: nat, file: seq<Byte>, entry: nat, imageEnd: nat)
      requires Inv(m2) && Inv(m3) && Inv(m') && MemOk(k, m3, r) && KernOk(k') && r != 0
      requires ElfCheck(file) == Ok && HeaderCheck(file) == Ok && View(m1, r) == map[] && |file| >= EHDR_SIZE && entry == EntryPoint(file)
      requires Loaded(m1, m2, r, file, Phdrs(file), |Phdrs(file)|) && ImageInPlace(m2.cfg.nx, m2.ram, r, file) && EntryRuns(m2.ram, r, file)
      requires ImageEnd(Phdrs(file), imageEnd) && imageEnd % PAGE_SIZE == 0 && 0 < imageEnd < STACK_GUARD
      requires PagesAdded(m2, m3, r, STACK_BASE / PAGE_SIZE, STACK_TOP / PAGE_SIZE)
      requires exists s :: Created(k, k', m3, m', s, UserProc(r, entry, imageEnd))
      ensures exists s :: Starts(m'.cfg.nx, m'.ram, k', s, k.nextPid, file)
    {
      hide Inv, MemOk, KernOk, View, Loaded, HeaderCheck, Phdrs, PagesAdded, Created, ImageInPlace, EntryRuns, SegmentsOk, ImageEnd, Starts, EntryPoint;
      var s :| Created(k, k', m3, m', s, UserProc(r, entry, imageEnd));
      Started(k, k', m1, m2, m3, m', s, r, file, imageEnd);
    }

    static lemma SameKept(m: Mem, m': Mem, r: nat)
      requires View(m', r) == View(m, r)
      ensures ViewKept(m, m', r)
    {
      hide View;
    }

    /** Starts a program. Whatever step fails, every frame taken so far goes back, and the
        process table is as it was. `open` is the answer to opening the file. */
    method Spawn(open: Status, file: seq<Byte>) returns (status: Status, pid: nat)
      requires Valid()
      modifies this`procs, this`head, this`order, this`nextPid, mac
      ensures Valid()
      ensures status != Ok ==> K() == old(K()) && FramesBack(old(mac.M()), mac.M())
      ensures open != Ok ==> status == open
      ensures open == Ok ==> SpawnOutcome(old(K()), old(mac.M()), file, status)
      ensures status == Ok ==> open == Ok && ElfCheck(file) == Ok && HeaderCheck(file) == Ok && SpawnEffect(old(K()), K(), old(mac.M()), mac.M(), file, pid)
      ensures status == Ok ==> exists s :: Starts(mac.cfg.nx, mac.ram, K(), s, pid, file)
    {
      hide ImageInPlace, EntryRuns, Starts, KernOk, MemOk, Inv, HeapOk, Only, View, FramesBack, Loaded, ElfCheck, HeaderCheck, ImageEnd, Phdrs, SpawnEffect, PagesAdded, Created, Destroyed,
           SpawnOutcome, LoadOutcome, StackOutcome, HasSlot, Cost, Paid;
      ghost var k, m := K(), mac.M();
      FramesStill(m);
      pid := 0;
      if open != Ok {
        return open, 0;
      }
      var r;
      status, r := mac.CreateSpace();
      if status != Ok {
        NoFrameOutcome(k, m, file);
        return status, 0;
      }
      ghost var m1 := mac.M();
      MemBuilt(k, m, m1, r, 0);
      var entry, imageEnd;
      status, entry, imageEnd := ElfLoad(mac, r, file);
      ghost var m2 := mac.M();
      MemBuilt(k, m1, m2, r, r);
      OnlyTwice(m, m1, m2, r, {}, {}, {});
      NoFrames(0);
      if status != Ok {
        LoadEnds(k, m, m1, m2, r, file, status);
        Abandon(k, m, r);
        return status, 0;
      }
      status := MapUserStack(r);
      ghost var m3 := mac.M();
      StackEnds(k, m, m1, m2, m3, r, file, status);
      MemBuilt(k, m2, m3, r, r);
      OnlyTwice(m, m2, m3, r, {}, {}, {});
      if status != Ok {
        Abandon(k, m, r);
        return status, 0;
      }
      FreshHeap(m1, m2, m3, r, file, imageEnd);
      status, pid := NewProcess(UserProc(r, entry, imageEnd));
      if status != Ok {
        Abandon(k, m, r);
        return status, 0;
      }
      Spawned(k, K(), m, m1, m2, m3, mac.M(), file, r, entry, imageEnd, pid);
      StartedSomewhere(k, K(), m1, m2, m3, mac.M(), r, file, entry, imageEnd);
    }

    /** The frames a program takes: a root, and one for every table and page of its segments
        and its stack. */
    static ghost function ProgramFrames(phs: seq<Phdr>): nat {
      1 + |SegNodes(phs, |phs|) + NeedsAll(STACK_BASE / PAGE_SIZE, STACK_TOP / PAGE_SIZE)|
    }

    /** When a program that could be opened starts, and what stops it: all of this is known
        from the file, the number of free frames and the process table before the call. */
    static ghost predicate SpawnOutcome(k: Kern, m: Mem, file: seq<Byte>, status: Status) {
      if m.free == [] then status == OutOfMemory
      else if ElfCheck(file) != Ok then status == ElfCheck(file)
      else
        HeaderCheck(file) == Ok &&
        var phs := Phdrs(file);
        var clash, forbidden, poor := Overlapping(phs), m.cfg.nx && WriteAndExecute(phs), |m.free| < ProgramFrames(phs);
        (exists load {:trigger LoadAnswer(NewGround(m), phs, load)} :: LoadAnswer(NewGround(m), phs, load) &&
          status == if load != Ok then load else if poor then OutOfMemory else if HasSlot(k) then Ok else ProcessFailed) &&
        (status == Ok <==> !clash && !forbidden && !poor && HasSlot(k)) &&
        (status == AlreadyExists ==> clash) && (status == Permission ==> forbidden) &&
        (status == OutOfMemory ==> poor || clash || forbidden) && (status == ProcessFailed ==> !HasSlot(k)) &&
        (status == Ok || status == AlreadyExists || status == Permission || status == OutOfMemory || status == ProcessFailed)
    }

    /** A new space: its root has taken one frame, and nothing is mapped. */
    static ghost function NewGround(m: Mem): Ground {
      Ground(|m.free| - 1, {[]}, {}, m.cfg.nx)
    }

    static lemma NewSpace(m: Mem, m1: Mem, r: nat)
      requires m1.cfg == m.cfg && |m1.free| == |m.free| - 1
      requires r in m1.spaces && m1.spaces[r].Keys == {[]} && View(m1, r) == map[]
      ensures GroundOf(m1, r) == NewGround(m)
    {
      hide View;
    }

    static lemma NoFrameOutcome(k: Kern, m: Mem, file: seq<Byte>)
      requires m.free == []
      ensures SpawnOutcome(k, m, file, OutOfMemory)
    {
    }

    // In a new space every node but the root has to be paid for.
    static lemma FreshCost(m: Mem, r: nat, nodes: set<Path>)
      requires r in m.spaces && m.spaces[r].Keys == {[]} && [] !in nodes
      ensures Cost(m, r, nodes) == |nodes|
    {
      assert nodes - NodesOf(m, r) == nodes;
    }

    static lemma {:induction false} NeedsNoRoot(a: nat, b: nat)
      ensures [] !in NeedsAll(a, b)
      decreases b
    {
      hide PathOf;
      if a < b {
        NeedsNoRoot(a, b - 1);
        var p := PathOf(b - 1);
        assert |p[..1]| == 1 && |p[..2]| == 2 && |p[..3]| == 3;
      }
    }

    static lemma {:induction false} SegsNoRoot(phs: seq<Phdr>, k: nat)
      requires k <= |phs|
      ensures [] !in SegNodes(phs, k)
      decreases k
    {
      hide NeedsAll, Base, End;
      if k > 0 {
        SegsNoRoot(phs, k - 1);
        NeedsNoRoot(Base(phs[k - 1]), End(phs[k - 1]));
      }
    }

    static lemma LoadEnds(k: Kern, m: Mem, m1: Mem, m2: Mem, r: nat, file: seq<Byte>, status: Status)
      requires m.free != [] && m1.cfg == m.cfg && |m1.free| == |m.free| - 1 && status != Ok
      requires r in m1.spaces && m1.spaces[r].Keys == {[]} && View(m1, r) == map[]
      requires ElfCheck(file) != Ok ==> status == ElfCheck(file)
      requires ElfCheck(file) == Ok ==> HeaderCheck(file) == Ok && LoadOutcome(m1, m2, r, Phdrs(file), status)
      ensures SpawnOutcome(k, m, file, status)
    {
      hide HeaderCheck, Phdrs, View, NeedsAll, Cost, ElfCheck, Overlapping, WriteAndExecute, HasSlot, SegNodes, LoadAnswer, NewGround, GroundOf;
      NewSpace(m, m1, r);
      if ElfCheck(file) == Ok {
        var phs := Phdrs(file);
        ProgramCost(m1, r, phs);
        assert !Occupied(m1, r, phs);
      }
    }

    static lemma ProgramCost(m: Mem, r: nat, phs: seq<Phdr>)
      requires r in m.spaces && m.spaces[r].Keys == {[]}
      ensures Cost(m, r, SegNodes(phs, |phs|)) < ProgramFrames(phs)
      ensures 1 + Cost(m, r, SegNodes(phs, |phs|) + NeedsAll(STACK_BASE / PAGE_SIZE, STACK_TOP / PAGE_SIZE)) == ProgramFrames(phs)
    {
      hide NeedsAll, Cost, SegNodes;
      var x, y := SegNodes(phs, |phs|), NeedsAll(STACK_BASE / PAGE_SIZE, STACK_TOP / PAGE_SIZE);
      SegsNoRoot(phs, |phs|);
      NeedsNoRoot(STACK_BASE / PAGE_SIZE, STACK_TOP / PAGE_SIZE);
      FreshCost(m, r, x + y);
      CostMore(m, r, x, x + y);
    }

    // The stack never meets a segment, so only frames can be missing.
    static lemma StackEnds(k: Kern, m: Mem, m1: Mem, m2: Mem, m3: Mem, r: nat, file: seq<Byte>, status: Status)
      requires m.free != [] && m1.cfg == m.cfg && |m1.free| == |m.free| - 1
      requires r in m1.spaces && m1.spaces[r].Keys == {[]} && View(m1, r) == map[]
      requires ElfCheck(file) == Ok && HeaderCheck(file) == Ok && LoadOutcome(m1, m2, r, Phdrs(file), Ok)
      requires Loaded(m1, m2, r, file, Phdrs(file), |Phdrs(file)|) && StackOutcome(m2, m3, r, status)
      ensures status != Ok ==> SpawnOutcome(k, m, file, status)
      ensures status == Ok ==> SpawnOutcome(k, m, file, if HasSlot(k) then Ok else ProcessFailed)
    {
      hide HeaderCheck, Phdrs, View, NeedsAll, Cost, Overlapping, WriteAndExecute, HasSlot, SegNodes, Paid, Loaded, Occupied, Clashes, LoadAnswer, NewGround, GroundOf;
      NewSpace(m, m1, r);
      var phs := Phdrs(file);
      var x, y := SegNodes(phs, |phs|), NeedsAll(STACK_BASE / PAGE_SIZE, STACK_TOP / PAGE_SIZE);
      ProgramCost(m1, r, phs);
      NoStackClash(m1, m2, r, file);
      if status == Ok {
        PaidTwice(m1, m2, m3, r, x, y);
        PaidAll(m1, m3, r, x + y);
      } else {
        Unpaid(m1, m2, r, x, y, x + y);
      }
    }

    static lemma NoStackClash(m1: Mem, m2: Mem, r: nat, file: seq<Byte>)
      requires View(m1, r) == map[] && ElfCheck(file) == Ok && HeaderCheck(file) == Ok && Loaded(m1, m2, r, file, Phdrs(file), |Phdrs(file)|)
      ensures !Clashes(m2, r, STACK_BASE / PAGE_SIZE, STACK_TOP / PAGE_SIZE)
    {
      hide HeaderCheck, Phdrs, View, Loaded, Base, End, SegmentBad;
      var phs := Phdrs(file);
      forall n | STACK_BASE / PAGE_SIZE <= n < STACK_TOP / PAGE_SIZE ensures n !in View(m2, r) {
        LoadedPage(m1, m2, r, file, phs, |phs|, n);
        if InSome(phs, |phs|, n) {
          var i :| 0 <= i < |phs| && InSeg(phs[i], n);
          SegmentBounds(phs[i], |file|);
        }
      }
    }

    // Destroys a space that was built up and is not wanted after all.
    method Abandon(ghost k: Kern, ghost m: Mem, r: nat)
      requires mac.Valid() && KernOk(k) && K() == k && MemOk(k, mac.M(), r) && r != 0 && nextPid > 0
      requires Inv(m) && Only(m, mac.M(), r, {}, {}) && r !in m.spaces && r in mac.spaces
      modifies mac
      ensures Valid() && FramesBack(m, mac.M())
    {
      hide KernOk, MemOk, Inv, HeapOk, Only, FramesBack, Destroyed;
      ghost var m1 := mac.M();
      mac.DestroySpace(r);
      MemDestroyed(k, m1, mac.M(), r);
      BuiltAndDestroyed(m, m1, mac.M(), r);
    }

    // Between the image and the stack guard nothing is mapped yet.
    static lemma FreshHeap(m1: Mem, m2: Mem, m3: Mem, r: nat, file: seq<Byte>, imageEnd: nat)
      requires HeaderCheck(file) == Ok && View(m1, r) == map[] && Loaded(m1, m2, r, file, Phdrs(file), |Phdrs(file)|)
      requires ImageEnd(Phdrs(file), imageEnd) && imageEnd % PAGE_SIZE == 0 && 0 < imageEnd < STACK_GUARD
      requires PagesAdded(m2, m3, r, STACK_BASE / PAGE_SIZE, STACK_TOP / PAGE_SIZE) && r in m3.spaces
      ensures HeapOk(m3, r, imageEnd, imageEnd)
    {
      hide View, Phdrs, Only, PagesKept, HeaderCheck, SegPage;
      var phs := Phdrs(file);
      forall n | imageEnd / PAGE_SIZE <= n < GUARD_PAGE ensures n !in View(m3, r) {
        InImage(phs, imageEnd, n);
      }
    }

    static lemma InImage(phs: seq<Phdr>, end: nat, n: nat)
      requires ImageEnd(phs, end)
      ensures InSome(phs, |phs|, n) ==> PAGE_SIZE * (n + 1) <= end
    {
      if InSome(phs, |phs|, n) {
        var i :| 0 <= i < |phs| && InSeg(phs[i], n);
        assert phs[i].kind == PT_LOAD;
      }
    }

    /** A spawned process: a new address space with the program, the stack and nothing else
        mapped, and a new ready process that has it. */
    static ghost predicate SpawnEffect(k: Kern, k': Kern, m: Mem, m': Mem, file: seq<Byte>, pid: nat) {
      HeaderCheck(file) == Ok &&
      exists r: nat, m1: Mem, m2: Mem, m3: Mem, s: nat, imageEnd: nat ::
        r !in m.spaces && Only(m, m3, r, {}, {}) && View(m1, r) == map[] &&
        Loaded(m1, m2, r, file, Phdrs(file), |Phdrs(file)|) && ImageEnd(Phdrs(file), imageEnd) &&
        PagesAdded(m2, m3, r, STACK_BASE / PAGE_SIZE, STACK_TOP / PAGE_SIZE) &&
        Created(k, k', m3, m', s, UserProc(r, EntryPoint(file), imageEnd)) && pid == k.nextPid
    }

    static lemma Spawned(k: Kern, k': Kern, m: Mem, m1: Mem, m2: Mem, m3: Mem, m': Mem, file: seq<Byte>, r: nat, entry: nat, imageEnd: nat, pid: nat)
      requires HeaderCheck(file) == Ok && r !in m.spaces && Only(m, m3, r, {}, {}) && View(m1, r) == map[]
      requires Loaded(m1, m2, r, file, Phdrs(file), |Phdrs(file)|) && ImageEnd(Phdrs(file), imageEnd)
      requires PagesAdded(m2, m3, r, STACK_BASE / PAGE_SIZE, STACK_TOP / PAGE_SIZE) && |file| >= EHDR_SIZE && entry == EntryPoint(file)
      requires pid == k.nextPid && exists s :: Created(k, k', m3, m', s, UserProc(r, entry, imageEnd))
      ensures SpawnEffect(k, k', m, m', file, pid)
    {
      hide Only, View, Loaded, ImageEnd, PagesAdded, Created, HeaderCheck, Phdrs, EntryPoint;
    }

    // ------------------------------------------------------------------------------
    // Heap and time

    /** Moves the break of the current process. */
    method MoveBreak(inc: int) returns (status: Status, brk: nat)
      requires Valid() && I64_MIN <= inc <= 0x7FFF_FFFF_FFFF_FFFF
      modifies this`procs, mac
      ensures Valid() && K() == old(K()).(procs := procs) && NotFarther(old(K()), K())
      ensures current < |old(procs)| && procs == old(procs)[current := old(procs)[current].(heapBrk := brk)]
      ensures var p := old(procs)[current];
              var check := BrkCheck(p.root, p.heapStart, p.heapBrk, inc);
              if check != Ok then status == check && brk == p.heapBrk && mac.M() == old(mac.M())
              else if inc > 0 && |old(mac.free)| < HeapCost(old(mac.M()), p.root, p.heapBrk, inc) then
                status == OutOfMemory && brk == p.heapBrk && Restored(old(mac.M()), mac.M(), p.root)
              else status == Ok && brk == p.heapBrk + inc && BrkMoved(old(mac.M()), mac.M(), p.root, p.heapBrk, brk)
    {
      hide KernOk, MemOk, Inv, HeapOk, BrkMoved, Restored, NotFarther, HeapCost;
      ghost var k, m := K(), mac.M();
      CurrentFacts(k);
      var p := procs[current];
      if p.root != 0 { ProcHeap(k, m, current); }
      status, brk := Brk(mac, p.root, p.heapStart, p.heapBrk, inc);
      procs := procs[current := p.(heapBrk := brk)];
      assert procs[current].heapBrk == p.heapBrk ==> procs == k.procs;
      SameRanks(k, K());
      if BrkCheck(p.root, p.heapStart, p.heapBrk, inc) == Ok {
        MovedOnly(m, mac.M(), p.root, p.heapBrk, brk, status);
        RootsOf(k);
        BrkTable(k, current, brk);
        MemBrk(k, m, mac.M(), current, brk);
      }
    }

    static lemma ProcHeap(k: Kern, m: Mem, s: nat)
      requires MemOk(k, m, 0) && s < |k.procs| && k.procs[s].inUse && k.procs[s].root != 0
      ensures HeapOk(m, k.procs[s].root, k.procs[s].heapStart, k.procs[s].heapBrk)
    {
      hide HeapOk;
      assert ProcMem(k, m, s);
    }

    static lemma MovedOnly(m: Mem, m': Mem, r: nat, brk: nat, brk': nat, status: Status)
      requires if status == Ok then BrkMoved(m, m', r, brk, brk') else Restored(m, m', r)
      ensures Only(m, m', r, {}, {})
    {
      hide Only, View;
    }

    static lemma SameRanks(k: Kern, k': Kern)
      requires KernOk(k) && k'.order == k.order && k'.current == k.current
      ensures NotFarther(k, k')
    {
    }

    static lemma BrkTable(k: Kern, s: nat, brk: nat)
      requires KernOk(k) && s < |k.procs|
      ensures KernOk(k.(procs := k.procs[s := k.procs[s].(heapBrk := brk)]))
    {
      hide PidsOk, RootsOk;
      var k' := k.(procs := k.procs[s := k.procs[s].(heapBrk := brk)]);
      forall i | 0 <= i < |k'.order| ensures SlotOk(k', i) { assert SlotOk(k, i); }
      SameIds(k, k');
    }

    /** The timer interrupt. */
    method Tick()
      requires Valid()
      modifies this`tick
      ensures Valid() && tick == old(tick) + 1 && K() == old(K()).(tick := tick) && NotFarther(old(K()), K())
    {
      hide MemOk, Inv, NotFarther;
      ghost var k := K();
      tick := tick + 1;
      SameRanks(k, K());
      forall i | 0 <= i < |order| ensures SlotOk(K(), i) { assert SlotOk(k, i); }
      MemSame(k, K(), mac.M(), 0);
    }

    /** Reaping on request. */
    method ReapTerminated()
      requires Valid()
      modifies this`procs, this`head, this`order, mac
      ensures Valid() && ReapedTable(old(K()), K()) && ReapedMem(old(K()), old(mac.M()), mac.M()) && NoneLeft(K())
    {
      hide KernOk, MemOk, Inv, ReapedTable, ReapedMem, Dead;
      Reap(0);
    }
  }
}
