/** How the process table and memory fit together: which address space is whose, and what
    operations on memory leave of that. */
module KernMem {
  import opened Results
  import opened Bytes
  import opened Entries
  import opened Frames
  import opened Translation
  import opened Effects
  import opened Paging
  import opened UserPages
  import opened Umem
  import opened Scheduling

  /** No frame is in the kernel's hands: each is free or a node of an address space. */
  ghost predicate Settled(m: Mem) {
    forall f {:trigger m.own[f]} :: f in m.own ==> m.own[f] != Held
  }

  ghost predicate ProcMem(k: Kern, m: Mem, s: nat) {
    s < |k.procs| && HeapOk(m, k.procs[s].root, k.procs[s].heapStart, k.procs[s].heapBrk)
  }

  ghost predicate Owner(k: Kern, s: nat, x: nat) {
    s < |k.procs| && k.procs[s].inUse && k.procs[s].root == x
  }

  ghost predicate Owned(k: Kern, x: nat) {
    exists s :: Owner(k, s, x)
  }

  /** Every address space belongs to a process, except `extra` (0 for none); the heap of
      every process is in order. */
  ghost predicate MemOk(k: Kern, m: Mem, extra: nat) {
    Settled(m) && !(extra != 0 && Owned(k, extra)) && (extra != 0 ==> extra in m.spaces) &&
    (forall s {:trigger ProcMem(k, m, s)} :: 0 <= s < |k.procs| && k.procs[s].inUse && k.procs[s].root != 0 ==> ProcMem(k, m, s)) &&
    (forall x {:trigger Owned(k, x)} :: x in m.spaces && x != extra ==> Owned(k, x))
  }

  lemma OwnsRoot(k: Kern, s: nat)
    requires s < |k.procs| && k.procs[s].inUse
    ensures Owned(k, k.procs[s].root)
  {
    assert Owner(k, s, k.procs[s].root);
  }

  lemma OnlySettled(m: Mem, m': Mem, r: nat)
    requires Settled(m) && Only(m, m', r, {}, {})
    ensures Settled(m')
  {
  }

  lemma HeapKept(m: Mem, m': Mem, x: nat, start: nat, brk: nat)
    requires HeapOk(m, x, start, brk) && x in m'.spaces && View(m', x) == View(m, x) && m'.cfg == m.cfg
    ensures HeapOk(m', x, start, brk)
  {
    hide View, PageUp;
    forall n | start / PAGE_SIZE <= n < PageUp(brk) ensures HeapPage(m', x, n) { assert HeapPage(m, x, n); }
  }

  // An operation on space `r` leaves the heaps of the other processes in order.
  lemma HeapElsewhere(m: Mem, m': Mem, r: nat, x: nat, start: nat, brk: nat)
    requires Inv(m) && Inv(m') && Only(m, m', r, {}, {}) && x != r && HeapOk(m, x, start, brk)
    ensures HeapOk(m', x, start, brk)
  {
    hide Inv, View, HeapOk;
    HeapFacts(m, x, start, brk);
    OthersUndisturbed(m, m', r, {}, {}, x, 0);
    CfgSame(m, m', r, {}, {});
    HeapKept(m, m', x, start, brk);
  }

  /** Building up a space that belongs to no process yet. */
  lemma MemBuilt(k: Kern, m: Mem, m': Mem, r: nat, extra: nat)
    requires Inv(m) && Inv(m') && MemOk(k, m, extra) && Only(m, m', r, {}, {}) && r in m'.spaces && r != 0
    requires extra == r || (extra == 0 && r !in m.spaces)
    ensures MemOk(k, m', r)
  {
    hide Inv, HeapOk, Only;
    OnlySettled(m, m', r);
    if extra == 0 { NotOwned(k, m, r); }
    forall s | 0 <= s < |k.procs| && k.procs[s].inUse && k.procs[s].root != 0 ensures ProcMem(k, m', s) {
      assert ProcMem(k, m, s);
      OwnsRoot(k, s);
      HeapElsewhere(m, m', r, k.procs[s].root, k.procs[s].heapStart, k.procs[s].heapBrk);
    }
    SpacesOnly(m, m', r);
    forall x | x in m'.spaces && x != r ensures Owned(k, x) { NonZeroRoot(m, x); }
  }

  lemma SpacesOnly(m: Mem, m': Mem, r: nat)
    requires Only(m, m', r, {}, {})
    ensures forall x :: x in m'.spaces && x != r ==> x in m.spaces
  {
  }

  lemma NotOwned(k: Kern, m: Mem, r: nat)
    requires MemOk(k, m, 0) && r !in m.spaces && r != 0
    ensures !Owned(k, r)
  {
    forall s | 0 <= s < |k.procs| && k.procs[s].inUse && k.procs[s].root != 0 ensures k.procs[s].root in m.spaces { assert ProcMem(k, m, s); }
  }

  /** Destroying the space that belongs to no process. */
  lemma MemDestroyed(k: Kern, m: Mem, m': Mem, r: nat)
    requires Inv(m) && Inv(m') && MemOk(k, m, r) && Destroyed(m, m', r) && r != 0
    ensures MemOk(k, m', 0)
  {
    hide Inv, HeapOk, Destroyed;
    DestroyedSettled(m, m', r);
    forall s | 0 <= s < |k.procs| && k.procs[s].inUse && k.procs[s].root != 0 ensures ProcMem(k, m', s) {
      assert ProcMem(k, m, s);
      OwnsRoot(k, s);
      HeapSurvives(m, m', r, k.procs[s].root, k.procs[s].heapStart, k.procs[s].heapBrk);
    }
  }

  lemma DestroyedSettled(m: Mem, m': Mem, r: nat)
    requires Settled(m) && Destroyed(m, m', r)
    ensures Settled(m') && forall x :: x in m'.spaces <==> x in m.spaces && x != r
  {
  }

  lemma HeapSurvives(m: Mem, m': Mem, r: nat, x: nat, start: nat, brk: nat)
    requires Inv(m) && Inv(m') && Destroyed(m, m', r) && x != r && HeapOk(m, x, start, brk)
    ensures HeapOk(m', x, start, brk)
  {
    hide Inv, View, HeapOk, TableRel;
    HeapFacts(m, x, start, brk);
    forall p | p in m.spaces[x] ensures Same(m, m', m.spaces[x][p]) { NodeFact(m, x, p); }
    SameView(m, m', x);
    HeapKept(m, m', x, start, brk);
  }

  /** What a failed construction leaves behind: every frame as free, or as owned, as it was
      before, with the contents owned frames had. */
  ghost predicate FramesBack(m: Mem, m': Mem) {
    m'.spaces == m.spaces && m'.cfg == m.cfg && m'.own.Keys == m.own.Keys &&
    forall f {:trigger Same(m, m', f)} {:trigger m.own[f]} :: f in m.own ==>
      f in m'.own && if m.own[f].FreeAt? then m'.own[f].FreeAt? else Same(m, m', f)
  }

  /** Building up a new space and destroying it again returns exactly what was taken. */
  lemma BuiltAndDestroyed(m: Mem, m1: Mem, m2: Mem, r: nat)
    requires Inv(m) && Inv(m1) && Only(m, m1, r, {}, {}) && r !in m.spaces && Destroyed(m1, m2, r)
    ensures FramesBack(m, m2)
  {
    hide Inv, TableRel;
    assert m2.spaces == m.spaces;
    forall f | f in m.own ensures f in m2.own && if m.own[f].FreeAt? then m2.own[f].FreeAt? else Same(m, m2, f) {
      FrameFact(m, f);
      FrameFact(m1, f);
      if !m.own[f].FreeAt? { assert Foreign(m, r, f); assert Same(m, m1, f); }
      else if m1.own[f].NodeOf? && m1.own[f].root != r { SameNode(m, m1, r, f); }
    }
  }

  // A node of another space was that node before.
  lemma SameNode(m: Mem, m1: Mem, r: nat, f: nat)
    requires Inv(m) && Inv(m1) && Only(m, m1, r, {}, {}) && f in m1.own && m1.own[f].NodeOf? && m1.own[f].root != r
    ensures f in m.own && m.own[f].NodeOf?
  {
    hide Inv, TableRel;
    FrameFact(m1, f);
    NodeFact(m, m1.own[f].root, m1.own[f].path);
  }

  /** Nothing changed at all. */
  lemma FramesStill(m: Mem)
    requires Inv(m)
    ensures FramesBack(m, m)
  {
    hide SpaceOk, FreeSlot;
    forall f | f in m.own ensures Same(m, m, f) { FrameFact(m, f); }
  }

  /** Moving the break of the process in slot `s`. */
  lemma MemBrk(k: Kern, m: Mem, m': Mem, s: nat, brk': nat)
    requires Inv(m) && Inv(m') && MemOk(k, m, 0) && RootsOk(k) && s < |k.procs| && k.procs[s].inUse && k.procs[s].root != 0
    requires Only(m, m', k.procs[s].root, {}, {}) && HeapOk(m', k.procs[s].root, k.procs[s].heapStart, brk')
    ensures MemOk(k.(procs := k.procs[s := k.procs[s].(heapBrk := brk')]), m', 0)
  {
    hide Inv, HeapOk, Only;
    var r := k.procs[s].root;
    var k' := k.(procs := k.procs[s := k.procs[s].(heapBrk := brk')]);
    OnlySettled(m, m', r);
    forall t | 0 <= t < |k'.procs| && k'.procs[t].inUse && k'.procs[t].root != 0 ensures ProcMem(k', m', t) {
      if t != s {
        assert ProcMem(k, m, t);
        HeapElsewhere(m, m', r, k.procs[t].root, k.procs[t].heapStart, k.procs[t].heapBrk);
      }
    }
    SpacesOnly(m, m', r);
    forall x | x in m'.spaces ensures Owned(k', x) {
      if x == r { assert Owner(k', s, r); } else {
        NonZeroRoot(m, x);
        assert Owned(k, x);
        var t :| Owner(k, t, x);
        assert Owner(k', t, x);
      }
    }
  }

  /** The table changed, but not which slots are in use nor their spaces and heaps. */
  lemma MemSame(k: Kern, k': Kern, m: Mem, extra: nat)
    requires MemOk(k, m, extra) && |k'.procs| == |k.procs|
    requires forall s :: 0 <= s < |k.procs| ==>
               k'.procs[s].inUse == k.procs[s].inUse && k'.procs[s].root == k.procs[s].root &&
               k'.procs[s].heapStart == k.procs[s].heapStart && k'.procs[s].heapBrk == k.procs[s].heapBrk
    ensures MemOk(k', m, extra)
  {
    hide HeapOk;
    forall s | 0 <= s < |k'.procs| && k'.procs[s].inUse && k'.procs[s].root != 0 ensures ProcMem(k', m, s) { assert ProcMem(k, m, s); }
    forall x ensures Owned(k', x) <==> Owned(k, x) {
      if Owned(k, x) { var s :| Owner(k, s, x); assert Owner(k', s, x); }
      if Owned(k', x) { var s :| Owner(k', s, x); assert Owner(k, s, x); }
    }
  }

  /** A new process takes over the space that belonged to nobody. */
  lemma MemAdopted(k: Kern, k': Kern, m: Mem, s: nat, extra: nat)
    requires MemOk(k, m, extra) && |k'.procs| == |k.procs| && s < |k.procs| && !k.procs[s].inUse
    requires k'.procs[s].inUse && k'.procs[s].root == extra
    requires extra != 0 ==> HeapOk(m, extra, k'.procs[s].heapStart, k'.procs[s].heapBrk)
    requires forall t :: 0 <= t < |k.procs| && t != s ==>
               k'.procs[t].inUse == k.procs[t].inUse && k'.procs[t].root == k.procs[t].root &&
               k'.procs[t].heapStart == k.procs[t].heapStart && k'.procs[t].heapBrk == k.procs[t].heapBrk
    ensures MemOk(k', m, 0)
  {
    hide HeapOk;
    forall t | 0 <= t < |k'.procs| && k'.procs[t].inUse && k'.procs[t].root != 0 ensures ProcMem(k', m, t) {
      if t != s { assert ProcMem(k, m, t); }
    }
    forall x | x in m.spaces ensures Owned(k', x) {
      if x == extra { assert Owner(k', s, x); } else {
        assert Owned(k, x);
        var t :| Owner(k, t, x);
        assert Owner(k', t, x);
      }
    }
  }

  /** A process is taken out of the table and its space, if any, destroyed. */
  lemma MemReaped(k: Kern, k': Kern, m: Mem, m': Mem, s: nat, extra: nat)
    requires Inv(m) && Inv(m') && MemOk(k, m, extra) && RootsOk(k) && |k'.procs| == |k.procs| && s < |k.procs| && k.procs[s].inUse && !k'.procs[s].inUse
    requires forall t :: 0 <= t < |k.procs| && t != s ==>
               k'.procs[t].inUse == k.procs[t].inUse && k'.procs[t].root == k.procs[t].root &&
               k'.procs[t].heapStart == k.procs[t].heapStart && k'.procs[t].heapBrk == k.procs[t].heapBrk
    requires if k.procs[s].root == 0 then m' == m else Destroyed(m, m', k.procs[s].root)
    ensures MemOk(k', m', extra)
  {
    hide Inv, HeapOk, Destroyed;
    var r := k.procs[s].root;
    if r != 0 { DestroyedSettled(m, m', r); assert Owner(k, s, r); }
    forall t | 0 <= t < |k'.procs| && k'.procs[t].inUse && k'.procs[t].root != 0 ensures ProcMem(k', m', t) {
      assert ProcMem(k, m, t);
      if r != 0 { HeapSurvives(m, m', r, k.procs[t].root, k.procs[t].heapStart, k.procs[t].heapBrk); }
    }
    forall x | x in m'.spaces && x != extra ensures Owned(k', x) {
      assert Owned(k, x);
      var t :| Owner(k, t, x);
      if t != s { assert Owner(k', t, x); } else { NonZeroRoot(m, x); }
    }
    forall x ensures Owned(k', x) ==> Owned(k, x) {
      if Owned(k', x) { var t :| Owner(k', t, x); assert Owner(k, t, x); }
    }
  }
}
