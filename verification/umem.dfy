/** The user heap: growing and shrinking the break of a process. */
module Umem {
  import opened Results
  import opened Bytes
  import opened Entries
  import opened Frames
  import opened Translation
  import opened Processor
  import opened Effects
  import opened Paging
  import opened UserPages

  const STACK_TOP: nat := 0x7FF8_0000_0000
  const STACK_SIZE: nat := 64 * 1024
  const STACK_BASE: nat := STACK_TOP - STACK_SIZE
  const STACK_GUARD: nat := STACK_BASE - 4096
  const GUARD_PAGE: nat := STACK_GUARD / 4096
  const GROW_MAX: nat := 256 * 1024 * 1024
  const HEAP_MAX: nat := 512 * 1024 * 1024
  const I64_MIN: int := -0x8000_0000_0000_0000

  /** A heap page: writable user data, not executable where that can be said. */
  ghost predicate HeapPage(m: Mem, r: nat, n: nat) {
    n in View(m, r) && View(m, r)[n].user && View(m, r)[n].rw && View(m, r)[n].exec == !m.cfg.nx
  }

  /** From the start of the heap to the stack guard exactly the pages below the break are
      mapped, and the break respects the cap and the guard. */
  ghost predicate HeapOk(m: Mem, r: nat, start: nat, brk: nat) {
    r in m.spaces && 0 < start && start % PAGE_SIZE == 0 && start <= brk < STACK_GUARD && brk - start <= HEAP_MAX &&
    (forall n {:trigger HeapPage(m, r, n)} :: start / PAGE_SIZE <= n < PageUp(brk) ==> HeapPage(m, r, n)) &&
    (forall n {:trigger n in View(m, r)} :: PageUp(brk) <= n < GUARD_PAGE ==> n !in View(m, r))
  }

  /** Which requests are refused outright. */
  function BrkCheck(r: nat, start: nat, brk: nat, inc: int): Status {
    if r == 0 then Permission
    else if inc == 0 then Ok
    else if inc > GROW_MAX then InvalidArg
    else if inc > 0 && brk + inc - start > HEAP_MAX then OutOfMemory
    else if inc > 0 && brk + inc >= STACK_GUARD then OutOfMemory
    else if inc == I64_MIN then InvalidArg
    else if -inc > brk - start then InvalidArg
    else Ok
  }

  /** Pages `a` to `b` were added to space `r`, all zero; nothing else changed. */
  ghost predicate PagesAdded(m: Mem, m': Mem, r: nat, a: nat, b: nat) {
    Extended(m, m', r, a, b) &&
    (forall n {:trigger ZeroHeapPage(m', r, n)} :: a <= n < b ==> ZeroHeapPage(m', r, n))
  }

  ghost predicate ZeroHeapPage(m: Mem, r: nat, n: nat) {
    PageIs(m, r, n, ZeroPage(), DATA_FLAGS)
  }

  /** Pages `a` to `b` were freed; the others are mapped as before, with the same bytes. */
  ghost predicate PagesFreed(m: Mem, m': Mem, r: nat, a: nat, b: nat) {
    Only(m, m', r, {}, {}) && PagesKept(m', m, r) &&
    (forall n {:trigger n in View(m', r)} {:trigger n in View(m, r)} :: n in View(m', r) <==> n in View(m, r) && !(a <= n < b)) &&
    (forall n {:trigger View(m', r)[n]} :: n in View(m', r) ==> View(m', r)[n] == View(m, r)[n])
  }

  /** No page of space `r` appeared, disappeared or changed. */
  ghost predicate Restored(m: Mem, m': Mem, r: nat) {
    r in m.spaces && r in m'.spaces && Only(m, m', r, {}, {}) && View(m', r) == View(m, r) &&
    forall n {:trigger View(m, r)[n]} :: n in View(m, r) ==> Same(m, m', View(m, r)[n].frame)
  }

  /** What a change of the break from `brk` to `brk'` does. */
  ghost predicate BrkMoved(m: Mem, m': Mem, r: nat, brk: nat, brk': nat) {
    if brk <= brk' then PagesAdded(m, m', r, PageUp(brk), PageUp(brk')) else PagesFreed(m, m', r, PageUp(brk'), PageUp(brk))
  }

  // ----------------------------------------------------------------------------------

  lemma FreedNothing(m: Mem, r: nat, a: nat)
    requires Inv(m) && r in m.spaces
    ensures PagesFreed(m, m, r, a, a)
  {
    hide Inv, View;
    OnlyNothing(m, r);
  }

  lemma FreedMore(m0: Mem, m1: Mem, m2: Mem, r: nat, a: nat, b: nat)
    requires PagesFreed(m0, m1, r, a, b) && a <= b && FreePageEffect(m1, m2, r, b)
    ensures PagesFreed(m0, m2, r, a, b + 1)
  {
    hide View, PagesKept, Only;
    OnlyTwice(m0, m1, m2, r, {}, {}, {});
    NoFrames(0);
    PagesKeptTwice(m2, m1, m0, r);
  }

  /** Adding pages and freeing the same pages again puts everything back. */
  lemma AddedThenFreed(m0: Mem, m1: Mem, m2: Mem, r: nat, a: nat, b: nat)
    requires Inv(m0) && Inv(m1) && Inv(m2) && PagesAdded(m0, m1, r, a, b) && PagesFreed(m1, m2, r, a, b)
    requires forall n {:trigger n in View(m0, r)} :: a <= n < b ==> n !in View(m0, r)
    ensures Restored(m0, m2, r)
  {
    hide Inv, View, PagesKept, Only;
    OnlyTwice(m0, m1, m2, r, {}, {}, {});
    NoFrames(0);
    InSpace(m0, m1, r);
    InSpace(m2, m1, r);
    forall n | n in View(m0, r) ensures Same(m0, m2, View(m0, r)[n].frame) {
      KeptPage(m0, m1, r, n);
      KeptPage(m2, m1, r, n);
    }
  }

  /** Unmaps and frees the pages from `from` up to `to`. */
  method FreePages(mac: Machine, r: nat, from: nat, to: nat)
    requires mac.Valid() && r in mac.spaces && 0 < from <= to <= USER_PAGES
    requires forall n {:trigger n in View(mac.M(), r)} :: from <= n < to ==> n in View(mac.M(), r)
    modifies mac
    ensures mac.Valid() && PagesFreed(old(mac.M()), mac.M(), r, from, to)
  {
    hide Inv, View, PagesFreed, FreePageEffect, Only;
    ghost var m0 := mac.M();
    NonZeroRoot(m0, r);
    FreedNothing(m0, r, from);
    var page := from;
    while page < to
      invariant from <= page <= to && mac.Valid() && PagesFreed(m0, mac.M(), r, from, page)
    {
      ghost var m1 := mac.M();
      FreedFacts(m0, m1, r, from, page);
      PageAddress(page);
      var status := mac.UnmapFreePage(r, PAGE_SIZE * page);
      FreedMore(m0, m1, mac.M(), r, from, page);
      page := page + 1;
    }
  }

  lemma FreedFacts(m0: Mem, m1: Mem, r: nat, a: nat, b: nat)
    requires PagesFreed(m0, m1, r, a, b)
    ensures r in m1.spaces && forall n :: n in View(m0, r) && n >= b ==> n in View(m1, r)
  {
    hide View, Only;
  }

  /** Maps fresh zero pages from `from` up to `to`; when memory runs out, the pages mapped
      so far are freed again. */
  method AddPages(mac: Machine, r: nat, from: nat, to: nat) returns (status: Status)
    requires mac.Valid() && r in mac.spaces && 0 < from <= to <= USER_PAGES
    requires forall n {:trigger n in View(mac.M(), r)} :: from <= n < to ==> n !in View(mac.M(), r)
    modifies mac
    ensures mac.Valid() && status == if |old(mac.free)| < Cost(old(mac.M()), r, NeedsAll(from, to)) then OutOfMemory else Ok
    ensures status == Ok ==> PagesAdded(old(mac.M()), mac.M(), r, from, to)
    ensures status == Ok ==> |mac.free| == |old(mac.free)| - Cost(old(mac.M()), r, NeedsAll(from, to))
    ensures status == OutOfMemory ==> Restored(old(mac.M()), mac.M(), r)
  {
    hide Inv, View, Extended, PagesAdded, Only, Restored, PagesKept, PageIs, Paid, Cost, NeedsAll, Needs;
    ghost var m0 := mac.M();
    PaidSoFar(m0, r, from);
    ExtendedNone(m0, r, from);
    AddedNone(m0, m0, r, from);
    var page := from;
    while page < to
      invariant from <= page <= to && mac.Valid() && PagesAdded(m0, mac.M(), r, from, page) && Paid(m0, mac.M(), r, NeedsAll(from, page))
    {
      ghost var m1 := mac.M();
      AddedFacts(m0, m1, r, from, page);
      status := AddPage(mac, r, page, ZeroPage(), DATA_FLAGS);
      NextPage(m0, m1, mac.M(), r, from, page, to, DATA_FLAGS, status);
      if status != Ok {
        AddedStill(m0, m1, mac.M(), r, from, page);
        Undo(mac, r, from, page, m0);
        return OutOfMemory;
      }
      AddedMore(m0, m1, mac.M(), r, from, page);
      page := page + 1;
    }
    PaidAll(m0, mac.M(), r, NeedsAll(from, to));
    status := Ok;
  }

  lemma PaidSoFar(m: Mem, r: nat, a: nat)
    ensures Paid(m, m, r, NeedsAll(a, a))
  {
    PaidNothing(m, r, {});
  }

  /** One more page on the way from `a` to `c`: it is paid for, or there are not enough
      frames for all of them, or it is refused for another reason. */
  lemma NextPage(m0: Mem, m1: Mem, m2: Mem, r: nat, a: nat, b: nat, c: nat, flags: Flags, status: Status)
    requires Paid(m0, m1, r, NeedsAll(a, b)) && a <= b < c && r in m1.spaces && Inv(m1) && b < USER_PAGES
    requires status == AddStatus(m1, r, b, flags) && (status == Ok ==> Paid(m1, m2, r, Needs(b)))
    ensures status == Ok ==> Paid(m0, m2, r, NeedsAll(a, b + 1))
    ensures status == OutOfMemory && b !in View(m1, r) ==> |m0.free| < Cost(m0, r, NeedsAll(a, c))
    ensures status == AlreadyExists ==> b in View(m1, r)
    ensures status == Permission ==> m1.cfg.nx && flags.rw && !flags.nx
    ensures m1.cfg.nx && flags.rw && !flags.nx ==> status != Ok
    ensures status == Ok || status == OutOfMemory || status == AlreadyExists || status == Permission
  {
    hide Inv, View, Cost, Needs, Paid;
    NeedsJoin(a, b + 1, c);
    if status == Ok { PaidTwice(m0, m1, m2, r, NeedsAll(a, b), Needs(b)); }
    if status == OutOfMemory && b !in View(m1, r) {
      Costly(m1, r, b);
      Unpaid(m0, m1, r, NeedsAll(a, b), Needs(b), NeedsAll(a, c));
    }
  }

  // A page that is not mapped costs a frame.
  lemma Costly(m: Mem, r: nat, n: nat)
    requires Inv(m) && r in m.spaces && n < USER_PAGES && n !in View(m, r)
    ensures Cost(m, r, Needs(n)) > 0
  {
    hide Inv, View, PathOf;
    Machine.MappedHere(m, r, n);
    assert PathOf(n) in Needs(n) - NodesOf(m, r);
  }

  lemma AddedNone(m: Mem, m': Mem, r: nat, a: nat)
    requires Extended(m, m', r, a, a)
    ensures PagesAdded(m, m', r, a, a)
  {
    hide Extended;
  }

  lemma AddedMore(m0: Mem, m1: Mem, m2: Mem, r: nat, a: nat, b: nat)
    requires Inv(m1) && Inv(m2) && PagesAdded(m0, m1, r, a, b) && Extended(m1, m2, r, b, b + 1) && a <= b
    requires PageIs(m2, r, b, ZeroPage(), DATA_FLAGS)
    ensures PagesAdded(m0, m2, r, a, b + 1)
  {
    hide Inv, View, Extended, PageIs;
    ExtendedTwice(m0, m1, m2, r, a, b, b + 1);
    forall n | a <= n < b + 1 ensures ZeroHeapPage(m2, r, n) {
      if n < b {
        assert ZeroHeapPage(m1, r, n);
        PageIsKept(m1, m2, r, n, ZeroPage(), DATA_FLAGS, b, b + 1);
      }
    }
  }

  lemma AddedStill(m0: Mem, m1: Mem, m2: Mem, r: nat, a: nat, b: nat)
    requires Inv(m1) && Inv(m2) && PagesAdded(m0, m1, r, a, b) && Extended(m1, m2, r, b, b) && a <= b
    ensures PagesAdded(m0, m2, r, a, b)
  {
    hide Inv, View, Extended, PageIs;
    ExtendedTwice(m0, m1, m2, r, a, b, b);
    forall n | a <= n < b ensures ZeroHeapPage(m2, r, n) {
      assert ZeroHeapPage(m1, r, n);
      PageIsKept(m1, m2, r, n, ZeroPage(), DATA_FLAGS, b, b);
    }
  }

  lemma AddedFacts(m0: Mem, m1: Mem, r: nat, a: nat, b: nat)
    requires PagesAdded(m0, m1, r, a, b)
    ensures r in m1.spaces && Extended(m0, m1, r, a, b)
    ensures forall n :: n in View(m1, r) <==> n in View(m0, r) || a <= n < b
  {
    hide View, Only;
  }

  // Frees the pages a failed growth had added.
  method Undo(mac: Machine, r: nat, from: nat, page: nat, ghost m0: Mem)
    requires mac.Valid() && Inv(m0) && r in m0.spaces && 0 < from <= page <= USER_PAGES && PagesAdded(m0, mac.M(), r, from, page)
    requires forall n {:trigger n in View(m0, r)} :: from <= n < page ==> n !in View(m0, r)
    modifies mac
    ensures mac.Valid() && Restored(m0, mac.M(), r)
  {
    hide Inv, View, PagesAdded, PagesFreed, Only, Restored;
    ghost var m1 := mac.M();
    AddedFacts(m0, m1, r, from, page);
    FreePages(mac, r, from, page);
    AddedThenFreed(m0, m1, mac.M(), r, from, page);
  }

  /** The frames a growth of the heap takes: its pages and the tables that are missing. */
  ghost function HeapCost(m: Mem, r: nat, brk: nat, inc: nat): nat {
    Cost(m, r, NeedsAll(PageUp(brk), PageUp(brk + inc)))
  }

  /** Moves the break of the process with address space `r` and heap start `start`. */
  method Brk(mac: Machine, r: nat, start: nat, brk: nat, inc: int) returns (status: Status, brk': nat)
    requires mac.Valid() && (r != 0 ==> HeapOk(mac.M(), r, start, brk)) && I64_MIN <= inc <= 0x7FFF_FFFF_FFFF_FFFF
    modifies mac
    ensures mac.Valid()
    ensures var check := BrkCheck(r, start, brk, inc);
            if check != Ok then status == check && brk' == brk && mac.M() == old(mac.M())
            else if inc > 0 && |old(mac.free)| < HeapCost(old(mac.M()), r, brk, inc) then
              status == OutOfMemory && brk' == brk && HeapOk(mac.M(), r, start, brk) && Restored(old(mac.M()), mac.M(), r)
            else
              status == Ok && brk' == brk + inc && HeapOk(mac.M(), r, start, brk') && BrkMoved(old(mac.M()), mac.M(), r, brk, brk')
  {
    hide Inv, View, HeapOk, BrkMoved, PagesAdded, PagesFreed, Only, Restored, Cost, NeedsAll;
    brk' := brk;
    if r == 0 {
      return Permission, brk;
    }
    ghost var m := mac.M();
    HeapFacts(m, r, start, brk);
    if inc == 0 {
      BrkStill(m, r, brk);
      return Ok, brk;
    }
    if inc > 0 {
      if inc > GROW_MAX {
        return InvalidArg, brk;
      }
      var new_brk := brk + inc;
      if new_brk - start > HEAP_MAX {
        return OutOfMemory, brk;
      }
      if new_brk >= STACK_GUARD {
        return OutOfMemory, brk;
      }
      PageUpOrder(start, brk, new_brk);
      status := AddPages(mac, r, PageUp(brk), PageUp(new_brk));
      if status != Ok {
        HeapRestored(m, mac.M(), r, start, brk);
        return status, brk;
      }
      HeapGrows(m, mac.M(), r, start, brk, new_brk);
      return Ok, new_brk;
    }
    if inc == I64_MIN {
      return InvalidArg, brk;
    }
    if -inc > brk - start {
      return InvalidArg, brk;
    }
    var new_brk := brk + inc;
    PageUpOrder(start, new_brk, brk);
    FreePages(mac, r, PageUp(new_brk), PageUp(brk));
    HeapShrinks(m, mac.M(), r, start, brk, new_brk);
    return Ok, new_brk;
  }

  lemma PageUpOrder(start: nat, a: nat, b: nat)
    requires 0 < start <= a <= b < STACK_GUARD && start % PAGE_SIZE == 0
    ensures 0 < start / PAGE_SIZE <= PageUp(a) <= PageUp(b) <= GUARD_PAGE < USER_PAGES
  {
  }

  lemma HeapFacts(m: Mem, r: nat, start: nat, brk: nat)
    requires HeapOk(m, r, start, brk)
    ensures r in m.spaces && 0 < start <= brk < STACK_GUARD && start % PAGE_SIZE == 0
    ensures forall n {:trigger n in View(m, r)} :: start / PAGE_SIZE <= n < GUARD_PAGE ==> (n in View(m, r) <==> n < PageUp(brk))
  {
    hide View;
    forall n | start / PAGE_SIZE <= n < PageUp(brk) ensures n in View(m, r) { assert HeapPage(m, r, n); }
  }

  lemma BrkStill(m: Mem, r: nat, brk: nat)
    requires Inv(m) && r in m.spaces
    ensures BrkMoved(m, m, r, brk, brk)
  {
    hide Inv, View;
    ExtendedNone(m, r, PageUp(brk));
  }

  lemma HeapRestored(m: Mem, m': Mem, r: nat, start: nat, brk: nat)
    requires HeapOk(m, r, start, brk) && Restored(m, m', r)
    ensures HeapOk(m', r, start, brk)
  {
    hide View, Inv, PageUp;
    forall n | start / PAGE_SIZE <= n < PageUp(brk) ensures HeapPage(m', r, n) { assert HeapPage(m, r, n); }
  }

  lemma HeapGrows(m: Mem, m': Mem, r: nat, start: nat, brk: nat, brk': nat)
    requires HeapOk(m, r, start, brk) && PagesAdded(m, m', r, PageUp(brk), PageUp(brk'))
    requires brk <= brk' < STACK_GUARD && brk' - start <= HEAP_MAX && PageUp(brk) <= PageUp(brk')
    ensures HeapOk(m', r, start, brk') && BrkMoved(m, m', r, brk, brk')
  {
    hide View, PageUp;
    forall n | start / PAGE_SIZE <= n < PageUp(brk') ensures HeapPage(m', r, n) {
      if n < PageUp(brk) { assert HeapPage(m, r, n); } else { assert ZeroHeapPage(m', r, n); }
    }
  }

  lemma HeapShrinks(m: Mem, m': Mem, r: nat, start: nat, brk: nat, brk': nat)
    requires HeapOk(m, r, start, brk) && PagesFreed(m, m', r, PageUp(brk'), PageUp(brk))
    requires start <= brk' < brk && start / PAGE_SIZE <= PageUp(brk') <= PageUp(brk) <= GUARD_PAGE
    ensures HeapOk(m', r, start, brk') && BrkMoved(m, m', r, brk, brk')
  {
    hide View, PageUp;
    forall n | start / PAGE_SIZE <= n < PageUp(brk') ensures HeapPage(m', r, n) { assert HeapPage(m, r, n); }
  }

  /** The heap, as the processor has it: from its start to the page below the stack exactly the
      addresses up to the end of the break's page lead somewhere, to bytes for user mode to read
      and write and, where that can be said, not to execute. */
  lemma HeapSeen(m: Mem, r: nat, start: nat, brk: nat, v: nat)
    requires HeapOk(m, r, start, brk) && start <= v < 0x7FF7_FFFE_F000
    ensures match Walk(m.ram, r, v)
            case Some(a) => v < (brk + 0xFFF) / 0x1000 * 0x1000 && a.user && a.rw && a.exec == !m.cfg.nx
            case None => v >= (brk + 0xFFF) / 0x1000 * 0x1000
  {
    hide View, Walk;
    WalkIsView(m, r, v);
    if v / 0x1000 < PageUp(brk) { assert HeapPage(m, r, v / 0x1000); } else { assert v / 0x1000 !in View(m, r); }
  }

  /** Whichever way the break moves, every byte below both the old and the new break is
      what it was; bytes on new pages are zero. */
  lemma HeapBytes(m: Mem, m': Mem, r: nat, start: nat, brk: nat, brk': nat, a: nat)
    requires Inv(m) && Inv(m') && HeapOk(m, r, start, brk) && HeapOk(m', r, start, brk') && BrkMoved(m, m', r, brk, brk') && start <= a
    ensures a < brk && a < brk' ==> UserByte(m, r, a).Some? && UserByte(m', r, a) == UserByte(m, r, a)
    ensures PAGE_SIZE * PageUp(brk) <= a < brk' ==> UserByte(m', r, a) == Some(0)
  {
    hide Inv, View, Only;
    var n := a / PAGE_SIZE;
    if a < brk && a < brk' {
      assert HeapPage(m, r, n);
      if brk <= brk' { KeptPage(m, m', r, n); } else { assert HeapPage(m', r, n); KeptPage(m', m, r, n); }
    }
    if PAGE_SIZE * PageUp(brk) <= a < brk' { assert ZeroHeapPage(m', r, n); }
  }
}
