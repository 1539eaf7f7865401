/** Adding pages to an address space one at a time: allocate a frame, fill it, map it. */
module UserPages {
  import opened Results
  import opened Bytes
  import opened Entries
  import opened Frames
  import opened Translation
  import opened Processor
  import opened Effects
  import opened Paging

  /** The first page that starts at or after `a`. */
  function PageUp(a: nat): nat {
    (a + PAGE_SIZE - 1) / PAGE_SIZE
  }

  /** The byte a process sees at address `a`. */
  ghost function UserByte(m: Mem, r: nat, a: nat): Option<Byte> {
    var n := a / PAGE_SIZE;
    if n in View(m, r) && View(m, r)[n].frame in m.ram then Some(m.ram[View(m, r)[n].frame][a % PAGE_SIZE]) else None
  }

  /** It is the byte the processor lets it read there. */
  lemma ByteIsSeen(m: Mem, r: nat, a: nat)
    requires Inv(m) && r in m.spaces && a < USER_END
    ensures ByteSeen(m.ram, r, a) == UserByte(m, r, a)
  {
    hide Inv, View, Walk, ViewAt, PathOf, LeafEntry;
    var n := a / 0x1000;
    WalkIsView(m, r, a);
    ViewShows(m, r, n);
    ViewIs(m, r, n);
    if n in View(m, r) { NoSharing(m, r, n, r, n); }
  }

  /** Exactly the pages from `a` up to `b` were added to space `r`. */
  ghost predicate Extended(m: Mem, m': Mem, r: nat, a: nat, b: nat) {
    Only(m, m', r, {}, {}) && PagesKept(m, m', r) &&
    (forall n {:trigger n in View(m', r)} {:trigger n in View(m, r)} :: n in View(m', r) <==> n in View(m, r) || a <= n < b) &&
    (forall n {:trigger View(m', r)[n]} :: n in View(m, r) ==> View(m', r)[n] == View(m, r)[n])
  }

  /** `m` after a frame was taken from the free list and filled. */
  ghost function Taken(m: Mem, page: Page): Mem
    requires |m.free| > 0
  {
    Popped(m).(ram := m.ram[m.free[|m.free| - 1] := page])
  }

  lemma TakenKeeps(m: Mem, r: nat, page: Page)
    requires Inv(m) && |m.free| > 0 && r in m.spaces
    ensures var f := m.free[|m.free| - 1]; var m' := Taken(m, page);
            Inv(m') && Only(m, m', r, {}, {f}) && PagesKept(m, m', r) && View(m', r) == View(m, r) &&
            0 < f < FRAME_LIMIT && f in m'.own && m'.own[f] == Held && f in m'.ram && m'.ram[f] == page && m'.spaces == m.spaces
  {
    hide Inv, View, SpaceOk, Field, TableRel;
    var f := m.free[|m.free| - 1];
    var mp, m' := Popped(m), Taken(m, page);
    PoppedKeeps(m);
    PoppedOnly(m, r);
    FilledKeeps(mp, f, page);
    assert m' == mp.(ram := mp.ram[f := page]);
    forall g | Foreign(m, r, g) ensures Same(m, m', g) { assert Same(m, mp, g); }
    OtherView(m, m', {f}, r);
    forall p | p in m.spaces[r] ensures m.spaces[r][p] != f { NodeFact(m, r, p); }
  }

  /** A page that survives keeps its frame and its bytes. */
  lemma KeptPage(m: Mem, m': Mem, r: nat, n: nat)
    requires Inv(m) && Inv(m') && PagesKept(m, m', r) && n in View(m, r)
    ensures n in View(m', r) && View(m', r)[n].frame == View(m, r)[n].frame && Same(m, m', View(m, r)[n].frame)
  {
    hide Inv, PathOf, TableRel, ViewAt, LeafEntry, LeafOk, View;
    ViewShows(m, r, n);
    ViewShows(m', r, n);
    ViewIs(m, r, n);
    ViewIs(m', r, n);
    PathOfOk(n);
    NodeFact(m, r, PathOf(n));
    NodeFact(m', r, PathOf(n));
  }

  /** Every translation of space `r` is still there. */
  ghost predicate ViewKept(m: Mem, m': Mem, r: nat) {
    forall n: nat {:trigger n in View(m, r)} :: n in View(m, r) ==> n in View(m', r) && View(m', r)[n] == View(m, r)[n]
  }

  /** A page that survives with its rights looks the same to the processor, byte by byte. */
  lemma KeptSeen(m: Mem, m': Mem, r: nat, v: nat)
    requires Inv(m) && Inv(m') && PagesKept(m, m', r) && ViewKept(m, m', r) && v < USER_END && v / 0x1000 in View(m, r)
    ensures Walk(m'.ram, r, v) == Walk(m.ram, r, v) && Walk(m.ram, r, v).Some? && ByteSeen(m'.ram, r, v) == ByteSeen(m.ram, r, v)
  {
    hide Inv, View, Walk, PagesKept;
    KeptPage(m, m', r, v / 0x1000);
    WalkIsView(m, r, v);
    WalkIsView(m', r, v);
  }

  lemma InSpace(m: Mem, m': Mem, r: nat)
    requires PagesKept(m, m', r)
    ensures r in m.spaces && r in m'.spaces
  {
  }

  lemma CfgSame(m: Mem, m': Mem, r: nat, lost: set<nat>, gained: set<nat>)
    requires Only(m, m', r, lost, gained)
    ensures m'.cfg == m.cfg
  {
  }

  lemma ExtendedNone(m: Mem, r: nat, a: nat)
    requires Inv(m) && r in m.spaces
    ensures Extended(m, m, r, a, a)
  {
    hide Inv, View;
    OnlyNothing(m, r);
  }

  /** One more page: a frame taken and filled, then mapped at `b`. */
  lemma ExtendedMore(m0: Mem, m1: Mem, m2: Mem, r: nat, a: nat, b: nat, f: nat, page: Page, flags: Flags)
    requires Inv(m1) && Extended(m0, m1, r, a, b) && a <= b && b !in View(m1, r)
    requires |m1.free| > 0 && f == m1.free[|m1.free| - 1] && MapEffect(Taken(m1, page), m2, r, f, b, flags, Ok)
    ensures Extended(m0, m2, r, a, b + 1) && PagesKept(m1, m2, r)
    ensures b in View(m2, r) && View(m2, r)[b] == Access(f, true, flags.rw, !(flags.nx && m2.cfg.nx)) && f in m2.ram && m2.ram[f] == page
  {
    hide Inv, View, PagesKept, Only, Taken;
    var mp := Taken(m1, page);
    InSpace(m0, m1, r);
    TakenKeeps(m1, r, page);
    OnlyTwice(m0, m1, mp, r, {}, {}, {f});
    NoFrames(f);
    OnlyTwice(m0, mp, m2, r, {f}, {f}, {});
    PagesKeptTwice(m0, m1, mp, r);
    PagesKeptTwice(m0, mp, m2, r);
    PagesKeptTwice(m1, mp, m2, r);
    CfgSame(m0, m2, r, {}, {});
    CfgSame(m0, mp, r, {}, {f});
  }

  /** A mapping that failed, with its frame given back: no page was added. */
  lemma ExtendedFailed(m0: Mem, m1: Mem, m2: Mem, r: nat, a: nat, b: nat, f: nat, page: Page)
    requires Inv(m1) && Inv(m2) && Extended(m0, m1, r, a, b)
    requires |m1.free| > 0 && f == m1.free[|m1.free| - 1]
    requires Grown(Taken(m1, page), m2, r) && f in m2.own && m2.own[f] == Held && f in m2.ram && Inv(Pushed(m2, f))
    ensures Extended(m0, Pushed(m2, f), r, a, b) && PagesKept(m1, Pushed(m2, f), r)
  {
    hide Inv, View, PagesKept, Only, Pushed, Taken;
    var mp, m3 := Taken(m1, page), Pushed(m2, f);
    InSpace(m0, m1, r);
    TakenKeeps(m1, r, page);
    OnlyTwice(m0, m1, mp, r, {}, {}, {f});
    NoFrames(f);
    OnlyTwice(m0, mp, m2, r, {f}, {}, {});
    InSpace(mp, m2, r);
    PushedOnly(m2, r, f);
    OnlyTwice(m0, m2, m3, r, {f}, {f}, {});
    PushedView(m2, r, f);
    PagesKeptTwice(m1, mp, m2, r);
    PagesKeptTwice(m1, m2, m3, r);
    PagesKeptTwice(m0, m1, m3, r);
  }

  lemma PushedView(m: Mem, r: nat, f: nat)
    requires Inv(m) && r in m.spaces && f in m.own && m.own[f] == Held && f in m.ram && Inv(Pushed(m, f))
    ensures View(Pushed(m, f), r) == View(m, r)
  {
    hide Inv, View, Put;
    FrameFact(m, f);
    PushedKeeps(m, f);
    OtherView(m, Pushed(m, f), {f}, r);
  }

  /** Takes a frame, fills it and maps it at page `n`; if that fails the frame goes back. */
  method AddPage(mac: Machine, r: nat, n: nat, page: Page, flags: Flags) returns (status: Status)
    requires mac.Valid() && r in mac.spaces && 0 < n < USER_PAGES
    modifies mac
    ensures mac.Valid()
    ensures status == Ok ==> n !in old(View(mac.M(), r)) && Extended(old(mac.M()), mac.M(), r, n, n + 1) && PageIs(mac.M(), r, n, page, flags)
    ensures status != Ok ==> Extended(old(mac.M()), mac.M(), r, n, n)
    ensures status == AddStatus(old(mac.M()), r, n, flags) && (status == Ok ==> Paid(old(mac.M()), mac.M(), r, Needs(n)))
  {
    hide Inv, View, PagesKept, Only, Pushed, Taken, MapEffect, Grown, Extended, Popped, MapCost, Paid, Cost;
    ghost var m1 := mac.M();
    ExtendedNone(m1, r, n);
    NonZeroRoot(m1, r);
    var frame := mac.Alloc();
    if frame.None? {
      return OutOfMemory;
    }
    var f := frame.value;
    TakenKeeps(m1, r, page);
    TakenIs(m1, page);
    mac.ram := mac.ram[f := page];
    assert mac.M() == Taken(m1, page);
    PageAddress(n);
    FrameAddress(f);
    status := mac.MapPage(r, PAGE_SIZE * f, PAGE_SIZE * n, flags);
    ghost var m2 := mac.M();
    if status != Ok {
      if MapCheck(mac.cfg.nx, r, PAGE_SIZE * f, PAGE_SIZE * n, flags) == Ok {
        MapOutcome(Taken(m1, page), m2, r, f, n, flags, status);
        TakenCost(m1, m2, r, n, page, status);
      } else {
        GrownSelf(m2, r);
      }
      var freed := mac.Free(PAGE_SIZE * f);
      ExtendedFailed(m1, m1, m2, r, n, n, f, page);
      return;
    }
    MapOutcome(Taken(m1, page), m2, r, f, n, flags, status);
    TakenCost(m1, m2, r, n, page, status);
    PaidAll(m1, m2, r, Needs(n));
    ExtendedMore(m1, m1, m2, r, n, n, f, page, flags);
  }

  /** What adding a page answers: there must be a frame for it before anything else is
      looked at, and then one for every missing table. */
  ghost function AddStatus(m: Mem, r: nat, n: nat, flags: Flags): Status {
    if m.free == [] then OutOfMemory
    else if m.cfg.nx && flags.rw && !flags.nx then Permission
    else if n in View(m, r) then AlreadyExists
    else if |m.free| < Cost(m, r, Needs(n)) then OutOfMemory
    else Ok
  }

  // The frame of the page was taken first, the tables after it.
  lemma TakenCost(m: Mem, m': Mem, r: nat, n: nat, page: Page, status: Status)
    requires Inv(m) && r in m.spaces && n < USER_PAGES && |m.free| > 0 && MapCost(Taken(m, page), m', r, n, status)
    ensures status == Ok && n !in View(m, r) ==> Paid(m, m', r, Needs(n))
    ensures status == OutOfMemory && n !in View(m, r) ==> |m.free| < Cost(m, r, Needs(n))
  {
    hide Inv, View, PathOf, Needs, Tables, NodesOf;
    Machine.MappedHere(m, r, n);
    TakenNodes(m, r, page);
    if n !in View(m, r) { NeedsCost(m, r, n); }
  }

  lemma TakenNodes(m: Mem, r: nat, page: Page)
    requires |m.free| > 0
    ensures NodesOf(Taken(m, page), r) == NodesOf(m, r) && |Taken(m, page).free| == |m.free| - 1
  {
  }

  lemma NeedsCost(m: Mem, r: nat, n: nat)
    requires r in m.spaces && PathOf(n) !in m.spaces[r]
    ensures Cost(m, r, Needs(n)) == Cost(m, r, Tables(n)) + 1
  {
    hide PathOf;
    var k := NodesOf(m, r);
    assert |PathOf(n)[..1]| == 1 && |PathOf(n)[..2]| == 2 && |PathOf(n)[..3]| == 3;
    assert PathOf(n) !in Tables(n);
    assert Needs(n) - k == (Tables(n) - k) + {PathOf(n)};
  }

  lemma ExtendedTwice(m0: Mem, m1: Mem, m2: Mem, r: nat, a: nat, b: nat, c: nat)
    requires Extended(m0, m1, r, a, b) && Extended(m1, m2, r, b, c) && a <= b <= c
    ensures Extended(m0, m2, r, a, c)
  {
    hide View, Only, PagesKept;
    OnlyTwice(m0, m1, m2, r, {}, {}, {});
    NoFrames(0);
    PagesKeptTwice(m0, m1, m2, r);
  }

  /** Page `n` is mapped with these rights and holds these bytes. */
  ghost predicate PageIs(m: Mem, r: nat, n: nat, page: Page, flags: Flags) {
    n in View(m, r) && View(m, r)[n].user && View(m, r)[n].rw == flags.rw && View(m, r)[n].exec == !(flags.nx && m.cfg.nx) &&
    View(m, r)[n].frame in m.ram && m.ram[View(m, r)[n].frame] == page
  }

  lemma PageIsKept(m: Mem, m': Mem, r: nat, n: nat, page: Page, flags: Flags, a: nat, b: nat)
    requires Inv(m) && Inv(m') && Extended(m, m', r, a, b) && PageIs(m, r, n, page, flags)
    ensures PageIs(m', r, n, page, flags)
  {
    hide Inv, View, PagesKept;
    KeptPage(m, m', r, n);
  }

  lemma GrownSelf(m: Mem, r: nat)
    requires Inv(m) && r in m.spaces
    ensures Grown(m, m, r)
  {
    hide Inv, View;
    OnlyNothing(m, r);
  }

  lemma TakenIs(m: Mem, page: Page)
    requires |m.free| > 0
    ensures Taken(m, page) == Popped(m).(ram := Popped(m).ram[m.free[|m.free| - 1] := page])
  {
  }

  lemma NonZeroRoot(m: Mem, r: nat)
    requires Inv(m) && r in m.spaces
    ensures r != 0
  {
    hide Inv;
    NewRoot(m, r);
    FrameFact(m, r);
  }

  lemma PageAddress(n: nat)
    requires 0 < n < USER_PAGES
    ensures !BadPage(PAGE_SIZE * n) && PAGE_SIZE * n / PAGE_SIZE == n
  {
  }

  lemma FrameAddress(f: nat)
    requires 0 < f < FRAME_LIMIT
    ensures PAGE_SIZE * f / PAGE_SIZE == f && PAGE_SIZE * f % PAGE_SIZE == 0 && 0 < PAGE_SIZE * f < PHYS_LIMIT
  {
  }

  lemma MapOutcome(m: Mem, m': Mem, r: nat, f: nat, n: nat, flags: Flags, status: Status)
    requires Inv(m) && MapEffect(m, m', r, f, n, flags, status) && f in m.own && m.own[f] == Held
    ensures status == Ok || status == OutOfMemory || status == AlreadyExists
    ensures status == Ok || status == OutOfMemory ==> n !in View(m, r)
    ensures status == AlreadyExists ==> n in View(m, r)
    ensures status != Ok ==> Grown(m, m', r) && f in m'.own && m'.own[f] == Held
  {
    hide View, Inv;
    if n in View(m, r) { OnlyNothing(m, r); }
    assert Foreign(m, r, f);
  }
}
