/** The frame allocator and the page-table operations, on frames in memory. */
module Paging {
  import opened Results
  import opened Bytes
  import opened Entries
  import opened Frames
  import opened Translation
  import opened Processor
  import opened Effects

  const USER_SPACE_END: nat := 0x8000_0000_0000
  const PHYS_LIMIT: nat := 0x10_0000_0000_0000

  datatype Flags = Flags(rw: bool, user: bool, pwt: bool, pcd: bool, global: bool, nx: bool)

  /** Writable, not executable user data. */
  const DATA_FLAGS: Flags := Flags(true, true, false, false, false, true)

  function LeafFor(f: nat, flags: Flags, nx: bool): Entry {
    Entry(true, flags.rw, true, flags.pwt, flags.pcd, false, false, false, flags.global, 0, f, 0, flags.nx && nx)
  }

  predicate Canonical(v: nat) {
    v / 0x8000_0000_0000 == 0 || v / 0x8000_0000_0000 == 0x1FFFF
  }

  predicate BadPage(v: nat) {
    v == 0 || v % PAGE_SIZE != 0 || !Canonical(v) || v >= USER_SPACE_END
  }

  /** Which request to map a page is refused before any table is looked at. */
  function MapCheck(nx: bool, r: nat, phys: nat, virt: nat, flags: Flags): Status {
    if r == 0 then NotInitialized
    else if phys % PAGE_SIZE != 0 || BadPage(virt) || phys >= PHYS_LIMIT then InvalidArg
    else if nx && flags.rw && !flags.nx then Permission
    else Ok
  }

  /** Tables may have been added to space `r`; no translation and no page changed. */
  ghost predicate Grown(m: Mem, m': Mem, r: nat) {
    Only(m, m', r, {}, {}) && PagesKept(m, m', r) && View(m', r) == View(m, r)
  }

  /** What mapping frame `f` at page `n` of space `r` does. */
  ghost predicate MapEffect(m: Mem, m': Mem, r: nat, f: nat, n: nat, flags: Flags, status: Status) {
    PagesKept(m, m', r) &&
    if n in View(m, r) then status == AlreadyExists && m' == m
    else if status == Ok then
      Only(m, m', r, {f}, {}) && View(m', r) == View(m, r)[n := Access(f, true, flags.rw, !(flags.nx && m.cfg.nx))] &&
      f in m.ram && f in m'.ram && m'.ram[f] == m.ram[f] && m'.free <= m.free
    else status == OutOfMemory && m'.free == [] && Grown(m, m', r)
  }

  /** What mapping page `n` costs: the tables that are missing on the way to it. */
  ghost predicate MapCost(m: Mem, m': Mem, r: nat, n: nat, status: Status) {
    (status == Ok ==> NodesOf(m', r) == NodesOf(m, r) + Needs(n) && |m'.free| == |m.free| - Cost(m, r, Tables(n))) &&
    (status == OutOfMemory ==> |m.free| < Cost(m, r, Tables(n)))
  }

  /** What taking page `n` out of space `r` does; its frame is held afterwards. */
  ghost predicate UnmapEffect(m: Mem, m': Mem, r: nat, n: nat) {
    n in View(m, r) && Only(m, m', r, {}, {View(m, r)[n].frame}) && PagesKept(m', m, r) && View(m', r) == View(m, r) - {n}
  }

  /** What freeing page `n` of space `r` does: its frame is at the head of the free list. */
  ghost predicate FreePageEffect(m: Mem, m': Mem, r: nat, n: nat) {
    n in View(m, r) && Only(m, m', r, {}, {}) && PagesKept(m', m, r) && View(m', r) == View(m, r) - {n} &&
    m'.free == m.free + [View(m, r)[n].frame]
  }

  /** A page is accessible when every level of the walk grants it. */
  ghost predicate Permits(m: Mem, r: nat, n: nat, write: bool) {
    n in View(m, r) && View(m, r)[n].user && (write ==> View(m, r)[n].rw)
  }

  // ----------------------------------------------------------------------------------
  // Usable memory

  const LOW_RESERVED: nat := 0x10_0000
  const HHDM_MAX: nat := 0x10_0000_0000

  /** A descriptor of the memory map. */
  datatype Region = Region(conventional: bool, start: nat, pages: nat)

  datatype Range = Range(start: nat, end: nat)

  predicate Overlaps(a: nat, b: nat, r: Range) {
    a < b && r.start < r.end && a < r.end && r.start < b
  }

  /** The end of a region, in 64-bit arithmetic. */
  function RegionEnd(d: Region): nat {
    (d.start + d.pages * PAGE_SIZE) % U64_LIMIT
  }

  /** The whole frames of a region that memory access can reach. */
  predicate InRegion(d: Region, limit: nat, f: nat) {
    d.conventional && d.pages <= 0x1_0000_0000_0000 / PAGE_SIZE && d.start <= RegionEnd(d) &&
    d.start <= PAGE_SIZE * f && PAGE_SIZE * (f + 1) <= RegionEnd(d) && PAGE_SIZE * (f + 1) <= limit
  }

  /** Low memory, the kernel image and the initial ram disk are never managed. */
  predicate Reserved(f: nat, kernel: Range, initrd: Range) {
    PAGE_SIZE * f < LOW_RESERVED || Overlaps(PAGE_SIZE * f, PAGE_SIZE * (f + 1), kernel) ||
    Overlaps(PAGE_SIZE * f, PAGE_SIZE * (f + 1), initrd)
  }

  /** A byte of the first megabyte, of the kernel image or of the initial ram disk. */
  predicate ReservedByte(v: nat, kernel: Range, initrd: Range) {
    v < 0x10_0000 || kernel.start <= v < kernel.end || initrd.start <= v < initrd.end
  }

  /** A frame is reserved exactly when one of its bytes is. */
  lemma ReservedMeans(f: nat, kernel: Range, initrd: Range)
    ensures Reserved(f, kernel, initrd) <==> exists v: nat :: ReservedByte(v, kernel, initrd) && 0x1000 * f <= v < 0x1000 * f + 0x1000
  {
    if 0x1000 * f < 0x10_0000 {
      assert ReservedByte(0x1000 * f, kernel, initrd);
    } else if Overlaps(0x1000 * f, 0x1000 * f + 0x1000, kernel) {
      assert ReservedByte(CommonByte(f, kernel), kernel, initrd);
    } else if Overlaps(0x1000 * f, 0x1000 * f + 0x1000, initrd) {
      assert ReservedByte(CommonByte(f, initrd), kernel, initrd);
    }
  }

  function CommonByte(f: nat, r: Range): (v: nat)
    requires Overlaps(0x1000 * f, 0x1000 * f + 0x1000, r)
    ensures 0x1000 * f <= v < 0x1000 * f + 0x1000 && r.start <= v < r.end
  {
    if r.start > 0x1000 * f then r.start else 0x1000 * f
  }

  predicate ByteIn(d: Region, limit: nat, v: nat) {
    d.start <= v < d.start + 0x1000 * d.pages && v < limit
  }

  /** A frame is one of a region exactly when all its bytes are in it and below the limit, and
      the descriptor is one of usable memory that does not wrap round. */
  lemma InRegionMeans(d: Region, limit: nat, f: nat)
    requires d.start < U64_LIMIT
    ensures InRegion(d, limit, f) <==>
              d.conventional && d.pages <= 0x10_0000_0000 && d.start + 0x1000 * d.pages < U64_LIMIT &&
              forall v: nat {:trigger ByteIn(d, limit, v)} :: 0x1000 * f <= v < 0x1000 * f + 0x1000 ==> ByteIn(d, limit, v)
  {
    assert ByteIn(d, limit, 0x1000 * f) && ByteIn(d, limit, 0x1000 * f + 0xFFF) <==>
           d.start <= 0x1000 * f && 0x1000 * f + 0xFFF < d.start + 0x1000 * d.pages && 0x1000 * f + 0xFFF < limit;
  }

  // ----------------------------------------------------------------------------------
  // Giving up a tree of frames

  predicate HasPrefix(q: Path, p: Path) {
    |p| <= |q| && q[..|p|] == p
  }

  /** The nodes below the first `i` entries of the table at `p`. */
  predicate Below(q: Path, p: Path, i: nat) {
    |p| < |q| && q[..|p|] == p && q[|p|] < i
  }

  ghost predicate InTree(nodes: Nodes, p: Path, f: nat) {
    exists q :: q in nodes && HasPrefix(q, p) && nodes[q] == f
  }

  ghost predicate InPart(nodes: Nodes, p: Path, i: nat, f: nat) {
    exists q :: q in nodes && Below(q, p, i) && nodes[q] == f
  }

  /** Frame `f` went back to the free list if `gone`, and is as it was otherwise. */
  ghost predicate FreedIf(m: Mem, m': Mem, f: nat, gone: bool) {
    if gone then f in m'.own && m'.own[f].FreeAt? else Same(m, m', f)
  }

  ghost predicate Returned(m: Mem, m': Mem) {
    m'.spaces == m.spaces && m'.cfg == m.cfg && m'.own.Keys == m.own.Keys && m'.ram.Keys == m.ram.Keys && m.free <= m'.free
  }

  ghost predicate TreeFreed(m: Mem, m': Mem, nodes: Nodes, p: Path) {
    Returned(m, m') && forall f {:trigger FreedIf(m, m', f, InTree(nodes, p, f))} :: f in m.own ==> FreedIf(m, m', f, InTree(nodes, p, f))
  }

  ghost predicate PartFreed(m: Mem, m': Mem, nodes: Nodes, p: Path, i: nat) {
    Returned(m, m') && forall f {:trigger FreedIf(m, m', f, InPart(nodes, p, i, f))} :: f in m.own ==> FreedIf(m, m', f, InPart(nodes, p, i, f))
  }

  ghost predicate Doomed1(m: Mem, nodes: Nodes, q: Path) {
    q in nodes && PathOk(q) && (q != [] ==> Parent(q) in nodes) && nodes[q] in m.own && m.own[nodes[q]] == Held && nodes[q] in m.ram &&
    (|q| < 4 ==> TableRel(m.cfg, m.ram[nodes[q]], nodes, q))
  }

  /** The tree at `p` still stands, but its frames are held, to be freed. */
  ghost predicate Doomed(m: Mem, nodes: Nodes, p: Path) {
    p in nodes && (forall q {:trigger Doomed1(m, nodes, q)} :: q in nodes && HasPrefix(q, p) ==> Doomed1(m, nodes, q)) &&
    (forall q, q' :: q in nodes && q' in nodes && nodes[q] == nodes[q'] ==> q == q') &&
    (forall q :: q in nodes ==> PathOk(q) && (q != [] ==> Parent(q) in nodes))
  }

  /** Space `r` is gone and every frame it had is free; every other frame is untouched. */
  ghost predicate Destroyed(m: Mem, m': Mem, r: nat) {
    r in m.spaces && m'.spaces == m.spaces - {r} && m'.cfg == m.cfg && m'.own.Keys == m.own.Keys && m'.ram.Keys == m.ram.Keys &&
    m.free <= m'.free &&
    forall f {:trigger Same(m, m', f)} {:trigger m'.own[f]} :: f in m.own ==>
      if m.own[f].NodeOf? && m.own[f].root == r then m'.own[f].FreeAt? else Same(m, m', f)
  }

  class Machine {
    const cfg: Config
    var ram: map<nat, Page>
    var head: nat
    var count: nat

    ghost var own: map<nat, Tag>
    ghost var free: seq<nat>
    ghost var spaces: map<nat, Nodes>

    ghost function M(): Mem
      reads this
    {
      Mem(cfg, ram, head, count, own, free, spaces)
    }

    ghost predicate Valid()
      reads this
    {
      Inv(M())
    }

    // ------------------------------------------------------------------------------
    // Frames

    /** Takes the frame at the head of the free list and clears it. */
    method Alloc() returns (r: Option<nat>)
      requires Valid()
      modifies this
      ensures Valid()
      ensures r.None? <==> old(free) == []
      ensures r.None? ==> M() == old(M())
      ensures r.Some? ==> M() == Popped(old(M())) && r.value == old(free)[|old(free)| - 1]
      ensures r.Some? ==> r.value in own && own[r.value] == Held && r.value in ram && ram[r.value] == ZeroPage() && 0 < r.value < FRAME_LIMIT
    {
      hide Inv, Field;
      HeadFact(M());
      if head == 0 {
        return None;
      }
      PoppedKeeps(M());
      var f := head / PAGE_SIZE;
      head := Field(ram[f], 0, 8);
      count := count - 1;
      ram := ram[f := ZeroPage()];
      free, own := free[..|free| - 1], own[f := Held];
      return Some(f);
    }

    static lemma HeadFact(m: Mem)
      requires Inv(m)
      ensures m.head == 0 <==> m.free == []
      ensures m.free != [] ==> m.head / PAGE_SIZE == m.free[|m.free| - 1] && m.count == |m.free|
    {
      hide SpaceOk, Field;
      if m.free != [] {
        FreeFact(m, |m.free| - 1);
        FrameFact(m, m.free[|m.free| - 1]);
      }
    }

    /** Puts a frame back at the head of the free list. */
    method Free(phys: nat) returns (status: Status)
      requires Valid()
      requires phys != 0 && phys % PAGE_SIZE == 0 ==> phys / PAGE_SIZE in own && own[phys / PAGE_SIZE] == Held
      modifies this
      ensures Valid()
      ensures phys == 0 || phys % PAGE_SIZE != 0 ==> status == InvalidArg && M() == old(M())
      ensures phys != 0 && phys % PAGE_SIZE == 0 ==>
                status == Ok && phys / PAGE_SIZE in old(ram) && M() == Pushed(old(M()), phys / PAGE_SIZE)
    {
      hide Inv, Put, Enc;
      if phys == 0 || phys % PAGE_SIZE != 0 {
        return InvalidArg;
      }
      FrameFact(M(), phys / PAGE_SIZE);
      PushFree(phys / PAGE_SIZE);
      return Ok;
    }

    /** Hangs a frame in front of the free list. */
    method PushFree(f: nat)
      requires Valid() && f in ram && 0 < f < FRAME_LIMIT && (f in own ==> own[f] == Held)
      modifies this
      ensures Valid() && f in old(ram) && M() == Pushed(old(M()), f)
    {
      hide Inv, Put, Enc;
      PushedKeeps(M(), f);
      ram := ram[f := Put(ram[f], 0, Enc(head, 8))];
      head := PAGE_SIZE * f;
      count := count + 1;
      free, own := free + [f], own[f := FreeAt(|free|)];
    }

    // ------------------------------------------------------------------------------
    // Start-up

    /** Memory before any frame is managed. */
    constructor (cfg: Config, ram: map<nat, Page>)
      requires Fits(cfg.hhdm) && Fits(cfg.image)
      ensures Valid() && this.cfg == cfg && this.ram == ram && own == map[] && free == [] && spaces == map[]
    {
      this.cfg, this.ram := cfg, ram;
      head, count := 0, 0;
      own, free, spaces := map[], [], map[];
    }

    /** Fills the free list from the memory map: each usable frame once, in spite of
        whatever else the regions say. */
    method Init(regions: seq<Region>, kernel: Range, initrd: Range, limit: nat)
      requires Valid() && own == map[] && free == [] && spaces == map[]
      requires limit <= HHDM_MAX && forall f :: 0 <= f < limit / PAGE_SIZE ==> f in ram
      requires forall i, j, f :: 0 <= i < j < |regions| ==> !(InRegion(regions[i], limit, f) && InRegion(regions[j], limit, f))
      modifies this
      ensures Valid() && spaces == map[]
      ensures forall f :: f in own <==> exists i :: 0 <= i < |regions| && InRegion(regions[i], limit, f) && !Reserved(f, kernel, initrd)
      ensures forall f :: f in own ==> own[f].FreeAt?
    {
      hide Inv, Reserved, InRegion;
      var i := 0;
      while i < |regions|
        invariant 0 <= i <= |regions| && Valid() && spaces == map[] && ram.Keys == old(ram.Keys)
        invariant forall f :: f in own <==> Chosen(regions, i, limit, kernel, initrd, f)
        invariant forall f :: f in own ==> own[f].FreeAt?
      {
        AddRegion(regions, i, kernel, initrd, limit);
        i := i + 1;
      }
    }

    /** The frames of one region. */
    method AddRegion(regions: seq<Region>, i: nat, kernel: Range, initrd: Range, limit: nat)
      requires i < |regions| && limit <= HHDM_MAX && forall f :: 0 <= f < limit / PAGE_SIZE ==> f in ram
      requires Valid() && spaces == map[]
      requires forall k, j, f :: 0 <= k < j < |regions| ==> !(InRegion(regions[k], limit, f) && InRegion(regions[j], limit, f))
      requires forall f :: f in own <==> Chosen(regions, i, limit, kernel, initrd, f)
      requires forall f :: f in own ==> own[f].FreeAt?
      modifies this
      ensures Valid() && spaces == map[] && ram.Keys == old(ram.Keys)
      ensures forall f :: f in own <==> Chosen(regions, i + 1, limit, kernel, initrd, f)
      ensures forall f :: f in own ==> own[f].FreeAt?
    {
      hide Inv, Reserved, Put;
      var d := regions[i];
      ChosenStep(regions, i, limit, kernel, initrd);
      if !d.conventional || d.pages > 0x1_0000_0000_0000 / PAGE_SIZE {
        return;
      }
      var end := RegionEnd(d);
      if end < d.start {
        return;
      }
      if end > limit {
        end := limit;
      }
      if d.start >= end {
        return;
      }
      var page, last := (d.start + PAGE_SIZE - 1) / PAGE_SIZE, end / PAGE_SIZE;
      while page < last
        invariant Valid() && spaces == map[] && ram.Keys == old(ram.Keys)
        invariant page >= (d.start + PAGE_SIZE - 1) / PAGE_SIZE
        invariant forall f: nat :: f in own <==> f in old(own) || (InRegion(d, limit, f) && f < page && !Reserved(f, kernel, initrd))
        invariant forall f :: f in own ==> own[f].FreeAt?
      {
        if !Reserved(page, kernel, initrd) {
          assert InRegion(d, limit, page);
          assert page !in own;
          NotLow(page, kernel, initrd);
          PushFree(page);
        }
        page := page + 1;
      }
    }

    static ghost predicate Chosen(regions: seq<Region>, n: nat, limit: nat, kernel: Range, initrd: Range, f: nat) {
      exists i :: 0 <= i < n && i < |regions| && InRegion(regions[i], limit, f) && !Reserved(f, kernel, initrd)
    }

    static lemma ChosenStep(regions: seq<Region>, i: nat, limit: nat, kernel: Range, initrd: Range)
      requires i < |regions|
      ensures forall f :: Chosen(regions, i + 1, limit, kernel, initrd, f) <==>
                Chosen(regions, i, limit, kernel, initrd, f) || (InRegion(regions[i], limit, f) && !Reserved(f, kernel, initrd))
    {
      hide InRegion, Reserved;
      forall f | Chosen(regions, i + 1, limit, kernel, initrd, f)
        ensures Chosen(regions, i, limit, kernel, initrd, f) || (InRegion(regions[i], limit, f) && !Reserved(f, kernel, initrd))
      {
        var k :| 0 <= k < i + 1 && k < |regions| && InRegion(regions[k], limit, f) && !Reserved(f, kernel, initrd);
      }
    }

    static lemma NotLow(f: nat, kernel: Range, initrd: Range)
      requires !Reserved(f, kernel, initrd)
      ensures f > 0
    {
    }

    // ------------------------------------------------------------------------------
    // Tables

    /** The table below entry `i` of table `t`, made if absent and `create` is set. */
    method NextLevel(t: nat, i: nat, create: bool, ghost r: nat, ghost p: Path) returns (c: Option<nat>)
      requires Valid() && r in spaces && p in spaces[r] && spaces[r][p] == t
      requires |p| < 3 && i < ENTRIES && PathOk(p + [i])
      modifies this
      ensures Valid() && r in old(spaces) && r in spaces && Grown(old(M()), M(), r) && free <= old(free)
      ensures c.Some? ==> p + [i] in spaces[r] && spaces[r][p + [i]] == c.value
      ensures c.None? ==> M() == old(M()) && p + [i] !in spaces[r] && (create ==> free == [])
      ensures c.Some? ==> Paid(old(M()), M(), r, {p + [i]})
      ensures p + [i] in old(spaces)[r] || !create ==> M() == old(M())
    {
      hide Inv, EntryAt, WithEntry, PathOk, TableRel, View, SpaceOk;
      ghost var m := M();
      OnlyNothing(m, r);
      assert p == [] ==> (p + [i])[0] < HHDM_INDEX by { PathHead(p, i); }
      TableFact(m, r, p, i);
      var e := EntryAt(ram[t], i);
      if e.present {
        PaidNothing(m, r, {p + [i]});
        return Some(e.frame);
      }
      if !create {
        return None;
      }
      var table := Alloc();
      if table.None? {
        return None;
      }
      LinkTable(t, i, table.value, r, p, m);
      return table;
    }

    static lemma PathHead(p: Path, i: nat)
      requires PathOk(p + [i])
      ensures (p + [i])[0] < HHDM_INDEX
    {
    }

    // The fresh table `f` goes into entry `i` of table `t`.
    method LinkTable(t: nat, i: nat, f: nat, ghost r: nat, ghost p: Path, ghost m: Mem)
      requires Inv(m) && |m.free| > 0 && M() == Popped(m) && f == m.free[|m.free| - 1] && 0 < f < FRAME_LIMIT
      requires r in m.spaces && p in m.spaces[r] && m.spaces[r][p] == t && |p| < 3 && i < ENTRIES && PathOk(p + [i]) && p + [i] !in m.spaces[r]
      modifies this
      ensures Valid() && r in spaces && Grown(m, M(), r) && free <= m.free
      ensures p + [i] in spaces[r] && spaces[r][p + [i]] == f && Paid(m, M(), r, {p + [i]})
    {
      hide Inv, EntryAt, WithEntry, PathOk, TableRel, View, SpaceOk, Only, PagesKept;
      ghost var m1 := M();
      PoppedKeeps(m);
      PoppedOnly(m, r);
      NodeFact(m1, r, p);
      var e := TableEntry(f);
      LinkedKeeps(m1, r, p, i, e);
      LinkedOnly(m1, r, p, i, e);
      LinkedTableView(m1, r, p, i, e);
      OtherTop(m, r);
      ram := ram[t := WithEntry(ram[t], i, e)];
      own, spaces := Linked(m1, r, p, i, e).own, Linked(m1, r, p, i, e).spaces;
      assert M() == Linked(m1, r, p, i, e);
      CostOne(m, r, p + [i]);
      assert NodesOf(M(), r) == NodesOf(m, r) + {p + [i]};
      OnlyTwice(m, m1, M(), r, {f}, {f}, {});
      NoFrames(f);
      PagesKeptTwice(m, m1, M(), r);
    }

    // Allocation disturbs no translation.
    static lemma OtherTop(m: Mem, r: nat)
      requires Inv(m) && |m.free| > 0 && r in m.spaces && Inv(Popped(m))
      ensures View(Popped(m), r) == View(m, r)
    {
      hide Inv, View, SpaceOk, TableRel;
      PoppedKeeps(m);
      OtherView(m, Popped(m), {m.free[|m.free| - 1]}, r);
    }

    /** The last-level table for page `n` of space `r`. */
    method Descend(r: nat, n: nat, create: bool) returns (t: Option<nat>)
      requires Valid() && r in spaces && n < USER_PAGES
      modifies this
      ensures Valid() && r in old(spaces) && r in spaces && Grown(old(M()), M(), r) && free <= old(free)
      ensures t.Some? ==> PathOf(n)[..3] in spaces[r] && spaces[r][PathOf(n)[..3]] == t.value
      ensures t.None? ==> PathOf(n) !in old(spaces)[r] && (create ==> free == [] && |old(free)| < Cost(old(M()), r, Tables(n)))
      ensures t.Some? ==> Paid(old(M()), M(), r, Tables(n))
      ensures PathOf(n) in old(spaces)[r] || !create ==> M() == old(M())
    {
      hide Inv, PathOk, View, PathOf, Only, PagesKept, Paid, Cost;
      ghost var m0 := M();
      var path := PathOf(n);
      PaidNothing(m0, r, {});
      PathOfOk(n);
      Prefixes(path);
      NewRoot(m0, r);
      Ancestors(m0, r, path);
      var t1 := NextLevel(r, path[0], create, r, []);
      if t1.None? {
        NotPaid(m0, m0, r, n, 1, create);
        return None;
      }
      ghost var m1 := M();
      var t2 := NextLevel(t1.value, path[1], create, r, path[..1]);
      ghost var m2 := M();
      GrownTwice(m0, m1, m2, r);
      Ancestors(m2, r, path);
      if t2.None? {
        NotPaid(m0, m1, r, n, 2, create);
        return None;
      }
      PaidTwice(m0, m1, m2, r, {path[..1]}, {path[..2]});
      t := NextLevel(t2.value, path[2], create, r, path[..2]);
      GrownTwice(m0, m2, M(), r);
      Ancestors(M(), r, path);
      if t.None? {
        NotPaid(m0, m2, r, n, 3, create);
      } else {
        PaidTwice(m0, m2, M(), r, {path[..1]} + {path[..2]}, {path[..3]});
        assert {path[..1]} + {path[..2]} + {path[..3]} == Tables(n);
      }
    }

    // The first `k - 1` tables are there and the next is not, and no frame is left for it.
    static lemma NotPaid(m0: Mem, m: Mem, r: nat, n: nat, k: nat, create: bool)
      requires 1 <= k <= 3 && PathOf(n)[..k] !in NodesOf(m, r) && (create ==> m.free == [])
      requires Paid(m0, m, r, if k == 1 then {} else if k == 2 then {PathOf(n)[..1]} else {PathOf(n)[..1]} + {PathOf(n)[..2]})
      ensures create ==> |m0.free| < Cost(m0, r, Tables(n))
    {
      hide PathOf, Cost;
      var path := PathOf(n);
      CostOne(m, r, path[..k]);
      var x := if k == 1 then {} else if k == 2 then {path[..1]} else {path[..1]} + {path[..2]};
      if create { Unpaid(m0, m, r, x, {path[..k]}, Tables(n)); }
    }

    static lemma Prefixes(path: Path)
      requires |path| == 4 && PathOk(path)
      ensures [] + [path[0]] == path[..1] && path[..1] + [path[1]] == path[..2] && path[..2] + [path[2]] == path[..3]
      ensures path[..3] + [path[3]] == path
      ensures PathOk(path[..1]) && PathOk(path[..2]) && PathOk(path[..3])
      ensures path[0] < ENTRIES && path[1] < ENTRIES && path[2] < ENTRIES && path[3] < ENTRIES
    {
    }

    static lemma Ancestors(m: Mem, r: nat, path: Path)
      requires Inv(m) && r in m.spaces && |path| == 4
      ensures path in m.spaces[r] ==> path[..3] in m.spaces[r]
      ensures path[..3] in m.spaces[r] ==> path[..2] in m.spaces[r]
      ensures path[..2] in m.spaces[r] ==> path[..1] in m.spaces[r]
    {
      hide Inv, PathOk, TableRel;
      if path in m.spaces[r] { NodeFact(m, r, path); }
      if path[..3] in m.spaces[r] { NodeFact(m, r, path[..3]); assert path[..3][..2] == path[..2]; }
      if path[..2] in m.spaces[r] { NodeFact(m, r, path[..2]); assert path[..2][..1] == path[..1]; }
    }

    static lemma GrownTwice(a: Mem, b: Mem, c: Mem, r: nat)
      requires Grown(a, b, r) && Grown(b, c, r)
      ensures Grown(a, c, r)
      ensures r in a.spaces && r in c.spaces && forall p :: p in a.spaces[r] ==> p in c.spaces[r]
    {
      hide View;
      OnlyTwice(a, b, c, r, {}, {}, {});
      PagesKeptTwice(a, b, c, r);
    }

    // ------------------------------------------------------------------------------
    // Mapping and unmapping

    /** Maps the held frame at `phys` at `virt`. */
    method MapPage(r: nat, phys: nat, virt: nat, flags: Flags) returns (status: Status)
      requires Valid() && (r == 0 || r in spaces)
      requires phys % PAGE_SIZE == 0 && phys < PHYS_LIMIT ==> phys / PAGE_SIZE in own && own[phys / PAGE_SIZE] == Held
      modifies this
      ensures Valid()
      ensures var check := MapCheck(cfg.nx, r, phys, virt, flags);
              if check != Ok then status == check && M() == old(M())
              else MapEffect(old(M()), M(), r, phys / PAGE_SIZE, virt / PAGE_SIZE, flags, status) &&
                   MapCost(old(M()), M(), r, virt / PAGE_SIZE, status)
      ensures if status == Ok then Leading(old(ram), ram, r, virt, Some(Reach(phys, true, flags.rw, !(flags.nx && cfg.nx))))
              else Unmoved(old(ram), ram, r)
    {
      hide Inv, View, PathOf, Only, PagesKept, EntryAt, WithEntry, PathOk, Grown, MapEffect, MapCost, Walk;
      if r == 0 {
        return NotInitialized;
      }
      if phys % PAGE_SIZE != 0 || virt % PAGE_SIZE != 0 {
        return InvalidArg;
      }
      if virt == 0 || !Canonical(virt) || virt >= USER_SPACE_END {
        return InvalidArg;
      }
      if phys >= PHYS_LIMIT {
        return InvalidArg;
      }
      var nx := flags.nx && cfg.nx;
      if cfg.nx && flags.rw && !nx {
        return Permission;
      }
      var f, n := phys / PAGE_SIZE, virt / PAGE_SIZE;
      ghost var m := M();
      status := MapAt(r, f, n, flags);
      MapSeen(m, M(), r, f, n, flags, status);
    }

    static lemma MapSeen(m: Mem, m': Mem, r: nat, f: nat, n: nat, flags: Flags, status: Status)
      requires MapEffect(m, m', r, f, n, flags, status)
      ensures if status == Ok then Leading(m.ram, m'.ram, r, PAGE_SIZE * n, Some(Reach(PAGE_SIZE * f, true, flags.rw, !(flags.nx && m.cfg.nx))))
              else Unmoved(m.ram, m'.ram, r)
    {
      hide View, Only, PagesKept, Leading, Unmoved;
      if status == Ok {
        NowLeading(m, m', r, n, Some(Access(f, true, flags.rw, !(flags.nx && m.cfg.nx))));
      } else {
        StillLeading(m, m', r);
      }
    }

    // The part of MapPage below the argument checks.
    method MapAt(r: nat, f: nat, n: nat, flags: Flags) returns (status: Status)
      requires Valid() && r in spaces && n < USER_PAGES && f in own && own[f] == Held && (cfg.nx && flags.rw ==> flags.nx)
      modifies this
      ensures Valid() && MapEffect(old(M()), M(), r, f, n, flags, status) && MapCost(old(M()), M(), r, n, status)
    {
      hide Inv, View, PathOf, Only, PagesKept, EntryAt, WithEntry, PathOk, Grown, MapEffect, TableRel, Paid, Cost;
      ghost var m := M();
      MappedHere(m, r, n);
      MapNothing(m, r, f, n, flags);
      var t := Descend(r, n, true);
      if t.None? {
        MapFull(m, M(), r, f, n, flags);
        return OutOfMemory;
      }
      ghost var m1 := M();
      PathOfOk(n);
      var i := PathOf(n)[3];
      ghost var p := PathOf(n)[..3];
      Prefixes(PathOf(n));
      NodeFact(m1, r, p);
      TableFact(m1, r, p, i);
      if EntryAt(ram[t.value], i).present {
        MappedHere(m1, r, n);
        SameAt(m, m1, r);
        return AlreadyExists;
      }
      var e := LeafFor(f, flags, cfg.nx);
      HeldStays(m, m1, r, f);
      MapDone(m, m1, r, f, n, flags, p, i, e);
      ram := ram[t.value := WithEntry(ram[t.value], i, e)];
      own, spaces := Linked(m1, r, p, i, e).own, Linked(m1, r, p, i, e).spaces;
      assert M() == Linked(m1, r, p, i, e);
      PageCost(m, m1, M(), r, n);
      return Ok;
    }

    static lemma PageCost(m: Mem, m1: Mem, m2: Mem, r: nat, n: nat)
      requires Paid(m, m1, r, Tables(n)) && m2.free == m1.free && NodesOf(m2, r) == NodesOf(m1, r) + {PathOf(n)}
      ensures MapCost(m, m2, r, n, Ok)
    {
      hide PathOf, Cost;
    }

    static lemma MappedHere(m: Mem, r: nat, n: nat)
      requires Inv(m) && r in m.spaces && n < USER_PAGES
      ensures n in View(m, r) <==> PathOf(n) in m.spaces[r]
    {
      hide Inv, PathOf, ViewAt, View;
      ViewShows(m, r, n);
      ViewIs(m, r, n);
    }

    static lemma SameAt(m: Mem, m1: Mem, r: nat)
      requires Grown(m, m1, r)
      ensures View(m1, r) == View(m, r)
    {
    }

    static lemma MapNothing(m: Mem, r: nat, f: nat, n: nat, flags: Flags)
      requires Inv(m) && r in m.spaces
      ensures n in View(m, r) ==> MapEffect(m, m, r, f, n, flags, AlreadyExists)
    {
      hide View, Inv;
    }

    static lemma MapFull(m: Mem, m': Mem, r: nat, f: nat, n: nat, flags: Flags)
      requires Grown(m, m', r) && m'.free == [] && n !in View(m, r)
      ensures MapEffect(m, m', r, f, n, flags, OutOfMemory)
    {
      hide View, Only;
    }

    static lemma HeldStays(m: Mem, m1: Mem, r: nat, f: nat)
      requires Inv(m) && Grown(m, m1, r) && f in m.own && m.own[f] == Held
      ensures Same(m, m1, f) && m1.cfg == m.cfg && f < FRAME_LIMIT
    {
      hide View, PagesKept, SpaceOk, FreeSlot;
      FrameFact(m, f);
      assert Foreign(m, r, f);
    }

    static lemma MapDone(m: Mem, m1: Mem, r: nat, f: nat, n: nat, flags: Flags, p: Path, i: nat, e: Entry)
      requires Inv(m1) && Grown(m, m1, r) && m1.free <= m.free && Same(m, m1, f) && m.own[f] == Held && f < FRAME_LIMIT
      requires n < USER_PAGES && PathOf(n) == p + [i] && |p| == 3 && i < ENTRIES && PathOk(p + [i]) && m1.cfg == m.cfg
      requires r in m1.spaces && p in m1.spaces[r] && m1.spaces[r][p] in m1.ram && p + [i] !in m1.spaces[r]
      requires e == LeafFor(f, flags, m1.cfg.nx) && (m.cfg.nx && flags.rw ==> flags.nx)
      ensures Linkable(m1, r, p, i, e) && Inv(Linked(m1, r, p, i, e))
      ensures MapEffect(m, Linked(m1, r, p, i, e), r, f, n, flags, Ok)
    {
      hide Inv, View, PathOf, Only, PagesKept, EntryAt, WithEntry, PathOk, TableRel;
      LinkedKeeps(m1, r, p, i, e);
      LinkedOnly(m1, r, p, i, e);
      LinkedPageView(m1, r, n, e, p, i);
      var m2 := Linked(m1, r, p, i, e);
      OnlyTwice(m, m1, m2, r, {}, {f}, {});
      NoFrames(f);
      PagesKeptTwice(m, m1, m2, r);
      NodeFact(m1, r, p);
    }

    /** The checks shared by both ways to unmap, and the table that maps the page. */
    method FindEntry(r: nat, virt: nat) returns (status: Status, t: nat)
      requires Valid() && (r == 0 || r in spaces)
      modifies this
      ensures Valid() && M() == old(M())
      ensures status == if r == 0 then NotInitialized else if BadPage(virt) || virt / PAGE_SIZE !in View(M(), r) then InvalidArg else Ok
      ensures status == Ok ==>
                r in spaces && virt / PAGE_SIZE < USER_PAGES && PathOf(virt / PAGE_SIZE)[..3] in spaces[r] &&
                spaces[r][PathOf(virt / PAGE_SIZE)[..3]] == t && PathOf(virt / PAGE_SIZE) in spaces[r] && t in ram
    {
      hide Inv, View, PathOf, Only, PagesKept, EntryAt, WithEntry, PathOk, Grown, TableRel;
      t := 0;
      if r == 0 {
        return NotInitialized, 0;
      }
      if virt == 0 || virt % PAGE_SIZE != 0 || !Canonical(virt) || virt >= USER_SPACE_END {
        return InvalidArg, 0;
      }
      var n := virt / PAGE_SIZE;
      MappedHere(M(), r, n);
      var found := Descend(r, n, false);
      if found.None? {
        return InvalidArg, 0;
      }
      t := found.value;
      PathOfOk(n);
      ghost var p := PathOf(n)[..3];
      Prefixes(PathOf(n));
      NodeFact(M(), r, p);
      TableFact(M(), r, p, PathOf(n)[3]);
      if !EntryAt(ram[t], PathOf(n)[3]).present {
        return InvalidArg, 0;
      }
      return Ok, t;
    }

    /** Clears the entry of a mapped page and returns the frame it named. */
    method ClearEntry(r: nat, n: nat, t: nat) returns (f: nat)
      requires Valid() && r in spaces && n < USER_PAGES && PathOf(n)[..3] in spaces[r] && spaces[r][PathOf(n)[..3]] == t && PathOf(n) in spaces[r]
      modifies this
      ensures Valid() && UnmapEffect(old(M()), M(), r, n) && f == View(old(M()), r)[n].frame && f in own && own[f] == Held && free == old(free)
    {
      hide Inv, View, PathOf, Only, PagesKept, EntryAt, WithEntry, PathOk, Grown, TableRel;
      ghost var m := M();
      PathOfOk(n);
      var i := PathOf(n)[3];
      ghost var p := PathOf(n)[..3];
      Prefixes(PathOf(n));
      NodeFact(m, r, p);
      TableFact(m, r, p, i);
      f := EntryAt(ram[t], i).frame;
      UnlinkedKeeps(m, r, p, i);
      UnlinkedOnly(m, r, p, i);
      UnlinkedPageView(m, r, n, p, i);
      UnlinkedPages(m, r, p, i);
      ram := ram[t := WithEntry(ram[t], i, NONE)];
      own, spaces := Unlinked(m, r, p, i).own, Unlinked(m, r, p, i).spaces;
      assert M() == Unlinked(m, r, p, i);
    }

    static lemma UnlinkedPages(m: Mem, r: nat, p: Path, i: nat)
      requires Inv(m) && Unlinkable(m, r, p, i)
      ensures PagesKept(Unlinked(m, r, p, i), m, r)
    {
      hide Inv, WithEntry, TableRel;
      NodeFact(m, r, p);
      forall q | q in m.spaces[r] ensures |q| == 4 ==> m.spaces[r][q] != m.spaces[r][p] { NodeFact(m, r, q); }
    }

    /** Unmaps a page; its frame is the caller's to free. */
    method UnmapPage(r: nat, virt: nat) returns (status: Status)
      requires Valid() && (r == 0 || r in spaces)
      modifies this
      ensures Valid()
      ensures status == if r == 0 then NotInitialized
                        else if BadPage(virt) || virt / PAGE_SIZE !in View(old(M()), r) then InvalidArg else Ok
      ensures status != Ok ==> M() == old(M())
      ensures status == Ok ==> UnmapEffect(old(M()), M(), r, virt / PAGE_SIZE) && Leading(old(ram), ram, r, virt, None)
    {
      hide Inv, View, PathOf, UnmapEffect, Leading;
      ghost var m := M();
      var t;
      status, t := FindEntry(r, virt);
      if status == Ok {
        var f := ClearEntry(r, virt / PAGE_SIZE, t);
        UnmapSeen(m, M(), r, virt / PAGE_SIZE);
      }
    }

    static lemma UnmapSeen(m: Mem, m': Mem, r: nat, n: nat)
      requires View(m', r) == View(m, r) - {n} || UnmapEffect(m, m', r, n)
      ensures Leading(m.ram, m'.ram, r, PAGE_SIZE * n, None)
    {
      hide View, Only, PagesKept, Leading;
      NowLeading(m, m', r, n, None);
    }

    /** Unmaps a page and then frees its frame. */
    method UnmapFreePage(r: nat, virt: nat) returns (status: Status)
      requires Valid() && (r == 0 || r in spaces)
      modifies this
      ensures Valid()
      ensures status == if r == 0 then NotInitialized
                        else if BadPage(virt) || virt / PAGE_SIZE !in View(old(M()), r) then InvalidArg else Ok
      ensures status != Ok ==> M() == old(M())
      ensures status == Ok ==> FreePageEffect(old(M()), M(), r, virt / PAGE_SIZE) && Leading(old(ram), ram, r, virt, None)
    {
      hide Inv, View, PathOf, FreePageEffect, Pushed, UnmapEffect, Leading;
      ghost var m := M();
      var t;
      status, t := FindEntry(r, virt);
      if status == Ok {
        var f := ClearEntry(r, virt / PAGE_SIZE, t);
        ghost var m1 := M();
        FrameFact(m1, f);
        status := Free(PAGE_SIZE * f);
        assert PAGE_SIZE * f / PAGE_SIZE == f;
        FreeDone(m, m1, r, virt / PAGE_SIZE, f);
        FreeSeen(m, M(), r, virt / PAGE_SIZE);
      }
    }

    static lemma FreeDone(m: Mem, m1: Mem, r: nat, n: nat, f: nat)
      requires Inv(m1) && UnmapEffect(m, m1, r, n) && f == View(m, r)[n].frame && f in m1.own && m1.own[f] == Held && f in m1.ram
      requires m1.free == m.free && Inv(Pushed(m1, f))
      ensures FreePageEffect(m, Pushed(m1, f), r, n)
    {
      hide Inv, View, Only, PagesKept;
      var m2 := Pushed(m1, f);
      UnmapSpace(m, m1, r, n);
      FrameFact(m1, f);
      PushedOnly(m1, r, f);
      PushedKeeps(m1, f);
      OtherView(m1, m2, {f}, r);
      OnlyTwice(m, m1, m2, r, {f}, {f}, {});
      NoFrames(f);
      PushedPages(m1, r, f);
      PagesKeptTwice(m2, m1, m, r);
    }

    static lemma FreeSeen(m: Mem, m': Mem, r: nat, n: nat)
      requires FreePageEffect(m, m', r, n)
      ensures Leading(m.ram, m'.ram, r, PAGE_SIZE * n, None)
    {
      hide View, Only, PagesKept, Leading;
      UnmapSeen(m, m', r, n);
    }

    static lemma UnmapSpace(m: Mem, m1: Mem, r: nat, n: nat)
      requires UnmapEffect(m, m1, r, n)
      ensures r in m1.spaces && r in m.spaces
    {
    }

    static lemma PushedPages(m: Mem, r: nat, f: nat)
      requires Inv(m) && r in m.spaces && f in m.own && m.own[f] == Held && f in m.ram
      ensures PagesKept(Pushed(m, f), m, r)
    {
      hide Inv, Put, TableRel;
      forall p | p in m.spaces[r] ensures m.spaces[r][p] != f { NodeFact(m, r, p); }
    }

    // ------------------------------------------------------------------------------
    // Checking user addresses

    /** Whether one page is accessible from user mode. */
    method UserPageOk(r: nat, n: nat, write: bool) returns (ok: bool)
      requires Valid() && r in spaces && n < USER_PAGES
      ensures ok <==> Permits(M(), r, n, write)
    {
      hide Inv, View, PathOf, EntryAt, PathOk, TableRel;
      var path := PathOf(n);
      PathOfOk(n);
      Prefixes(path);
      NewRoot(M(), r);
      MappedHere(M(), r, n);
      Ancestors(M(), r, path);
      PermitsIs(M(), r, n, write);
      var t, level := r, 0;
      assert path[..0] == [];
      while level < 4
        invariant 0 <= level <= 4
        invariant level < 4 ==> path[..level] in spaces[r] && spaces[r][path[..level]] == t
        invariant level == 4 ==> path in spaces[r] && (write ==> LeafEntry(M(), r, path).rw)
      {
        LevelFact(M(), r, path, level);
        var e := EntryAt(ram[t], path[level]);
        if !e.present {
          return false;
        }
        if !e.user {
          return false;
        }
        if write && !e.rw {
          return false;
        }
        if level < 3 {
          t := e.frame;
        }
        level := level + 1;
      }
      return true;
    }

    // One level of the walk along `path`.
    static lemma LevelFact(m: Mem, r: nat, path: Path, level: nat)
      requires Inv(m) && r in m.spaces && |path| == 4 && PathOk(path) && level < 4 && path[..level] in m.spaces[r]
      ensures path[level] < ENTRIES && m.spaces[r][path[..level]] in m.ram
      ensures var e := EntryAt(m.ram[m.spaces[r][path[..level]]], path[level]);
              (e.present <==> path[..level + 1] in m.spaces[r]) &&
              (e.present ==> e.user && e.frame == m.spaces[r][path[..level + 1]] && (level < 3 ==> e.rw)) &&
              (level == 3 ==> e == LeafEntry(m, r, path))
      ensures path[..4] == path
    {
      hide Inv, EntryAt, TableRel;
      assert path[..level] + [path[level]] == path[..level + 1];
      TableFact(m, r, path[..level], path[level]);
    }

    static lemma PermitsIs(m: Mem, r: nat, n: nat, write: bool)
      requires Inv(m) && r in m.spaces && n < USER_PAGES && |PathOf(n)| == 4
      ensures Permits(m, r, n, write) <==> PathOf(n) in m.spaces[r] && (write ==> LeafEntry(m, r, PathOf(n)).rw)
    {
      hide Inv, PathOf, ViewAt, LeafEntry, View;
      ViewShows(m, r, n);
      ViewIs(m, r, n);
    }

    static lemma PermitsSeen(m: Mem, r: nat, v: nat, write: bool)
      requires v < USER_END
      ensures Grants(m.ram, r, v, write) <==> Permits(m, r, v / PAGE_SIZE, write)
    {
      hide View, Walk;
      WalkIsView(m, r, v);
    }

    static lemma PageSeen(m: Mem, r: nat, page: nat, write: bool)
      requires page % PAGE_SIZE == 0 && page < USER_END
      ensures forall a: nat :: page <= a < page + PAGE_SIZE ==> (Grants(m.ram, r, a, write) <==> Permits(m, r, page / PAGE_SIZE, write))
    {
      hide Permits, Grants;
      forall a: nat | page <= a < page + PAGE_SIZE ensures Grants(m.ram, r, a, write) <==> Permits(m, r, page / PAGE_SIZE, write) {
        assert a / PAGE_SIZE == page / PAGE_SIZE;
        PermitsSeen(m, r, a, write);
      }
    }

    static lemma RangeSeen(m: Mem, r: nat, virt: nat, len: nat, write: bool)
      ensures virt + len <= USER_END ==>
                ((forall a :: virt <= a < virt + len ==> Permits(m, r, a / PAGE_SIZE, write)) <==>
                 (forall a: nat :: virt <= a < virt + len ==> Grants(m.ram, r, a, write)))
    {
      hide Permits, Grants;
      if virt + len <= USER_END {
        forall a: nat | virt <= a < virt + len ensures Grants(m.ram, r, a, write) <==> Permits(m, r, a / PAGE_SIZE, write) {
          PermitsSeen(m, r, a, write);
        }
      }
    }

    /** Whether user mode may access every byte of `[virt, virt + len)`; 64-bit arithmetic. */
    method IsUserRange(r: nat, virt: nat, len: nat, write: bool) returns (ok: bool)
      requires Valid() && (r == 0 || r in spaces) && virt < U64_LIMIT && len < U64_LIMIT
      ensures ok <==>
                r != 0 && (len == 0 || (virt + len <= USER_SPACE_END &&
                forall a :: virt <= a < virt + len ==> Permits(M(), r, a / PAGE_SIZE, write)))
      ensures ok <==> r != 0 && (len == 0 || (virt + len <= USER_END && forall a: nat :: virt <= a < virt + len ==> Grants(ram, r, a, write)))
    {
      hide Inv, Permits, Grants;
      RangeSeen(M(), r, virt, len, write);
      if r == 0 {
        return false;
      }
      if len == 0 {
        return true;
      }
      var end := (virt + len) % U64_LIMIT;
      if end < virt || end > USER_SPACE_END {
        return false;
      }
      var page := virt - virt % PAGE_SIZE;
      while page < end
        invariant page % PAGE_SIZE == 0 && page <= end + PAGE_SIZE
        invariant forall a: nat :: virt <= a < end && a < page ==> Grants(ram, r, a, write)
      {
        var one := UserPageOk(r, page / PAGE_SIZE, write);
        PageSeen(M(), r, page, write);
        if !one {
          assert !Grants(ram, r, if page < virt then virt else page, write);
          return false;
        }
        page := page + PAGE_SIZE;
      }
      assert end == virt + len;
      return true;
    }

    // ------------------------------------------------------------------------------
    // Making and destroying address spaces

    /** A new space: an empty lower half, and the shared upper half. */
    method CreateSpace() returns (status: Status, r: nat)
      requires Valid()
      modifies this
      ensures Valid()
      ensures status == if old(free) == [] then OutOfMemory else Ok
      ensures status != Ok ==> M() == old(M())
      ensures status == Ok ==> r != 0 && r !in old(spaces) && spaces == old(spaces)[r := RootNodes(r)]
      ensures status == Ok ==> Only(old(M()), M(), r, {}, {}) && View(M(), r) == map[] && |free| == |old(free)| - 1
    {
      hide Inv, View, Only, WithEntry, PagesKept;
      ghost var m := M();
      var root := Alloc();
      if root.None? {
        return OutOfMemory, 0;
      }
      r := root.value;
      ghost var m1 := M();
      PoppedOnly(m, r);
      WithSpaceKeeps(m1, r);
      WithSpaceOnly(m1, r);
      ram := ram[r := WithEntry(WithEntry(ram[r], HHDM_INDEX, cfg.hhdm), KERNEL_INDEX, cfg.image)];
      own, spaces := own[r := NodeOf(r, [])], spaces[r := RootNodes(r)];
      assert M() == WithSpace(m1, r);
      OnlyTwice(m, m1, M(), r, {r}, {r}, {});
      NoFrames(r);
      EmptyView(M(), r);
      status := Ok;
    }

    static lemma WithSpaceOnly(m: Mem, r: nat)
      requires Inv(m) && r in m.own && m.own[r] == Held && r in m.ram
      ensures Only(m, WithSpace(m, r), r, {r}, {})
    {
      hide Inv, WithEntry, RootPage;
      forall f | Foreign(m, r, f) && f != r ensures Same(m, WithSpace(m, r), f) { FrameFact(m, f); }
    }

    /** Frees the tree below a table, children first, and then the table itself. */
    method FreeTable(t: nat, ghost nodes: Nodes, p: Path)
      requires Valid() && |p| <= 3 && Doomed(M(), nodes, p) && nodes[p] == t
      modifies this
      ensures Valid() && TreeFreed(old(M()), M(), nodes, p)
      decreases 4 - |p|
    {
      hide Inv, TreeFreed, PartFreed, Doomed, EntryAt, InTree, InPart, PathOk;
      ghost var m := M();
      NonePart(m, nodes, p);
      var i, limit := 0, if p == [] then HHDM_INDEX else ENTRIES;
      while i < limit
        invariant 0 <= i <= limit && Valid() && PartFreed(m, M(), nodes, p, i)
      {
        ghost var m1 := M();
        DoomedEntry(m, m1, nodes, p, i, t);
        var e := EntryAt(ram[t], i);
        if e.present {
          DoomedChild(m, m1, nodes, p, i);
          if |p| == 3 {
            DoomedFact(m1, nodes, p + [i], p + [i]);
            FrameFact(m1, e.frame);
            var status := Free(PAGE_SIZE * e.frame);
            assert PAGE_SIZE * e.frame / PAGE_SIZE == e.frame;
            LeafFreed(m1, nodes, p + [i], e.frame);
          } else {
            FreeTable(e.frame, nodes, p + [i]);
          }
          PartMore(m, m1, M(), nodes, p, i);
        } else {
          PartNone(m, m1, nodes, p, i);
        }
        i := i + 1;
      }
      ghost var m2 := M();
      DoomedSelf(m, m2, nodes, p, i);
      FrameFact(m2, t);
      var status := Free(PAGE_SIZE * t);
      assert PAGE_SIZE * t / PAGE_SIZE == t;
      TreeDone(m, m2, nodes, p, i, t);
    }

    static lemma DoomedFact(m: Mem, nodes: Nodes, p: Path, q: Path)
      requires Doomed(m, nodes, p) && q in nodes && HasPrefix(q, p)
      ensures Doomed1(m, nodes, q)
    {
    }

    static lemma NonePart(m: Mem, nodes: Nodes, p: Path)
      requires Inv(m)
      ensures PartFreed(m, m, nodes, p, 0)
    {
      hide SpaceOk, Field;
      forall f | f in m.own ensures FreedIf(m, m, f, InPart(nodes, p, 0, f)) { FrameFact(m, f); }
    }

    // The table itself is not freed before its children.
    static lemma DoomedSelf(m: Mem, m1: Mem, nodes: Nodes, p: Path, i: nat)
      requires Doomed(m, nodes, p) && PartFreed(m, m1, nodes, p, i)
      ensures Same(m, m1, nodes[p]) && Doomed1(m1, nodes, p)
    {
      hide TableRel, PathOk;
      assert Doomed1(m, nodes, p);
      assert !InPart(nodes, p, i, nodes[p]);
      assert FreedIf(m, m1, nodes[p], InPart(nodes, p, i, nodes[p]));
    }

    static lemma DoomedEntry(m: Mem, m1: Mem, nodes: Nodes, p: Path, i: nat, t: nat)
      requires Doomed(m, nodes, p) && PartFreed(m, m1, nodes, p, i) && t == nodes[p] && |p| <= 3
      requires i < ENTRIES && (p == [] ==> i < HHDM_INDEX)
      ensures t in m1.ram
      ensures var e := EntryAt(m1.ram[t], i); e.present == (p + [i] in nodes) && (e.present ==> e.frame == nodes[p + [i]])
    {
      hide EntryAt, Doomed, PartFreed;
      DoomedSelf(m, m1, nodes, p, i);
      assert EntryRel(m1.cfg, m1.ram[t], nodes, p, i);
    }

    static lemma DoomedChild(m: Mem, m1: Mem, nodes: Nodes, p: Path, i: nat)
      requires Doomed(m, nodes, p) && PartFreed(m, m1, nodes, p, i) && p + [i] in nodes
      ensures Doomed(m1, nodes, p + [i])
    {
      hide TableRel, PathOk;
      forall q | q in nodes && HasPrefix(q, p + [i]) ensures Doomed1(m1, nodes, q) {
        assert q[..|p|] == q[..|p| + 1][..|p|] == p && q[|p|] == q[..|p| + 1][|p|] == i;
        assert Doomed1(m, nodes, q);
        assert !InPart(nodes, p, i, nodes[q]);
        assert FreedIf(m, m1, nodes[q], InPart(nodes, p, i, nodes[q]));
      }
    }

    static lemma LeafFreed(m: Mem, nodes: Nodes, q: Path, f: nat)
      requires Inv(m) && q in nodes && nodes[q] == f && |q| == 4 && f in m.ram && f in m.own
      requires Doomed(m, nodes, q)
      ensures TreeFreed(m, Pushed(m, f), nodes, q)
    {
      hide Inv, Put;
      var m' := Pushed(m, f);
      forall g | g in m.own ensures FreedIf(m, m', g, InTree(nodes, q, g)) {
        FrameFact(m, g);
        if InTree(nodes, q, g) {
          var x :| x in nodes && HasPrefix(x, q) && nodes[x] == g;
          assert |x| == 4 && x == q;
        }
        assert g == f ==> InTree(nodes, q, g);
      }
    }

    static lemma Split(q: Path, p: Path, i: nat)
      ensures Below(q, p, i + 1) <==> Below(q, p, i) || HasPrefix(q, p + [i])
    {
      if HasPrefix(q, p + [i]) {
        assert q[..|p|] == q[..|p| + 1][..|p|] == p && q[|p|] == q[..|p| + 1][|p|] == i;
      }
      if Below(q, p, i + 1) && q[|p|] == i { assert q[..|p| + 1] == q[..|p|] + [q[|p|]]; }
    }

    static lemma SplitFrames(nodes: Nodes, p: Path, i: nat, f: nat)
      ensures InPart(nodes, p, i + 1, f) <==> InPart(nodes, p, i, f) || InTree(nodes, p + [i], f)
    {
      forall q ensures Below(q, p, i + 1) <==> Below(q, p, i) || HasPrefix(q, p + [i]) { Split(q, p, i); }
    }

    static lemma PartMore(m: Mem, m1: Mem, m2: Mem, nodes: Nodes, p: Path, i: nat)
      requires PartFreed(m, m1, nodes, p, i) && TreeFreed(m1, m2, nodes, p + [i]) && Inv(m1) && Inv(m2)
      ensures PartFreed(m, m2, nodes, p, i + 1)
    {
      hide InPart, InTree, SpaceOk, Field;
      forall f | f in m.own ensures FreedIf(m, m2, f, InPart(nodes, p, i + 1, f)) {
        SplitFrames(nodes, p, i, f);
        assert FreedIf(m, m1, f, InPart(nodes, p, i, f));
        assert FreedIf(m1, m2, f, InTree(nodes, p + [i], f));
      }
    }

    static lemma PartNone(m: Mem, m1: Mem, nodes: Nodes, p: Path, i: nat)
      requires Doomed(m, nodes, p) && PartFreed(m, m1, nodes, p, i) && p + [i] !in nodes
      ensures PartFreed(m, m1, nodes, p, i + 1)
    {
      hide InPart, PathOk, Doomed1;
      forall f | f in m.own ensures FreedIf(m, m1, f, InPart(nodes, p, i + 1, f)) {
        SplitFrames(nodes, p, i, f);
        if q :| q in nodes && HasPrefix(q, p + [i]) && nodes[q] == f { Rootless(nodes, q, p + [i]); }
        assert FreedIf(m, m1, f, InPart(nodes, p, i, f));
      }
    }

    // A node's prefixes are nodes.
    static lemma {:induction false} Rootless(nodes: Nodes, q: Path, p: Path)
      requires (forall x :: x in nodes ==> PathOk(x) && (x != [] ==> Parent(x) in nodes)) && q in nodes && HasPrefix(q, p)
      ensures p in nodes
      decreases |q|
    {
      hide PathOk;
      if q != p {
        assert Parent(q)[..|p|] == q[..|p|];
        Rootless(nodes, Parent(q), p);
      }
    }

    static lemma TreeDone(m: Mem, m1: Mem, nodes: Nodes, p: Path, i: nat, t: nat)
      requires Inv(m1) && Doomed(m, nodes, p) && PartFreed(m, m1, nodes, p, i) && t == nodes[p] && t in m1.ram && t in m1.own
      requires i == if p == [] then HHDM_INDEX else ENTRIES
      ensures TreeFreed(m, Pushed(m1, t), nodes, p)
    {
      hide Inv, Put, TableRel;
      var m2 := Pushed(m1, t);
      forall f | f in m.own ensures FreedIf(m, m2, f, InTree(nodes, p, f)) {
        WholeTree(nodes, p, i, f);
        assert FreedIf(m, m1, f, InPart(nodes, p, i, f));
      }
    }

    static lemma WholeTree(nodes: Nodes, p: Path, i: nat, f: nat)
      requires p in nodes && (forall x :: x in nodes ==> PathOk(x)) && i == if p == [] then HHDM_INDEX else ENTRIES
      ensures InTree(nodes, p, f) <==> InPart(nodes, p, i, f) || f == nodes[p]
    {
      if InTree(nodes, p, f) {
        var q :| q in nodes && HasPrefix(q, p) && nodes[q] == f;
        assert PathOk(q);
        if q != p { assert |q| > |p| && Below(q, p, i); }
      }
      assert HasPrefix(p, p);
      if InPart(nodes, p, i, f) {
        var q :| q in nodes && Below(q, p, i) && nodes[q] == f;
        assert HasPrefix(q, p);
      }
    }

    /** Returns every frame of a space: data pages, tables and the root. */
    method DestroySpace(r: nat)
      requires Valid() && (r == 0 || r in spaces)
      modifies this
      ensures Valid()
      ensures r == 0 ==> M() == old(M())
      ensures r != 0 ==> Destroyed(old(M()), M(), r)
    {
      hide Inv, TreeFreed, Doomed, Destroyed;
      if r == 0 {
        return;
      }
      ghost var m := M();
      ghost var nodes := spaces[r];
      GiveUp(m, r);
      own, spaces := WithoutSpace(m, r).own, WithoutSpace(m, r).spaces;
      assert M() == WithoutSpace(m, r);
      FreeTable(r, nodes, []);
      AllFreed(m, M(), r);
    }

    static lemma GiveUp(m: Mem, r: nat)
      requires Inv(m) && r in m.spaces
      ensures Inv(WithoutSpace(m, r)) && Doomed(WithoutSpace(m, r), m.spaces[r], []) && m.spaces[r][[]] == r
    {
      hide Inv, TableRel, PathOk;
      WithoutSpaceKeeps(m, r);
      var nodes := m.spaces[r];
      NewRoot(m, r);
      forall q | q in nodes ensures Doomed1(WithoutSpace(m, r), nodes, q) { NodeFact(m, r, q); }
      forall q, q' | q in nodes && q' in nodes && nodes[q] == nodes[q'] ensures q == q' { NodeFact(m, r, q); NodeFact(m, r, q'); }
      forall q | q in nodes ensures PathOk(q) && (q != [] ==> Parent(q) in nodes) { NodeFact(m, r, q); }
    }

    static lemma AllFreed(m: Mem, m': Mem, r: nat)
      requires Inv(m) && r in m.spaces && TreeFreed(WithoutSpace(m, r), m', m.spaces[r], [])
      ensures Destroyed(m, m', r)
    {
      hide Inv, TableRel, PathOk;
      var m1 := WithoutSpace(m, r);
      forall f | f in m.own
        ensures if m.own[f].NodeOf? && m.own[f].root == r then m'.own[f].FreeAt? else Same(m, m', f)
      {
        FrameFact(m, f);
        assert FreedIf(m1, m', f, InTree(m.spaces[r], [], f));
        if m.own[f].NodeOf? && m.own[f].root == r {
          assert HasPrefix(m.own[f].path, []);
        } else if q :| q in m.spaces[r] && HasPrefix(q, []) && m.spaces[r][q] == f {
          NodeFact(m, r, q);
        }
      }
    }
  }
}
