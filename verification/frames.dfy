/** Physical frames as a value: who owns each frame, the free list threaded through the
    free ones, and the page tables built from the others; with the steps that allocation
    and mapping are made of, and the proof that each keeps the invariant. */
module Frames {
  import opened Results
  import opened Bytes
  import opened Entries

  /** Table indices from the top level down; four of them name a page. */
  type Path = seq<nat>

  /** The owner of a frame: its place in the free list (counted from the end), the kernel
      code that has just allocated it, or a node of an address space. */
  datatype Tag = FreeAt(k: nat) | Held | NodeOf(root: nat, path: Path)

  /** The frames of one address space: tables for paths shorter than four, data at four. */
  type Nodes = map<Path, nat>

  /** The shared upper-half entries, and whether execute-disable is supported. */
  datatype Config = Config(hhdm: Entry, image: Entry, nx: bool)

  datatype Mem = Mem(
    cfg: Config, ram: map<nat, Page>, head: nat, count: nat,
    own: map<nat, Tag>, free: seq<nat>, spaces: map<nat, Nodes>)

  const HHDM_INDEX: nat := 256
  const KERNEL_INDEX: nat := 511

  function Phys(f: nat): nat { PAGE_SIZE * f }

  // ----------------------------------------------------------------------------------
  // The invariant

  function Under(free: seq<nat>, k: nat): nat {
    if 0 < k <= |free| then free[k - 1] else 0
  }

  /** Entry `k` of the free list: tagged with its place, pointing at the one below. */
  ghost predicate FreeSlot(m: Mem, k: nat) {
    k < |m.free| && m.free[k] in m.own && m.own[m.free[k]] == FreeAt(k) && m.free[k] in m.ram &&
    Field(m.ram[m.free[k]], 0, 8) == Phys(Under(m.free, k))
  }

  ghost predicate FrameOk(m: Mem, f: nat) {
    0 < f < FRAME_LIMIT && f in m.ram
  }

  /** The tag of a frame is the truth. */
  ghost predicate Backed(m: Mem, f: nat) {
    f in m.own &&
    match m.own[f]
    case FreeAt(k) => k < |m.free| && m.free[k] == f
    case Held => true
    case NodeOf(r, p) => r in m.spaces && p in m.spaces[r] && m.spaces[r][p] == f
  }

  ghost predicate PathOk(p: Path) {
    |p| <= 4 && (forall i :: 0 <= i < |p| ==> p[i] < ENTRIES) && (|p| > 0 ==> p[0] < HHDM_INDEX)
  }

  function Parent(p: Path): Path
    requires |p| > 0
  {
    p[..|p| - 1]
  }

  function Last(p: Path): nat
    requires |p| > 0
  {
    p[|p| - 1]
  }

  ghost predicate LeafOk(cfg: Config, e: Entry) {
    e.user && !e.huge && (cfg.nx && e.rw ==> e.nx)
  }

  /** What entry `i` of the table at `p` holds: the shared entries in the upper half, the
      child's frame where there is a child, and nothing elsewhere. */
  ghost predicate EntryRel(cfg: Config, page: Page, nodes: Nodes, p: Path, i: nat) {
    i < ENTRIES &&
    var e := EntryAt(page, i);
    if p == [] && i >= HHDM_INDEX then
      e == if i == HHDM_INDEX then cfg.hhdm else if i == KERNEL_INDEX then cfg.image else NONE
    else if p + [i] in nodes then
      e.present && e.frame == nodes[p + [i]] && (if |p| < 3 then e == TableEntry(e.frame) else LeafOk(cfg, e))
    else e == NONE
  }

  ghost predicate TableRel(cfg: Config, page: Page, nodes: Nodes, p: Path) {
    forall i {:trigger EntryRel(cfg, page, nodes, p, i)} :: 0 <= i < ENTRIES ==> EntryRel(cfg, page, nodes, p, i)
  }

  ghost predicate NodeOk(cfg: Config, ram: map<nat, Page>, own: map<nat, Tag>, r: nat, nodes: Nodes, p: Path) {
    p in nodes && PathOk(p) && (p != [] ==> Parent(p) in nodes) &&
    nodes[p] in ram && nodes[p] in own && own[nodes[p]] == NodeOf(r, p) &&
    (|p| < 4 ==> TableRel(cfg, ram[nodes[p]], nodes, p))
  }

  ghost predicate SpaceOk(cfg: Config, ram: map<nat, Page>, own: map<nat, Tag>, r: nat, nodes: Nodes) {
    [] in nodes && nodes[[]] == r &&
    forall p {:trigger NodeOk(cfg, ram, own, r, nodes, p)} :: p in nodes ==> NodeOk(cfg, ram, own, r, nodes, p)
  }

  ghost predicate Space(m: Mem, r: nat) {
    r in m.spaces && SpaceOk(m.cfg, m.ram, m.own, r, m.spaces[r])
  }

  /** Every managed frame is on the free list once, held once, or one node of one address
      space; the list, its count and every table agree with that. */
  ghost predicate Inv(m: Mem) {
    m.count == |m.free| && m.head == Phys(Under(m.free, |m.free|)) && Fits(m.cfg.hhdm) && Fits(m.cfg.image) &&
    (forall f {:trigger FrameOk(m, f)} :: f in m.own ==> FrameOk(m, f)) &&
    (forall k {:trigger FreeSlot(m, k)} :: 0 <= k < |m.free| ==> FreeSlot(m, k)) &&
    (forall f {:trigger Backed(m, f)} :: f in m.own ==> Backed(m, f)) &&
    (forall r {:trigger Space(m, r)} :: r in m.spaces ==> Space(m, r))
  }

  // What the invariant says about one frame, one node, one space.

  lemma FrameFact(m: Mem, f: nat)
    requires Inv(m) && f in m.own
    ensures FrameOk(m, f) && Backed(m, f)
  {
  }

  lemma FreeFact(m: Mem, k: nat)
    requires Inv(m) && k < |m.free|
    ensures FreeSlot(m, k)
  {
  }

  lemma SpaceFact(m: Mem, r: nat)
    requires Inv(m) && r in m.spaces
    ensures SpaceOk(m.cfg, m.ram, m.own, r, m.spaces[r])
  {
    assert Space(m, r);
  }

  lemma NodeFact(m: Mem, r: nat, p: Path)
    requires Inv(m) && r in m.spaces && p in m.spaces[r]
    ensures NodeOk(m.cfg, m.ram, m.own, r, m.spaces[r], p)
  {
    SpaceFact(m, r);
  }

  // ----------------------------------------------------------------------------------
  // A space does not depend on frames that are not its own

  lemma SpaceFrame(cfg: Config, ram: map<nat, Page>, ram': map<nat, Page>, own: map<nat, Tag>, own': map<nat, Tag>, r: nat, nodes: Nodes)
    requires SpaceOk(cfg, ram, own, r, nodes)
    requires forall f :: f in own && own[f].NodeOf? && own[f].root == r ==>
               f in own' && own'[f] == own[f] && (f in ram ==> f in ram' && (|own[f].path| < 4 ==> ram'[f] == ram[f]))
    ensures SpaceOk(cfg, ram', own', r, nodes)
  {
    hide TableRel;
    forall p | p in nodes ensures NodeOk(cfg, ram', own', r, nodes, p) {
      assert NodeOk(cfg, ram, own, r, nodes, p);
    }
  }

  /** Every frame not in `touched` keeps its tag and, if a table, its contents. */
  ghost predicate Kept(m: Mem, m': Mem, touched: set<nat>) {
    m'.cfg == m.cfg &&
    forall f :: f in m.own && f !in touched ==>
      f in m'.own && m'.own[f] == m.own[f] && (f in m.ram ==> f in m'.ram && m'.ram[f] == m.ram[f])
  }

  /** The spaces that own none of the touched frames, and have the same nodes as before,
      are still good. */
  lemma OtherSpaces(m: Mem, m': Mem, touched: set<nat>, r: nat)
    requires Inv(m) && Kept(m, m', touched) && r in m.spaces && r in m'.spaces && m'.spaces[r] == m.spaces[r]
    requires forall f :: f in touched && f in m.own ==> !m.own[f].NodeOf? || m.own[f].root != r
    ensures Space(m', r)
  {
    hide Inv, SpaceOk;
    SpaceFact(m, r);
    SpaceFrame(m.cfg, m.ram, m'.ram, m.own, m'.own, r, m.spaces[r]);
  }

  // ----------------------------------------------------------------------------------
  // Allocating and freeing

  /** `m` after the head of the free list was taken and its frame cleared. */
  ghost function Popped(m: Mem): Mem
    requires |m.free| > 0
  {
    var k := |m.free| - 1;
    m.(head := Phys(Under(m.free, k)), count := k, free := m.free[..k],
       own := m.own[m.free[k] := Held], ram := m.ram[m.free[k] := ZeroPage()])
  }

  lemma PoppedKeeps(m: Mem)
    requires Inv(m) && |m.free| > 0
    ensures Inv(Popped(m))
    ensures var f := m.free[|m.free| - 1];
            f in m.own && m.own[f] == FreeAt(|m.free| - 1) && m.head == Phys(f) && 0 < f < FRAME_LIMIT && f in m.ram &&
            Field(m.ram[f], 0, 8) == Popped(m).head && Kept(m, Popped(m), {f})
  {
    hide SpaceOk, Field, Phys;
    var k := |m.free| - 1;
    var f := m.free[k];
    var m' := Popped(m);
    FreeFact(m, k);
    FrameFact(m, f);
    forall g | g in m'.own ensures FrameOk(m', g) && Backed(m', g) {
      FrameFact(m, g);
    }
    forall j | 0 <= j < |m'.free| ensures FreeSlot(m', j) {
      FreeFact(m, j);
      assert Under(m'.free, j) == Under(m.free, j);
    }
    forall r | r in m'.spaces ensures Space(m', r) {
      OtherSpaces(m, m', {f}, r);
    }
  }

  /** `m` after the held frame `f` was put back at the head of the list. */
  ghost function Pushed(m: Mem, f: nat): Mem
    requires f in m.ram
  {
    m.(head := Phys(f), count := m.count + 1, free := m.free + [f],
       own := m.own[f := FreeAt(|m.free|)], ram := m.ram[f := Put(m.ram[f], 0, Enc(m.head, 8))])
  }

  lemma PushedKeeps(m: Mem, f: nat)
    requires Inv(m) && f in m.ram && 0 < f < FRAME_LIMIT && (f in m.own ==> m.own[f] == Held)
    ensures Inv(Pushed(m, f)) && Kept(m, Pushed(m, f), {f})
  {
    hide SpaceOk, Field, Put;
    var m' := Pushed(m, f);
    TopBound(m);
    LinkStored(m.ram[f], m.head);
    forall g | g in m'.own ensures FrameOk(m', g) && Backed(m', g) {
      if g != f { FrameFact(m, g); }
    }
    forall j | 0 <= j < |m'.free| ensures FreeSlot(m', j) {
      if j < |m.free| { FreeFact(m, j); }
      assert j > 0 ==> m'.free[j - 1] == m.free[j - 1];
    }
    forall r | r in m'.spaces ensures Space(m', r) {
      assert Space(m, r);
      OtherSpaces(m, m', {f}, r);
    }
  }

  lemma TopBound(m: Mem)
    requires Inv(m)
    ensures m.head < U64_LIMIT
  {
    hide SpaceOk, Field;
    if |m.free| > 0 {
      FreeFact(m, |m.free| - 1);
      FrameFact(m, m.free[|m.free| - 1]);
    }
  }

  lemma LinkStored(p: Page, x: nat)
    requires x < U64_LIMIT
    ensures Field(Put(p, 0, Enc(x, 8)), 0, 8) == x
  {
    hide Dec, Enc, Put;
    Widths();
    FieldIs(Put(p, 0, Enc(x, 8)), 0, 8, x);
  }

  // ----------------------------------------------------------------------------------
  // Linking a held frame into a table, and unlinking a data page

  /** `m` after entry `i` of the table at `p` in space `r` was set to `e`, giving the frame
      it names to the space. */
  ghost function Linked(m: Mem, r: nat, p: Path, i: nat, e: Entry): Mem
    requires r in m.spaces && p in m.spaces[r] && m.spaces[r][p] in m.ram && i < ENTRIES
  {
    var nodes := m.spaces[r];
    m.(ram := m.ram[nodes[p] := WithEntry(m.ram[nodes[p]], i, e)],
       own := m.own[e.frame := NodeOf(r, p + [i])],
       spaces := m.spaces[r := nodes[p + [i] := e.frame]])
  }

  ghost predicate Linkable(m: Mem, r: nat, p: Path, i: nat, e: Entry) {
    r in m.spaces && p in m.spaces[r] && m.spaces[r][p] in m.ram && i < ENTRIES && |p| < 4 &&
    PathOk(p + [i]) && p + [i] !in m.spaces[r] &&
    e.present && Fits(e) && e.frame in m.own && m.own[e.frame] == Held && e.frame in m.ram &&
    if |p| < 3 then e == TableEntry(e.frame) && m.ram[e.frame] == ZeroPage() else LeafOk(m.cfg, e)
  }

  lemma SnocEq(p: Path, i: nat, q: Path, j: nat)
    ensures p + [i] == q + [j] <==> p == q && i == j
    ensures Parent(p + [i]) == p && Last(p + [i]) == i
  {
    if p + [i] == q + [j] {
      assert (p + [i])[..|p|] == p && (q + [j])[..|q|] == q;
      assert (p + [i])[|p|] == i && (q + [j])[|q|] == j;
    }
  }

  // The tables of a space, seen with one more node.
  lemma RelMoreNodes(cfg: Config, page: Page, nodes: Nodes, q: Path, p: Path, i: nat, f: nat)
    requires TableRel(cfg, page, nodes, q) && q != p
    ensures TableRel(cfg, page, nodes[p + [i] := f], q)
  {
    var nodes' := nodes[p + [i] := f];
    forall j | 0 <= j < ENTRIES ensures EntryRel(cfg, page, nodes', q, j) {
      assert EntryRel(cfg, page, nodes, q, j);
      SnocEq(p, i, q, j);
    }
  }

  lemma RelLinked(cfg: Config, page: Page, nodes: Nodes, p: Path, i: nat, e: Entry)
    requires TableRel(cfg, page, nodes, p) && i < ENTRIES && Fits(e) && e.present && PathOk(p + [i])
    requires if |p| < 3 then e == TableEntry(e.frame) else LeafOk(cfg, e)
    ensures TableRel(cfg, WithEntry(page, i, e), nodes[p + [i] := e.frame], p)
  {
    hide WithEntry, EntryAt;
    var nodes' := nodes[p + [i] := e.frame];
    var page' := WithEntry(page, i, e);
    forall j | 0 <= j < ENTRIES ensures EntryRel(cfg, page', nodes', p, j) {
      assert EntryRel(cfg, page, nodes, p, j);
      SnocEq(p, i, p, j);
      EntryStored(page, i, e, j);
      assert p == [] ==> (p + [i])[0] == i;
    }
  }

  lemma RelZero(cfg: Config, nodes: Nodes, q: Path)
    requires q != [] && forall j :: 0 <= j < ENTRIES ==> q + [j] !in nodes
    ensures TableRel(cfg, ZeroPage(), nodes, q)
  {
    hide EntryAt;
    forall j | 0 <= j < ENTRIES ensures EntryRel(cfg, ZeroPage(), nodes, q, j) {
      ZeroEntry(j);
    }
  }

  lemma NoChildren(m: Mem, r: nat, q: Path, j: nat)
    requires Inv(m) && r in m.spaces && q !in m.spaces[r]
    ensures q + [j] !in m.spaces[r]
  {
    hide Inv, TableRel;
    SnocEq(q, j, q, j);
    if q + [j] in m.spaces[r] { NodeFact(m, r, q + [j]); assert false; }
  }

  lemma LinkedNode(m: Mem, r: nat, p: Path, i: nat, e: Entry, q: Path)
    requires Inv(m) && Linkable(m, r, p, i, e) && q in m.spaces[r][p + [i] := e.frame]
    ensures var m' := Linked(m, r, p, i, e); NodeOk(m.cfg, m'.ram, m'.own, r, m'.spaces[r], q)
  {
    hide Inv, TableRel, WithEntry;
    var nodes := m.spaces[r];
    var m' := Linked(m, r, p, i, e);
    NodeFact(m, r, p);
    SnocEq(p, i, p, i);
    if q == p + [i] {
      if |q| < 4 {
        forall j | 0 <= j < ENTRIES ensures q + [j] !in m'.spaces[r] { NoChildren(m, r, q, j); SnocEq(q, j, p, i); }
        RelZero(m.cfg, m'.spaces[r], q);
      }
    } else {
      NodeFact(m, r, q);
      if q == p {
        RelLinked(m.cfg, m.ram[nodes[p]], nodes, p, i, e);
      } else if |q| < 4 {
        RelMoreNodes(m.cfg, m.ram[nodes[q]], nodes, q, p, i, e.frame);
      }
    }
  }

  lemma LinkedKeeps(m: Mem, r: nat, p: Path, i: nat, e: Entry)
    requires Inv(m) && Linkable(m, r, p, i, e)
    ensures Inv(Linked(m, r, p, i, e)) && Kept(m, Linked(m, r, p, i, e), {m.spaces[r][p], e.frame})
  {
    hide SpaceOk, TableRel, WithEntry;
    var m' := Linked(m, r, p, i, e);
    var t := m.spaces[r][p];
    NodeFact(m, r, p);
    FrameFact(m, e.frame);
    SnocEq(p, i, p, i);
    forall g | g in m'.own ensures FrameOk(m', g) && Backed(m', g) {
      FrameFact(m, g);
    }
    forall j | 0 <= j < |m'.free| ensures FreeSlot(m', j) {
      FreeFact(m, j);
    }
    forall x | x in m'.spaces ensures Space(m', x) {
      if x == r { LinkedSpace(m, r, p, i, e); } else { OtherSpaces(m, m', {t, e.frame}, x); }
    }
  }

  lemma LinkedSpace(m: Mem, r: nat, p: Path, i: nat, e: Entry)
    requires Inv(m) && Linkable(m, r, p, i, e)
    ensures Space(Linked(m, r, p, i, e), r)
  {
    hide Inv, NodeOk, WithEntry;
    var m' := Linked(m, r, p, i, e);
    SpaceFact(m, r);
    forall q | q in m'.spaces[r] ensures NodeOk(m.cfg, m'.ram, m'.own, r, m'.spaces[r], q) { LinkedNode(m, r, p, i, e, q); }
  }

  /** `m` after the data page at `p + [i]` was taken out of its table. */
  ghost function Unlinked(m: Mem, r: nat, p: Path, i: nat): Mem
    requires r in m.spaces && p in m.spaces[r] && m.spaces[r][p] in m.ram && i < ENTRIES && p + [i] in m.spaces[r]
  {
    var nodes := m.spaces[r];
    m.(ram := m.ram[nodes[p] := WithEntry(m.ram[nodes[p]], i, NONE)],
       own := m.own[nodes[p + [i]] := Held],
       spaces := m.spaces[r := nodes - {p + [i]}])
  }

  ghost predicate Unlinkable(m: Mem, r: nat, p: Path, i: nat) {
    r in m.spaces && p in m.spaces[r] && m.spaces[r][p] in m.ram && i < ENTRIES && |p| == 3 && p + [i] in m.spaces[r]
  }

  lemma RelFewerNodes(cfg: Config, page: Page, nodes: Nodes, q: Path, p: Path, i: nat)
    requires TableRel(cfg, page, nodes, q) && q != p
    ensures TableRel(cfg, page, nodes - {p + [i]}, q)
  {
    forall j | 0 <= j < ENTRIES ensures EntryRel(cfg, page, nodes - {p + [i]}, q, j) {
      assert EntryRel(cfg, page, nodes, q, j);
      SnocEq(p, i, q, j);
    }
  }

  lemma RelUnlinked(cfg: Config, page: Page, nodes: Nodes, p: Path, i: nat)
    requires TableRel(cfg, page, nodes, p) && i < ENTRIES && |p| == 3
    ensures TableRel(cfg, WithEntry(page, i, NONE), nodes - {p + [i]}, p)
  {
    hide WithEntry, EntryAt;
    forall j | 0 <= j < ENTRIES ensures EntryRel(cfg, WithEntry(page, i, NONE), nodes - {p + [i]}, p, j) {
      assert EntryRel(cfg, page, nodes, p, j);
      SnocEq(p, i, p, j);
      EntryStored(page, i, NONE, j);
    }
  }

  lemma UnlinkedNode(m: Mem, r: nat, p: Path, i: nat, q: Path)
    requires Inv(m) && Unlinkable(m, r, p, i) && q in m.spaces[r] && q != p + [i]
    ensures var m' := Unlinked(m, r, p, i); NodeOk(m.cfg, m'.ram, m'.own, r, m'.spaces[r], q)
  {
    hide Inv, TableRel, WithEntry;
    var nodes := m.spaces[r];
    NodeFact(m, r, p);
    NodeFact(m, r, q);
    NodeFact(m, r, p + [i]);
    if q == p {
      RelUnlinked(m.cfg, m.ram[nodes[p]], nodes, p, i);
    } else if |q| < 4 {
      RelFewerNodes(m.cfg, m.ram[nodes[q]], nodes, q, p, i);
    }
    assert q != [] && Parent(q) == p + [i] ==> |q| == 5;
  }

  lemma UnlinkedKeeps(m: Mem, r: nat, p: Path, i: nat)
    requires Inv(m) && Unlinkable(m, r, p, i)
    ensures Inv(Unlinked(m, r, p, i)) && Kept(m, Unlinked(m, r, p, i), {m.spaces[r][p], m.spaces[r][p + [i]]})
  {
    hide SpaceOk, TableRel, WithEntry;
    var m' := Unlinked(m, r, p, i);
    var t, f := m.spaces[r][p], m.spaces[r][p + [i]];
    NodeFact(m, r, p);
    NodeFact(m, r, p + [i]);
    forall g | g in m'.own ensures FrameOk(m', g) && Backed(m', g) {
      FrameFact(m, g);
    }
    forall j | 0 <= j < |m'.free| ensures FreeSlot(m', j) {
      FreeFact(m, j);
    }
    forall x | x in m'.spaces ensures Space(m', x) {
      if x == r { UnlinkedSpace(m, r, p, i); } else { OtherSpaces(m, m', {t, f}, x); }
    }
  }

  lemma UnlinkedSpace(m: Mem, r: nat, p: Path, i: nat)
    requires Inv(m) && Unlinkable(m, r, p, i)
    ensures Space(Unlinked(m, r, p, i), r)
  {
    hide Inv, NodeOk, WithEntry;
    var m' := Unlinked(m, r, p, i);
    SpaceFact(m, r);
    forall q | q in m'.spaces[r] ensures NodeOk(m.cfg, m'.ram, m'.own, r, m'.spaces[r], q) { UnlinkedNode(m, r, p, i, q); }
  }

  // ----------------------------------------------------------------------------------
  // Making and unmaking a space

  function RootNodes(r: nat): Nodes { map[[] := r] }

  ghost function RootPage(cfg: Config): Page {
    WithEntry(WithEntry(ZeroPage(), HHDM_INDEX, cfg.hhdm), KERNEL_INDEX, cfg.image)
  }

  /** `m` after the held frame `r` was made the root of an empty space. */
  ghost function WithSpace(m: Mem, r: nat): Mem {
    m.(ram := m.ram[r := RootPage(m.cfg)], own := m.own[r := NodeOf(r, [])], spaces := m.spaces[r := RootNodes(r)])
  }

  lemma RootRel(cfg: Config, r: nat)
    requires Fits(cfg.hhdm) && Fits(cfg.image)
    ensures TableRel(cfg, RootPage(cfg), RootNodes(r), [])
  {
    hide WithEntry, EntryAt;
    var p1 := WithEntry(ZeroPage(), HHDM_INDEX, cfg.hhdm);
    forall i | 0 <= i < ENTRIES ensures EntryRel(cfg, RootPage(cfg), RootNodes(r), [], i) {
      ZeroEntry(i);
      EntryStored(ZeroPage(), HHDM_INDEX, cfg.hhdm, i);
      EntryStored(p1, KERNEL_INDEX, cfg.image, i);
      assert [] + [i] != [];
    }
  }

  lemma WithSpaceKeeps(m: Mem, r: nat)
    requires Inv(m) && r in m.own && m.own[r] == Held && r in m.ram
    ensures Inv(WithSpace(m, r)) && Kept(m, WithSpace(m, r), {r}) && r !in m.spaces
  {
    hide SpaceOk, TableRel, RootPage;
    var m' := WithSpace(m, r);
    assert r !in m.spaces by { if r in m.spaces { NewRoot(m, r); } }
    forall g | g in m'.own ensures FrameOk(m', g) && Backed(m', g) {
      FrameFact(m, g);
    }
    forall j | 0 <= j < |m'.free| ensures FreeSlot(m', j) {
      FreeFact(m, j);
    }
    forall x | x in m'.spaces ensures Space(m', x) {
      if x == r { EmptySpace(m, r); } else { OtherSpaces(m, m', {r}, x); }
    }
  }

  lemma NewRoot(m: Mem, r: nat)
    requires Inv(m) && r in m.spaces
    ensures [] in m.spaces[r] && m.spaces[r][[]] == r && r in m.own && m.own[r] == NodeOf(r, [])
  {
    hide Inv, TableRel;
    SpaceFact(m, r);
    NodeFact(m, r, []);
  }

  lemma EmptySpace(m: Mem, r: nat)
    requires Inv(m) && r in m.ram
    ensures Space(WithSpace(m, r), r)
  {
    hide TableRel, RootPage;
    RootRel(m.cfg, r);
    var m' := WithSpace(m, r);
    forall p | p in m'.spaces[r] ensures NodeOk(m.cfg, m'.ram, m'.own, r, m'.spaces[r], p) { }
  }

  /** `m` after space `r` was given up: its frames are held, their contents still there. */
  ghost function WithoutSpace(m: Mem, r: nat): Mem {
    m.(own := map f | f in m.own :: (if m.own[f].NodeOf? && m.own[f].root == r then Held else m.own[f]),
       spaces := m.spaces - {r})
  }

  lemma WithoutSpaceKeeps(m: Mem, r: nat)
    requires Inv(m)
    ensures Inv(WithoutSpace(m, r))
  {
    hide SpaceOk, TableRel;
    var m' := WithoutSpace(m, r);
    forall g | g in m'.own ensures FrameOk(m', g) && Backed(m', g) {
      FrameFact(m, g);
    }
    forall j | 0 <= j < |m'.free| ensures FreeSlot(m', j) {
      FreeFact(m, j);
    }
    forall x | x in m'.spaces ensures Space(m', x) {
      SpaceFact(m, x);
      SpaceFrame(m.cfg, m.ram, m'.ram, m.own, m'.own, x, m.spaces[x]);
    }
  }

  // ----------------------------------------------------------------------------------
  // Storing bytes in a frame that is not a table

  ghost predicate IsData(m: Mem, f: nat) {
    f in m.own && f in m.ram && (m.own[f] == Held || (m.own[f].NodeOf? && |m.own[f].path| == 4))
  }

  lemma FilledKeeps(m: Mem, f: nat, page: Page)
    requires Inv(m) && IsData(m, f)
    ensures Inv(m.(ram := m.ram[f := page]))
  {
    hide SpaceOk, TableRel;
    var m' := m.(ram := m.ram[f := page]);
    forall g | g in m'.own ensures FrameOk(m', g) && Backed(m', g) {
      FrameFact(m, g);
    }
    forall j | 0 <= j < |m'.free| ensures FreeSlot(m', j) {
      FreeFact(m, j);
    }
    forall x | x in m'.spaces ensures Space(m', x) {
      SpaceFact(m, x);
      SpaceFrame(m.cfg, m.ram, m'.ram, m.own, m'.own, x, m.spaces[x]);
    }
  }
}
