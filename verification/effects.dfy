/** What an operation on one address space may do to the rest of memory. */
module Effects {
  import opened Results
  import opened Bytes
  import opened Entries
  import opened Frames
  import opened Translation
  import Counting

  /** Frames that an operation on space `r` has no business with. */
  ghost predicate Foreign(m: Mem, r: nat, f: nat) {
    f in m.own && (m.own[f] == Held || (m.own[f].NodeOf? && m.own[f].root != r))
  }

  ghost predicate Same(m: Mem, m': Mem, f: nat) {
    f in m.own && f in m'.own && m'.own[f] == m.own[f] && f in m.ram && f in m'.ram && m'.ram[f] == m.ram[f]
  }

  ghost predicate OtherSpacesSame(m: Mem, m': Mem, r: nat) {
    (forall x :: x in m.spaces && x != r ==> x in m'.spaces && m'.spaces[x] == m.spaces[x]) &&
    (forall x :: x in m'.spaces && x != r ==> x in m.spaces)
  }

  /** From `m` to `m'` only space `r` and the free list changed; of the frames held by the
      kernel, those in `lost` may have been given away and those in `gained` taken. */
  ghost predicate Only(m: Mem, m': Mem, r: nat, lost: set<nat>, gained: set<nat>) {
    m'.cfg == m.cfg && m'.own.Keys == m.own.Keys && m'.ram.Keys == m.ram.Keys && OtherSpacesSame(m, m', r) &&
    (forall f {:trigger Same(m, m', f)} {:trigger Foreign(m, r, f)} :: Foreign(m, r, f) && f !in lost ==> Same(m, m', f)) &&
    (forall f :: f in m'.own && m'.own[f] == Held ==> f in gained || (f in m.own && m.own[f] == Held && f !in lost)) &&
    (forall f :: f in gained ==> f in m.own && !Foreign(m, r, f))
  }

  lemma OnlyNothing(m: Mem, r: nat)
    requires Inv(m)
    ensures Only(m, m, r, {}, {})
  {
    hide SpaceOk, Field;
    forall f | Foreign(m, r, f) ensures Same(m, m, f) { FrameFact(m, f); }
  }

  /** Effects add up; frames taken by the first step and given away by the second cancel. */
  lemma OnlyTwice(a: Mem, b: Mem, c: Mem, r: nat, gained: set<nat>, lost: set<nat>, gained': set<nat>)
    requires Only(a, b, r, {}, gained) && Only(b, c, r, lost, gained')
    ensures Only(a, c, r, lost - gained, (gained - lost) + gained')
  {
    forall f | Foreign(a, r, f) && f !in lost - gained ensures Same(a, c, f) {
      assert Same(a, b, f);
      assert Foreign(b, r, f);
    }
    forall f | f in (gained - lost) + gained' ensures f in a.own && !Foreign(a, r, f) {
      if Foreign(a, r, f) { assert Same(a, b, f); assert Foreign(b, r, f); }
    }
  }

  lemma NoFrames(f: nat)
    ensures var none: set<nat> := {};
            none - none == none && none - none + {f} == {f} && {f} - {f} == none && {f} - {f} + none == none &&
            none - {f} == none && none - {f} + none == none && {f} - none == {f} && {f} - none + none == {f} && none - none + none == none
  {
  }

  /** The data pages of space `r` are mapped as before, with the bytes they had. */
  ghost predicate PagesKept(m: Mem, m': Mem, r: nat) {
    r in m.spaces && r in m'.spaces &&
    forall p {:trigger p in m.spaces[r]} :: p in m.spaces[r] ==>
      p in m'.spaces[r] && m'.spaces[r][p] == m.spaces[r][p] &&
      (|p| == 4 && m.spaces[r][p] in m.ram ==> m.spaces[r][p] in m'.ram && m'.ram[m.spaces[r][p]] == m.ram[m.spaces[r][p]])
  }

  lemma PagesKeptTwice(a: Mem, b: Mem, c: Mem, r: nat)
    requires PagesKept(a, b, r) && PagesKept(b, c, r)
    ensures PagesKept(a, c, r)
  {
  }

  // ----------------------------------------------------------------------------------
  // What growth costs

  /** The tables on the way to page `n`, below the root. */
  ghost function Tables(n: nat): set<Path> {
    {PathOf(n)[..1], PathOf(n)[..2], PathOf(n)[..3]}
  }

  /** The nodes an address space needs for page `n`: those tables and the page itself. */
  ghost function Needs(n: nat): set<Path> {
    Tables(n) + {PathOf(n)}
  }

  /** The nodes it needs for the pages from `a` up to `b`. */
  ghost function NeedsAll(a: nat, b: nat): set<Path>
    decreases b
  {
    if a >= b then {} else NeedsAll(a, b - 1) + Needs(b - 1)
  }

  ghost function NodesOf(m: Mem, r: nat): set<Path> {
    if r in m.spaces then m.spaces[r].Keys else {}
  }

  /** The number of frames it takes to have these nodes too. */
  ghost function Cost(m: Mem, r: nat, nodes: set<Path>): nat {
    |nodes - NodesOf(m, r)|
  }

  /** Just these nodes were added, each with one frame from the free list. */
  ghost predicate Paid(m: Mem, m': Mem, r: nat, nodes: set<Path>) {
    NodesOf(m', r) == NodesOf(m, r) + nodes && |m'.free| == |m.free| - Cost(m, r, nodes)
  }

  lemma PaidNothing(m: Mem, r: nat, nodes: set<Path>)
    requires nodes <= NodesOf(m, r)
    ensures Paid(m, m, r, nodes) && Cost(m, r, nodes) == 0
  {
    assert nodes - NodesOf(m, r) == {};
    assert NodesOf(m, r) + nodes == NodesOf(m, r);
  }

  lemma PaidAll(m: Mem, m': Mem, r: nat, nodes: set<Path>)
    requires Paid(m, m', r, nodes)
    ensures |m'.free| == |m.free| - Cost(m, r, nodes) && |m.free| >= Cost(m, r, nodes)
  {
  }

  lemma PaidTwice(a: Mem, b: Mem, c: Mem, r: nat, x: set<Path>, y: set<Path>)
    requires Paid(a, b, r, x) && Paid(b, c, r, y)
    ensures Paid(a, c, r, x + y) && Cost(a, r, x + y) == Cost(a, r, x) + Cost(b, r, y)
  {
    Counting.SplitSize(NodesOf(a, r), x, y);
  }

  // A step that cannot be paid for any more.
  lemma Unpaid(a: Mem, b: Mem, r: nat, x: set<Path>, y: set<Path>, all: set<Path>)
    requires Paid(a, b, r, x) && |b.free| < Cost(b, r, y) && x + y <= all
    ensures |a.free| < Cost(a, r, all)
  {
    Counting.SplitSize(NodesOf(a, r), x, y);
    CostMore(a, r, x + y, all);
  }

  lemma CostOne(m: Mem, r: nat, q: Path)
    ensures Cost(m, r, {q}) == if q in NodesOf(m, r) then 0 else 1
  {
    if q in NodesOf(m, r) { assert {q} - NodesOf(m, r) == {}; } else { assert {q} - NodesOf(m, r) == {q}; }
  }

  lemma CostMore(m: Mem, r: nat, x: set<Path>, y: set<Path>)
    requires x <= y
    ensures Cost(m, r, x) <= Cost(m, r, y)
  {
    Counting.SubsetSize(x - NodesOf(m, r), y - NodesOf(m, r));
  }

  lemma {:induction false} NeedsJoin(a: nat, b: nat, c: nat)
    requires a <= b <= c
    ensures NeedsAll(a, b) <= NeedsAll(a, c)
    ensures forall n :: a <= n < c ==> Needs(n) <= NeedsAll(a, c)
    decreases c
  {
    hide Needs;
    if b < c {
      NeedsJoin(a, b, c - 1);
    } else if a < c {
      NeedsJoin(a, c - 1, c - 1);
    }
  }

  /** Other spaces see no difference: same pages, same rights, same bytes. */
  lemma OthersUndisturbed(m: Mem, m': Mem, r: nat, lost: set<nat>, gained: set<nat>, x: nat, n: nat)
    requires Inv(m) && Inv(m') && Only(m, m', r, lost, gained) && x in m.spaces && x != r
    requires forall f :: f in lost ==> f in m.own && m.own[f] == Held
    ensures x in m'.spaces && View(m', x) == View(m, x)
    ensures n in View(m, x) ==> Same(m, m', View(m, x)[n].frame)
  {
    hide Inv, View, TableRel;
    forall p | p in m.spaces[x] ensures Same(m, m', m.spaces[x][p]) {
      NodeFact(m, x, p);
      assert Foreign(m, r, m.spaces[x][p]);
    }
    SameView(m, m', x);
    if n in View(m, x) {
      NoSharing(m, x, n, x, n);
      assert Foreign(m, r, View(m, x)[n].frame);
    }
  }

  // ----------------------------------------------------------------------------------
  // The effects of the steps

  lemma PoppedOnly(m: Mem, r: nat)
    requires Inv(m) && |m.free| > 0
    ensures Only(m, Popped(m), r, {}, {m.free[|m.free| - 1]}) && (r in m.spaces ==> PagesKept(m, Popped(m), r))
  {
    hide Inv, SpaceOk, Field, TableRel;
    var m' := Popped(m);
    var top := m.free[|m.free| - 1];
    FreeFact(m, |m.free| - 1);
    forall f | Foreign(m, r, f) ensures Same(m, m', f) { FrameFact(m, f); }
    if r in m.spaces {
      forall p | p in m.spaces[r] ensures m.spaces[r][p] != top { NodeFact(m, r, p); }
    }
  }

  lemma PushedOnly(m: Mem, r: nat, f: nat)
    requires Inv(m) && f in m.own && m.own[f] == Held && f in m.ram
    ensures Only(m, Pushed(m, f), r, {f}, {}) && (r in m.spaces ==> PagesKept(m, Pushed(m, f), r))
  {
    hide Inv, SpaceOk, Field, Put, TableRel;
    var m' := Pushed(m, f);
    forall g | Foreign(m, r, g) && g != f ensures Same(m, m', g) { FrameFact(m, g); }
    if r in m.spaces {
      forall p | p in m.spaces[r] ensures m.spaces[r][p] != f { NodeFact(m, r, p); }
    }
  }

  lemma LinkedOnly(m: Mem, r: nat, p: Path, i: nat, e: Entry)
    requires Inv(m) && Linkable(m, r, p, i, e)
    ensures Only(m, Linked(m, r, p, i, e), r, {e.frame}, {}) && PagesKept(m, Linked(m, r, p, i, e), r)
  {
    hide Inv, SpaceOk, Field, TableRel, WithEntry;
    var m' := Linked(m, r, p, i, e);
    NodeFact(m, r, p);
    forall g | Foreign(m, r, g) && g != e.frame ensures Same(m, m', g) { FrameFact(m, g); }
    forall q | q in m.spaces[r] ensures |q| == 4 ==> m.spaces[r][q] != m.spaces[r][p] { NodeFact(m, r, q); }
  }

  lemma UnlinkedOnly(m: Mem, r: nat, p: Path, i: nat)
    requires Inv(m) && Unlinkable(m, r, p, i)
    ensures Only(m, Unlinked(m, r, p, i), r, {}, {m.spaces[r][p + [i]]})
  {
    hide Inv, SpaceOk, Field, TableRel, WithEntry;
    var m' := Unlinked(m, r, p, i);
    NodeFact(m, r, p);
    NodeFact(m, r, p + [i]);
    forall g | Foreign(m, r, g) ensures Same(m, m', g) { FrameFact(m, g); }
  }
}
