/** Address translation as the processor does it, by walking the four table levels in
    memory, and what each step on the tables does to it. */
module Translation {
  import opened Results
  import opened Bytes
  import opened Entries
  import opened Frames

  /** Pages of the lower canonical half. */
  const USER_PAGES: nat := 0x8_0000_0000

  /** The table indices of page number `n`. */
  function PathOf(n: nat): (p: Path)
    ensures |p| == 4
  {
    [n / 0x800_0000, n / 0x4_0000 % 512, n / 512 % 512, n % 512]
  }

  lemma PathOfOk(n: nat)
    requires n < USER_PAGES
    ensures PathOk(PathOf(n)) && |PathOf(n)| == 4
  {
    var p := PathOf(n);
    assert p[0] < 256;
  }

  lemma PathOfInjective(n: nat, k: nat)
    requires PathOf(n) == PathOf(k)
    ensures n == k
  {
    assert PathOf(n)[0] == PathOf(k)[0] && PathOf(n)[1] == PathOf(k)[1] && PathOf(n)[2] == PathOf(k)[2] && PathOf(n)[3] == PathOf(k)[3];
    Digits(n);
    Digits(k);
  }

  lemma Digits(n: nat)
    ensures n == 0x800_0000 * (n / 0x800_0000) + 0x4_0000 * (n / 0x4_0000 % 512) + 512 * (n / 512 % 512) + n % 512
  {
    assert n / 512 / 512 == n / 0x4_0000;
    assert n / 0x4_0000 / 512 == n / 0x800_0000;
  }

  /** The frame a page is in and what user mode may do with it: a right needs every level
      of the walk to grant it. */
  datatype Access = Access(frame: nat, user: bool, rw: bool, exec: bool)

  function AccessOf(e: Entry): Access {
    Access(e.frame, e.user, e.rw, !e.nx)
  }

  function Through(e: Entry, a: Access): Access {
    Access(a.frame, e.user && a.user, e.rw && a.rw, !e.nx && a.exec)
  }

  /** The walk from the table in frame `t`. A large page, or a table outside memory, stops
      it. */
  function Translate(ram: map<nat, Page>, t: nat, path: Path): Option<Access>
    decreases |path|
  {
    if path == [] || t !in ram || path[0] >= ENTRIES then None else
    var e := EntryAt(ram[t], path[0]);
    if !e.present then None
    else if |path| == 1 then Some(AccessOf(e))
    else if e.huge then None
    else
      match Translate(ram, e.frame, path[1..])
      case Some(a) => Some(Through(e, a))
      case None => None
  }

  ghost function ViewAt(m: Mem, r: nat, n: nat): Option<Access> {
    Translate(m.ram, r, PathOf(n))
  }

  /** Page `n` is in `view` exactly if the walk finds it, with what the walk finds. */
  ghost predicate Shows(m: Mem, r: nat, view: map<nat, Access>, n: nat) {
    (n in view <==> n < USER_PAGES && ViewAt(m, r, n).Some?) && (n in view ==> ViewAt(m, r, n) == Some(view[n]))
  }

  ghost predicate IsView(m: Mem, r: nat, view: map<nat, Access>) {
    forall n: nat {:trigger Shows(m, r, view, n)} :: Shows(m, r, view, n)
  }

  /** The partial map from user pages to frames and rights that space `r` stands for. */
  ghost function View(m: Mem, r: nat): map<nat, Access> {
    ViewExists(m, r);
    var view :| IsView(m, r, view);
    view
  }

  lemma ViewExists(m: Mem, r: nat)
    ensures exists view :: IsView(m, r, view)
  {
    hide ViewAt;
    var view: map<nat, Access> := map n | 0 <= n < USER_PAGES && ViewAt(m, r, n).Some? :: ViewAt(m, r, n).value;
    assert IsView(m, r, view);
  }

  lemma ViewShows(m: Mem, r: nat, n: nat)
    ensures Shows(m, r, View(m, r), n)
  {
    hide ViewAt, Shows;
    ViewExists(m, r);
    assert IsView(m, r, View(m, r));
  }

  /** The views of two spaces are the same if the walks are. */
  lemma ViewsEqual(m: Mem, r: nat, m': Mem, r': nat)
    requires forall n :: 0 <= n < USER_PAGES ==> ViewAt(m', r', n) == ViewAt(m, r, n)
    ensures View(m', r') == View(m, r)
  {
    hide ViewAt, View;
    forall n: nat ensures n in View(m', r') <==> n in View(m, r)
      ensures n in View(m', r') && n in View(m, r) ==> View(m', r')[n] == View(m, r)[n]
    {
      ViewShows(m, r, n);
      ViewShows(m', r', n);
    }
  }

  /** One page more, and every other walk as before. */
  lemma ViewAdded(m: Mem, m': Mem, r: nat, n: nat)
    requires n < USER_PAGES && ViewAt(m, r, n).None? && ViewAt(m', r, n).Some?
    requires forall k :: 0 <= k < USER_PAGES && k != n ==> ViewAt(m', r, k) == ViewAt(m, r, k)
    ensures n !in View(m, r) && View(m', r) == View(m, r)[n := ViewAt(m', r, n).value] && View(m, r) == View(m', r) - {n}
  {
    hide ViewAt, View;
    var after := View(m, r)[n := ViewAt(m', r, n).value];
    forall k: nat ensures k in View(m', r) <==> k in after
      ensures k in after && k in View(m', r) ==> View(m', r)[k] == after[k]
    {
      ViewShows(m, r, k);
      ViewShows(m', r, k);
    }
    assert View(m', r) == after;
    ViewShows(m, r, n);
  }

  // ----------------------------------------------------------------------------------
  // The walk finds exactly the nodes

  /** The entry that maps the page at path `q`. */
  ghost function LeafEntry(m: Mem, r: nat, q: Path): Entry
    requires |q| == 4
  {
    if r in m.spaces && q[..3] in m.spaces[r] && m.spaces[r][q[..3]] in m.ram && q[3] < ENTRIES
    then EntryAt(m.ram[m.spaces[r][q[..3]]], q[3]) else NONE
  }

  ghost predicate Walked(m: Mem, r: nat, t: nat, p: Path, rest: Path)
    requires |p| + |rest| == 4 && r in m.spaces
  {
    Translate(m.ram, t, rest) == if p + rest in m.spaces[r] then Some(AccessOf(LeafEntry(m, r, p + rest))) else None
  }

  lemma {:induction false} Walks(m: Mem, r: nat, p: Path, rest: Path)
    requires Inv(m) && r in m.spaces && p in m.spaces[r] && |p| + |rest| == 4 && |rest| > 0 && PathOk(p + rest)
    ensures Walked(m, r, m.spaces[r][p], p, rest)
    decreases |rest|
  {
    hide Inv, TableRel, EntryAt, PathOk;
    var nodes := m.spaces[r];
    var i := rest[0];
    assert i == (p + rest)[|p|];
    InPath(p, rest);
    TableFact(m, r, p, i);
    assert p + rest == p + [i] + rest[1..];
    if |rest| == 1 {
      assert p + rest == p + [i] && (p + rest)[..3] == p;
    } else if p + [i] in nodes {
      Walks(m, r, p + [i], rest[1..]);
    } else {
      Unreachable(m, r, p + [i], rest[1..]);
    }
  }

  lemma InPath(p: Path, rest: Path)
    requires PathOk(p + rest) && |rest| > 0
    ensures rest[0] < ENTRIES && (p == [] ==> rest[0] < HHDM_INDEX)
  {
    assert (p + rest)[|p|] == rest[0];
  }

  /** One entry of one table, as the walk reads it. */
  lemma TableFact(m: Mem, r: nat, p: Path, i: nat)
    requires Inv(m) && r in m.spaces && p in m.spaces[r] && |p| < 4 && i < ENTRIES && (p == [] ==> i < HHDM_INDEX)
    ensures m.spaces[r][p] in m.ram
    ensures var e := EntryAt(m.ram[m.spaces[r][p]], i);
            if p + [i] in m.spaces[r]
            then e.present && e.frame == m.spaces[r][p + [i]] && (if |p| < 3 then e == TableEntry(e.frame) else LeafOk(m.cfg, e))
            else e == NONE
  {
    hide Inv, EntryAt;
    NodeFact(m, r, p);
    assert EntryRel(m.cfg, m.ram[m.spaces[r][p]], m.spaces[r], p, i);
  }

  lemma {:induction false} Unreachable(m: Mem, r: nat, p: Path, rest: Path)
    requires Inv(m) && r in m.spaces && p !in m.spaces[r]
    ensures p + rest !in m.spaces[r]
    decreases |rest|
  {
    hide Inv;
    if rest == [] {
      assert p + rest == p;
    } else {
      NoChildren(m, r, p, rest[0]);
      Unreachable(m, r, p + [rest[0]], rest[1..]);
      assert p + rest == p + [rest[0]] + rest[1..];
    }
  }

  /** The translation of a page, in terms of the nodes: frame, rights, and with
      execute-disable never both writable and executable. */
  lemma ViewIs(m: Mem, r: nat, n: nat)
    requires Inv(m) && r in m.spaces && n < USER_PAGES
    ensures ViewAt(m, r, n).Some? <==> PathOf(n) in m.spaces[r]
    ensures PathOf(n) in m.spaces[r] ==> ViewAt(m, r, n) == Some(AccessOf(LeafEntry(m, r, PathOf(n))))
    ensures PathOf(n) in m.spaces[r] ==> LeafEntry(m, r, PathOf(n)).frame == m.spaces[r][PathOf(n)]
    ensures PathOf(n) in m.spaces[r] ==> LeafOk(m.cfg, LeafEntry(m, r, PathOf(n)))
  {
    hide Inv, EntryAt, PathOf, TableRel, Translate;
    PathOfOk(n);
    var q := PathOf(n);
    NewRoot(m, r);
    assert [] + q == q;
    Walks(m, r, [], q);
    if q in m.spaces[r] {
      NodeFact(m, r, q);
      TableFact(m, r, q[..3], q[3]);
      assert q[..3] + [q[3]] == q;
    }
  }

  // ----------------------------------------------------------------------------------
  // What the steps do to translations

  /** A space whose nodes and tables are as before translates as before. */
  lemma SameView(m: Mem, m': Mem, r: nat)
    requires Inv(m) && Inv(m') && r in m.spaces && r in m'.spaces && m'.spaces[r] == m.spaces[r]
    requires forall p :: p in m.spaces[r] && |p| < 4 && m.spaces[r][p] in m.ram ==>
               m.spaces[r][p] in m'.ram && m'.ram[m.spaces[r][p]] == m.ram[m.spaces[r][p]]
    ensures View(m', r) == View(m, r)
    ensures forall n :: 0 <= n < USER_PAGES ==> ViewAt(m', r, n) == ViewAt(m, r, n)
  {
    hide Inv, EntryAt, PathOf, TableRel, ViewAt, LeafOk;
    forall n | 0 <= n < USER_PAGES ensures ViewAt(m', r, n) == ViewAt(m, r, n) {
      ViewIs(m, r, n);
      ViewIs(m', r, n);
      PathOfOk(n);
      if PathOf(n) in m.spaces[r] { SameLeaf(m, m', r, PathOf(n)); }
    }
    hide View;
    ViewsEqual(m, r, m', r);
  }

  lemma SameLeaf(m: Mem, m': Mem, r: nat, q: Path)
    requires Inv(m) && r in m.spaces && r in m'.spaces && q in m.spaces[r] && |q| == 4
    requires q[..3] in m'.spaces[r] && q[..3] in m.spaces[r] ==> m'.spaces[r][q[..3]] == m.spaces[r][q[..3]]
    requires q[..3] in m.spaces[r] ==> q[..3] in m'.spaces[r]
    requires q[..3] in m.spaces[r] && m.spaces[r][q[..3]] in m.ram ==>
               m.spaces[r][q[..3]] in m'.ram && m'.ram[m.spaces[r][q[..3]]] == m.ram[m.spaces[r][q[..3]]]
    ensures LeafEntry(m', r, q) == LeafEntry(m, r, q)
  {
    hide Inv, EntryAt, TableRel;
    NodeFact(m, r, q);
    NodeFact(m, r, q[..3]);
  }

  /** A space that owns no touched frame translates as before. */
  lemma OtherView(m: Mem, m': Mem, touched: set<nat>, r: nat)
    requires Inv(m) && Inv(m') && Kept(m, m', touched) && r in m.spaces && r in m'.spaces && m'.spaces[r] == m.spaces[r]
    requires forall f :: f in touched && f in m.own ==> !m.own[f].NodeOf? || m.own[f].root != r
    ensures View(m', r) == View(m, r)
  {
    hide Inv, TableRel, ViewAt, View;
    forall p | p in m.spaces[r] && |p| < 4 && m.spaces[r][p] in m.ram
      ensures m.spaces[r][p] in m'.ram && m'.ram[m.spaces[r][p]] == m.ram[m.spaces[r][p]]
    {
      NodeFact(m, r, p);
    }
    SameView(m, m', r);
  }

  /** A new table in the tree changes no translation. */
  lemma LinkedTableView(m: Mem, r: nat, p: Path, i: nat, e: Entry)
    requires Inv(m) && Linkable(m, r, p, i, e) && |p| < 3 && Inv(Linked(m, r, p, i, e))
    ensures View(Linked(m, r, p, i, e), r) == View(m, r)
  {
    hide Inv, EntryAt, PathOf, TableRel, ViewAt, LeafOk, PathOk, WithEntry;
    var m' := Linked(m, r, p, i, e);
    forall n | 0 <= n < USER_PAGES ensures ViewAt(m', r, n) == ViewAt(m, r, n) {
      ViewIs(m, r, n);
      ViewIs(m', r, n);
      PathOfOk(n);
      var q := PathOf(n);
      if q in m.spaces[r] { LinkedLeaf(m, r, p, i, e, q); }
    }
    hide View;
    ViewsEqual(m, r, m', r);
  }

  // Linking leaves every other leaf entry alone.
  lemma LinkedLeaf(m: Mem, r: nat, p: Path, i: nat, e: Entry, q: Path)
    requires Inv(m) && Linkable(m, r, p, i, e) && q in m.spaces[r] && |q| == 4 && q != p + [i]
    ensures LeafEntry(Linked(m, r, p, i, e), r, q) == LeafEntry(m, r, q)
  {
    hide Inv, EntryAt, TableRel, WithEntry;
    var m' := Linked(m, r, p, i, e);
    NodeFact(m, r, q);
    NodeFact(m, r, q[..3]);
    NodeFact(m, r, p);
    if q[..3] == p {
      assert q == p + [q[3]];
      EntryStored(m.ram[m.spaces[r][p]], i, e, q[3]);
    }
  }

  /** A new data page adds exactly its own translation. */
  lemma LinkedPageView(m: Mem, r: nat, n: nat, e: Entry, p: Path, i: nat)
    requires n < USER_PAGES && PathOf(n) == p + [i] && |p| == 3
    requires Inv(m) && Linkable(m, r, p, i, e) && Inv(Linked(m, r, p, i, e))
    ensures n !in View(m, r) && View(Linked(m, r, p, i, e), r) == View(m, r)[n := AccessOf(e)]
  {
    hide Inv, EntryAt, PathOf, TableRel, ViewAt, LeafOk, WithEntry, PathOk, View;
    var m' := Linked(m, r, p, i, e);
    ViewIs(m, r, n);
    ViewIs(m', r, n);
    NodeFact(m, r, p);
    assert (p + [i])[..3] == p && (p + [i])[3] == i;
    assert LeafEntry(m', r, p + [i]) == e by {
      assert m.spaces[r][p] != e.frame;
      EntryStored(m.ram[m.spaces[r][p]], i, e, i);
    }
    forall k | 0 <= k < USER_PAGES && k != n ensures ViewAt(m', r, k) == ViewAt(m, r, k) {
      if PathOf(k) == PathOf(n) { PathOfInjective(k, n); }
      ViewIs(m, r, k);
      ViewIs(m', r, k);
      PathOfOk(k);
      if PathOf(k) in m.spaces[r] { LinkedLeaf(m, r, p, i, e, PathOf(k)); }
    }
    ViewAdded(m, m', r, n);
  }

  /** Taking a data page out removes exactly its own translation. */
  lemma UnlinkedPageView(m: Mem, r: nat, n: nat, p: Path, i: nat)
    requires n < USER_PAGES && PathOf(n) == p + [i]
    requires Inv(m) && Unlinkable(m, r, p, i) && Inv(Unlinked(m, r, p, i))
    ensures n in View(m, r) && View(Unlinked(m, r, p, i), r) == View(m, r) - {n}
    ensures View(m, r)[n].frame == m.spaces[r][p + [i]]
  {
    hide Inv, EntryAt, PathOf, TableRel, ViewAt, LeafOk, WithEntry, PathOk, View;
    var m' := Unlinked(m, r, p, i);
    ViewIs(m, r, n);
    ViewIs(m', r, n);
    forall k | 0 <= k < USER_PAGES && k != n ensures ViewAt(m', r, k) == ViewAt(m, r, k) {
      if PathOf(k) == PathOf(n) { PathOfInjective(k, n); }
      ViewIs(m, r, k);
      ViewIs(m', r, k);
      PathOfOk(k);
      if PathOf(k) in m.spaces[r] { UnlinkedLeaf(m, r, p, i, PathOf(k)); }
    }
    ViewShows(m, r, n);
    ViewAdded(m', m, r, n);
  }

  lemma UnlinkedLeaf(m: Mem, r: nat, p: Path, i: nat, q: Path)
    requires Inv(m) && Unlinkable(m, r, p, i) && q in m.spaces[r] && |q| == 4 && q != p + [i]
    ensures LeafEntry(Unlinked(m, r, p, i), r, q) == LeafEntry(m, r, q)
  {
    hide Inv, EntryAt, TableRel, WithEntry;
    NodeFact(m, r, q);
    NodeFact(m, r, q[..3]);
    NodeFact(m, r, p);
    if q[..3] == p {
      assert q == p + [q[3]];
      EntryStored(m.ram[m.spaces[r][p]], i, NONE, q[3]);
    }
  }

  /** A new space maps nothing. */
  lemma EmptyView(m: Mem, r: nat)
    requires Inv(m) && r in m.spaces && m.spaces[r] == RootNodes(r)
    ensures View(m, r) == map[]
  {
    hide Inv, EntryAt, PathOf, TableRel, ViewAt, LeafOk;
    forall n | 0 <= n < USER_PAGES ensures ViewAt(m, r, n).None? {
      ViewIs(m, r, n);
      PathOfOk(n);
      assert PathOf(n) != [];
    }
    hide View;
    forall n: nat ensures n !in View(m, r) { ViewShows(m, r, n); }
  }

  /** With execute-disable, no user page is both writable and executable. */
  lemma WriteXorExecute(m: Mem, r: nat, n: nat)
    requires Inv(m) && r in m.spaces && m.cfg.nx && n in View(m, r)
    ensures View(m, r)[n].user && !(View(m, r)[n].rw && View(m, r)[n].exec)
  {
    hide Inv, EntryAt, PathOf, TableRel, ViewAt, View;
    ViewShows(m, r, n);
    ViewIs(m, r, n);
  }

  /** The upper half of every space is the shared one: the direct map, the kernel image, and
      nothing between them. */
  lemma SharedHalf(m: Mem, r: nat, i: nat)
    requires Inv(m) && r in m.spaces && HHDM_INDEX <= i < ENTRIES
    ensures r in m.ram && EntryAt(m.ram[r], i) == if i == HHDM_INDEX then m.cfg.hhdm else if i == KERNEL_INDEX then m.cfg.image else NONE
  {
    hide Inv, EntryAt;
    NewRoot(m, r);
    NodeFact(m, r, []);
    assert EntryRel(m.cfg, m.ram[r], m.spaces[r], [], i);
  }

  /** No frame is mapped twice, in one space or in two. */
  lemma NoSharing(m: Mem, r: nat, n: nat, r': nat, n': nat)
    requires Inv(m) && r in m.spaces && r' in m.spaces && n in View(m, r) && n' in View(m, r')
    ensures View(m, r)[n].frame == View(m, r')[n'].frame ==> r == r' && n == n'
    ensures var f := View(m, r)[n].frame; f in m.own && f in m.ram && m.own[f] == NodeOf(r, PathOf(n))
  {
    hide Inv, EntryAt, PathOf, TableRel, ViewAt, LeafOk, View;
    ViewShows(m, r, n);
    ViewShows(m, r', n');
    ViewIs(m, r, n);
    ViewIs(m, r', n');
    NodeFact(m, r, PathOf(n));
    NodeFact(m, r', PathOf(n'));
    if PathOf(n) == PathOf(n') { PathOfInjective(n, n'); }
  }
}
