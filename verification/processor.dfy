/** The memory management unit, from its own manual: a walk over 64-bit words in memory that
    knows nothing of how the kernel builds its tables (Intel SDM volume 3A, section 4.5). */
module Processor {
  import opened Results
  import opened Bytes
  import opened Entries
  import opened Frames
  import opened Translation

  /** The end of the lower canonical half. */
  const USER_END: nat := 0x8000_0000_0000

  /** The little-endian word at byte `o` of a page. */
  function Word(p: Page, o: nat): nat
    requires o + 8 <= PAGE_SIZE
  {
    var b: seq<int> := p[o..o + 8];
    b[0] + 0x100 * b[1] + 0x1_0000 * b[2] + 0x100_0000 * b[3] + 0x1_0000_0000 * b[4] + 0x100_0000_0000 * b[5] +
    0x1_0000_0000_0000 * b[6] + 0x100_0000_0000_0000 * b[7]
  }

  /** Word `i` of the table in frame `t`; nothing is present outside memory. */
  function EntryWord(ram: map<nat, Page>, t: nat, i: nat): nat
    requires i < 512
  {
    if t in ram then Word(ram[t], 8 * i) else 0
  }

  predicate Present(w: nat) { w % 2 == 1 }
  predicate MayWrite(w: nat) { w / 2 % 2 == 1 }
  predicate MayUser(w: nat) { w / 4 % 2 == 1 }
  predicate IsLarge(w: nat) { w / 0x80 % 2 == 1 }
  predicate MayExecute(w: nat) { w / 0x8000_0000_0000_0000 % 2 == 0 }
  function FrameIn(w: nat): nat { w / 0x1000 % 0x100_0000_0000 }

  /** An entry that leads to a table. */
  predicate Leads(w: nat) { Present(w) && !IsLarge(w) }

  /** A physical address, and what may be done there from user mode. */
  datatype Reach = Reach(at: nat, user: bool, rw: bool, exec: bool)

  /** The walk for linear address `v` from the top-level table in frame `root`: nine bits of
      the address at each level, twelve for the byte in the page. Large pages are not used. */
  function Walk(ram: map<nat, Page>, root: nat, v: nat): Option<Reach> {
    var e4 := EntryWord(ram, root, v / 0x80_0000_0000 % 512);
    if !Leads(e4) then None else
    var e3 := EntryWord(ram, FrameIn(e4), v / 0x4000_0000 % 512);
    if !Leads(e3) then None else
    var e2 := EntryWord(ram, FrameIn(e3), v / 0x20_0000 % 512);
    if !Leads(e2) then None else
    var e1 := EntryWord(ram, FrameIn(e2), v / 0x1000 % 512);
    if !Present(e1) then None else
    Some(Reach(0x1000 * FrameIn(e1) + v % 0x1000,
               MayUser(e4) && MayUser(e3) && MayUser(e2) && MayUser(e1),
               MayWrite(e4) && MayWrite(e3) && MayWrite(e2) && MayWrite(e1),
               MayExecute(e4) && MayExecute(e3) && MayExecute(e2) && MayExecute(e1)))
  }

  // ----------------------------------------------------------------------------------
  // The kernel's reading of an entry is the processor's

  lemma WordIs(p: Page, o: nat)
    requires o + 8 <= PAGE_SIZE
    ensures Word(p, o) == Field(p, o, 8)
  {
    var s := p[o..o + 8];
    DecStep(s); DecStep(s[1..]); DecStep(s[2..]); DecStep(s[3..]); DecStep(s[4..]); DecStep(s[5..]); DecStep(s[6..]); DecStep(s[7..]);
    assert s[1..][1..] == s[2..] && s[2..][1..] == s[3..] && s[3..][1..] == s[4..] && s[4..][1..] == s[5..] && s[5..][1..] == s[6..] && s[6..][1..] == s[7..];
    assert Dec(s[7..][1..]) == 0;
  }

  lemma DecStep(s: seq<Byte>)
    requires |s| > 0
    ensures Dec(s) == s[0] + 256 * Dec(s[1..])
  {
  }

  lemma Bits(w: nat)
    ensures var e := Decode(w);
            e.present == Present(w) && e.rw == MayWrite(w) && e.user == MayUser(w) && e.huge == IsLarge(w) && e.frame == FrameIn(w) &&
            e.nx == !MayExecute(w)
  {
    Halves(w);
  }

  lemma Halves(w: nat)
    ensures Half(Half(w)) == w / 4
    ensures Half(Half(Half(Half(Half(Half(Half(w))))))) == w / 0x80
    ensures var y := Half(Half(Half(Half(Half(Half(Half(Half(Half(w)))))))));
            y / 8 == w / 0x1000 && y / 8 / FRAME_LIMIT / 2048 == w / 0x8000_0000_0000_0000
  {
  }

  lemma EntryBits(ram: map<nat, Page>, t: nat, i: nat)
    requires t in ram && i < 512
    ensures var e, w := EntryAt(ram[t], i), EntryWord(ram, t, i);
            e.present == Present(w) && e.rw == MayWrite(w) && e.user == MayUser(w) && e.huge == IsLarge(w) && e.frame == FrameIn(w) &&
            e.nx == !MayExecute(w)
  {
    hide Decode, Word, Present, MayWrite, MayUser, IsLarge, FrameIn, MayExecute;
    WordIs(ram[t], 8 * i);
    Bits(EntryWord(ram, t, i));
  }

  // ----------------------------------------------------------------------------------
  // The processor's walk is the kernel's

  function Reached(a: Option<Access>, v: nat): Option<Reach> {
    match a case Some(x) => Some(Reach(0x1000 * x.frame + v % 0x1000, x.user, x.rw, x.exec)) case None => None
  }

  lemma Indices(v: nat)
    requires v < USER_END
    ensures PathOf(v / 0x1000) == [v / 0x80_0000_0000 % 512, v / 0x4000_0000 % 512, v / 0x20_0000 % 512, v / 0x1000 % 512]
  {
  }

  // One level: what the rest of the path translates to, if the entry leads on.
  lemma Level(ram: map<nat, Page>, t: nat, i: nat, rest: Path)
    requires i < 512
    ensures var w := EntryWord(ram, t, i);
            Translate(ram, t, [i] + rest) ==
            if !Present(w) then None
            else if rest == [] then Some(Access(FrameIn(w), MayUser(w), MayWrite(w), MayExecute(w)))
            else if IsLarge(w) then None
            else match Translate(ram, FrameIn(w), rest)
                 case Some(a) => Some(Access(a.frame, MayUser(w) && a.user, MayWrite(w) && a.rw, MayExecute(w) && a.exec))
                 case None => None
  {
    hide EntryAt, EntryWord, MayWrite, MayUser, IsLarge, FrameIn, MayExecute;
    assert ([i] + rest)[1..] == rest;
    if t in ram { EntryBits(ram, t, i); } else { NoWord(ram, t, i); }
  }

  lemma NoWord(ram: map<nat, Page>, t: nat, i: nat)
    requires t !in ram && i < 512
    ensures !Present(EntryWord(ram, t, i))
  {
  }

  lemma WalkTranslates(ram: map<nat, Page>, r: nat, v: nat)
    requires v < USER_END
    ensures Walk(ram, r, v) == Reached(Translate(ram, r, PathOf(v / 0x1000)), v)
  {
    hide Translate, EntryWord, Present, MayWrite, MayUser, IsLarge, FrameIn, MayExecute, PathOf;
    Indices(v);
    var i4, i3, i2, i1 := v / 0x80_0000_0000 % 512, v / 0x4000_0000 % 512, v / 0x20_0000 % 512, v / 0x1000 % 512;
    assert [i4, i3, i2, i1] == [i4] + ([i3] + ([i2] + ([i1] + [])));
    var e4 := EntryWord(ram, r, i4);
    var e3 := EntryWord(ram, FrameIn(e4), i3);
    var e2 := EntryWord(ram, FrameIn(e3), i2);
    Level(ram, r, i4, [i3] + ([i2] + ([i1] + [])));
    Level(ram, FrameIn(e4), i3, [i2] + ([i1] + []));
    Level(ram, FrameIn(e3), i2, [i1] + []);
    Level(ram, FrameIn(e2), i1, []);
  }

  /** Whatever the address, the processor gets to the frame and the rights the view of the
      space has for its page, and nowhere if the page is not in the view. */
  lemma WalkIsView(m: Mem, r: nat, v: nat)
    requires v < USER_END
    ensures var n := v / 0x1000;
            Walk(m.ram, r, v) ==
            if n in View(m, r) then Some(Reach(0x1000 * View(m, r)[n].frame + v % 0x1000, View(m, r)[n].user, View(m, r)[n].rw, View(m, r)[n].exec))
            else None
  {
    hide View, Walk, Translate, PathOf;
    ViewShows(m, r, v / 0x1000);
    WalkTranslates(m.ram, r, v);
  }

  // ----------------------------------------------------------------------------------
  // What an operation does, as the processor sees it

  function Plus(x: Option<Reach>, d: nat): Option<Reach> {
    match x case Some(a) => Some(a.(at := a.at + d)) case None => None
  }

  /** The page at `virt` now leads to `x`, byte by byte, and every other user address leads
      where it led. */
  ghost predicate Leading(before: map<nat, Page>, after: map<nat, Page>, r: nat, virt: nat, x: Option<Reach>) {
    forall v: nat {:trigger Walk(after, r, v)} :: v < USER_END ==>
      Walk(after, r, v) == if virt <= v < virt + 0x1000 then Plus(x, v - virt) else Walk(before, r, v)
  }

  /** Every user address leads where it led. */
  ghost predicate Unmoved(before: map<nat, Page>, after: map<nat, Page>, r: nat) {
    forall v: nat {:trigger Walk(after, r, v)} :: v < USER_END ==> Walk(after, r, v) == Walk(before, r, v)
  }

  lemma StillLeading(m: Mem, m': Mem, r: nat)
    requires View(m', r) == View(m, r)
    ensures Unmoved(m.ram, m'.ram, r)
  {
    hide View, Walk;
    forall v: nat | v < USER_END ensures Walk(m'.ram, r, v) == Walk(m.ram, r, v) {
      WalkIsView(m, r, v);
      WalkIsView(m', r, v);
    }
  }

  /** The processor lets user mode read, or write, the byte at `v`. */
  predicate Grants(ram: map<nat, Page>, r: nat, v: nat, write: bool) {
    match Walk(ram, r, v) case Some(a) => a.user && (write ==> a.rw) case None => false
  }

  /** The byte user mode finds at `v`. */
  function ByteSeen(ram: map<nat, Page>, r: nat, v: nat): Option<Byte> {
    match Walk(ram, r, v)
    case Some(a) => if a.user && a.at / 0x1000 in ram then Some(ram[a.at / 0x1000][a.at % 0x1000]) else None
    case None => None
  }

  lemma NowLeading(m: Mem, m': Mem, r: nat, n: nat, x: Option<Access>)
    requires forall k: nat :: k != n ==> (k in View(m', r) <==> k in View(m, r)) && (k in View(m, r) ==> View(m', r)[k] == View(m, r)[k])
    requires if x.Some? then n in View(m', r) && View(m', r)[n] == x.value else n !in View(m', r)
    ensures Leading(m.ram, m'.ram, r, 0x1000 * n, Reached(x, 0))
  {
    hide View, Walk;
    forall v: nat | v < USER_END
      ensures Walk(m'.ram, r, v) == if 0x1000 * n <= v < 0x1000 * n + 0x1000 then Plus(Reached(x, 0), v - 0x1000 * n) else Walk(m.ram, r, v)
    {
      WalkIsView(m, r, v);
      WalkIsView(m', r, v);
      PageOf(v, n);
    }
  }

  lemma PageOf(v: nat, n: nat)
    ensures v / 0x1000 == n <==> 0x1000 * n <= v < 0x1000 * n + 0x1000
    ensures v / 0x1000 == n ==> v % 0x1000 == v - 0x1000 * n
  {
  }
}
