/** Loading an ELF64 program into an address space. */
module Elf {
  import opened Results
  import opened Bytes
  import opened Entries
  import opened Frames
  import opened Translation
  import opened Processor
  import opened Effects
  import opened Paging
  import opened UserPages
  import opened Umem

  const ELF_MAGIC: nat := 0x464C457F
  const EHDR_SIZE: nat := 64
  const PHDR_SIZE: nat := 56
  const MAX_PHNUM: nat := 32
  const MAX_FILE: nat := 64 * 1024 * 1024
  const MIN_VADDR: nat := 0x1_0000
  const MAX_VADDR: nat := 0x7000_0000_0000
  const PT_LOAD: nat := 1

  datatype Phdr = Phdr(kind: nat, flags: nat, offset: nat, vaddr: nat, filesz: nat, memsz: nat)

  function PhdrAt(file: seq<Byte>, at: nat): Phdr
    requires at + PHDR_SIZE <= |file|
  {
    Phdr(Field(file, at, 4), Field(file, at + 4, 4), Field(file, at + 8, 8), Field(file, at + 16, 8),
         Field(file, at + 32, 8), Field(file, at + 40, 8))
  }

  predicate Executable(ph: Phdr) { ph.flags % 2 == 1 }
  predicate Writable(ph: Phdr) { ph.flags / 2 % 2 == 1 }

  function SegFlags(ph: Phdr): Flags {
    Flags(Writable(ph), true, false, false, false, !Executable(ph))
  }

  predicate SegmentBad(ph: Phdr, size: nat) {
    ph.memsz == 0 || ph.filesz > ph.memsz || ph.offset > size || ph.filesz > size - ph.offset ||
    ph.vaddr % PAGE_SIZE != 0 || ph.vaddr < MIN_VADDR || ph.vaddr >= MAX_VADDR || ph.memsz > MAX_VADDR - ph.vaddr
  }

  function Phnum(file: seq<Byte>): nat requires |file| >= EHDR_SIZE { Field(file, 56, 2) }
  function Phoff(file: seq<Byte>): nat requires |file| >= EHDR_SIZE { Field(file, 32, 8) }
  function EntryPoint(file: seq<Byte>): nat requires |file| >= EHDR_SIZE { Field(file, 24, 8) }

  /** The checks on the file header and on where the program headers are. */
  function HeaderCheck(file: seq<Byte>): (s: Status)
    ensures s == Ok ==> |file| >= EHDR_SIZE && Phoff(file) + Phnum(file) * PHDR_SIZE <= |file|
  {
    if |file| == 0 || |file| > MAX_FILE then InvalidFormat
    else if |file| < EHDR_SIZE then Corrupted
    else if Field(file, 0, 4) != ELF_MAGIC || file[4] != 2 || file[5] != 1 || Field(file, 16, 2) != 2 || Field(file, 18, 2) != 62 then Unsupported
    else if Field(file, 54, 2) != PHDR_SIZE || Phnum(file) == 0 || Phnum(file) > MAX_PHNUM then InvalidFormat
    else if Phoff(file) > |file| || Phnum(file) * PHDR_SIZE > |file| - Phoff(file) then InvalidFormat
    else Ok
  }

  function Phdrs(file: seq<Byte>): (phs: seq<Phdr>)
    requires HeaderCheck(file) == Ok
    ensures |phs| == Phnum(file)
  {
    seq(Phnum(file), i requires 0 <= i < Phnum(file) => PhdrAt(file, Phoff(file) + i * PHDR_SIZE))
  }

  predicate Holds(ph: Phdr, entry: nat) {
    Executable(ph) && ph.vaddr <= entry < ph.vaddr + ph.memsz
  }

  /** Every loadable segment is sound, and the entry point is in an executable one. */
  predicate SegmentsOk(phs: seq<Phdr>, size: nat, entry: nat) {
    (forall i :: 0 <= i < |phs| && phs[i].kind == PT_LOAD ==> !SegmentBad(phs[i], size)) &&
    exists i :: 0 <= i < |phs| && phs[i].kind == PT_LOAD && Holds(phs[i], entry)
  }

  /** What is refused before anything is loaded. */
  function ElfCheck(file: seq<Byte>): Status {
    if HeaderCheck(file) != Ok then HeaderCheck(file)
    else if SegmentsOk(Phdrs(file), |file|, EntryPoint(file)) then Ok else InvalidFormat
  }

  function Base(ph: Phdr): nat { ph.vaddr / PAGE_SIZE }
  function End(ph: Phdr): nat { PageUp(ph.vaddr + ph.memsz) }

  /** The pages of a loadable segment. */
  predicate InSeg(ph: Phdr, n: nat) {
    ph.kind == PT_LOAD && Base(ph) <= n < End(ph)
  }

  /** The bytes of page `n` of a segment: the file's while they last, then zeros. */
  ghost predicate PageBytes(file: seq<Byte>, ph: Phdr, n: nat, page: Page) {
    forall k {:trigger page[k]} :: 0 <= k < PAGE_SIZE ==>
      var at := PAGE_SIZE * n + k;
      ph.vaddr <= at && (if at - ph.vaddr < ph.filesz then ph.offset + (at - ph.vaddr) < |file| && page[k] == file[ph.offset + (at - ph.vaddr)]
                         else page[k] == 0)
  }

  ghost predicate SegPage(m: Mem, r: nat, file: seq<Byte>, ph: Phdr, n: nat) {
    exists page :: PageIs(m, r, n, page, SegFlags(ph)) && PageBytes(file, ph, n, page)
  }

  ghost predicate SegLoaded(m: Mem, m': Mem, r: nat, file: seq<Byte>, ph: Phdr, end: nat) {
    Extended(m, m', r, Base(ph), end) &&
    forall n {:trigger SegPage(m', r, file, ph, n)} :: Base(ph) <= n < end ==> SegPage(m', r, file, ph, n) && n !in View(m, r)
  }

  // ----------------------------------------------------------------------------------
  // One segment

  /** The contents of one page of a segment, as read from the file. */
  method FillPage(file: seq<Byte>, ph: Phdr, n: nat) returns (page: Page)
    requires !SegmentBad(ph, |file|) && Base(ph) <= n
    ensures PageBytes(file, ph, n, page)
  {
    hide Put;
    page := ZeroPage();
    var off := PAGE_SIZE * n - ph.vaddr;
    if off < ph.filesz {
      var remain := ph.filesz - off;
      var len := if remain < PAGE_SIZE then remain else PAGE_SIZE;
      var data := file[ph.offset + off..ph.offset + off + len];
      page := Put(page, 0, data);
      Filled(file, ph, n, page, data, off, len);
    }
  }

  lemma Filled(file: seq<Byte>, ph: Phdr, n: nat, page: Page, data: seq<Byte>, off: nat, len: nat)
    requires ph.offset + ph.filesz <= |file| && PAGE_SIZE * n == ph.vaddr + off && off + len <= ph.filesz && len <= PAGE_SIZE
    requires len < PAGE_SIZE ==> off + len == ph.filesz
    requires data == file[ph.offset + off..ph.offset + off + len] && page == Put(ZeroPage(), 0, data)
    ensures PageBytes(file, ph, n, page)
  {
    hide Put;
    assert forall k :: 0 <= k < len ==> page[k] == page[0..0 + |data|][k];
  }

  /** How adding pages ends: with no obstacle it succeeds, and with one it does not; each
      answer but the lack of frames names its cause, and that is one only if there are too
      few frames for all the pages or the obstacle came first. */
  predicate Outcome(clash: bool, forbidden: bool, poor: bool, status: Status) {
    (status == Ok || status == OutOfMemory || status == AlreadyExists || status == Permission) &&
    (status == Ok <==> !clash && !forbidden && !poor) &&
    (status == AlreadyExists ==> clash) && (status == Permission ==> forbidden)
  }

  /** One of these pages is mapped already. */
  ghost predicate Clashes(m: Mem, r: nat, a: nat, b: nat) {
    exists n :: a <= n < b && n in View(m, r)
  }

  /** How loading one segment ends. */
  ghost predicate SegOutcome(m: Mem, r: nat, ph: Phdr, status: Status) {
    Outcome(Clashes(m, r, Base(ph), End(ph)), m.cfg.nx && Writable(ph) && Executable(ph), |m.free| < Cost(m, r, NeedsAll(Base(ph), End(ph))), status)
  }

  /** What loading depends on: how many frames are free, which nodes and pages the space has,
      and whether execution can be refused. */
  datatype Ground = Ground(free: int, nodes: set<Path>, pages: set<nat>, nx: bool)

  ghost function GroundOf(m: Mem, r: nat): Ground {
    Ground(|m.free|, NodesOf(m, r), View(m, r).Keys, m.cfg.nx)
  }

  /** What adding page `n` answers once the nodes `before` are there too: a frame for it is
      wanted first, and frames for its tables last. */
  ghost function Answer(g: Ground, before: set<Path>, risky: bool, taken: bool, n: nat): Status {
    if g.free <= |before - g.nodes| then OutOfMemory
    else if g.nx && risky then Permission
    else if taken then AlreadyExists
    else if g.free < |before + Needs(n) - g.nodes| then OutOfMemory
    else Ok
  }

  lemma AnswerNow(m: Mem, r: nat, n: nat, ph: Phdr)
    ensures AddStatus(m, r, n, SegFlags(ph)) == Answer(GroundOf(m, r), {}, Writable(ph) && Executable(ph), n in View(m, r), n)
  {
    hide View, Needs, NodesOf;
    assert {} - NodesOf(m, r) == {};
    assert {} + Needs(n) == Needs(n);
  }

  lemma AnswerLater(m0: Mem, m1: Mem, r: nat, x: set<Path>, y: set<Path>, risky: bool, taken: bool, n: nat)
    requires Paid(m0, m1, r, x) && m1.cfg == m0.cfg
    ensures Answer(GroundOf(m1, r), y, risky, taken, n) == Answer(GroundOf(m0, r), x + y, risky, taken, n)
  {
    hide View, Needs, NodesOf;
    var g := GroundOf(m0, r);
    Counting.SplitSize(g.nodes, x, y);
    FramesLater(g.nodes, x, y, Needs(n));
  }

  lemma FramesLater(have: set<Path>, x: set<Path>, y: set<Path>, more: set<Path>)
    ensures |x + y + more - have| == |x - have| + |y + more - (have + x)|
  {
    Counting.SplitSize(have, x, y + more);
    assert x + (y + more) == x + y + more;
  }

  /** What page `n` of a segment answers when the ones before it are there. */
  ghost function PageStop(g: Ground, ph: Phdr, n: nat): Status {
    Answer(g, NeedsAll(Base(ph), n), Writable(ph) && Executable(ph), n in g.pages, n)
  }

  /** The first page of a segment that cannot be added decides how loading it ends. */
  ghost predicate SegAnswer(g: Ground, ph: Phdr, status: Status) {
    if status == Ok then forall n :: Base(ph) <= n < End(ph) ==> PageStop(g, ph, n) == Ok
    else exists n :: Base(ph) <= n < End(ph) && PageStop(g, ph, n) == status && forall k: nat :: Base(ph) <= k < n ==> PageStop(g, ph, k) == Ok
  }

  /** Maps and fills the pages of one segment. */
  method LoadSegment(mac: Machine, r: nat, file: seq<Byte>, ph: Phdr) returns (status: Status)
    requires mac.Valid() && r in mac.spaces && !SegmentBad(ph, |file|)
    modifies mac
    ensures mac.Valid() && r in mac.spaces && Only(old(mac.M()), mac.M(), r, {}, {})
    ensures status == Ok ==> SegLoaded(old(mac.M()), mac.M(), r, file, ph, End(ph))
    ensures SegOutcome(old(mac.M()), r, ph, status) && SegAnswer(GroundOf(old(mac.M()), r), ph, status)
    ensures status == Ok ==> Paid(old(mac.M()), mac.M(), r, NeedsAll(Base(ph), End(ph)))
  {
    hide Inv, View, Only, Extended, PagesKept, SegPage, PageBytes, PageIs, SegLoaded, SegFlags, Paid, Cost, NeedsAll, Needs, Base, End, AddStatus, PageStop, GroundOf;
    ghost var m0 := mac.M();
    PaidSoFar(m0, r, Base(ph));
    SegmentBounds(ph, |file|);
    ExtendedNone(m0, r, Base(ph));
    SegNone(m0, r, file, ph);
    var flags := SegFlags(ph);
    FlagFacts(ph);
    var n := Base(ph);
    while n < End(ph)
      invariant Base(ph) <= n <= End(ph) && mac.Valid() && SegLoaded(m0, mac.M(), r, file, ph, n)
      invariant Paid(m0, mac.M(), r, NeedsAll(Base(ph), n)) && mac.cfg == m0.cfg
      invariant mac.cfg.nx && flags.rw && !flags.nx ==> n == Base(ph)
      invariant forall k: nat :: Base(ph) <= k < n ==> PageStop(GroundOf(m0, r), ph, k) == Ok
    {
      ghost var m1 := mac.M();
      SegFacts(m0, m1, r, file, ph, n);
      var page := FillPage(file, ph, n);
      status := AddPage(mac, r, n, page, flags);
      NextPage(m0, m1, mac.M(), r, Base(ph), n, End(ph), flags, status);
      PageAnswer(m0, m1, r, ph, n);
      if status != Ok {
        ExtendedTwice(m0, m1, mac.M(), r, Base(ph), n, n);
        ExtendedParts(m0, mac.M(), r, Base(ph), n);
        assert n in View(m1, r) ==> Clashes(m0, r, Base(ph), End(ph));
        return;
      }
      SegMore(m0, m1, mac.M(), r, file, ph, n, page);
      ExtendedTwice(m0, m1, mac.M(), r, Base(ph), n, n + 1);
      ExtendedParts(m0, mac.M(), r, Base(ph), n + 1);
      n := n + 1;
    }
    SegFacts(m0, mac.M(), r, file, ph, n);
    ExtendedParts(m0, mac.M(), r, Base(ph), n);
    PaidAll(m0, mac.M(), r, NeedsAll(Base(ph), End(ph)));
    SegFresh(m0, mac.M(), r, file, ph);
    status := Ok;
  }

  lemma PageAnswer(m0: Mem, m1: Mem, r: nat, ph: Phdr, n: nat)
    requires Paid(m0, m1, r, NeedsAll(Base(ph), n)) && m1.cfg == m0.cfg && (n in View(m1, r) <==> n in View(m0, r))
    ensures AddStatus(m1, r, n, SegFlags(ph)) == PageStop(GroundOf(m0, r), ph, n)
  {
    hide View, Needs, NeedsAll, Paid, AddStatus, SegFlags, Answer;
    AnswerNow(m1, r, n, ph);
    AnswerLater(m0, m1, r, NeedsAll(Base(ph), n), {}, Writable(ph) && Executable(ph), n in View(m1, r), n);
    assert NeedsAll(Base(ph), n) + {} == NeedsAll(Base(ph), n);
  }

  lemma SegmentBounds(ph: Phdr, size: nat)
    requires !SegmentBad(ph, size)
    ensures 0 < Base(ph) < End(ph) < GUARD_PAGE < USER_PAGES && PAGE_SIZE * End(ph) <= MAX_VADDR && PAGE_SIZE * Base(ph) == ph.vaddr
  {
  }

  lemma FlagFacts(ph: Phdr)
    ensures SegFlags(ph).rw == Writable(ph) && SegFlags(ph).nx == !Executable(ph)
  {
  }

  lemma SegNone(m: Mem, r: nat, file: seq<Byte>, ph: Phdr)
    requires Extended(m, m, r, Base(ph), Base(ph))
    ensures SegLoaded(m, m, r, file, ph, Base(ph))
  {
    hide Extended;
  }

  lemma SegFacts(m0: Mem, m1: Mem, r: nat, file: seq<Byte>, ph: Phdr, n: nat)
    requires SegLoaded(m0, m1, r, file, ph, n)
    ensures r in m1.spaces && Extended(m0, m1, r, Base(ph), n)
    ensures forall k {:trigger k in View(m1, r)} :: k in View(m1, r) <==> k in View(m0, r) || Base(ph) <= k < n
  {
    hide View, Only;
  }

  lemma ExtendedParts(m0: Mem, m1: Mem, r: nat, a: nat, b: nat)
    requires Extended(m0, m1, r, a, b)
    ensures Only(m0, m1, r, {}, {}) && r in m1.spaces && m1.cfg == m0.cfg
  {
    hide View;
  }

  lemma SegFresh(m0: Mem, m1: Mem, r: nat, file: seq<Byte>, ph: Phdr)
    requires SegLoaded(m0, m1, r, file, ph, End(ph))
    ensures !Clashes(m0, r, Base(ph), End(ph))
  {
    hide View, Extended, SegPage, Base, End;
    forall n | Base(ph) <= n < End(ph) ensures n !in View(m0, r) { assert SegPage(m1, r, file, ph, n); }
  }

  lemma SegMore(m0: Mem, m1: Mem, m2: Mem, r: nat, file: seq<Byte>, ph: Phdr, n: nat, page: Page)
    requires Inv(m1) && Inv(m2) && SegLoaded(m0, m1, r, file, ph, n) && Extended(m1, m2, r, n, n + 1) && Base(ph) <= n
    requires PageIs(m2, r, n, page, SegFlags(ph)) && PageBytes(file, ph, n, page) && n !in View(m1, r)
    ensures SegLoaded(m0, m2, r, file, ph, n + 1)
  {
    hide Inv, View, Extended, PageIs, PageBytes;
    SegFacts(m0, m1, r, file, ph, n);
    ExtendedTwice(m0, m1, m2, r, Base(ph), n, n + 1);
    forall k | Base(ph) <= k < n + 1 ensures SegPage(m2, r, file, ph, k) && k !in View(m0, r) {
      if k < n {
        assert SegPage(m1, r, file, ph, k);
        SegPageKept(m1, m2, r, file, ph, k, n, n + 1);
      }
    }
  }

  lemma SegPageKept(m: Mem, m': Mem, r: nat, file: seq<Byte>, ph: Phdr, n: nat, a: nat, b: nat)
    requires Inv(m) && Inv(m') && Extended(m, m', r, a, b) && SegPage(m, r, file, ph, n)
    ensures SegPage(m', r, file, ph, n)
  {
    hide Inv, View, Extended, PageIs, PageBytes;
    var page :| PageIs(m, r, n, page, SegFlags(ph)) && PageBytes(file, ph, n, page);
    PageIsKept(m, m', r, n, page, SegFlags(ph), a, b);
  }

  // ----------------------------------------------------------------------------------
  // The whole program

  predicate InSome(phs: seq<Phdr>, k: nat, n: nat) {
    exists i :: 0 <= i < k && i < |phs| && InSeg(phs[i], n)
  }

  /** The first `k` segments are in place: their pages are exactly what was added, with
      the file's bytes and the requested rights, and no two of them share a page. */
  ghost predicate Loaded(m: Mem, m': Mem, r: nat, file: seq<Byte>, phs: seq<Phdr>, k: nat) {
    k <= |phs| && Only(m, m', r, {}, {}) && PagesKept(m, m', r) &&
    (forall n {:trigger n in View(m', r)} :: n in View(m', r) <==> n in View(m, r) || InSome(phs, k, n)) &&
    (forall n {:trigger View(m', r)[n]} :: n in View(m, r) ==> View(m', r)[n] == View(m, r)[n]) &&
    (forall i, n {:trigger SegPage(m', r, file, phs[i], n)} :: 0 <= i < k && InSeg(phs[i], n) ==> SegPage(m', r, file, phs[i], n)) &&
    (forall i, n {:trigger InSeg(phs[i], n)} :: 0 <= i < k && InSeg(phs[i], n) ==> n !in View(m, r)) &&
    (forall i, j, n {:trigger InSeg(phs[i], n), InSeg(phs[j], n)} :: 0 <= i < j < k ==> !(InSeg(phs[i], n) && InSeg(phs[j], n)))
  }

  /** The page address just past the last loaded page. */
  predicate ImageEnd(phs: seq<Phdr>, end: nat) {
    (forall i {:trigger phs[i]} :: 0 <= i < |phs| && phs[i].kind == PT_LOAD ==> PAGE_SIZE * End(phs[i]) <= end) &&
    exists i :: 0 <= i < |phs| && phs[i].kind == PT_LOAD && PAGE_SIZE * End(phs[i]) == end
  }

  /** The pass over the program headers that checks them all. */
  method ScanHeaders(phs: seq<Phdr>, size: nat, entry: nat) returns (ok: bool, imageEnd: nat)
    ensures ok <==> SegmentsOk(phs, size, entry)
    ensures ok ==> ImageEnd(phs, imageEnd) && imageEnd % PAGE_SIZE == 0 && 0 < imageEnd <= MAX_VADDR
  {
    hide SegmentBad, Holds, End;
    var entryOk, anyLoad := false, false;
    imageEnd := 0;
    var i := 0;
    while i < |phs|
      invariant 0 <= i <= |phs|
      invariant forall j :: 0 <= j < i && phs[j].kind == PT_LOAD ==> !SegmentBad(phs[j], size)
      invariant entryOk <==> exists j :: 0 <= j < i && phs[j].kind == PT_LOAD && Holds(phs[j], entry)
      invariant anyLoad <==> exists j :: 0 <= j < i && phs[j].kind == PT_LOAD
      invariant forall j {:trigger phs[j]} :: 0 <= j < i && phs[j].kind == PT_LOAD ==> PAGE_SIZE * End(phs[j]) <= imageEnd
      invariant anyLoad ==> imageEnd > 0 && exists j :: 0 <= j < i && phs[j].kind == PT_LOAD && PAGE_SIZE * End(phs[j]) == imageEnd
      invariant imageEnd % PAGE_SIZE == 0 && imageEnd <= MAX_VADDR
      invariant !anyLoad ==> imageEnd == 0
    {
      var ph := phs[i];
      if ph.kind == PT_LOAD {
        if SegmentBad(ph, size) {
          return false, 0;
        }
        SegmentBounds(ph, size);
        var end := PAGE_SIZE * End(ph);
        if end > imageEnd {
          imageEnd := end;
        }
        if Holds(ph, entry) {
          entryOk := true;
        }
        anyLoad := true;
      }
      i := i + 1;
    }
    ok := anyLoad && entryOk;
  }

  /** The nodes the first `k` segments need. */
  ghost function SegNodes(phs: seq<Phdr>, k: nat): set<Path>
    requires k <= |phs|
  {
    if k == 0 then {}
    else SegNodes(phs, k - 1) + (if phs[k - 1].kind == PT_LOAD then NeedsAll(Base(phs[k - 1]), End(phs[k - 1])) else {})
  }

  /** Two loadable segments share a page. */
  ghost predicate Overlapping(phs: seq<Phdr>) {
    exists i, j, n :: 0 <= i < j < |phs| && InSeg(phs[i], n) && InSeg(phs[j], n)
  }

  /** A page of a loadable segment is mapped already. */
  ghost predicate Occupied(m: Mem, r: nat, phs: seq<Phdr>) {
    exists i, n :: 0 <= i < |phs| && InSeg(phs[i], n) && n in View(m, r)
  }

  /** A loadable segment asks to be both written and executed. */
  ghost predicate WriteAndExecute(phs: seq<Phdr>) {
    exists i :: 0 <= i < |phs| && Risky(phs[i])
  }

  predicate Risky(ph: Phdr) {
    ph.kind == PT_LOAD && Writable(ph) && Executable(ph)
  }

  /** What page `n` of segment `i` answers when the segments before it, and its own pages
      before it, are there. */
  ghost function Stop(g: Ground, phs: seq<Phdr>, i: nat, n: nat): Status
    requires i < |phs|
  {
    Answer(g, SegNodes(phs, i) + NeedsAll(Base(phs[i]), n), Writable(phs[i]) && Executable(phs[i]), n in g.pages || InSome(phs, i, n), n)
  }

  /** All pages of segment `i` can be added. */
  ghost predicate CanAdd(g: Ground, phs: seq<Phdr>, i: nat)
    requires i < |phs|
  {
    forall n: nat :: InSeg(phs[i], n) ==> Stop(g, phs, i, n) == Ok
  }

  /** Page `n` is the first of segment `i` that cannot be added, and this is why. */
  ghost predicate StopsSegment(g: Ground, phs: seq<Phdr>, i: nat, n: nat, status: Status)
    requires i < |phs|
  {
    InSeg(phs[i], n) && Stop(g, phs, i, n) == status && forall k: nat :: InSeg(phs[i], k) && k < n ==> Stop(g, phs, i, k) == Ok
  }

  /** The first page, in the order of the segments, that cannot be added decides how loading
      ends. */
  ghost predicate LoadAnswer(g: Ground, phs: seq<Phdr>, status: Status) {
    if status == Ok then forall i :: 0 <= i < |phs| ==> CanAdd(g, phs, i)
    else exists i, n :: 0 <= i < |phs| && StopsSegment(g, phs, i, n, status) && forall j :: 0 <= j < i ==> CanAdd(g, phs, j)
  }

  // Where one segment ends, in terms of the memory loading began with.
  lemma SegmentAnswered(m0: Mem, m1: Mem, r: nat, file: seq<Byte>, phs: seq<Phdr>, i: nat, status: Status)
    requires i < |phs| && phs[i].kind == PT_LOAD && Loaded(m0, m1, r, file, phs, i) && Paid(m0, m1, r, SegNodes(phs, i)) && m1.cfg == m0.cfg
    requires SegAnswer(GroundOf(m1, r), phs[i], status)
    ensures if status == Ok then CanAdd(GroundOf(m0, r), phs, i) else exists n :: StopsSegment(GroundOf(m0, r), phs, i, n, status)
  {
    hide View, Needs, NeedsAll, Paid, Answer, Base, End, Loaded, SegNodes, PageStop, Stop, InSome;
    var g := GroundOf(m0, r);
    forall n: nat ensures Stop(g, phs, i, n) == PageStop(GroundOf(m1, r), phs[i], n) {
      LoadedPage(m0, m1, r, file, phs, i, n);
      PageAnswered(m0, m1, r, phs, i, n);
    }
    if status != Ok {
      var n :| Base(phs[i]) <= n < End(phs[i]) && PageStop(GroundOf(m1, r), phs[i], n) == status &&
               forall k: nat :: Base(phs[i]) <= k < n ==> PageStop(GroundOf(m1, r), phs[i], k) == Ok;
      assert StopsSegment(g, phs, i, n, status);
    }
  }

  lemma PageAnswered(m0: Mem, m1: Mem, r: nat, phs: seq<Phdr>, i: nat, n: nat)
    requires i < |phs| && Paid(m0, m1, r, SegNodes(phs, i)) && m1.cfg == m0.cfg
    requires n in View(m1, r) <==> n in View(m0, r) || InSome(phs, i, n)
    ensures Stop(GroundOf(m0, r), phs, i, n) == PageStop(GroundOf(m1, r), phs[i], n)
  {
    hide View, Needs, NeedsAll, Paid, Answer, Base, End, SegNodes, InSome;
    var ph := phs[i];
    AnswerLater(m0, m1, r, SegNodes(phs, i), NeedsAll(Base(ph), n), Writable(ph) && Executable(ph), n in View(m1, r), n);
  }

  /** Byte `v` of memory, in the pages of the segment that program header `i` of the file
      describes, is what the file says: a user page, writable if bit 1 of the flags is set,
      executable if bit 0 is, holding the file's byte or, past the file's part, zero (System V
      ABI, chapter 5). */
  ghost predicate InPlace(nx: bool, ram: map<nat, Page>, r: nat, file: seq<Byte>, i: nat, v: nat) {
    |file| >= 64 && Field(file, 32, 8) + 56 * i + 56 <= |file| &&
    var h := Field(file, 32, 8) + 56 * i;
    var kind, flags, offset, vaddr, filesz, memsz :=
      Field(file, h, 4), Field(file, h + 4, 4), Field(file, h + 8, 8), Field(file, h + 16, 8), Field(file, h + 32, 8), Field(file, h + 40, 8);
    kind == 1 && vaddr <= v < (vaddr + memsz + 0xFFF) / 0x1000 * 0x1000 ==>
      (match Walk(ram, r, v)
       case Some(a) => a.user && a.rw == (flags / 2 % 2 == 1) && a.exec == (flags % 2 == 1 || !nx)
       case None => false) &&
      (v - vaddr < filesz ==> offset + (v - vaddr) < |file|) &&
      ByteSeen(ram, r, v) == Some(if v - vaddr < filesz then file[offset + (v - vaddr)] else 0)
  }

  /** The whole program is in memory. */
  ghost predicate ImageInPlace(nx: bool, ram: map<nat, Page>, r: nat, file: seq<Byte>) {
    |file| >= 64 && forall i: nat, v: nat {:trigger InPlace(nx, ram, r, file, i, v)} :: i < Field(file, 56, 2) ==> InPlace(nx, ram, r, file, i, v)
  }

  /** Program header `i` of the file asks for a segment both writable and executable. */
  predicate AsksBoth(file: seq<Byte>, i: nat) {
    |file| >= 64 && i < Field(file, 56, 2) && Field(file, 32, 8) + 56 * i + 56 <= |file| &&
    var h := Field(file, 32, 8) + 56 * i;
    Field(file, h, 4) == 1 && Field(file, h + 4, 4) % 4 == 3
  }

  lemma HeaderBytes(file: seq<Byte>, i: nat)
    requires HeaderCheck(file) == Ok && i < Phnum(file)
    ensures |file| >= 64 && Field(file, 32, 8) + 56 * i + 56 <= |file|
    ensures var h := Field(file, 32, 8) + 56 * i;
            Phdrs(file)[i] == Phdr(Field(file, h, 4), Field(file, h + 4, 4), Field(file, h + 8, 8), Field(file, h + 16, 8),
                                   Field(file, h + 32, 8), Field(file, h + 40, 8))
    ensures Risky(Phdrs(file)[i]) <==> AsksBoth(file, i)
  {
    hide Field;
  }

  lemma SegmentInPlace(m0: Mem, m: Mem, r: nat, file: seq<Byte>, i: nat, v: nat)
    requires HeaderCheck(file) == Ok && i < Phnum(file) && Loaded(m0, m, r, file, Phdrs(file), |Phdrs(file)|)
    requires Phdrs(file)[i].kind == PT_LOAD ==> !SegmentBad(Phdrs(file)[i], |file|)
    ensures InPlace(m.cfg.nx, m.ram, r, file, i, v)
  {
    hide Field, View, Walk, Loaded, HeaderCheck, Phdrs;
    HeaderBytes(file, i);
    var ph := Phdrs(file)[i];
    if ph.kind == PT_LOAD && ph.vaddr <= v < (ph.vaddr + ph.memsz + 0xFFF) / 0x1000 * 0x1000 {
      SegmentBounds(ph, |file|);
      assert v / 0x1000 < End(ph) && Base(ph) <= v / 0x1000 && v < USER_END;
      LoadedBytes(m0, m, r, file, Phdrs(file), i, v);
      LoadedRights(m0, m, r, file, Phdrs(file), i, v / 0x1000);
      WalkIsView(m, r, v);
    }
  }

  lemma LoadedRights(m0: Mem, m: Mem, r: nat, file: seq<Byte>, phs: seq<Phdr>, i: nat, n: nat)
    requires Loaded(m0, m, r, file, phs, |phs|) && i < |phs| && InSeg(phs[i], n)
    ensures n in View(m, r) && View(m, r)[n].user && View(m, r)[n].rw == (phs[i].flags / 2 % 2 == 1)
    ensures View(m, r)[n].exec == (phs[i].flags % 2 == 1 || !m.cfg.nx)
  {
    hide View, Only, PagesKept;
    assert SegPage(m, r, file, phs[i], n);
  }

  // Where the view keeps all it had, the program stays in place.
  lemma ImageKept(m: Mem, m': Mem, r: nat, nx: bool, file: seq<Byte>)
    requires Inv(m) && Inv(m') && PagesKept(m, m', r) && ImageInPlace(nx, m.ram, r, file) && EntryRuns(m.ram, r, file)
    requires ViewKept(m, m', r)
    requires HeaderCheck(file) == Ok && SegmentsOk(Phdrs(file), |file|, EntryPoint(file))
    ensures ImageInPlace(nx, m'.ram, r, file) && EntryRuns(m'.ram, r, file)
  {
    hide Inv, View, Walk, PagesKept, ViewKept, Field, HeaderCheck, ByteSeen, InPlace;
    HeaderFacts(file);
    EntryLow(file);
    WalkIsView(m, r, EntryPoint(file));
    KeptSeen(m, m', r, EntryPoint(file));
    forall i: nat, v: nat | i < Field(file, 56, 2) ensures InPlace(nx, m'.ram, r, file, i, v) {
      assert InPlace(nx, m.ram, r, file, i, v);
      ByteKept(m, m', r, nx, file, i, v);
    }
  }

  lemma EntryLow(file: seq<Byte>)
    requires HeaderCheck(file) == Ok && SegmentsOk(Phdrs(file), |file|, EntryPoint(file))
    ensures |file| >= 64 && EntryPoint(file) == Field(file, 24, 8) < USER_END
  {
    hide Field, HeaderCheck, Phdrs;
    HeaderFacts(file);
    var i :| 0 <= i < |Phdrs(file)| && Phdrs(file)[i].kind == PT_LOAD && Holds(Phdrs(file)[i], EntryPoint(file));
  }

  lemma ByteKept(m: Mem, m': Mem, r: nat, nx: bool, file: seq<Byte>, i: nat, v: nat)
    requires Inv(m) && Inv(m') && PagesKept(m, m', r) && InPlace(nx, m.ram, r, file, i, v)
    requires ViewKept(m, m', r)
    requires HeaderCheck(file) == Ok && SegmentsOk(Phdrs(file), |file|, EntryPoint(file)) && i < Field(file, 56, 2)
    ensures InPlace(nx, m'.ram, r, file, i, v)
  {
    hide Inv, View, Walk, PagesKept, ViewKept, Field, HeaderCheck, Phdrs, ByteSeen;
    HeaderBytes(file, i);
    var ph := Phdrs(file)[i];
    if ph.kind == 1 && ph.vaddr <= v < (ph.vaddr + ph.memsz + 0xFFF) / 0x1000 * 0x1000 {
      SegmentsFact(Phdrs(file), |file|, EntryPoint(file));
      SegmentBounds(ph, |file|);
      assert v < USER_END;
      WalkIsView(m, r, v);
      KeptSeen(m, m', r, v);
    }
  }

  // The method's results, as the processor and the file have them.
  lemma LoadSeen(m0: Mem, m: Mem, r: nat, file: seq<Byte>, status: Status)
    requires HeaderCheck(file) == Ok && SegmentsOk(Phdrs(file), |file|, EntryPoint(file)) && LoadOutcome(m0, m, r, Phdrs(file), status)
    requires status == Ok ==> Loaded(m0, m, r, file, Phdrs(file), |Phdrs(file)|)
    ensures status == Permission ==> m0.cfg.nx && exists i: nat :: AsksBoth(file, i)
    ensures status == Ok ==> ImageInPlace(m.cfg.nx, m.ram, r, file) && EntryRuns(m.ram, r, file)
  {
    hide Field, View, Walk, Loaded, SegmentBad, HeaderCheck, Phdrs, Holds, LoadAnswer, Cost, SegNodes, Overlapping, Occupied, InPlace, Risky, AsksBoth, Paid;
    HeaderFacts(file);
    if status == Permission {
      var i :| 0 <= i < |Phdrs(file)| && Risky(Phdrs(file)[i]);
      HeaderBytes(file, i);
    }
    if status == Ok {
      forall i: nat, v: nat | i < Field(file, 56, 2) ensures InPlace(m.cfg.nx, m.ram, r, file, i, v) { SegmentInPlace(m0, m, r, file, i, v); }
      EntrySeen(m0, m, r, file);
    }
  }

  /** The address at byte 24 of the file is in a page user mode may execute. */
  ghost predicate EntryRuns(ram: map<nat, Page>, r: nat, file: seq<Byte>) {
    |file| >= 64 && match Walk(ram, r, Field(file, 24, 8)) case Some(a) => a.user && a.exec case None => false
  }

  lemma EntrySeen(m0: Mem, m: Mem, r: nat, file: seq<Byte>)
    requires HeaderCheck(file) == Ok && SegmentsOk(Phdrs(file), |file|, EntryPoint(file)) && Loaded(m0, m, r, file, Phdrs(file), |Phdrs(file)|)
    ensures EntryRuns(m.ram, r, file)
  {
    hide Field, View, Walk, Loaded, SegmentBad, HeaderCheck, Phdrs;
    HeaderFacts(file);
    var entry, phs := EntryPoint(file), Phdrs(file);
    EntryIsExecutable(m0, m, r, file, phs, entry);
    var i :| 0 <= i < |phs| && phs[i].kind == PT_LOAD && Holds(phs[i], entry);
    SegmentBounds(phs[i], |file|);
    assert entry < MAX_VADDR;
    WalkIsView(m, r, entry);
  }

  /** Program header `i` of the file: not a loadable segment, or one whose bytes are in the file
      and whose addresses are in the program area. */
  predicate SoundHeader(file: seq<Byte>, i: nat) {
    |file| >= 64 && Field(file, 32, 8) + 56 * i + 56 <= |file| &&
    var h := Field(file, 32, 8) + 56 * i;
    var offset, vaddr, filesz, memsz := Field(file, h + 8, 8), Field(file, h + 16, 8), Field(file, h + 32, 8), Field(file, h + 40, 8);
    Field(file, h, 4) == 1 ==>
      0 < memsz && filesz <= memsz && offset + filesz <= |file| && vaddr % 0x1000 == 0 && 0x1_0000 <= vaddr && vaddr + memsz <= 0x7000_0000_0000
  }

  /** It is executable and holds the entry point. */
  predicate EntryHeader(file: seq<Byte>, i: nat) {
    |file| >= 64 && Field(file, 32, 8) + 56 * i + 56 <= |file| &&
    var h := Field(file, 32, 8) + 56 * i;
    Field(file, h, 4) == 1 && Field(file, h + 4, 4) % 2 == 1 &&
    Field(file, h + 16, 8) <= Field(file, 24, 8) < Field(file, h + 16, 8) + Field(file, h + 40, 8)
  }

  /** Exactly these files pass all checks: little-endian x86-64 executables (System V ABI,
      chapter 4) with a whole table of 1 to 32 sound program headers, one of them for the entry. */
  lemma ElfAccepted(file: seq<Byte>)
    ensures ElfCheck(file) == Ok <==>
              64 <= |file| <= 0x400_0000 && file[..4] == [0x7F, 0x45, 0x4C, 0x46] && file[4] == 2 && file[5] == 1 &&
              Field(file, 16, 2) == 2 && Field(file, 18, 2) == 62 && Field(file, 54, 2) == 56 && 1 <= Field(file, 56, 2) <= 32 &&
              Field(file, 32, 8) + 56 * Field(file, 56, 2) <= |file| &&
              (forall i: nat :: i < Field(file, 56, 2) ==> SoundHeader(file, i)) && exists i: nat :: i < Field(file, 56, 2) && EntryHeader(file, i)
  {
    hide Field, SoundHeader, EntryHeader, SegmentsOk, Phdrs;
    if |file| >= 64 { Magic(file); }
    if HeaderCheck(file) == Ok { SegmentsAccepted(file); }
  }

  lemma Magic(file: seq<Byte>)
    requires |file| >= 64
    ensures Field(file, 0, 4) == ELF_MAGIC <==> file[..4] == [0x7F, 0x45, 0x4C, 0x46]
  {
    var s := file[0..4];
    DecStep(s);
    DecStep(s[1..]);
    DecStep(s[2..]);
    DecStep(s[3..]);
    assert s[1..][1..] == s[2..] && s[2..][1..] == s[3..];
    assert Dec(s[3..][1..]) == 0;
    assert file[..4] == s && s == [s[0], s[1], s[2], s[3]];
  }

  lemma SegmentsAccepted(file: seq<Byte>)
    requires HeaderCheck(file) == Ok && |file| >= 64
    ensures SegmentsOk(Phdrs(file), |file|, EntryPoint(file)) <==>
              (forall i: nat :: i < Field(file, 56, 2) ==> SoundHeader(file, i)) && exists i: nat :: i < Field(file, 56, 2) && EntryHeader(file, i)
  {
    hide Field, HeaderCheck, Phdrs, SegmentBad, Holds, SoundHeader, EntryHeader;
    var phs := Phdrs(file);
    assert |phs| == Field(file, 56, 2);
    forall i: nat | i < |phs| ensures SoundHeader(file, i) <==> phs[i].kind == PT_LOAD ==> !SegmentBad(phs[i], |file|)
      ensures EntryHeader(file, i) <==> phs[i].kind == PT_LOAD && Holds(phs[i], EntryPoint(file)) { OneAccepted(file, i); }
  }

  lemma OneAccepted(file: seq<Byte>, i: nat)
    requires HeaderCheck(file) == Ok && i < Phnum(file) && |file| >= 64
    ensures SoundHeader(file, i) <==> Phdrs(file)[i].kind == PT_LOAD ==> !SegmentBad(Phdrs(file)[i], |file|)
    ensures EntryHeader(file, i) <==> Phdrs(file)[i].kind == PT_LOAD && Holds(Phdrs(file)[i], EntryPoint(file))
  {
    hide Field, HeaderCheck, Phdrs;
    HeaderBytes(file, i);
  }

  /** Loads the program in `file` into space `r`. */
  method ElfLoad(mac: Machine, r: nat, file: seq<Byte>) returns (status: Status, entry: nat, imageEnd: nat)
    requires mac.Valid() && r in mac.spaces
    modifies mac
    ensures mac.Valid() && r in mac.spaces && Only(old(mac.M()), mac.M(), r, {}, {})
    ensures ElfCheck(file) != Ok ==> status == ElfCheck(file) && mac.M() == old(mac.M())
    ensures ElfCheck(file) == Ok ==> HeaderCheck(file) == Ok && LoadOutcome(old(mac.M()), mac.M(), r, Phdrs(file), status)
    ensures status == Ok ==> ElfCheck(file) == Ok && HeaderCheck(file) == Ok && entry == EntryPoint(file)
    ensures status == Ok ==> Loaded(old(mac.M()), mac.M(), r, file, Phdrs(file), |Phdrs(file)|)
    ensures status == Ok ==> ImageEnd(Phdrs(file), imageEnd) && imageEnd % PAGE_SIZE == 0 && 0 < imageEnd < STACK_GUARD
    ensures status == Ok ==> ImageInPlace(mac.cfg.nx, mac.ram, r, file) && EntryRuns(mac.ram, r, file)
    ensures status == Permission ==> mac.cfg.nx && exists i: nat :: AsksBoth(file, i)
  {
    hide ImageInPlace, EntryRuns, AsksBoth, Inv, View, Only, Loaded, SegmentsOk, ImageEnd, HeaderCheck, Phdrs, EntryPoint, Paid, Cost, NeedsAll, Outcome, LoadOutcome, Risky, SegNodes, Base, End, Clashes, CanAdd, StopsSegment, GroundOf, SegAnswer, SegOutcome;
    ghost var m0 := mac.M();
    OnlyNothing(m0, r);
    entry, imageEnd := 0, 0;
    status := HeaderCheck(file);
    if status != Ok {
      HeaderNotPermission(file);
      return;
    }
    var phs := Phdrs(file);
    HeaderFacts(file);
    entry := EntryPoint(file);
    var ok;
    ok, imageEnd := ScanHeaders(phs, |file|, entry);
    if !ok {
      return InvalidFormat, 0, 0;
    }
    LoadedNone(m0, r, file, phs);
    SegmentsFact(phs, |file|, entry);
    PaidNone(m0, r, phs);
    var i := 0;
    while i < |phs|
      invariant 0 <= i <= |phs| && mac.Valid() && r in mac.spaces && Loaded(m0, mac.M(), r, file, phs, i)
      invariant Paid(m0, mac.M(), r, SegNodes(phs, i)) && mac.cfg == m0.cfg
      invariant mac.cfg.nx ==> forall j :: 0 <= j < i ==> !Risky(phs[j])
      invariant forall j :: 0 <= j < i ==> CanAdd(GroundOf(m0, r), phs, j)
    {
      ghost var m1 := mac.M();
      if phs[i].kind != PT_LOAD {
        LoadedSkip(m0, m1, r, file, phs, i);
        NodesSkip(phs, i);
        NoPages(GroundOf(m0, r), phs, i);
      } else {
        status := LoadSegment(mac, r, file, phs[i]);
        LoadedOnly(m0, m1, r, file, phs, i);
        OnlyTwice(m0, m1, mac.M(), r, {}, {}, {});
        NoFrames(0);
        CfgSame(m0, mac.M(), r, {}, {});
        SegmentAnswered(m0, m1, r, file, phs, i, status);
        if status != Ok {
          LoadFailed(m0, m1, mac.M(), r, file, phs, i, status);
          LoadSeen(m0, mac.M(), r, file, status);
          return;
        }
        LoadedMore(m0, m1, mac.M(), r, file, phs, i);
        NodesMore(m0, m1, mac.M(), r, phs, i, status);
      }
      i := i + 1;
    }
    LoadedOnly(m0, mac.M(), r, file, phs, i);
    LoadDone(m0, mac.M(), r, file, phs);
    LoadSeen(m0, mac.M(), r, file, Ok);
    status := Ok;
  }

  /** Whether the program fits: no page wanted twice, no segment both writable and
      executable where that can be refused, and frames for all its nodes. */
  ghost predicate LoadOutcome(m: Mem, m': Mem, r: nat, phs: seq<Phdr>, status: Status) {
    Outcome(Overlapping(phs) || Occupied(m, r, phs), m.cfg.nx && WriteAndExecute(phs), |m.free| < Cost(m, r, SegNodes(phs, |phs|)), status) &&
    LoadAnswer(GroundOf(m, r), phs, status) &&
    (status == Ok ==> Paid(m, m', r, SegNodes(phs, |phs|)))
  }

  lemma NoPages(g: Ground, phs: seq<Phdr>, i: nat)
    requires i < |phs| && phs[i].kind != PT_LOAD
    ensures CanAdd(g, phs, i)
  {
    hide Stop;
  }

  lemma PaidNone(m: Mem, r: nat, phs: seq<Phdr>)
    ensures Paid(m, m, r, SegNodes(phs, 0))
  {
    PaidNothing(m, r, {});
  }

  lemma NodesSkip(phs: seq<Phdr>, i: nat)
    requires i < |phs| && phs[i].kind != PT_LOAD
    ensures SegNodes(phs, i + 1) == SegNodes(phs, i) && !Risky(phs[i])
  {
    hide NeedsAll, Base, End;
  }

  // One more segment is in place.
  lemma NodesMore(m0: Mem, m1: Mem, m2: Mem, r: nat, phs: seq<Phdr>, i: nat, status: Status)
    requires i < |phs| && phs[i].kind == PT_LOAD && Paid(m0, m1, r, SegNodes(phs, i)) && Paid(m1, m2, r, NeedsAll(Base(phs[i]), End(phs[i])))
    requires SegOutcome(m1, r, phs[i], status) && status == Ok
    ensures Paid(m0, m2, r, SegNodes(phs, i + 1)) && (m1.cfg.nx ==> !Risky(phs[i]))
  {
    hide NeedsAll, Base, End, Paid, Cost, Clashes;
    PaidTwice(m0, m1, m2, r, SegNodes(phs, i), NeedsAll(Base(phs[i]), End(phs[i])));
  }

  lemma {:induction false} NodesUpTo(phs: seq<Phdr>, i: nat, k: nat)
    requires i <= k <= |phs|
    ensures SegNodes(phs, i) <= SegNodes(phs, k)
    decreases k
  {
    hide NeedsAll, Base, End;
    if i < k { NodesUpTo(phs, i, k - 1); }
  }

  // A page that is there already is of another segment, or was there from the start.
  lemma ClashFound(m0: Mem, m1: Mem, r: nat, file: seq<Byte>, phs: seq<Phdr>, i: nat)
    requires i < |phs| && phs[i].kind == PT_LOAD && Loaded(m0, m1, r, file, phs, i) && Clashes(m1, r, Base(phs[i]), End(phs[i]))
    ensures Overlapping(phs) || Occupied(m0, r, phs)
  {
    hide View, Base, End, Only, PagesKept, SegPage;
    var n :| Base(phs[i]) <= n < End(phs[i]) && n in View(m1, r);
    LoadedPage(m0, m1, r, file, phs, i, n);
    assert InSeg(phs[i], n);
    if n !in View(m0, r) {
      var j :| 0 <= j < i && j < |phs| && InSeg(phs[j], n);
    }
  }

  lemma LoadedPage(m0: Mem, m1: Mem, r: nat, file: seq<Byte>, phs: seq<Phdr>, k: nat, n: nat)
    requires Loaded(m0, m1, r, file, phs, k)
    ensures n in View(m1, r) <==> n in View(m0, r) || InSome(phs, k, n)
  {
    hide View, Only, PagesKept, SegPage, InSeg, InSome;
  }

  // A segment could not be loaded.
  lemma LoadFailed(m0: Mem, m1: Mem, m2: Mem, r: nat, file: seq<Byte>, phs: seq<Phdr>, i: nat, status: Status)
    requires i < |phs| && phs[i].kind == PT_LOAD && Loaded(m0, m1, r, file, phs, i) && Paid(m0, m1, r, SegNodes(phs, i))
    requires SegOutcome(m1, r, phs[i], status) && status != Ok && m1.cfg == m0.cfg && LoadAnswer(GroundOf(m0, r), phs, status)
    ensures LoadOutcome(m0, m2, r, phs, status)
  {
    hide LoadAnswer, View, NeedsAll, Base, End, Paid, Cost, Loaded, Clashes, Overlapping, Occupied;
    var a, b := Base(phs[i]), End(phs[i]);
    if Clashes(m1, r, a, b) { ClashFound(m0, m1, r, file, phs, i); }
    if m1.cfg.nx && Writable(phs[i]) && Executable(phs[i]) { assert Risky(phs[i]); }
    if |m1.free| < Cost(m1, r, NeedsAll(a, b)) {
      NodesUpTo(phs, i + 1, |phs|);
      Unpaid(m0, m1, r, SegNodes(phs, i), NeedsAll(a, b), SegNodes(phs, |phs|));
    }
  }

  // They all are in place.
  lemma LoadDone(m0: Mem, m: Mem, r: nat, file: seq<Byte>, phs: seq<Phdr>)
    requires Loaded(m0, m, r, file, phs, |phs|) && Paid(m0, m, r, SegNodes(phs, |phs|))
    requires m0.cfg.nx ==> forall j :: 0 <= j < |phs| ==> !Risky(phs[j])
    requires LoadAnswer(GroundOf(m0, r), phs, Ok)
    ensures LoadOutcome(m0, m, r, phs, Ok)
  {
    hide LoadAnswer, View, NeedsAll, Base, End, Paid, Cost, Only, PagesKept, SegPage, Risky, InSeg, SegNodes;
    PaidAll(m0, m, r, SegNodes(phs, |phs|));
  }

  lemma HeaderNotPermission(file: seq<Byte>)
    ensures HeaderCheck(file) != Permission
  {
  }

  lemma HeaderFacts(file: seq<Byte>)
    requires HeaderCheck(file) == Ok
    ensures |file| >= EHDR_SIZE
  {
  }

  lemma SegmentsFact(phs: seq<Phdr>, size: nat, entry: nat)
    requires SegmentsOk(phs, size, entry)
    ensures forall i :: 0 <= i < |phs| && phs[i].kind == PT_LOAD ==> !SegmentBad(phs[i], size)
  {
  }

  lemma LoadedOnly(m0: Mem, m1: Mem, r: nat, file: seq<Byte>, phs: seq<Phdr>, k: nat)
    requires Loaded(m0, m1, r, file, phs, k)
    ensures Only(m0, m1, r, {}, {})
  {
    hide View, Only;
  }

  lemma LoadedNone(m: Mem, r: nat, file: seq<Byte>, phs: seq<Phdr>)
    requires Inv(m) && r in m.spaces
    ensures Loaded(m, m, r, file, phs, 0)
  {
    hide Inv, View;
    OnlyNothing(m, r);
  }

  lemma SomeMore(phs: seq<Phdr>, k: nat, n: nat)
    requires k < |phs|
    ensures InSome(phs, k + 1, n) <==> InSome(phs, k, n) || InSeg(phs[k], n)
  {
    hide InSeg;
    if InSome(phs, k + 1, n) {
      var i :| 0 <= i < k + 1 && i < |phs| && InSeg(phs[i], n);
    }
  }

  lemma LoadedSkip(m0: Mem, m1: Mem, r: nat, file: seq<Byte>, phs: seq<Phdr>, k: nat)
    requires Loaded(m0, m1, r, file, phs, k) && k < |phs| && phs[k].kind != PT_LOAD
    ensures Loaded(m0, m1, r, file, phs, k + 1)
  {
    hide View, Only, PagesKept, SegPage;
    forall n ensures InSome(phs, k + 1, n) <==> InSome(phs, k, n) { SomeMore(phs, k, n); }
  }

  lemma LoadedMore(m0: Mem, m1: Mem, m2: Mem, r: nat, file: seq<Byte>, phs: seq<Phdr>, k: nat)
    requires Inv(m1) && Inv(m2) && Loaded(m0, m1, r, file, phs, k) && k < |phs| && phs[k].kind == PT_LOAD
    requires SegLoaded(m1, m2, r, file, phs[k], End(phs[k])) && Only(m0, m2, r, {}, {})
    ensures Loaded(m0, m2, r, file, phs, k + 1)
  {
    hide Inv, View, Only, PagesKept, SegPage, End, Base;
    var a, b := Base(phs[k]), End(phs[k]);
    PagesKeptTwice(m0, m1, m2, r);
    forall n ensures n in View(m2, r) <==> n in View(m0, r) || InSome(phs, k + 1, n) { SomeMore(phs, k, n); }
    forall i, n | 0 <= i < k + 1 && InSeg(phs[i], n) ensures SegPage(m2, r, file, phs[i], n) {
      if i < k {
        assert SegPage(m1, r, file, phs[i], n);
        SegPageKept(m1, m2, r, file, phs[i], n, a, b);
      }
    }
    forall n | InSeg(phs[k], n) ensures n !in View(m0, r) && !InSome(phs, k, n) {
      assert SegPage(m2, r, file, phs[k], n);
    }
  }

  // ----------------------------------------------------------------------------------
  // What a loaded program looks like from user mode

  /** Every byte of every loaded page: the file's bytes up to the file size, zeros after. */
  lemma LoadedBytes(m0: Mem, m: Mem, r: nat, file: seq<Byte>, phs: seq<Phdr>, i: nat, a: nat)
    requires Loaded(m0, m, r, file, phs, |phs|) && i < |phs| && phs[i].kind == PT_LOAD && !SegmentBad(phs[i], |file|)
    requires phs[i].vaddr <= a < PAGE_SIZE * End(phs[i])
    ensures var d := a - phs[i].vaddr;
            UserByte(m, r, a) == Some(if d < phs[i].filesz then file[phs[i].offset + d] else 0)
  {
    hide View, Only, PagesKept;
    var n := a / PAGE_SIZE;
    assert InSeg(phs[i], n);
    assert SegPage(m, r, file, phs[i], n);
    var page :| PageIs(m, r, n, page, SegFlags(phs[i])) && PageBytes(file, phs[i], n, page);
    assert page[a % PAGE_SIZE] == m.ram[View(m, r)[n].frame][a % PAGE_SIZE];
  }

  /** The entry point is on an executable page of a loaded segment. */
  lemma EntryIsExecutable(m0: Mem, m: Mem, r: nat, file: seq<Byte>, phs: seq<Phdr>, entry: nat)
    requires Loaded(m0, m, r, file, phs, |phs|) && SegmentsOk(phs, |file|, entry)
    ensures var n := entry / PAGE_SIZE; n in View(m, r) && View(m, r)[n].user && View(m, r)[n].exec
  {
    hide View, Only, PagesKept;
    var i :| 0 <= i < |phs| && phs[i].kind == PT_LOAD && Holds(phs[i], entry);
    var n := entry / PAGE_SIZE;
    assert InSeg(phs[i], n);
    assert SegPage(m, r, file, phs[i], n);
    var page :| PageIs(m, r, n, page, SegFlags(phs[i])) && PageBytes(file, phs[i], n, page);
  }
}
