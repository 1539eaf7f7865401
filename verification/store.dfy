/** The block allocator and the growable byte streams of a mounted volume. */
module Store {
  import opened Results
  import opened Bytes
  import opened Bits
  import opened Extents
  import opened Streams
  import opened Counting

  /** A bitmap and a chain of extents: what decides whether a stream can grow. */
  datatype Room = Room(used: seq<bool>, chain: Chain)

  /** One more block: the first free one, recorded in the last list block if it can be, and in
      a new list block, the next free one, if not. */
  function NextRoom(r: Room, bs: nat): Option<Room> {
    var data := FirstClear(r.used);
    if data == |r.used| then None else
    var used := r.used[data := true];
    if BlockStore.Recordable(r.chain, data, bs) then Some(Room(used, AppendBlock(r.chain, data, data, bs))) else
    var list := FirstClear(used);
    if list == |used| then None else Some(Room(used[list := true], AppendBlock(r.chain, data, list, bs)))
  }

  /** `k` more blocks. */
  function AfterRoom(r: Room, k: nat, bs: nat): Option<Room> {
    if k == 0 then Some(r) else
    match AfterRoom(r, k - 1, bs)
    case None => None
    case Some(q) => NextRoom(q, bs)
  }

  /** The stream can be given `needed` blocks in all. */
  predicate Extensible(r: Room, needed: nat, bs: nat) {
    var have := |Blocks(r.chain)|;
    needed <= have || AfterRoom(r, needed - have, bs).Some?
  }

  /** The room once it has them. */
  function ExtendedRoom(r: Room, needed: nat, bs: nat): Room {
    var have := |Blocks(r.chain)|;
    if needed <= have || AfterRoom(r, needed - have, bs).None? then r else AfterRoom(r, needed - have, bs).value
  }

  lemma {:induction false} AfterNone(r: Room, k: nat, n: nat, bs: nat)
    requires k <= n && AfterRoom(r, k, bs).None?
    ensures AfterRoom(r, n, bs).None?
    decreases n
  {
    hide NextRoom;
    if k < n { AfterNone(r, k, n - 1, bs); }
  }

  lemma {:induction false} AfterTwice(r: Room, k: nat, n: nat, bs: nat)
    ensures AfterRoom(r, k + n, bs) == match AfterRoom(r, k, bs) case None => None case Some(q) => AfterRoom(q, n, bs)
    decreases n
  {
    hide NextRoom;
    if n > 0 { AfterTwice(r, k, n - 1, bs); } else if AfterRoom(r, k, bs).None? { AfterNone(r, k, k, bs); }
  }

  // One block costs one or two.
  lemma NextCost(r: Room, bs: nat)
    ensures ClearBits(r.used) >= 2 ==> NextRoom(r, bs).Some?
    ensures NextRoom(r, bs).Some? ==>
              ClearBits(r.used) - 2 <= ClearBits(NextRoom(r, bs).value.used) < ClearBits(r.used) &&
              |Blocks(NextRoom(r, bs).value.chain)| == |Blocks(r.chain)| + 1
  {
    hide AppendBlock, Blocks, BlockStore.Recordable;
    ClearBitsZero(r.used);
    var data := FirstClear(r.used);
    if data < |r.used| {
      ClearBitsUpdate(r.used, data, true);
      var used := r.used[data := true];
      ClearBitsZero(used);
      var list := FirstClear(used);
      AppendGrowsOne(r.chain, data, data, bs);
      AppendGrowsOne(r.chain, data, list, bs);
      if list < |used| { ClearBitsUpdate(used, list, true); }
    }
  }

  lemma AppendGrowsOne(c: Chain, data: nat, list: nat, bs: nat)
    ensures |Blocks(AppendBlock(c, data, list, bs))| == |Blocks(c)| + 1
  {
    hide Blocks, AppendBlock;
    AppendBlockGrows(c, data, list, bs);
  }

  /** Two free blocks for each missing one always suffice, and one for each is needed. */
  lemma {:induction false} AfterCost(r: Room, k: nat, bs: nat)
    ensures ClearBits(r.used) >= 2 * k ==> AfterRoom(r, k, bs).Some?
    ensures AfterRoom(r, k, bs).Some? ==>
              ClearBits(r.used) - 2 * k <= ClearBits(AfterRoom(r, k, bs).value.used) <= ClearBits(r.used) - k &&
              |Blocks(AfterRoom(r, k, bs).value.chain)| == |Blocks(r.chain)| + k
    decreases k
  {
    hide NextRoom, Blocks;
    if k > 0 {
      AfterCost(r, k - 1, bs);
      if AfterRoom(r, k - 1, bs).Some? { NextCost(AfterRoom(r, k - 1, bs).value, bs); }
    }
  }

  /** Growing in two steps is growing at once. */
  lemma ExtendedTwice(r: Room, a: nat, b: nat, bs: nat)
    requires a <= b && Extensible(r, a, bs)
    ensures Extensible(ExtendedRoom(r, a, bs), b, bs) <==> Extensible(r, b, bs)
    ensures Extensible(r, b, bs) ==> ExtendedRoom(ExtendedRoom(r, a, bs), b, bs) == ExtendedRoom(r, b, bs)
  {
    hide AfterRoom, Blocks;
    var have := |Blocks(r.chain)|;
    if a > have {
      AfterCost(r, a - have, bs);
      AfterTwice(r, a - have, b - a, bs);
    }
    AfterZero(ExtendedRoom(r, a, bs), bs);
  }

  lemma AfterZero(r: Room, bs: nat)
    ensures AfterRoom(r, 0, bs) == Some(r)
  {
  }

  class BlockStore {
    const blockSize: nat
    const firstData: nat
    var used: seq<bool>
    var freeBlocks: int
    var disk: Disk

    // Which stream or region each used block belongs to, and the chain of each stream.
    ghost var own: map<nat, Owner>
    ghost var streams: map<nat, Chain>

    ghost function S(): State
      reads this
    {
      State(blockSize, firstData, used, freeBlocks, disk, own, streams)
    }

    ghost predicate Valid()
      reads this
    {
      Inv(S())
    }

    /** The bytes of every stream, as clients see them. */
    ghost function Files(): map<nat, seq<Byte>>
      reads this
    {
      Contents(S())
    }

    ghost function Loose(): map<nat, seq<Byte>>
      reads this
    {
      Singles(S())
    }

    /** A fresh store whose first `first` blocks hold the volume's metadata. */
    constructor (bs: nat, first: nat, blocks: Disk)
      requires 512 <= bs && bs % 8 == 0 && 0 < first <= |blocks| && Addressable(|blocks|, bs)
      requires forall b :: 0 <= b < |blocks| ==> |blocks[b]| == bs
      ensures Valid() && blockSize == bs && firstData == first
      ensures streams == map[] && disk == blocks && freeBlocks == |blocks| - first
      ensures forall b :: b in own ==> own[b] == Meta
      ensures Files() == map[] && Loose() == map[]
    {
      hide NodeOnDisk, Blocks;
      blockSize, firstData := bs, first;
      used := seq(first, _ => true) + seq(|blocks| - first, _ => false);
      freeBlocks := |blocks| - first;
      disk := blocks;
      own := map b | b in Below(first) :: Meta;
      streams := map[];
      ClearBitsConcat(seq(first, _ => true), seq(|blocks| - first, _ => false));
      ClearBitsRun(first, true);
      ClearBitsRun(|blocks| - first, false);
    }

    /** First-fit search of the block bitmap. */
    method AllocBlock() returns (r: Option<nat>)
      requires freeBlocks == ClearBits(used)
      modifies this`used, this`freeBlocks
      ensures freeBlocks == ClearBits(used)
      ensures r.None? <==> old(freeBlocks) == 0
      ensures r.None? ==> used == old(used) && freeBlocks == old(freeBlocks)
      ensures r.Some? ==> r.value < |old(used)| && !old(used)[r.value]
      ensures r.Some? ==> forall j :: 0 <= j < r.value ==> old(used)[j]
      ensures r.Some? ==> used == old(used)[r.value := true] && freeBlocks == old(freeBlocks) - 1
    {
      ClearBitsZero(used);
      var i := 0;
      while i < |used|
        invariant 0 <= i <= |used|
        invariant forall j :: 0 <= j < i ==> used[j]
      {
        if !used[i] {
          ClearBitsUpdate(used, i, true);
          used := used[i := true];
          freeBlocks := freeBlocks - 1;
          return Some(i);
        }
        i := i + 1;
      }
      return None;
    }

    /** Clears one bit and bumps the cached count; the count stays exact exactly when the
        block was in use, so freeing a block twice would be noticed here. */
    method FreeBlock(b: nat)
      requires b < |used|
      modifies this`used, this`freeBlocks
      ensures used == old(used)[b := false] && freeBlocks == old(freeBlocks) + 1
      ensures old(freeBlocks) == ClearBits(old(used)) ==> (freeBlocks == ClearBits(used) <==> old(used)[b])
    {
      ClearBitsUpdate(used, b, false);
      used := used[b := false];
      freeBlocks := freeBlocks + 1;
    }

    /** Bytes `[intra, intra + |data|)` of one block. */
    method WriteBlock(b: nat, intra: nat, data: seq<Byte>)
      requires b < |disk| && intra + |data| <= |disk[b]|
      modifies this`disk
      ensures disk == old(disk)[b := Put(old(disk)[b], intra, data)]
    {
      disk := disk[b := Put(disk[b], intra, data)];
    }

    /** One list block of the walk: looks for stream block `logical` among its extents,
        the first of which starts at stream block `base`. */
    static method FindExtent(blk: seq<Byte>, ghost es: seq<Extent>, ghost next: nat, base: nat, logical: nat)
      returns (r: Option<nat>, base': nat)
      requires NodeOnDisk(blk, es, next) && base <= logical
      ensures base' == base + |Expand(es)|
      ensures r == if logical < base' then Some(Expand(es)[logical - base]) else None
    {
      hide Expand;
      ExpandNone(es[..0]);
      var count := Field(blk, 4, 4);
      base' := base;
      var j := 0;
      r := None;
      while j < count
        invariant 0 <= j <= count == |es|
        invariant base' == base + |Expand(es[..j])|
        invariant base' - base <= |Expand(es)|
        invariant r == if logical < base' then Some(Expand(es)[logical - base]) else None
      {
        assert ExtentOnDisk(blk, j, es[j]);
        var start := Field(blk, LIST_HEADER_SIZE + EXTENT_SIZE * j, 8);
        var length := Field(blk, LIST_HEADER_SIZE + EXTENT_SIZE * j + 8, 8);
        assert es[..j + 1] == es[..j] + [es[j]];
        ExpandSnoc(es[..j], es[j]);
        ExpandPrefix(es, j + 1);
        if base' <= logical < base' + length {
          ExpandAt(es, j, logical - base');
          r := Some(start + (logical - base'));
        }
        base' := base' + length;
        j := j + 1;
      }
      assert es[..count] == es;
    }

    /** The block that holds logical block `logical` of the stream, if there is one: walks
        the list blocks and, in each, the extents. */
    method Resolve(root: nat, logical: nat) returns (r: Option<nat>)
      requires Valid() && (root == 0 || root in streams)
      ensures var blocks := Blocks(ChainAt(streams, root));
              r == if logical < |blocks| then Some(blocks[logical]) else None
    {
      hide Inv, Blocks, Expand, NodeOnDisk, Dec, StreamOk;
      ghost var c := ChainAt(streams, root);
      ghost var i := 0;
      NoNullStream(S());
      if root in streams { ChainStart(S(), root); }
      NoBlocks(c[..0]);
      var cur := root;
      var base := 0;
      while cur != 0
        invariant 0 <= i <= |c| && cur == (if i < |c| then c[i].blk else 0)
        invariant base == |Blocks(c[..i])| <= logical
        decreases |c| - i
      {
        ListTag(S(), root, i);
        NodeHeader(disk[cur], c[i].extents, Next(c, i));
        r, base := FindExtent(disk[cur], c[i].extents, Next(c, i), base, logical);
        if r.Some? {
          BlocksAt(c, i, logical - |Blocks(c[..i])|);
          return;
        }
        assert c[..i + 1] == c[..i] + [c[i]];
        BlocksSnoc(c[..i], c[i]);
        cur := Field(disk[cur], 8, 8);
        i := i + 1;
      }
      assert c[..i] == c;
      return None;
    }

    static lemma ChainStart(s: State, r: nat)
      requires Inv(s) && r in s.streams
      ensures |s.streams[r]| > 0 && s.streams[r][0].blk == r
    {
      hide NodesOk, DataOk, Backed;
      StreamFact(s, r);
    }

    // The header of a list block; what every walk compares before it trusts a block.
    static lemma NodeHeader(b: seq<Byte>, es: seq<Extent>, next: nat)
      requires NodeOnDisk(b, es, next)
      ensures LIST_HEADER_SIZE + EXTENT_SIZE * |es| <= |b| && Field(b, 0, 4) == EXTENT_MAGIC
      ensures Field(b, 4, 4) == |es| <= MAX_EXTENTS_PER_BLOCK && Field(b, 8, 8) == next
    {
    }

    static method SumExtents(blk: seq<Byte>, ghost es: seq<Extent>, ghost next: nat) returns (n: nat)
      requires NodeOnDisk(blk, es, next)
      ensures n == |Expand(es)|
    {
      hide Expand;
      ExpandNone(es[..0]);
      var count := Field(blk, 4, 4);
      n := 0;
      var j := 0;
      while j < count
        invariant 0 <= j <= count == |es|
        invariant n == |Expand(es[..j])|
      {
        assert ExtentOnDisk(blk, j, es[j]);
        assert es[..j + 1] == es[..j] + [es[j]];
        ExpandSnoc(es[..j], es[j]);
        n := n + Field(blk, LIST_HEADER_SIZE + EXTENT_SIZE * j + 8, 8);
        j := j + 1;
      }
      assert es[..count] == es;
    }

    /** The number of data blocks of the stream. */
    method TotalBlocks(root: nat) returns (total: nat)
      requires Valid() && (root == 0 || root in streams)
      ensures total == |Blocks(ChainAt(streams, root))|
    {
      hide Inv, Blocks, Expand, NodeOnDisk, Dec, StreamOk;
      ghost var c := ChainAt(streams, root);
      ghost var i := 0;
      NoNullStream(S());
      if root in streams { ChainStart(S(), root); }
      NoBlocks(c[..0]);
      var cur := root;
      total := 0;
      while cur != 0
        invariant 0 <= i <= |c| && cur == (if i < |c| then c[i].blk else 0)
        invariant total == |Blocks(c[..i])|
        decreases |c| - i
      {
        ListTag(S(), root, i);
        NodeHeader(disk[cur], c[i].extents, Next(c, i));
        var n := SumExtents(disk[cur], c[i].extents, Next(c, i));
        assert c[..i + 1] == c[..i] + [c[i]];
        BlocksSnoc(c[..i], c[i]);
        total := total + n;
        cur := Field(disk[cur], 8, 8);
        i := i + 1;
      }
      assert c[..i] == c;
    }

    // ------------------------------------------------------------------------------
    // Growing a stream

    // The facts about the stream that growing it needs.
    static lemma StartAppend(s: State, root: nat)
      requires Inv(s) && (root == 0 || root in s.streams)
      ensures Sized(s.disk, s.bs) && s.bs >= 512 && |s.used| == |s.disk| && s.free == ClearBits(s.used)
      ensures Growable(s, ChainAt(s.streams, root))
      ensures root == 0 ==> ChainAt(s.streams, root) == []
      ensures root != 0 ==> StreamOk(s.disk, s.own, root, ChainAt(s.streams, root))
      ensures forall b :: 0 <= b < |s.used| && !s.used[b] ==> b !in s.own
    {
      hide NodeOnDisk, Blocks, Backed;
      NoNullStream(s);
      BlockNumbersFit(s);
      if root in s.streams { StreamFact(s, root); }
    }

    // State `s` with block `data` taken from the bitmap and nothing else done yet.
    ghost predicate Taken(s: State, data: nat)
      reads this
    {
      Inv(s) && Sized(s.disk, s.bs) && s.bs >= 512 && |s.used| == |s.disk| &&
      data < |s.used| && !s.used[data] &&
      S() == s.(used := s.used[data := true], free := s.free - 1) && freeBlocks == ClearBits(used)
    }

    // Records the new tags and the new chain once the disk writes are done.
    ghost method Grow(s: State, root: nat, data: nat, list: nat)
      requires Inv(s) && (root == 0 || root in s.streams)
      requires s == S().(used := s.used, free := s.free, disk := s.disk) && freeBlocks == ClearBits(used)
      requires data < |s.used| && !s.used[data]
      requires var c := ChainAt(s.streams, root);
               var c' := AppendBlock(c, data, list, blockSize);
               AppendedDisk(s.disk, disk, blockSize, c') &&
               (|c'| > |c| ==> list < |s.used| && !s.used[list] && list != data) &&
               used == (if |c'| > |c| then s.used[data := true][list := true] else s.used[data := true])
      modifies this`own, this`streams
      ensures Valid()
      ensures var c' := AppendBlock(ChainAt(s.streams, root), data, list, blockSize);
              |c'| > 0 && Grown(s, S(), root, c'[0].blk) && streams == s.streams[c'[0].blk := c']
    {
      hide Inv, Blocks, NodeOnDisk, AppendBlock, AppendedDisk, Growable, Sized, StreamOk;
      var c := ChainAt(s.streams, root);
      StartAppend(s, root);
      var c' := AppendBlock(c, data, list, blockSize);
      AppendBlockGrows(c, data, list, blockSize);
      own := own + NewTags(c, c', data);
      streams := streams[c'[0].blk := c'];
      assert Appended(s, S(), c, c', data, list);
      AppendKeepsInv(s, S(), c, c', data, list);
      hide Grown;
      AppendedGrown(s, S(), root, c, c', data, list);
    }

    /** The first block of an empty stream: a list block is created with it. */
    method AppendFirst(ghost s: State, data: nat) returns (ok: bool, root': nat)
      requires Taken(s, data) && LastKept(s.used, s.used[data := true]) && data == FirstClear(s.used)
      modifies this
      ensures if ok then OneAppended(s, S(), 0, root') else NoneAppended(s, 0)
      ensures !ok ==> root' == 0 && S() == s && s.free == 1
      ensures ok ==> Valid() && Grown(s, S(), 0, root') && freeBlocks == s.free - 2 && Beside(s, S())
    {
      hide Inv, NodeOnDisk, AppendedDisk, Grown, LastKept;
      StartAppend(s, 0);
      ghost var used1 := used;
      var l := AllocBlock();
      if l.None? {
        NoListRoom(s, 0, data);
        UndoAlloc(s.used, data);
        FreeBlock(data);
        return false, 0;
      }
      var list := l.value;
      FirstClearIs(used1, list);
      WriteNode(list, data);
      FirstNodeOnDisk(s.disk, disk, blockSize, data, list);
      FirstTaken(used1, list);
      Grow(s, 0, data, list);
      GrownNew(s, S(), list);
      BesideFirst(s, S(), used1, list);
      ListRoom(s, S(), 0, list, data, list);
      return true, list;
    }

    static lemma GrownNew(s: State, t: State, root: nat)
      requires Grown(s, t, 0, root)
      ensures root in t.streams && root !in s.streams
    {
      hide Contents, Singles;
    }

    static lemma BesideFirst(s: State, t: State, used1: seq<bool>, list: nat)
      requires LastKept(s.used, used1) && LastKept(used1, t.used) && ClearBits(t.used) <= ClearBits(used1)
      requires list in t.streams && t.streams == s.streams[list := t.streams[list]] && list !in s.streams
      ensures Beside(s, t)
    {
      hide ClearBits, LastClear;
    }

    static lemma UndoAlloc(used: seq<bool>, b: nat)
      requires b < |used| && !used[b]
      ensures used[b := true][b := false] == used
    {
    }

    /** Whether a block can be appended to a stream: two free blocks always do; the last
        free block does when it can be recorded without a new list block. */
    static ghost predicate CanAppend(s: State, root: nat) {
      s.free >= 2 || (s.free == 1 && root in s.streams && Recordable(s.streams[root], FirstClear(s.used), s.bs))
    }

    /** The block `data` can be recorded in the last list block of the chain. */
    static predicate Recordable(c: Chain, data: nat, bs: nat) {
      |c| > 0 && (CanLengthen(c[|c| - 1], data) || HasRoom(c[|c| - 1], bs))
    }

    // Shape of the chain after the two ways of growing that add no list block.
    static lemma AppendInPlace(c: Chain, data: nat, list: nat, bs: nat)
      requires |c| > 0 && (CanLengthen(c[|c| - 1], data) || HasRoom(c[|c| - 1], bs))
      ensures |AppendBlock(c, data, list, bs)| == |c| && AppendBlock(c, data, list, bs)[0].blk == c[0].blk
    {
    }

    static lemma AppendChained(c: Chain, data: nat, list: nat, bs: nat)
      requires |c| > 0 && !CanLengthen(c[|c| - 1], data) && !HasRoom(c[|c| - 1], bs)
      ensures |AppendBlock(c, data, list, bs)| == |c| + 1 && AppendBlock(c, data, list, bs)[0].blk == c[0].blk
    {
    }

    /** Physically adjacent to the last extent: only its length changes. */
    method Lengthen(ghost s: State, root: nat, data: nat, last: nat, i: nat, e: Extent)
      requires Taken(s, data) && root in s.streams && StreamOk(s.disk, s.own, root, s.streams[root])
      requires var n := s.streams[root][|s.streams[root]| - 1];
               last == n.blk < |s.disk| && i == |n.extents| - 1 && i < MAX_EXTENTS_PER_BLOCK && CanLengthen(n, data) &&
               LIST_HEADER_SIZE + EXTENT_SIZE * |n.extents| <= blockSize &&
               e == Extent(n.extents[i].start, n.extents[i].length + 1)
      modifies this
      ensures Valid() && Grown(s, S(), root, root) && freeBlocks == s.free - 1 && used == s.used[data := true]
      ensures streams == s.streams[root := AppendBlock(s.streams[root], data, data, blockSize)]
    {
      hide Inv, NodeOnDisk, AppendedDisk, Grown, Blocks, Dec;
      ghost var c := s.streams[root];
      NoNullStream(s);
      WriteBlock(last, LIST_HEADER_SIZE + EXTENT_SIZE * i, ExtentBytes(e));
      LengthenOnDisk(s.disk, disk, blockSize, s.own, root, c, data, data);
      AppendInPlace(c, data, data, blockSize);
      hide AppendBlock;
      Grow(s, root, data, data);
    }

    /** Room in the last list block: a new extent, then the new count. */
    method AddExtent(ghost s: State, root: nat, data: nat, last: nat, count: nat)
      requires Taken(s, data) && root in s.streams && StreamOk(s.disk, s.own, root, s.streams[root])
      requires var n := s.streams[root][|s.streams[root]| - 1];
               last == n.blk < |s.disk| && count == |n.extents| && !CanLengthen(n, data) && HasRoom(n, blockSize)
      modifies this
      ensures Valid() && Grown(s, S(), root, root) && freeBlocks == s.free - 1 && used == s.used[data := true]
      ensures streams == s.streams[root := AppendBlock(s.streams[root], data, data, blockSize)]
    {
      hide Inv, NodeOnDisk, AppendedDisk, Grown, Blocks, Dec, Put, ExtentBytes, HeaderBytes;
      ghost var c := s.streams[root];
      NoNullStream(s);
      WriteBlock(last, LIST_HEADER_SIZE + EXTENT_SIZE * count, ExtentBytes(Extent(data, 1)));
      WriteBlock(last, 0, HeaderBytes(count + 1, 0));
      AddSlotOnDisk(s.disk, disk, blockSize, s.own, root, c, data, data);
      AppendInPlace(c, data, data, blockSize);
      hide AppendBlock;
      Grow(s, root, data, data);
    }

    /** A complete new list block holding one block. */
    method WriteNode(list: nat, data: nat)
      requires list < |disk| && LIST_HEADER_SIZE + EXTENT_SIZE <= |disk[list]|
      modifies this`disk
      ensures disk == old(disk)[list := NewNodeBytes(old(disk)[list], data)]
    {
      WriteBlock(list, 0, HeaderBytes(1, 0));
      WriteBlock(list, LIST_HEADER_SIZE, ExtentBytes(Extent(data, 1)));
    }

    /** The last list block is full: a new one is written and then linked. */
    method AddList(ghost s: State, root: nat, data: nat, last: nat, count: nat) returns (ok: bool)
      requires Taken(s, data) && root in s.streams && StreamOk(s.disk, s.own, root, s.streams[root])
      requires var n := s.streams[root][|s.streams[root]| - 1];
               last == n.blk < |s.disk| && count == |n.extents| && !CanLengthen(n, data) && !HasRoom(n, blockSize)
      requires data == FirstClear(s.used)
      modifies this
      ensures !ok ==> S() == s && s.free == 1
      ensures ok ==> Valid() && Grown(s, S(), root, root) && freeBlocks == s.free - 2
      ensures if ok then OneAppended(s, S(), root, root) else NoneAppended(s, root)
    {
      hide Inv, NodeOnDisk, AppendedDisk, Grown, Blocks, NewNodeBytes, HeaderBytes, Put, Dec;
      ghost var c := s.streams[root];
      NoNullStream(s);
      StartAppend(s, root);
      var l := AllocBlock();
      if l.None? {
        NoListRoom(s, root, data);
        UndoAlloc(s.used, data);
        FreeBlock(data);
        return false;
      }
      var list := l.value;
      FirstClearIs(s.used[data := true], list);
      assert list != last;
      WriteNode(list, data);
      WriteBlock(last, 0, HeaderBytes(count, list));
      NewNodeOnDisk(s.disk, disk, blockSize, s.own, root, c, data, list);
      AppendChained(c, data, list, blockSize);
      hide AppendBlock, StreamOk;
      Grow(s, root, data, list);
      ListRoom(s, S(), root, root, data, list);
      return true;
    }

    /** The room a stream has to grow: the bitmap, and its chain of extents. */
    static ghost function RoomOf(s: State, root: nat): Room {
      Room(s.used, ChainAt(s.streams, root))
    }

    static ghost predicate OneAppended(s: State, t: State, root: nat, root': nat) {
      NextRoom(RoomOf(s, root), s.bs) == Some(RoomOf(t, root'))
    }

    static ghost predicate NoneAppended(s: State, root: nat) {
      NextRoom(RoomOf(s, root), s.bs).None?
    }

    // The three ends of appending a block: recorded in place, in a new list block, or not.
    static lemma InPlaceRoom(s: State, t: State, root: nat, data: nat)
      requires data < |s.used| && data == FirstClear(s.used) && root in s.streams && Recordable(s.streams[root], data, s.bs)
      requires t.used == s.used[data := true] && t.streams == s.streams[root := AppendBlock(s.streams[root], data, data, s.bs)]
      ensures OneAppended(s, t, root, root)
    {
      hide AppendBlock, Recordable;
    }

    static lemma ListRoom(s: State, t: State, root: nat, root': nat, data: nat, list: nat)
      requires data < |s.used| && data == FirstClear(s.used) && !Recordable(ChainAt(s.streams, root), data, s.bs)
      requires list < |s.used| && list == FirstClear(s.used[data := true])
      requires t.used == s.used[data := true][list := true]
      requires t.streams == s.streams[root' := AppendBlock(ChainAt(s.streams, root), data, list, s.bs)]
      ensures OneAppended(s, t, root, root')
    {
      hide AppendBlock, Recordable;
    }

    static lemma NoListRoom(s: State, root: nat, data: nat)
      requires data < |s.used| && data == FirstClear(s.used) && !Recordable(ChainAt(s.streams, root), data, s.bs)
      requires ClearBits(s.used[data := true]) == 0
      ensures NoneAppended(s, root)
    {
      hide AppendBlock, Recordable;
      ClearBitsZero(s.used[data := true]);
    }

    static lemma NoDataRoom(s: State, root: nat)
      requires ClearBits(s.used) == 0
      ensures NoneAppended(s, root)
    {
      hide AppendBlock, Recordable;
      ClearBitsZero(s.used);
    }

    /** The last list block of a stream. */
    method LastList(root: nat) returns (last: nat)
      requires root in streams && StreamOk(disk, own, root, streams[root])
      requires forall i :: 0 <= i < |streams[root]| ==> streams[root][i].blk != 0
      ensures last == streams[root][|streams[root]| - 1].blk
    {
      hide Blocks, NodeOnDisk;
      ghost var c := streams[root];
      ghost var i := 0;
      last := root;
      NodeHeader(disk[c[0].blk], c[0].extents, Next(c, 0));
      while Field(disk[last], 8, 8) != 0
        invariant 0 <= i < |c| && last == c[i].blk
        invariant last < |disk| && 16 <= |disk[last]| && Field(disk[last], 8, 8) == Next(c, i)
        decreases |c| - i
      {
        last := Field(disk[last], 8, 8);
        i := i + 1;
        NodeHeader(disk[c[i].blk], c[i].extents, Next(c, i));
      }
    }

    static lemma LastSlots(b: seq<Byte>, es: seq<Extent>)
      requires NodeOnDisk(b, es, 0)
      ensures |es| <= MAX_EXTENTS_PER_BLOCK && LIST_HEADER_SIZE + EXTENT_SIZE * |es| <= |b| && Field(b, 4, 4) == |es|
      ensures |es| > 0 ==> var i := |es| - 1;
                Field(b, LIST_HEADER_SIZE + EXTENT_SIZE * i, 8) == es[i].start &&
                Field(b, LIST_HEADER_SIZE + EXTENT_SIZE * i + 8, 8) == es[i].length
    {
      if |es| > 0 { assert ExtentOnDisk(b, |es| - 1, es[|es| - 1]); }
    }

    /** Hangs the block `data`, just taken from the bitmap, on the end of a stream. */
    method HangBlock(ghost s: State, root: nat, data: nat) returns (ok: bool)
      requires Taken(s, data) && root in s.streams && root != 0 && data == FirstClear(s.used)
      modifies this
      ensures !ok ==> S() == s && s.free == 1
      ensures if ok then OneAppended(s, S(), root, root) else NoneAppended(s, root)
      ensures ok <==> s.free >= 2 || Recordable(s.streams[root], data, s.bs)
      ensures ok ==> Valid() && Grown(s, S(), root, root) && s.free - 2 <= freeBlocks < s.free
    {
      hide Inv, NodeOnDisk, Grown, Blocks, Dec;
      StartAppend(s, root);
      NoNullStream(s);
      ghost var c := s.streams[root];
      var last := LastList(root);
      ghost var n := c[|c| - 1];
      LastSlots(disk[last], n.extents);
      var count := Field(disk[last], 4, 4);
      if count > 0 {
        var start := Field(disk[last], LIST_HEADER_SIZE + EXTENT_SIZE * (count - 1), 8);
        var length := Field(disk[last], LIST_HEADER_SIZE + EXTENT_SIZE * (count - 1) + 8, 8);
        if start + length == data {
          Lengthen(s, root, data, last, count - 1, Extent(start, length + 1));
          InPlaceRoom(s, S(), root, data);
          return true;
        }
      }
      if count < MAX_EXTENTS_PER_BLOCK && (count + 1) * EXTENT_SIZE + LIST_HEADER_SIZE <= blockSize {
        AddExtent(s, root, data, last, count);
        InPlaceRoom(s, S(), root, data);
        return true;
      }
      ok := AddList(s, root, data, last, count);
      if ok { Blocksize(S()); }
    }

    /** Allocates one data block and hangs it on the end of the stream, creating the first
        list block when there is none and a further one when the last is full. */
    method AppendOne(root: nat) returns (ok: bool, root': nat)
      requires Valid() && (root == 0 || root in streams)
      modifies this
      ensures Valid()
      ensures !ok ==> root' == root && S() == old(S())
      ensures ok <==> CanAppend(old(S()), root)
      ensures ok ==> old(freeBlocks) - 2 <= freeBlocks < old(freeBlocks)
      ensures ok && root == 0 ==> freeBlocks == old(freeBlocks) - 2
      ensures ok ==> Grown(old(S()), S(), root, root')
      ensures ok && root == 0 ==> Beside(old(S()), S())
      ensures if ok then OneAppended(old(S()), S(), root, root') else NoneAppended(old(S()), root)
    {
      hide Inv, Grown, StreamOk, Recordable, LastKept, Beside, OneAppended, NoneAppended;
      ghost var s := S();
      StartAppend(s, root);
      NoNullStream(s);
      var d := AllocBlock();
      if d.None? {
        NoDataRoom(s, root);
        return false, root;
      }
      FirstClearIs(s.used, d.value);
      FirstTaken(s.used, d.value);
      if root == 0 {
        ok, root' := AppendFirst(s, d.value);
        if ok { Blocksize(S()); }
      } else {
        root' := root;
        ok := HangBlock(s, root, d.value);
      }
    }

    // ------------------------------------------------------------------------------
    // Reading and writing

    /** Blocks needed for `n` bytes. */
    static function RoundUp(n: nat, bs: nat): nat {
      if bs == 0 then 0 else (n + bs - 1) / bs
    }

    /** The bytes those blocks hold. */
    static function Covered(n: nat, bs: nat): nat {
      RoundUp(n, bs) * bs
    }

    static lemma RoundUpCovers(n: nat, bs: nat)
      requires bs > 0
      ensures n <= Covered(n, bs) < n + bs
    {
      var q := RoundUp(n, bs);
      DivModBlock(n + bs - 1, bs, q);
    }

    /** What growing a stream to `needed` blocks does: it succeeds exactly when that many can
        be appended one after the other; so if half the free blocks cover what is missing, and
        only if the free blocks do. */
    static ghost predicate GrowOutcome(s: State, t: State, root: nat, root': nat, needed: nat, ok: bool) {
      var have, now, want := |BytesOf(Contents(s), root)|, |BytesOf(Contents(t), root')|, needed * s.bs;
      (ok ==> now == if want <= have then have else want) &&
      (want <= have ==> ok && t == s && root' == root) &&
      (ok && root == 0 && needed == 1 ==> t.free == s.free - 2 && Beside(s, t)) &&
      (!ok && want <= have + s.bs ==> t == s && root' == root) &&
      (have < want <= have + s.bs ==> (ok <==> CanAppend(s, root))) &&
      (Assured(s, root) >= want ==> ok) && Assured(s, root) <= Assured(t, root') &&
      (ok ==> want <= have + s.free * s.bs) && t.free <= s.free
    }

    static ghost predicate GrowRoom(s: State, t: State, root: nat, root': nat, needed: nat, ok: bool) {
      (ok <==> Extensible(RoomOf(s, root), needed, s.bs)) && (ok ==> RoomOf(t, root') == ExtendedRoom(RoomOf(s, root), needed, s.bs))
    }

    /** The bytes a stream is certain to hold: its own, and a block for every two free ones,
        since a data block may need a list block. */
    static ghost function Assured(s: State, root: nat): int {
      |BytesOf(Contents(s), root)| + s.free / 2 * s.bs
    }

    /** Appends blocks until the stream has `needed` of them or the disk is full. */
    method GrowTo(root: nat, needed: nat) returns (ok: bool, root': nat)
      requires Valid() && (root == 0 || root in streams)
      modifies this
      ensures Valid() && Extended(old(S()), S(), root, root') && GrowOutcome(old(S()), S(), root, root', needed, ok)
      ensures GrowRoom(old(S()), S(), root, root', needed, ok)
    {
      hide Inv, Extended, Grown, Blocks, Contents, CanAppend, GrowOutcome, Beside, RoomOf, AfterRoom, OneAppended, NoneAppended, GrowRoom;
      NoneYet(S(), root);
      ghost var s := S();
      Blocksize(s);
      ContentLength(s, root);
      ExtendedNone(s, root);
      if root == 0 { NoNullStream(s); NoBlocks(ChainAt(streams, root)); }
      var have := TotalBlocks(root);
      ghost var had := have;
      root' := root;
      while have < needed
        invariant had <= have && (have <= needed || have == had)
        invariant Valid() && (root' == 0 || root' in streams) && Extended(s, S(), root, root')
        invariant |BytesOf(Contents(S()), root')| == have * blockSize
        invariant have == had ==> S() == s && root' == root
        invariant root == 0 && have == had + 1 ==> freeBlocks == s.free - 2 && Beside(s, S())
        invariant s.free - 2 * (have - had) <= freeBlocks <= s.free - (have - had)
        invariant have > had ==> CanAppend(s, root)
        invariant AfterRoom(RoomOf(s, root), have - had, blockSize) == Some(RoomOf(S(), root'))
      {
        ghost var t := S();
        ghost var r := root';
        ok, root' := AppendOne(root');
        if !ok {
          Blocksize(t);
          SameChain(s, root);
          GrowDone(s, t, root, r, needed, had, have, false);
          GrownRoom(s, t, root, r, needed, had, have, false);
          return;
        }
        ExtendedMore(s, t, S(), root, r, root');
        GrownFacts(t, S(), r, root');
        RoomStep(RoomOf(s, root), have - had, t, S(), r, root');
        Distribute(have, 1, blockSize);
        have := have + 1;
      }
      Blocksize(S());
      SameChain(s, root);
      GrowDone(s, S(), root, root', needed, had, have, true);
      GrownRoom(s, S(), root, root', needed, had, have, true);
      ok := true;
    }

    // From blocks to bytes: `had` of them at first, `have` in the end.
    static lemma GrowDone(s: State, t: State, root: nat, root': nat, needed: nat, had: nat, have: nat, ok: bool)
      requires s.bs > 0 && t.bs == s.bs && s.free >= 0 && t.free >= 0
      requires |BytesOf(Contents(s), root)| == had * s.bs && |BytesOf(Contents(t), root')| == have * s.bs
      requires had <= have && (have <= needed || have == had) && (ok <==> needed <= have)
      requires have == had ==> t == s && root' == root
      requires root == 0 && have == had + 1 ==> t.free == s.free - 2 && Beside(s, t)
      requires s.free - 2 * (have - had) <= t.free <= s.free - (have - had)
      requires have > had ==> CanAppend(s, root)
      requires !ok ==> !CanAppend(t, root')
      requires root == 0 ==> had == 0
      ensures GrowOutcome(s, t, root, root', needed, ok)
    {
      hide Contents, CanAppend, Beside;
      var bs := s.bs;
      MulOrder(needed, had, bs);
      Distribute(had, 1, bs);
      MulOrder(needed, had + 1, bs);
      NoAppend(t, root');
      if ok { GrowCost(had, needed, have, s.free, bs); } else { GrowEnough(had, needed, s.free, bs, have); }
      HalvesKept(had, have, s.free, t.free, bs);
    }

    static lemma NoneYet(s: State, root: nat)
      ensures AfterRoom(RoomOf(s, root), 0, s.bs) == Some(RoomOf(s, root))
    {
    }

    static lemma RoomStep(from: Room, k: nat, t: State, u: State, root: nat, root': nat)
      requires AfterRoom(from, k, t.bs) == Some(RoomOf(t, root)) && OneAppended(t, u, root, root')
      ensures AfterRoom(from, k + 1, t.bs) == Some(RoomOf(u, root'))
    {
      hide NextRoom, RoomOf;
    }

    static lemma SameChain(s: State, root: nat)
      ensures RoomOf(s, root).chain == ChainAt(s.streams, root)
    {
    }

    static lemma GrownRoom(s: State, t: State, root: nat, root': nat, needed: nat, had: nat, have: nat, ok: bool)
      requires had <= have && (have <= needed || have == had) && (ok <==> needed <= have)
      requires had == |Blocks(RoomOf(s, root).chain)| && AfterRoom(RoomOf(s, root), have - had, s.bs) == Some(RoomOf(t, root'))
      requires (!ok ==> NoneAppended(t, root')) && t.bs == s.bs
      ensures GrowRoom(s, t, root, root', needed, ok)
    {
      hide RoomOf, Blocks, NextRoom;
      var r := RoomOf(s, root);
      if !ok {
        assert AfterRoom(r, have - had + 1, s.bs).None?;
        AfterNone(r, have - had + 1, needed - had, s.bs);
      }
    }

    // What the stream is certain to get does not shrink as it is used up.
    static lemma HalvesKept(had: nat, have: nat, free: int, free': int, bs: nat)
      requires bs > 0 && had <= have && 0 <= free && 0 <= free' && free - 2 * (have - had) <= free'
      ensures had * bs + free / 2 * bs <= have * bs + free' / 2 * bs
    {
      Distribute(had, free / 2, bs);
      Distribute(have, free' / 2, bs);
      MulOrder(had + free / 2, have + free' / 2, bs);
    }

    static lemma NoAppend(s: State, root: nat)
      ensures !CanAppend(s, root) ==> s.free < 2
      ensures CanAppend(s, root) ==> s.free >= 1
    {
    }

    // Every appended block costs at least one.
    static lemma GrowCost(had: nat, needed: nat, have: nat, free: int, bs: nat)
      requires bs > 0 && free >= 0 && had <= have && needed <= have && have - had <= free
      ensures needed * bs <= had * bs + free * bs
    {
      MulOrder(needed, had + free, bs);
      Distribute(had, free, bs);
    }

    static lemma Distribute(a: nat, b: nat, bs: nat)
      ensures (a + b) * bs == a * bs + b * bs
    {
    }

    static lemma MulOrder(a: nat, b: nat, bs: nat)
      requires bs > 0
      ensures a <= b <==> a * bs <= b * bs
    {
      if a <= b {
        Distribute(a, b - a, bs);
      } else {
        Distribute(b, a - b, bs);
        Distribute(1, a - b - 1, bs);
      }
    }

    // Two free blocks per appended block always suffice.
    static lemma GrowEnough(had: nat, needed: nat, free: int, bs: nat, have: nat)
      requires bs > 0 && free >= 0 && had <= have < needed && free - 2 * (have - had) < 2
      ensures had * bs + free / 2 * bs < needed * bs
    {
      MulOrder(free / 2, have - had, bs);
      MulOrder(have + 1, needed, bs);
      Distribute(had, have - had, bs);
      Distribute(have, 1, bs);
    }

    static lemma GrownFacts(s: State, t: State, root: nat, root': nat)
      requires Grown(s, t, root, root')
      ensures root' in t.streams && |BytesOf(Contents(t), root')| == |BytesOf(Contents(s), root)| + s.bs
    {
    }

    /** One write inside one data block. */
    method PutChunk(root: nat, q: nat, intra: nat, chunk: seq<Byte>, ghost pos: nat)
      requires Valid() && root in streams && 0 < |chunk| && intra + |chunk| <= blockSize
      requires pos == q * blockSize + intra && pos + |chunk| <= |Contents(S())[root]|
      modifies this`disk
      ensures Valid() && |disk| == |old(disk)|
      ensures Contents(S()) == old(Contents(S()))[root := Put(old(Contents(S()))[root], pos, chunk)]
      ensures Singles(S()) == old(Singles(S()))
    {
      hide Inv, Blocks, Content, Put, Singles;
      ghost var s := S();
      ghost var before := Contents(s)[root];
      InStream(s, root, q, intra);
      var actual := Resolve(root, q);
      DataTag(s, root, q);
      WriteBlock(actual.value, intra, chunk);
      assert Overwritten(s, S(), root, q, intra, chunk);
      OverwriteKeepsInv(s, S(), root, q, intra, chunk);
      OverwriteContents(s, S(), root, q, intra, chunk, before, pos);
    }

    // A byte position inside the stream lies in one of its blocks.
    static lemma InStream(s: State, root: nat, q: nat, intra: nat)
      requires Inv(s) && root in s.streams && q * s.bs + intra < |Contents(s)[root]|
      ensures q < |Blocks(s.streams[root])|
    {
      hide Inv, Blocks, Contents;
      Blocksize(s);
      ContentLength(s, root);
      MulOrder(|Blocks(s.streams[root])|, q, s.bs);
    }

    /** Writes as much of `data` as fits the block that holds byte `pos`. */
    method PutSome(root: nat, pos: nat, data: seq<Byte>) returns (n: nat)
      requires Valid() && root in streams && |data| > 0 && pos + |data| <= |Contents(S())[root]|
      modifies this`disk
      ensures Valid() && |disk| == |old(disk)| && 0 < n <= |data|
      ensures Contents(S()) == old(Contents(S()))[root := Put(old(Contents(S()))[root], pos, data[..n])]
      ensures Singles(S()) == old(Singles(S()))
    {
      hide Inv, Put, Singles, Contents;
      Blocksize(S());
      var q, intra := Locate(pos, blockSize);
      n := if blockSize - intra > |data| then |data| else blockSize - intra;
      PutChunk(root, q, intra, data[..n], pos);
    }

    /** Writes inside the blocks the stream already has, one block at a time. */
    method WriteBytes(root: nat, off: nat, data: seq<Byte>)
      requires Valid() && root in streams && |data| > 0
      requires off + |data| <= |Contents(S())[root]|
      modifies this`disk
      ensures Valid() && |disk| == |old(disk)|
      ensures Contents(S()) == old(Contents(S()))[root := Put(old(Contents(S()))[root], off, data)]
      ensures Singles(S()) == old(Singles(S()))
    {
      hide Inv, Put, Singles, Contents;
      Blocksize(S());
      ghost var m := Contents(S());
      ghost var before := m[root];
      var done := 0;
      assert data[..0] == [];
      PutNothing(m, root, off);
      while done < |data|
        invariant 0 <= done <= |data| && Valid() && |disk| == |old(disk)|
        invariant Contents(S()) == m[root := Put(before, off, data[..done])]
        invariant Singles(S()) == old(Singles(S()))
      {
        var n := PutSome(root, off + done, data[done..]);
        assert data[done..][..n] == data[done..done + n];
        assert data[..done + n] == data[..done] + data[done..done + n];
        PutPut(before, off, data[..done], data[done..done + n]);
        done := done + n;
      }
      assert data[..done] == data;
    }

    /** The block of a stream that holds byte `pos`, and the place inside it. */
    static method Locate(pos: nat, bs: nat) returns (q: nat, intra: nat)
      requires bs > 0
      ensures pos == q * bs + intra && intra < bs
    {
      q, intra := pos / bs, pos % bs;
      DivModBlock(pos, bs, q);
    }

    static lemma PutNothing(m: map<nat, seq<Byte>>, r: nat, off: nat)
      requires r in m && off <= |m[r]|
      ensures m[r := Put(m[r], off, [])] == m
    {
      assert Put(m[r], off, []) == m[r];
    }

    /** The outcome of a write: data in place and nothing else lost, or out of space with
        at most fresh blocks at the end; success is certain when no block is missing or
        when two free blocks are left for each missing one. */
    static ghost predicate WriteEffect(s: State, t: State, root: nat, root': nat, off: nat, data: seq<Byte>, ok: bool) {
      var before := BytesOf(Contents(s), root);
      var after := BytesOf(Contents(t), root');
      Touched(s, t, root, root') &&
      (|data| == 0 ==> ok && root' == root && t == s) &&
      (ok && |data| > 0 ==>
        root' in t.streams && Written(before, after, off, data) &&
        |after| == Max(|before|, Covered(off + |data|, s.bs))) &&
      (!ok ==> before <= after) &&
      (!ok && Covered(off + |data|, s.bs) <= |before| + s.bs ==> root' == root && t == s) &&
      (off + |data| <= |before| ==> ok && |after| == |before| && SameAlloc(s, t)) &&
      (0 < |data| && |before| < off + |data| && Covered(off + |data|, s.bs) <= |before| + s.bs ==> (ok <==> CanAppend(s, root))) &&
      (ok ==> Covered(off + |data|, s.bs) <= |before| + s.free * s.bs || |data| == 0) && t.free <= s.free && s.free >= 0 &&
      (ok && root == 0 && 0 < |data| && off + |data| <= s.bs ==> t.free == s.free - 2 && Beside(s, t)) &&
      (Assured(s, root) >= Covered(off + |data|, s.bs) ==> ok) && Assured(s, root) <= Assured(t, root') &&
      (|data| > 0 ==> GrowRoom(s, t, root, root', RoundUp(off + |data|, s.bs), ok))
    }

    /** Writes `data` at byte `off` of the stream, after appending the blocks it needs. */
    method WriteAt(root: nat, off: nat, data: seq<Byte>) returns (ok: bool, root': nat)
      requires Valid() && (root == 0 || root in streams)
      modifies this
      ensures Valid() && WriteEffect(old(S()), S(), root, root', off, data, ok)
    {
      hide Inv, Touched, Contents, Put, Singles, Written, CanAppend, WriteEffect, GrowOutcome;
      ghost var s := S();
      Blocksize(s);
      ExtendedNone(s, root);
      if |data| == 0 {
        WriteNothing(s, root, off);
        return true, root;
      }
      var needed := RoundUp(off + |data|, blockSize);
      RoundUpCovers(off + |data|, blockSize);
      WholeBlocks(s, root, off + |data|);
      if off + |data| <= blockSize { OneBlockNeeded(off + |data|, blockSize); }
      if root == 0 { EmptyStart(s); }
      ok, root' := GrowTo(root, needed);
      hide RoundUp;
      ghost var t := S();
      if !ok {
        EffectFrom(s, t, t, root, root', needed, off, data, false);
        return;
      }
      GrownEnough(s, t, root, root', needed);
      StartWrite(s, t, root, root', off);
      WriteBytes(root', off, data);
      WriteDone(s, t, S(), root, root', off, data, BytesOf(Contents(t), root'));
      EffectFrom(s, t, S(), root, root', needed, off, data, true);
    }

    static lemma WriteNothing(s: State, root: nat, off: nat)
      requires Extended(s, s, root, root) && Inv(s) && s.bs > 0
      ensures WriteEffect(s, s, root, root, off, [], true)
    {
      hide Inv, Touched, Contents, CanAppend, Covered, GrowRoom;
      Blocksize(s);
    }

    static lemma GrownEnough(s: State, t: State, root: nat, root': nat, needed: nat)
      requires GrowOutcome(s, t, root, root', needed, true)
      ensures |BytesOf(Contents(t), root')| == Max(|BytesOf(Contents(s), root)|, needed * s.bs)
    {
      hide Contents, CanAppend, Beside;
    }

    // From growing, and then writing in place, to the outcome of the write.
    static lemma EffectFrom(s: State, t: State, u: State, root: nat, root': nat, needed: nat, off: nat, data: seq<Byte>, ok: bool)
      requires s.bs > 0 && s.free >= 0 && |data| > 0 && needed == RoundUp(off + |data|, s.bs) && off + |data| <= Covered(off + |data|, s.bs)
      requires off + |data| <= |BytesOf(Contents(s), root)| ==> Covered(off + |data|, s.bs) <= |BytesOf(Contents(s), root)|
      requires off + |data| <= s.bs ==> needed == 1
      requires GrowOutcome(s, t, root, root', needed, ok) && GrowRoom(s, t, root, root', needed, ok)
      requires Touched(s, u, root, root') && SameAlloc(t, u)
      requires if ok then root' in u.streams && Written(BytesOf(Contents(s), root), BytesOf(Contents(u), root'), off, data) &&
                          |BytesOf(Contents(u), root')| == |BytesOf(Contents(t), root')|
               else u == t && BytesOf(Contents(s), root) <= BytesOf(Contents(t), root')
      ensures WriteEffect(s, u, root, root', off, data, ok)
    {
      hide Contents, Touched, Written, CanAppend, RoundUp, Extensible, ExtendedRoom;
      SameRoom(t, u, root');
    }

    static lemma SameRoom(t: State, u: State, root: nat)
      requires SameAlloc(t, u)
      ensures RoomOf(u, root) == RoomOf(t, root)
    {
    }

    /** The bytes from `pos` to the end of its block, at most `max` of them. */
    method ReadChunk(root: nat, pos: nat, max: nat) returns (chunk: seq<Byte>)
      requires Valid() && (root == 0 || root in streams) && max > 0
      ensures var c := BytesOf(Contents(S()), root);
              if pos >= |c| then chunk == [] else
              0 < |chunk| <= max && pos + |chunk| <= |c| && chunk == c[pos..pos + |chunk|]
    {
      hide Inv, Contents, Blocks;
      Blocksize(S());
      ContentLength(S(), root);
      var q, intra := Locate(pos, blockSize);
      var size := if blockSize - intra > max then max else blockSize - intra;
      var actual := Resolve(root, q);
      MulOrder(|Blocks(ChainAt(streams, root))|, q, blockSize);
      if actual.None? {
        return [];
      }
      ChunkOf(S(), root, q, intra, size, pos);
      chunk := disk[actual.value][intra..intra + size];
    }

    static lemma ChunkOf(s: State, root: nat, q: nat, intra: nat, n: nat, pos: nat)
      requires Inv(s) && root in s.streams && q < |Blocks(s.streams[root])| && intra + n <= s.bs
      requires pos == q * s.bs + intra
      ensures pos + n <= |Contents(s)[root]|
      ensures var b := Blocks(s.streams[root])[q];
              b < |s.disk| && |s.disk[b]| == s.bs && Contents(s)[root][pos..pos + n] == s.disk[b][intra..intra + n]
    {
      hide Inv, Blocks, Content;
      Blocksize(s);
      DataTag(s, root, q);
      ContentSlice(s.disk, s.bs, Blocks(s.streams[root]), q, intra, n);
    }

    /** Reads up to `n` bytes at byte `off`; short only at the end of the stream. */
    method ReadAt(root: nat, off: nat, n: nat) returns (bytes: seq<Byte>)
      requires Valid() && (root == 0 || root in streams)
      ensures bytes == ReadSpec(BytesOf(Contents(S()), root), off, n)
    {
      hide Inv, Contents;
      ghost var c := BytesOf(Contents(S()), root);
      bytes := [];
      while |bytes| < n
        invariant |bytes| <= n && (|bytes| > 0 ==> off + |bytes| <= |c| && bytes == c[off..off + |bytes|])
      {
        var chunk := ReadChunk(root, off + |bytes|, n - |bytes|);
        if chunk == [] {
          break;
        }
        bytes := bytes + chunk;
      }
    }

    // ------------------------------------------------------------------------------
    // Freeing a stream, and blocks handed out one at a time

    /** Frees the data blocks that one list block names. */
    method FreeExtents(ghost s: State, ghost root: nat, ghost i: nat, blk: seq<Byte>)
      requires Inv(s) && root in s.streams && i < |s.streams[root]| && |used| == |s.used|
      requires NodeOnDisk(blk, s.streams[root][i].extents, Next(s.streams[root], i))
      requires PartlyFreed(s, used, freeBlocks, root, i, |Blocks(s.streams[root][..i])|)
      modifies this`used, this`freeBlocks
      ensures PartlyFreed(s, used, freeBlocks, root, i, |Blocks(s.streams[root][..i + 1])|)
    {
      hide Inv, Blocks, Expand, PartlyFreed, Dec;
      ghost var c := s.streams[root];
      ghost var es := c[i].extents;
      ghost var j0 := |Blocks(c[..i])|;
      ExpandNone(es[..0]);
      var count := Field(blk, 4, 4);
      var m := 0;
      while m < count
        invariant 0 <= m <= count == |es|
        invariant PartlyFreed(s, used, freeBlocks, root, i, j0 + |Expand(es[..m])|)
      {
        assert ExtentOnDisk(blk, m, es[m]);
        var start := Field(blk, LIST_HEADER_SIZE + EXTENT_SIZE * m, 8);
        var length := Field(blk, LIST_HEADER_SIZE + EXTENT_SIZE * m + 8, 8);
        var k := 0;
        while k < length
          invariant 0 <= k <= length == es[m].length
          invariant PartlyFreed(s, used, freeBlocks, root, i, j0 + |Expand(es[..m])| + k)
        {
          ExpandAt(es, m, k);
          BlocksAt(c, i, |Expand(es[..m])| + k);
          FreeOne(s, root, i, j0 + |Expand(es[..m])| + k, start + k);
          k := k + 1;
        }
        assert es[..m + 1] == es[..m] + [es[m]];
        ExpandSnoc(es[..m], es[m]);
        m := m + 1;
      }
      assert es[..m] == es;
      assert c[..i + 1] == c[..i] + [c[i]];
      BlocksSnoc(c[..i], c[i]);
    }

    method FreeOne(ghost s: State, ghost root: nat, ghost i: nat, ghost j: nat, b: nat)
      requires Inv(s) && root in s.streams && j < |Blocks(s.streams[root])| && b == Blocks(s.streams[root])[j]
      requires PartlyFreed(s, used, freeBlocks, root, i, j)
      modifies this`used, this`freeBlocks
      ensures PartlyFreed(s, used, freeBlocks, root, i, j + 1)
    {
      hide Inv, Blocks, Freed;
      FreeData(s, used, root, i, j);
      FreeBlock(b);
    }

    /** Frees every data block and every list block of a stream, each exactly once. */
    method FreeChain(root: nat)
      requires Valid() && (root == 0 || root in streams)
      modifies this
      ensures Valid() && |disk| == |old(disk)|
      ensures Contents(S()) == Contents(old(S())) - {root} && Singles(S()) == Singles(old(S()))
      ensures root != 0 ==> Removed(old(S()), S(), root)
      ensures var c := ChainAt(old(streams), root);
              freeBlocks == old(freeBlocks) + |c| + |Blocks(c)|
    {
      hide Inv, Blocks, NodeOnDisk, PartlyFreed, Content, Dec, Contents;
      ghost var s := S();
      NoNullStream(s);
      if root == 0 {
        NoBlocks([]);
        assert 0 !in Contents(s);
        assert Contents(s) - {0} == Contents(s);
        return;
      }
      ghost var c := streams[root];
      ChainStart(s, root);
      NoBlocks(c[..0]);
      StartFree(s, root);
      ghost var i := 0;
      var cur := root;
      while cur != 0
        invariant 0 <= i <= |c| && cur == (if i < |c| then c[i].blk else 0)
        invariant S() == s.(used := used, free := freeBlocks)
        invariant PartlyFreed(s, used, freeBlocks, root, i, |Blocks(c[..i])|)
        decreases |c| - i
      {
        ListTag(s, root, i);
        NodeHeader(disk[cur], c[i].extents, Next(c, i));
        FreeSizes(s, used, freeBlocks, root, i, |Blocks(c[..i])|);
        FreeExtents(s, root, i, disk[cur]);
        var next := Field(disk[cur], 8, 8);
        FreeListBlock(s, root, i, |Blocks(c[..i + 1])|, cur);
        cur := next;
        i := i + 1;
      }
      assert c[..i] == c;
      FreeSizes(s, used, freeBlocks, root, i, |Blocks(c)|);
      own := Without(own, root);
      streams := streams - {root};
      assert Removed(s, S(), root);
      RemoveKeepsInv(s, S(), root);
      RemoveContents(s, S(), root);
    }

    method FreeListBlock(ghost s: State, ghost root: nat, ghost i: nat, ghost j: nat, b: nat)
      requires Inv(s) && root in s.streams && i < |s.streams[root]| && b == s.streams[root][i].blk
      requires PartlyFreed(s, used, freeBlocks, root, i, j)
      modifies this`used, this`freeBlocks
      ensures PartlyFreed(s, used, freeBlocks, root, i + 1, j)
    {
      hide Inv, Blocks, Freed;
      FreeList(s, used, root, i, j);
      FreeBlock(b);
    }

    static lemma StartFree(s: State, root: nat)
      requires Inv(s)
      ensures PartlyFreed(s, s.used, s.free, root, 0, 0)
    {
      hide StreamOk, Backed, Tagged;
    }

    static lemma FreeSizes(s: State, used: seq<bool>, free: int, root: nat, i: nat, j: nat)
      requires PartlyFreed(s, used, free, root, i, j)
      ensures |used| == |s.used| && free == s.free + i + j
    {
    }

    /** Takes one block and writes `data` at its start. */
    method AllocSingle(data: seq<Byte>) returns (r: Option<nat>)
      requires Valid() && |data| <= blockSize
      modifies this
      ensures Valid() && |disk| == |old(disk)|
      ensures r.None? <==> old(freeBlocks) == 0
      ensures r.None? ==> S() == old(S())
      ensures r.Some? ==> freeBlocks == old(freeBlocks) - 1 && r.value != 0 && Beside(old(S()), S())
      ensures r.Some? ==> Contents(S()) == Contents(old(S()))
      ensures r.Some? ==> r.value !in Singles(old(S())) && r.value in Singles(S())
      ensures r.Some? ==> |Singles(S())[r.value]| == blockSize && Singles(S())[r.value][..|data|] == data
      ensures r.Some? ==> Singles(S()) == Singles(old(S()))[r.value := Singles(S())[r.value]]
    {
      hide Inv, Contents, Singles, Put;
      ghost var s := S();
      StartAppend(s, 0);
      r := AllocBlock();
      if r.Some? {
        var b := r.value;
        FirstTaken(s.used, b);
        WriteBlock(b, 0, data);
        own := own[b := Single];
        ghost var bytes := Put(s.disk[b], 0, data);
        assert bytes[..|data|] == bytes[0..0 + |data|];
        NotMeta(s, b);
        assert SingleAdded(s, S(), b, bytes);
        SingleKeepsInv(s, S(), b, bytes);
        SingleContents(s, S(), b, bytes);
      }
    }

    static lemma NotMeta(s: State, b: nat)
      requires Inv(s) && b < |s.used| && !s.used[b]
      ensures b != 0
    {
      hide StreamOk, Backed;
    }

    /** The first `n` bytes of such a block. */
    method ReadSingle(b: nat, n: nat) returns (bytes: seq<Byte>)
      requires Valid() && b in Singles(S()) && n <= |Singles(S())[b]|
      ensures bytes == Singles(S())[b][..n]
    {
      bytes := disk[b][..n];
    }

    /** A write that succeeded. */
    static lemma EffectOk(s: State, t: State, root: nat, root': nat, off: nat, data: seq<Byte>)
      requires WriteEffect(s, t, root, root', off, data, true) && |data| > 0
      ensures Touched(s, t, root, root') && root' in t.streams && (root != 0 ==> root' == root)
      ensures Written(BytesOf(Contents(s), root), BytesOf(Contents(t), root'), off, data)
      ensures |BytesOf(Contents(t), root')| == Max(|BytesOf(Contents(s), root)|, Covered(off + |data|, s.bs))
      ensures off + |data| <= |BytesOf(Contents(s), root)| ==> |BytesOf(Contents(t), root')| == |BytesOf(Contents(s), root)|
      ensures off + |data| <= |BytesOf(Contents(s), root)| ==> SameAlloc(s, t)
      ensures t.free <= s.free
    {
      hide Contents, Written, Covered, CanAppend, GrowRoom;
    }

    /** Whether a write that needs at most one more block succeeds. */
    static lemma EffectExact(s: State, t: State, root: nat, root': nat, off: nat, data: seq<Byte>, ok: bool)
      requires WriteEffect(s, t, root, root', off, data, ok) && |data| > 0
      requires Covered(off + |data|, s.bs) <= |BytesOf(Contents(s), root)| + s.bs
      ensures ok <==> off + |data| <= |BytesOf(Contents(s), root)| || CanAppend(s, root)
      ensures !ok ==> t == s && root' == root
    {
      hide Contents, Written, Covered, CanAppend, Touched, GrowRoom;
    }

    /** A write that ran out of space. */
    static lemma EffectFull(s: State, t: State, root: nat, root': nat, off: nat, data: seq<Byte>)
      requires WriteEffect(s, t, root, root', off, data, false)
      ensures Touched(s, t, root, root') && (root != 0 ==> root' == root && root' in t.streams)
      ensures BytesOf(Contents(s), root) <= BytesOf(Contents(t), root')
      ensures |BytesOf(Contents(s), root)| < off + |data|
      ensures Covered(off + |data|, s.bs) <= |BytesOf(Contents(s), root)| + s.bs ==> root' == root && t == s
    {
      hide Contents, Written, Covered, CanAppend, GrowRoom;
    }

    /** What a write costs: nothing inside the stream; two blocks to start a stream. */
    static lemma EffectCost(s: State, t: State, root: nat, root': nat, off: nat, data: seq<Byte>)
      requires WriteEffect(s, t, root, root', off, data, true)
      ensures off + |data| <= |BytesOf(Contents(s), root)| ==> t.free == s.free
      ensures off + |data| <= |BytesOf(Contents(s), root)| ==> SameAlloc(s, t)
      ensures root == 0 && 0 < |data| && off + |data| <= s.bs ==> t.free == s.free - 2 && Beside(s, t)
    {
      hide Contents, Written, Covered, Touched, CanAppend, Beside, GrowRoom;
    }

    static lemma EffectRoom(s: State, t: State, root: nat, root': nat, off: nat, data: seq<Byte>, ok: bool)
      requires WriteEffect(s, t, root, root', off, data, ok) && s.free >= 2 && s.bs > 0
      ensures Covered(off + |data|, s.bs) <= |BytesOf(Contents(s), root)| + s.bs ==> ok
    {
      hide Contents, Written, Covered, Touched, CanAppend, GrowRoom;
      MulOrder(1, s.free / 2, s.bs);
    }

    static lemma WholeBlocks(s: State, root: nat, n: nat)
      requires Inv(s) && s.bs > 0 && (root == 0 || root in s.streams)
      ensures n <= |BytesOf(Contents(s), root)| ==> Covered(n, s.bs) <= |BytesOf(Contents(s), root)|
    {
      hide Inv, Contents, Blocks;
      ContentLength(s, root);
      RoundUpCovers(n, s.bs);
      var b := |Blocks(ChainAt(s.streams, root))|;
      MulOrder(RoundUp(n, s.bs), b, s.bs);
      if n <= b * s.bs && RoundUp(n, s.bs) > b {
        MulOrder(b + 1, RoundUp(n, s.bs), s.bs);
        Distribute(b, 1, s.bs);
        assert false;
      }
    }

    // At most one block past the end of the stream is covered by one more block.
    static lemma OneBlockMore(s: State, root: nat, n: nat)
      requires Inv(s) && root in s.streams && n <= |BytesOf(Contents(s), root)| + s.bs
      ensures s.bs >= 512 && Covered(n, s.bs) <= |BytesOf(Contents(s), root)| + s.bs
    {
      hide Inv, Contents, Blocks, RoundUp;
      Blocksize(s);
      ContentLength(s, root);
      var b, q := |Blocks(ChainAt(s.streams, root))|, RoundUp(n, s.bs);
      RoundUpCovers(n, s.bs);
      Distribute(b, 1, s.bs);
      if q > b + 1 {
        MulOrder(b + 2, q, s.bs);
        Distribute(b + 1, 1, s.bs);
      } else {
        MulOrder(q, b + 1, s.bs);
      }
    }

    // Past the end of the stream, covering means at least one more block.
    static lemma CoveredMore(s: State, root: nat, n: nat)
      requires Inv(s) && root in s.streams && n > |BytesOf(Contents(s), root)|
      ensures Covered(n, s.bs) >= |BytesOf(Contents(s), root)| + s.bs
    {
      hide Inv, Contents, Blocks, RoundUp;
      Blocksize(s);
      ContentLength(s, root);
      var b, q := |Blocks(ChainAt(s.streams, root))|, RoundUp(n, s.bs);
      RoundUpCovers(n, s.bs);
      MulOrder(q, b, s.bs);
      MulOrder(b + 1, q, s.bs);
      Distribute(b, 1, s.bs);
    }

    static lemma OneBlockNeeded(n: nat, bs: nat)
      requires 0 < n <= bs
      ensures RoundUp(n, bs) == 1 && Covered(n, bs) == bs
    {
      DivModBlock(n + bs - 1, bs, 1);
    }

    static lemma EmptyStart(s: State)
      requires Inv(s)
      ensures BytesOf(Contents(s), 0) == []
    {
      hide Inv;
      NoNullStream(s);
    }

    static lemma StartWrite(s: State, t: State, root: nat, root': nat, off: nat)
      requires Touched(s, t, root, root') && off < |BytesOf(Contents(t), root')|
      ensures root' in t.streams && root' in Contents(t) && BytesOf(Contents(t), root') == Contents(t)[root']
    {
      hide Inv, Content;
    }

    static lemma WriteDone(s: State, t: State, u: State, root: nat, root': nat, off: nat, data: seq<Byte>, grown: seq<Byte>)
      requires Touched(s, t, root, root') && root' in t.streams && root' in u.streams && Inv(t)
      requires grown == BytesOf(Contents(t), root') && BytesOf(Contents(s), root) <= grown && off + |data| <= |grown|
      requires u.bs == t.bs && u.first == t.first && |u.disk| == |t.disk| && u.bs > 0
      requires Contents(u) == Contents(t)[root' := Put(grown, off, data)] && Singles(u) == Singles(t)
      ensures Touched(s, u, root, root')
      ensures Written(BytesOf(Contents(s), root), BytesOf(Contents(u), root'), off, data)
      ensures |BytesOf(Contents(u), root')| == |grown|
    {
      hide Inv, Contents, Singles, Put, Written;
      NoNullStream(t);
      WrittenGrown(BytesOf(Contents(s), root), grown, off, data);
      UpdateTwice(Contents(s), root', grown, Put(grown, off, data));
    }

    static function Max(a: nat, b: nat): nat {
      if a >= b then a else b
    }
  }
}
