/** The bytes of a stream, and the ownership invariant that ties bitmap, disk blocks and
    extent chains together. Pure definitions and the steps that preserve them. */
module Streams {
  import opened Bytes
  import opened Bits
  import opened Extents
  import opened Counting

  /** Who a used block belongs to. Because a block has one tag, no block can belong to
      two streams, twice to one stream, or to a stream and the metadata region. */
  datatype Owner =
    | Meta
    | ListOf(root: nat, idx: nat)
    | DataOf(root: nat, idx: nat)
    | Single

  type Disk = seq<seq<Byte>>

  // ----------------------------------------------------------------------------------
  // Stream bytes

  ghost function ByteAt(disk: Disk, bs: nat, blocks: seq<nat>, k: nat): Byte {
    if bs == 0 then 0 else
    var q := k / bs;
    if q < |blocks| && blocks[q] < |disk| && k % bs < |disk[blocks[q]]|
    then disk[blocks[q]][k % bs]
    else 0
  }

  /** The bytes of the data blocks, concatenated in stream order. */
  ghost function Content(disk: Disk, bs: nat, blocks: seq<nat>): (r: seq<Byte>)
    ensures |r| == |blocks| * bs
  {
    seq(|blocks| * bs, k requires 0 <= k => ByteAt(disk, bs, blocks, k))
  }

  lemma DivModBlock(k: nat, bs: nat, q: nat)
    requires bs > 0
    ensures k / bs == q <==> q * bs <= k < q * bs + bs
    ensures k / bs == q ==> k % bs == k - q * bs
  {
    var d, m := k / bs, k % bs;
    assert k == d * bs + m;
    if d < q {
      assert (d + 1) * bs <= q * bs;
      assert (d + 1) * bs == d * bs + bs;
    } else if d > q {
      assert (q + 1) * bs <= d * bs;
      assert (q + 1) * bs == q * bs + bs;
    }
  }

  lemma DivBound(k: nat, bs: nat, n: nat)
    requires bs > 0
    ensures k < n * bs <==> k / bs < n
  {
    var d, m := k / bs, k % bs;
    assert k == d * bs + m;
    if d < n {
      assert (d + 1) * bs <= n * bs;
      assert (d + 1) * bs == d * bs + bs;
    } else {
      assert n * bs <= d * bs;
    }
  }

  lemma ContentFrame(disk: Disk, disk': Disk, bs: nat, blocks: seq<nat>)
    requires bs > 0 && |disk| == |disk'|
    requires forall j :: 0 <= j < |blocks| ==> blocks[j] < |disk| && disk[blocks[j]] == disk'[blocks[j]]
    ensures Content(disk, bs, blocks) == Content(disk', bs, blocks)
  {
    assert forall k: nat :: ByteAt(disk, bs, blocks, k) == ByteAt(disk', bs, blocks, k);
  }

  lemma ContentAppend(disk: Disk, bs: nat, blocks: seq<nat>, more: seq<nat>)
    requires bs > 0
    ensures Content(disk, bs, blocks) <= Content(disk, bs, blocks + more)
  {
    var a, b := Content(disk, bs, blocks), Content(disk, bs, blocks + more);
    assert |blocks + more| * bs == |blocks| * bs + |more| * bs;
    forall k | 0 <= k < |a|
      ensures a[k] == b[k]
    {
      DivBound(k, bs, |blocks|);
      assert ByteAt(disk, bs, blocks, k) == ByteAt(disk, bs, blocks + more, k);
    }
  }

  /** Byte `i` of block `q` of a stream, by its position in the stream. */
  lemma ContentAt(disk: Disk, bs: nat, blocks: seq<nat>, q: nat, i: nat)
    requires q < |blocks| && i < bs && blocks[q] < |disk| && |disk[blocks[q]]| == bs
    ensures q * bs + bs <= |blocks| * bs
    ensures Content(disk, bs, blocks)[q * bs + i] == disk[blocks[q]][i]
  {
    var k := q * bs + i;
    DivModBlock(k, bs, q);
    DivModBlock(q * bs + bs - 1, bs, q);
    DivBound(q * bs + bs - 1, bs, |blocks|);
    assert Content(disk, bs, blocks)[k] == ByteAt(disk, bs, blocks, k);
  }

  /** Bytes that lie inside one block are that block's bytes. */
  lemma ContentSlice(disk: Disk, bs: nat, blocks: seq<nat>, q: nat, intra: nat, n: nat)
    requires bs > 0 && q < |blocks| && blocks[q] < |disk| && |disk[blocks[q]]| == bs
    requires intra + n <= bs
    ensures q * bs + intra + n <= |blocks| * bs
    ensures Content(disk, bs, blocks)[q * bs + intra..q * bs + intra + n] == disk[blocks[q]][intra..intra + n]
  {
    var base := q * bs;
    ContentAt(disk, bs, blocks, q, 0);
    var c, d := Content(disk, bs, blocks), disk[blocks[q]];
    forall i | 0 <= i < bs
      ensures c[base + i] == d[i]
    {
      ContentAt(disk, bs, blocks, q, i);
    }
    SliceShift(c, base, d, intra, n);
  }

  lemma SliceShift(c: seq<Byte>, base: nat, d: seq<Byte>, off: nat, n: nat)
    requires off + n <= |d| && base + |d| <= |c|
    requires forall i :: 0 <= i < |d| ==> c[base + i] == d[i]
    ensures c[base + off..base + off + n] == d[off..off + n]
  {
  }

  /** Writing inside one block of a stream is writing at that place of the stream. */
  lemma ContentPut(disk: Disk, bs: nat, blocks: seq<nat>, q: nat, intra: nat, data: seq<Byte>)
    requires bs > 0 && q < |blocks| && intra + |data| <= bs
    requires forall j :: 0 <= j < |blocks| ==> blocks[j] < |disk| && |disk[blocks[j]]| == bs
    requires forall j :: 0 <= j < |blocks| && j != q ==> blocks[j] != blocks[q]
    ensures q * bs + intra + |data| <= |blocks| * bs
    ensures Content(disk[blocks[q] := Put(disk[blocks[q]], intra, data)], bs, blocks)
         == Put(Content(disk, bs, blocks), q * bs + intra, data)
  {
    hide Content, ByteAt, Put;
    var disk' := disk[blocks[q] := Put(disk[blocks[q]], intra, data)];
    ContentAt(disk, bs, blocks, q, 0);
    var c, c' := Content(disk, bs, blocks), Content(disk', bs, blocks);
    var p := Put(c, q * bs + intra, data);
    forall k | 0 <= k < |c|
      ensures c'[k] == p[k]
    {
      var j, i := Coordinates(k, bs, |blocks|);
      ContentPutAt(disk, disk', bs, blocks, q, intra, data, j, i, q * bs, k);
    }
  }

  lemma Coordinates(k: nat, bs: nat, n: nat) returns (j: nat, i: nat)
    requires bs > 0 && k < n * bs
    ensures j < n && i < bs && k == j * bs + i
  {
    j, i := k / bs, k % bs;
    assert k == j * bs + i;
    DivBound(k, bs, n);
  }

  lemma RowsApart(bs: nat, j: nat, q: nat, i: nat)
    requires i < bs && j != q
    ensures j * bs + i < q * bs || q * bs + bs <= j * bs + i
  {
    if j < q {
      assert (j + 1) * bs <= q * bs;
      assert (j + 1) * bs == j * bs + bs;
    } else {
      assert (q + 1) * bs <= j * bs;
      assert (q + 1) * bs == q * bs + bs;
    }
  }

  lemma ContentPutAt(disk: Disk, disk': Disk, bs: nat, blocks: seq<nat>, q: nat, intra: nat, data: seq<Byte>,
                     j: nat, i: nat, base: nat, pos: nat)
    requires j < |blocks| && i < bs && q < |blocks| && intra + |data| <= bs
    requires forall j :: 0 <= j < |blocks| ==> blocks[j] < |disk| && |disk[blocks[j]]| == bs
    requires forall j :: 0 <= j < |blocks| && j != q ==> blocks[j] != blocks[q]
    requires disk' == disk[blocks[q] := Put(disk[blocks[q]], intra, data)]
    requires base == q * bs && pos == j * bs + i
    requires base + bs <= |Content(disk, bs, blocks)| && pos < |Content(disk, bs, blocks)|
    ensures Content(disk', bs, blocks)[pos] == Put(Content(disk, bs, blocks), base + intra, data)[pos]
  {
    hide Content, ByteAt, Put;
    ContentAt(disk, bs, blocks, j, i);
    ContentAt(disk', bs, blocks, j, i);
    PutAt(Content(disk, bs, blocks), base + intra, data, pos);
    if j == q {
      PutAt(disk[blocks[q]], intra, data, i);
    } else {
      RowsApart(bs, j, q, i);
    }
  }

  lemma PutAt(s: seq<Byte>, off: nat, data: seq<Byte>, k: nat)
    requires off + |data| <= |s| && k < |s|
    ensures Put(s, off, data)[k] == if off <= k < off + |data| then data[k - off] else s[k]
  {
  }

  /** What a successful write leaves behind: the data at its place, every other byte the
      stream already had unchanged. */
  ghost predicate Written(before: seq<Byte>, after: seq<Byte>, off: nat, data: seq<Byte>) {
    |before| <= |after| && off + |data| <= |after| &&
    after[off..off + |data|] == data &&
    forall k :: 0 <= k < |before| && !(off <= k < off + |data|) ==> after[k] == before[k]
  }

  lemma PutPut(c: seq<Byte>, off: nat, a: seq<Byte>, b: seq<Byte>)
    requires off + |a| + |b| <= |c|
    ensures Put(Put(c, off, a), off + |a|, b) == Put(c, off, a + b)
  {
  }

  lemma WrittenGrown(before: seq<Byte>, grown: seq<Byte>, off: nat, data: seq<Byte>)
    requires before <= grown && off + |data| <= |grown|
    ensures Written(before, Put(grown, off, data), off, data)
  {
  }

  /** What a read of `n` bytes at `off` returns: short only at the end of the stream. */
  function ReadSpec(c: seq<Byte>, off: nat, n: nat): (r: seq<Byte>)
    ensures |r| <= n
    ensures off + n <= |c| ==> r == c[off..off + n]
  {
    if off >= |c| then [] else if off + n <= |c| then c[off..off + n] else c[off..]
  }

  /** A read, and a read where it ended, make the longer read. */
  lemma ReadsJoin(data: seq<Byte>, off: nat, a: nat, b: nat)
    ensures ReadSpec(data, off, a) + ReadSpec(data, off + |ReadSpec(data, off, a)|, b) == ReadSpec(data, off, a + b)
  {
  }

  lemma ReadNothing(data: seq<Byte>, off: nat)
    ensures ReadSpec(data, off, 0) == []
  {
  }

  /** Round trip: whatever was written is what a read of the same range returns, and a
      read of a range that does not meet it returns what it returned before. */
  lemma ReadAfterWrite(before: seq<Byte>, after: seq<Byte>, off: nat, data: seq<Byte>, o: nat, n: nat)
    requires Written(before, after, off, data)
    ensures ReadSpec(after, off, |data|) == data
    ensures o + n <= |before| && (o + n <= off || off + |data| <= o) ==>
            ReadSpec(after, o, n) == ReadSpec(before, o, n)
  {
  }

  // ----------------------------------------------------------------------------------
  // The ownership invariant

  function Next(c: Chain, i: nat): nat {
    if i + 1 < |c| then c[i + 1].blk else 0
  }

  ghost predicate NodesOk(disk: Disk, own: map<nat, Owner>, r: nat, c: Chain) {
    forall i :: 0 <= i < |c| ==>
      c[i].blk in own && own[c[i].blk] == ListOf(r, i) && c[i].blk < |disk| &&
      NodeOnDisk(disk[c[i].blk], c[i].extents, Next(c, i))
  }

  ghost predicate DataOk(own: map<nat, Owner>, r: nat, blocks: seq<nat>) {
    forall j :: 0 <= j < |blocks| ==> blocks[j] in own && own[blocks[j]] == DataOf(r, j)
  }

  ghost predicate StreamOk(disk: Disk, own: map<nat, Owner>, r: nat, c: Chain) {
    |c| > 0 && c[0].blk == r && NodesOk(disk, own, r, c) && DataOk(own, r, Blocks(c))
  }

  ghost predicate Backed(streams: map<nat, Chain>, b: nat, o: Owner) {
    match o
    case ListOf(r, i) => r in streams && i < |streams[r]| && streams[r][i].blk == b
    case DataOf(r, j) => r in streams && j < |Blocks(streams[r])| && Blocks(streams[r])[j] == b
    case _ => true
  }

  /** The allocator's and the streams' whole state: bitmap, cached count and disk blocks,
      with the tags and chains that explain them. */
  datatype State = State(
    bs: nat, first: nat, used: seq<bool>, free: int, disk: Disk,
    own: map<nat, Owner>, streams: map<nat, Chain>)

  /** Every byte of the volume has a 64-bit offset. */
  ghost predicate Addressable(blocks: nat, bs: nat) {
    blocks * bs <= U64_LIMIT
  }

  ghost predicate Shape(s: State) {
    512 <= s.bs && s.bs % 8 == 0 && |s.used| == |s.disk| && 0 < s.first <= |s.disk| &&
    Addressable(|s.disk|, s.bs) &&
    forall b :: 0 <= b < |s.disk| ==> |s.disk[b]| == s.bs
  }

  ghost predicate Tagged(s: State) {
    (forall b :: b in s.own ==> b < |s.used| && s.used[b]) &&
    (forall b :: 0 <= b < |s.used| && s.used[b] ==> b in s.own) &&
    (forall b :: b in s.own ==> (s.own[b] == Meta <==> b < s.first)) &&
    (forall b :: 0 <= b < s.first ==> b in s.own)
  }

  ghost predicate AllStreams(s: State) {
    forall r {:trigger StreamOk(s.disk, s.own, r, s.streams[r])} :: r in s.streams ==> StreamOk(s.disk, s.own, r, s.streams[r])
  }

  ghost predicate AllBacked(s: State) {
    forall b {:trigger Backed(s.streams, b, s.own[b])} :: b in s.own ==> Backed(s.streams, b, s.own[b])
  }

  /** Bitmap bits, tags and chains agree: a block is used exactly when it has an owner,
      every chain is on disk and owns its blocks, and every tag is backed by a chain. */
  ghost predicate Inv(s: State) {
    Shape(s) && s.free == ClearBits(s.used) && Tagged(s) && AllStreams(s) && AllBacked(s)
  }

  /** The chain of stream `r`, or the empty chain for the null block number. */
  function ChainAt(streams: map<nat, Chain>, r: nat): Chain {
    if r in streams then streams[r] else []
  }

  lemma StreamFrame(disk: Disk, disk': Disk, own: map<nat, Owner>, own': map<nat, Owner>, r: nat, c: Chain)
    requires StreamOk(disk, own, r, c) && |disk| == |disk'|
    requires forall b :: b in own && (own[b].ListOf? || own[b].DataOf?) && own[b].root == r ==> b in own' && own'[b] == own[b]
    requires forall b :: b in own && own[b].ListOf? && own[b].root == r && b < |disk| ==> disk'[b] == disk[b]
    ensures StreamOk(disk', own', r, c)
  {
  }

  // What the invariant says about one stream or one block.

  lemma StreamFact(s: State, r: nat)
    requires Inv(s) && r in s.streams
    ensures StreamOk(s.disk, s.own, r, s.streams[r]) && s.bs >= 512
  {
  }

  lemma DataTag(s: State, r: nat, j: nat)
    requires Inv(s) && r in s.streams && j < |Blocks(s.streams[r])|
    ensures var b := Blocks(s.streams[r])[j];
            b in s.own && s.own[b] == DataOf(r, j) && b < |s.used| && s.used[b] &&
            |s.disk| == |s.used| && |s.disk[b]| == s.bs
  {
    hide NodeOnDisk, Blocks, Backed;
    StreamFact(s, r);
  }

  lemma ListTag(s: State, r: nat, i: nat)
    requires Inv(s) && r in s.streams && i < |s.streams[r]|
    ensures var n := s.streams[r][i];
            n.blk != 0 && n.blk in s.own && s.own[n.blk] == ListOf(r, i) && n.blk < |s.used| && s.used[n.blk] &&
            |s.disk| == |s.used| && |s.disk[n.blk]| == s.bs &&
            NodeOnDisk(s.disk[n.blk], n.extents, Next(s.streams[r], i))
  {
    hide NodeOnDisk, Blocks, Backed;
    StreamFact(s, r);
  }

  lemma TagPlace(s: State, b: nat)
    requires Inv(s) && b in s.own
    ensures Backed(s.streams, b, s.own[b]) && b < |s.used| && s.used[b]
  {
    hide StreamOk;
  }

  /** Block 0 holds the superblock, so no stream starts there: 0 can mean "no stream". */
  lemma NoNullStream(s: State)
    requires Inv(s)
    ensures 0 !in s.streams
    ensures forall r, i :: r in s.streams && 0 <= i < |s.streams[r]| ==> s.streams[r][i].blk != 0
  {
    hide NodeOnDisk, Blocks, Backed;
    assert 0 in s.own && s.own[0] == Meta;
    forall r | r in s.streams ensures r != 0 && forall i :: 0 <= i < |s.streams[r]| ==> s.streams[r][i].blk != 0 { StreamFact(s, r); }
  }

  /** No block belongs to two streams, or twice to one: equal blocks, equal places; and no
      stream block lies in the metadata region or is marked free. */
  lemma StreamsDisjoint(s: State, r1: nat, r2: nat)
    requires Inv(s) && r1 in s.streams && r2 in s.streams
    ensures var b1, b2 := Blocks(s.streams[r1]), Blocks(s.streams[r2]);
            var l1, l2 := Lists(s.streams[r1]), Lists(s.streams[r2]);
            (forall i, j :: 0 <= i < |b1| && 0 <= j < |b2| && b1[i] == b2[j] ==> r1 == r2 && i == j) &&
            (forall i, j :: 0 <= i < |l1| && 0 <= j < |l2| && l1[i] == l2[j] ==> r1 == r2 && i == j) &&
            (forall i, j :: 0 <= i < |l1| && 0 <= j < |b2| ==> l1[i] != b2[j]) &&
            (forall i :: 0 <= i < |l1| ==> s.first <= l1[i] < |s.used| && s.used[l1[i]]) &&
            (forall j :: 0 <= j < |b1| ==> s.first <= b1[j] < |s.used| && s.used[b1[j]])
  {
    hide NodeOnDisk, Blocks;
    assert StreamOk(s.disk, s.own, r1, s.streams[r1]) && StreamOk(s.disk, s.own, r2, s.streams[r2]);
  }

  /** Growth by one block: the free block `data` (and, when the chain gets a new list
      block, the free block `list`) become the end of the stream with chain `c`, which
      turns into `c'`. Only list blocks of that stream are written. */
  ghost predicate Appended(s: State, t: State, c: Chain, c': Chain, data: nat, list: nat) {
    GrowsTo(c, c', data, list) && AppendedTags(s, t, c, c', data, list) && AppendedDisk(s.disk, t.disk, s.bs, c')
  }

  ghost predicate AppendedTags(s: State, t: State, c: Chain, c': Chain, data: nat, list: nat)
    requires |c'| > 0
  {
    t.bs == s.bs && t.first == s.first &&
    data < |s.used| && !s.used[data] &&
    (|c'| > |c| ==> list < |s.used| && !s.used[list] && list != data) &&
    t.used == (if |c'| > |c| then s.used[data := true][list := true] else s.used[data := true]) &&
    t.own == s.own + NewTags(c, c', data) &&
    t.streams == s.streams[c'[0].blk := c'] &&
    t.free == ClearBits(t.used)
  }

  ghost predicate AppendedDisk(disk: Disk, disk': Disk, bs: nat, c': Chain) {
    |disk'| == |disk| &&
    (forall b :: 0 <= b < |disk| ==> |disk'[b]| == bs) &&
    (forall b :: 0 <= b < |disk| && b !in Lists(c') ==> disk'[b] == disk[b]) &&
    (forall i :: 0 <= i < |c'| ==> c'[i].blk < |disk| && NodeOnDisk(disk'[c'[i].blk], c'[i].extents, Next(c', i)))
  }

  ghost function NewTags(c: Chain, c': Chain, data: nat): map<nat, Owner>
    requires |c'| > 0
  {
    var r := c'[0].blk;
    var m := map[data := DataOf(r, |Blocks(c)|)];
    if |c'| > |c| then m[c'[|c'| - 1].blk := ListOf(r, |c|)] else m
  }

  /** The chain being grown: an existing stream, or nothing yet. */
  ghost predicate Growable(s: State, c: Chain) {
    c == [] || (c[0].blk in s.streams && s.streams[c[0].blk] == c)
  }

  lemma AppendedNewRoot(s: State, t: State, c: Chain, c': Chain, data: nat, list: nat)
    requires Inv(s) && Appended(s, t, c, c', data, list) && Growable(s, c)
    ensures data !in s.own && (|c'| > |c| ==> list !in s.own)
    ensures c != [] ==> c'[0].blk == c[0].blk && StreamOk(s.disk, s.own, c[0].blk, c)
    ensures c == [] ==> c'[0].blk == list && list !in s.streams
    ensures forall q :: q in s.streams && q != c'[0].blk ==> q in s.own && s.own[q] == ListOf(q, 0)
  {
    hide NodeOnDisk, Blocks;
    forall q | q in s.streams ensures q in s.own && s.own[q] == ListOf(q, 0) {
      assert StreamOk(s.disk, s.own, q, s.streams[q]);
    }
  }

  /** The stream that grew is well formed. */
  lemma AppendedNodes(s: State, t: State, c: Chain, c': Chain, data: nat, list: nat)
    requires Appended(s, t, c, c', data, list)
    requires data !in s.own && (|c'| > |c| ==> list !in s.own)
    requires c != [] ==> NodesOk(s.disk, s.own, c[0].blk, c)
    ensures NodesOk(t.disk, t.own, c'[0].blk, c')
  {
    hide NodeOnDisk, Blocks, ClearBits, NewTags, Next;
    forall i | 0 <= i < |c'|
      ensures c'[i].blk in t.own && t.own[c'[i].blk] == ListOf(c'[0].blk, i)
    {
      AppendedNodeTag(s, t, c, c', data, list, i);
    }
  }

  lemma AppendedNodeTag(s: State, t: State, c: Chain, c': Chain, data: nat, list: nat, i: nat)
    requires Appended(s, t, c, c', data, list) && i < |c'|
    requires data !in s.own && (|c'| > |c| ==> list !in s.own)
    requires i < |c| ==> c[i].blk in s.own && s.own[c[i].blk] == ListOf(c[0].blk, i)
    ensures c'[i].blk in t.own && t.own[c'[i].blk] == ListOf(c'[0].blk, i)
  {
    hide AppendedDisk, Blocks, ClearBits;
    if i < |c| {
      assert c'[i].blk == c[i].blk;
    }
  }

  lemma AppendedData(s: State, t: State, c: Chain, c': Chain, data: nat, list: nat)
    requires Appended(s, t, c, c', data, list)
    requires data !in s.own && (|c'| > |c| ==> list !in s.own)
    requires c != [] ==> DataOk(s.own, c[0].blk, Blocks(c))
    ensures DataOk(t.own, c'[0].blk, Blocks(c'))
  {
    hide AppendedDisk, NodeOnDisk, Blocks;
    var bl, bl' := Blocks(c), Blocks(c');
    assert c == [] ==> bl == [] by { NoBlocks(c); }
    assert bl' == bl + [data];
    var r := c'[0].blk;
    forall j | 0 <= j < |bl'|
      ensures bl'[j] in t.own && t.own[bl'[j]] == DataOf(r, j)
    {
      if j < |bl| {
        assert bl'[j] == bl[j] && bl[j] in s.own && s.own[bl[j]] == DataOf(r, j);
      }
    }
  }

  /** The tag of a block that was owned is not changed by growth elsewhere. */
  lemma AppendedOthers(s: State, t: State, c: Chain, c': Chain, data: nat, list: nat, q: nat)
    requires Appended(s, t, c, c', data, list)
    requires data !in s.own && (|c'| > |c| ==> list !in s.own)
    requires StreamOk(t.disk, t.own, c'[0].blk, c')
    requires q in s.streams && q != c'[0].blk
    requires StreamOk(s.disk, s.own, q, s.streams[q])
    ensures StreamOk(t.disk, t.own, q, s.streams[q])
  {
    hide NodeOnDisk, Blocks, ClearBits, NewTags;
    forall b | b in s.own && (s.own[b].ListOf? || s.own[b].DataOf?) && s.own[b].root == q
      ensures b in t.own && t.own[b] == s.own[b]
      ensures b < |s.disk| && s.own[b].ListOf? ==> t.disk[b] == s.disk[b]
    {
      AppendedKeepsTag(s, t, c, c', data, list, b);
      if b < |s.disk| && s.own[b].ListOf? {
        assert forall i :: 0 <= i < |c'| ==> Lists(c')[i] != b;
      }
    }
    StreamFrame(s.disk, t.disk, s.own, t.own, q, s.streams[q]);
  }

  lemma AppendedKeepsTag(s: State, t: State, c: Chain, c': Chain, data: nat, list: nat, b: nat)
    requires Appended(s, t, c, c', data, list)
    requires data !in s.own && (|c'| > |c| ==> list !in s.own)
    requires b in s.own
    ensures b in t.own && t.own[b] == s.own[b]
  {
    hide AppendedDisk, Blocks, ClearBits;
  }

  lemma AppendedBacked(s: State, t: State, c: Chain, c': Chain, data: nat, list: nat, b: nat)
    requires Appended(s, t, c, c', data, list) && Growable(s, c)
    requires c == [] ==> c'[0].blk == list && list !in s.streams
    requires data !in s.own && (|c'| > |c| ==> list !in s.own)
    requires b in t.own && (b in s.own ==> Backed(s.streams, b, s.own[b]))
    ensures Backed(t.streams, b, t.own[b])
  {
    hide AppendedDisk, NodeOnDisk, Blocks;
  }

  /** One step of growth keeps the invariant. */
  lemma AppendKeepsInv(s: State, t: State, c: Chain, c': Chain, data: nat, list: nat)
    requires Inv(s) && Appended(s, t, c, c', data, list) && Growable(s, c)
    ensures Inv(t)
  {
    hide NodeOnDisk, Blocks, NodesOk, DataOk, Backed, Growable;
    AppendedNewRoot(s, t, c, c', data, list);
    AppendedNodes(s, t, c, c', data, list);
    AppendedData(s, t, c, c', data, list);
    forall q | q in t.streams
      ensures StreamOk(t.disk, t.own, q, t.streams[q])
    {
      if q != c'[0].blk {
        AppendedOthers(s, t, c, c', data, list, q);
      }
    }
    forall b | b in t.own
      ensures Backed(t.streams, b, t.own[b])
    {
      AppendedBacked(s, t, c, c', data, list, b);
    }
    AppendedTagged(s, t, c, c', data, list);
  }

  lemma AppendedTagged(s: State, t: State, c: Chain, c': Chain, data: nat, list: nat)
    requires Tagged(s) && Shape(s) && Appended(s, t, c, c', data, list)
    ensures Tagged(t) && Shape(t)
  {
    hide NodeOnDisk, Blocks, ClearBits, Addressable, Tagged;
    var tags := NewTags(c, c', data);
    assert tags.Keys == if |c'| > |c| then {data, list} else {data};
    MoreTags(s, t, tags);
  }

  /** Handing out free blocks under non-metadata tags keeps bitmap and tags in step. */
  lemma MoreTags(s: State, t: State, tags: map<nat, Owner>)
    requires Tagged(s) && t.first == s.first && |t.used| == |s.used|
    requires forall b :: b in tags ==> b < |s.used| && !s.used[b] && tags[b] != Meta
    requires forall b :: 0 <= b < |s.used| ==> (t.used[b] <==> s.used[b] || b in tags)
    requires t.own == s.own + tags
    ensures Tagged(t)
  {
  }

  // ----------------------------------------------------------------------------------
  // The disk writes of each way of growing a chain

  lemma BlockNumbersFit(s: State)
    requires Shape(s)
    ensures Sized(s.disk, s.bs)
  {
    assert |s.disk| * s.bs >= |s.disk| * 2;
  }

  ghost predicate Sized(disk: Disk, bs: nat) {
    LIST_HEADER_SIZE + EXTENT_SIZE <= bs && |disk| < U64_LIMIT &&
    forall b :: 0 <= b < |disk| ==> |disk[b]| == bs
  }

  lemma LengthenOnDisk(disk: Disk, disk': Disk, bs: nat, own: map<nat, Owner>, r: nat, c: Chain, data: nat, list: nat)
    requires Sized(disk, bs) && |c| > 0 && NodesOk(disk, own, r, c) && data < |disk|
    requires CanLengthen(c[|c| - 1], data)
    requires var n := c[|c| - 1];
             var i := |n.extents| - 1;
             LIST_HEADER_SIZE + EXTENT_SIZE * i + EXTENT_SIZE <= bs &&
             disk' == disk[n.blk := Put(disk[n.blk], LIST_HEADER_SIZE + EXTENT_SIZE * i,
                                        ExtentBytes(Extent(n.extents[i].start, n.extents[i].length + 1)))]
    ensures AppendedDisk(disk, disk', bs, AppendBlock(c, data, list, bs))
  {
    var n := c[|c| - 1];
    var e := n.extents[|n.extents| - 1];
    var c' := AppendBlock(c, data, list, bs);
    RewriteSlot(disk[n.blk], disk'[n.blk], n.extents, 0, |n.extents| - 1, Extent(e.start, e.length + 1));
    LastNodeReplaced(disk, disk', bs, own, r, c, c');
  }

  lemma AddSlotOnDisk(disk: Disk, disk': Disk, bs: nat, own: map<nat, Owner>, r: nat, c: Chain, data: nat, list: nat)
    requires Sized(disk, bs) && |c| > 0 && NodesOk(disk, own, r, c) && data < |disk|
    requires !CanLengthen(c[|c| - 1], data) && HasRoom(c[|c| - 1], bs)
    requires var n := c[|c| - 1];
             var i := |n.extents|;
             disk' == disk[n.blk := Put(Put(disk[n.blk], LIST_HEADER_SIZE + EXTENT_SIZE * i, ExtentBytes(Extent(data, 1))),
                                        0, HeaderBytes(i + 1, 0))]
    ensures AppendedDisk(disk, disk', bs, AppendBlock(c, data, list, bs))
  {
    hide Dec, Enc, Field, Put, HeaderBytes, ExtentBytes;
    var n := c[|c| - 1];
    var i := |n.extents|;
    var b := disk[n.blk];
    var b1 := Put(b, LIST_HEADER_SIZE + EXTENT_SIZE * i, ExtentBytes(Extent(data, 1)));
    WriteSlot(b, b1, disk'[n.blk], n.extents, 0, i, Extent(data, 1), 0);
    hide NodeOnDisk;
    LastNodeReplaced(disk, disk', bs, own, r, c, AppendBlock(c, data, list, bs));
  }

  lemma LastNodeReplaced(disk: Disk, disk': Disk, bs: nat, own: map<nat, Owner>, r: nat, c: Chain, c': Chain)
    requires Sized(disk, bs) && |c| > 0 && NodesOk(disk, own, r, c)
    requires |c'| == |c| && c'[..|c| - 1] == c[..|c| - 1] && c'[|c| - 1].blk == c[|c| - 1].blk
    requires var n := c'[|c| - 1];
             |disk'| == |disk| && n.blk < |disk| && |disk'[n.blk]| == bs &&
             disk' == disk[n.blk := disk'[n.blk]] && NodeOnDisk(disk'[n.blk], n.extents, 0)
    ensures AppendedDisk(disk, disk', bs, c')
  {
    hide NodeOnDisk;
    var n := c'[|c| - 1];
    assert Lists(c')[|c| - 1] == n.blk;
    forall i | 0 <= i < |c'|
      ensures c'[i].blk < |disk| && NodeOnDisk(disk'[c'[i].blk], c'[i].extents, Next(c', i))
    {
      if i < |c| - 1 {
        assert c'[i] == c'[..|c| - 1][i] == c[i];
        assert own[c[i].blk] == ListOf(r, i) && own[c[|c| - 1].blk] == ListOf(r, |c| - 1);
        assert Next(c', i) == Next(c, i) by {
          if i + 1 < |c| - 1 { assert c'[i + 1] == c'[..|c| - 1][i + 1] == c[i + 1]; }
        }
      }
    }
  }

  /** Writing a complete new list block. */
  function NewNodeBytes(b: seq<Byte>, data: nat): (r: seq<Byte>)
    requires LIST_HEADER_SIZE + EXTENT_SIZE <= |b|
    ensures |r| == |b|
  {
    Put(Put(b, 0, HeaderBytes(1, 0)), LIST_HEADER_SIZE, ExtentBytes(Extent(data, 1)))
  }

  lemma FirstNodeOnDisk(disk: Disk, disk': Disk, bs: nat, data: nat, list: nat)
    requires Sized(disk, bs) && data < |disk| && list < |disk|
    requires disk' == disk[list := NewNodeBytes(disk[list], data)]
    ensures AppendedDisk(disk, disk', bs, AppendBlock([], data, list, bs))
  {
    hide Dec, Enc, Field, Put, HeaderBytes, ExtentBytes;
    FreshNode(disk[list], Put(disk[list], 0, HeaderBytes(1, 0)), disk'[list], Extent(data, 1));
    hide NodeOnDisk;
    assert Lists(AppendBlock([], data, list, bs))[0] == list;
  }

  lemma NewNodeOnDisk(disk: Disk, disk': Disk, bs: nat, own: map<nat, Owner>, r: nat, c: Chain, data: nat, list: nat)
    requires Sized(disk, bs) && |c| > 0 && NodesOk(disk, own, r, c) && data < |disk|
    requires list < |disk| && list !in own
    requires !CanLengthen(c[|c| - 1], data) && !HasRoom(c[|c| - 1], bs)
    requires var n := c[|c| - 1];
             n.blk < |disk| &&
             disk' == disk[list := NewNodeBytes(disk[list], data)]
                          [n.blk := Put(disk[n.blk], 0, HeaderBytes(|n.extents|, list))]
    ensures AppendedDisk(disk, disk', bs, AppendBlock(c, data, list, bs))
  {
    hide Dec, Put;
    var n := c[|c| - 1];
    var c' := AppendBlock(c, data, list, bs);
    assert n.blk in own && list != n.blk;
    NewNodes(disk, disk', bs, n, data, list);
    hide NodeOnDisk, NewNodeBytes;
    assert Lists(c')[|c|] == list && Lists(c')[|c| - 1] == n.blk;
    forall i | 0 <= i < |c'|
      ensures c'[i].blk < |disk| && NodeOnDisk(disk'[c'[i].blk], c'[i].extents, Next(c', i))
    {
      if i < |c| - 1 {
        assert own[c[i].blk] == ListOf(r, i) && own[c[|c| - 1].blk] == ListOf(r, |c| - 1);
        assert c'[i] == c[i] && Next(c', i) == Next(c, i);
      }
    }
  }

  lemma NewNodes(disk: Disk, disk': Disk, bs: nat, n: Node, data: nat, list: nat)
    requires Sized(disk, bs) && data < |disk| && list < |disk| && n.blk < |disk| && list != n.blk
    requires NodeOnDisk(disk[n.blk], n.extents, 0)
    requires disk' == disk[list := NewNodeBytes(disk[list], data)]
                          [n.blk := Put(disk[n.blk], 0, HeaderBytes(|n.extents|, list))]
    ensures NodeOnDisk(disk'[list], [Extent(data, 1)], 0) && NodeOnDisk(disk'[n.blk], n.extents, list)
  {
    hide Dec;
    FreshNode(disk[list], Put(disk[list], 0, HeaderBytes(1, 0)), disk'[list], Extent(data, 1));
    Relink(disk[n.blk], disk'[n.blk], n.extents, 0, list);
  }

  // ----------------------------------------------------------------------------------
  // What clients of the streams see

  /** Every stream's bytes, by its root block. */
  ghost function Contents(s: State): (m: map<nat, seq<Byte>>)
    ensures m.Keys == s.streams.Keys
  {
    map r | r in s.streams :: Content(s.disk, s.bs, Blocks(s.streams[r]))
  }

  /** The bytes of the blocks handed out one at a time. */
  ghost function Singles(s: State): map<nat, seq<Byte>> {
    map b | b in s.own && s.own[b] == Single && b < |s.disk| :: s.disk[b]
  }

  /** The bytes of stream `r`; the null block number stands for the empty stream. */
  ghost function BytesOf(m: map<nat, seq<Byte>>, r: nat): seq<Byte> {
    if r in m then m[r] else []
  }

  /** When two states agree on the tags and bytes of everything that is not a list block,
      all streams with the same blocks read the same. */
  lemma SameBytes(s: State, t: State, r: nat)
    requires Inv(s) && r in s.streams && t.bs == s.bs && |t.disk| == |s.disk|
    requires forall b :: b in s.own && s.own[b].DataOf? && s.own[b].root == r && b < |s.disk| ==> t.disk[b] == s.disk[b]
    ensures Content(t.disk, t.bs, Blocks(s.streams[r])) == Content(s.disk, s.bs, Blocks(s.streams[r]))
  {
    hide NodeOnDisk, Blocks, Content, Inv;
    var bl := Blocks(s.streams[r]);
    forall j | 0 <= j < |bl|
      ensures bl[j] < |s.disk| && t.disk[bl[j]] == s.disk[bl[j]]
    {
      DataTag(s, r, j);
    }
    StreamFact(s, r);
    ContentFrame(s.disk, t.disk, s.bs, Blocks(s.streams[r]));
  }

  /** Growth writes list blocks only. */
  lemma AppendedKeepsData(s: State, t: State, c: Chain, c': Chain, data: nat, list: nat, b: nat)
    requires Appended(s, t, c, c', data, list) && NodesOk(t.disk, t.own, c'[0].blk, c')
    requires data !in s.own && (|c'| > |c| ==> list !in s.own)
    requires b in s.own && !s.own[b].ListOf? && b < |s.disk|
    ensures t.disk[b] == s.disk[b]
  {
    hide NodeOnDisk, Blocks, ClearBits;
    assert t.own[b] == s.own[b];
    assert forall i :: 0 <= i < |c'| ==> Lists(c')[i] != b;
  }

  /** Seen from outside, growth adds one block of bytes at the end of one stream. */
  lemma AppendedContents(s: State, t: State, c: Chain, c': Chain, data: nat, list: nat)
    requires s.bs > 0 && t.bs == s.bs
    requires Inv(s) && Inv(t) && Appended(s, t, c, c', data, list) && Growable(s, c)
    ensures c'[0].blk in t.streams
    ensures Contents(t) == Contents(s)[c'[0].blk := Content(t.disk, t.bs, Blocks(c'))]
    ensures var before := if c == [] then [] else Content(s.disk, s.bs, Blocks(c));
            var after := Content(t.disk, t.bs, Blocks(c'));
            before <= after && |after| == |before| + s.bs
    ensures Singles(t) == Singles(s)
  {
    hide NodeOnDisk, Blocks, ClearBits, Content, NewTags, Inv, AppendedDisk, Singles;
    AppendedNewRoot(s, t, c, c', data, list);
    StreamFact(t, c'[0].blk);
    assert |s.disk| == |t.disk| by { AppendedSize(s, t, c, c', data, list); }
    forall b | b in s.own && !s.own[b].ListOf? && b < |s.disk|
      ensures t.disk[b] == s.disk[b]
    {
      AppendedKeepsData(s, t, c, c', data, list, b);
    }
    forall q | q in s.streams
      ensures Content(t.disk, t.bs, Blocks(s.streams[q])) == Content(s.disk, s.bs, Blocks(s.streams[q]))
    {
      SameBytes(s, t, q);
    }
    AppendedLength(s, t, c, c', data, list);
    AppendedSingles(s, t, c, c', data, list);
  }

  lemma AppendedSize(s: State, t: State, c: Chain, c': Chain, data: nat, list: nat)
    requires Appended(s, t, c, c', data, list)
    ensures |s.disk| == |t.disk|
  {
    hide GrowsTo, AppendedTags, NodeOnDisk;
  }

  lemma AppendedLength(s: State, t: State, c: Chain, c': Chain, data: nat, list: nat)
    requires GrowsTo(c, c', data, list) && t.bs == s.bs > 0
    requires c != [] ==> Content(t.disk, t.bs, Blocks(c)) == Content(s.disk, s.bs, Blocks(c))
    ensures var before := if c == [] then [] else Content(s.disk, s.bs, Blocks(c));
            var after := Content(t.disk, t.bs, Blocks(c'));
            before <= after && |after| == |before| + s.bs
  {
    hide Blocks, Content;
    NoBlocks(c);
    ContentAppend(t.disk, t.bs, Blocks(c), [data]);
    assert |Blocks(c')| * t.bs == |Blocks(c)| * t.bs + t.bs;
  }

  lemma AppendedSingles(s: State, t: State, c: Chain, c': Chain, data: nat, list: nat)
    requires Appended(s, t, c, c', data, list)
    requires data !in s.own && (|c'| > |c| ==> list !in s.own)
    requires forall b :: b in s.own && !s.own[b].ListOf? && b < |s.disk| ==> t.disk[b] == s.disk[b]
    ensures Singles(t) == Singles(s)
  {
    hide NodeOnDisk, Blocks, ClearBits;
    assert |s.disk| == |t.disk|;
    var m := NewTags(c, c', data);
    TagsSplit(s.own, m, t.own);
  }

  lemma TagsSplit(own: map<nat, Owner>, m: map<nat, Owner>, own': map<nat, Owner>)
    requires own' == own + m
    requires forall b :: b in m ==> m[b] != Single && b !in own
    ensures forall b :: (b in own' && own'[b] == Single) <==> (b in own && own[b] == Single)
  {
  }

  /** `t` is `s` with stream `root` (or a new stream) longer by one block. */
  ghost predicate Grown(s: State, t: State, root: nat, root': nat) {
    s.bs > 0 && t.bs == s.bs && t.first == s.first && |t.disk| == |s.disk| &&
    root' in t.streams && (root != 0 ==> root' == root) && (root == 0 ==> root' !in s.streams) &&
    Contents(t) == Contents(s)[root' := Contents(t)[root']] &&
    BytesOf(Contents(s), root) <= Contents(t)[root'] &&
    |Contents(t)[root']| == |BytesOf(Contents(s), root)| + s.bs &&
    Singles(t) == Singles(s)
  }

  lemma AppendedGrown(s: State, t: State, root: nat, c: Chain, c': Chain, data: nat, list: nat)
    requires Inv(s) && Inv(t) && Appended(s, t, c, c', data, list) && Growable(s, c)
    requires root == 0 || root in s.streams
    requires c == ChainAt(s.streams, root)
    ensures Grown(s, t, root, c'[0].blk)
  {
    hide Blocks, NodeOnDisk, AppendedDisk, Content, ClearBits, NewTags, Inv, Singles;
    AppendedNewRoot(s, t, c, c', data, list);
    if root in s.streams { StreamFact(s, root); }
    NoNullStream(s);
    assert s.bs > 0 by { Blocksize(s); }
    AppendedSize(s, t, c, c', data, list);
    AppendedContents(s, t, c, c', data, list);
  }

  /** At most stream `root` (or the new stream `root'` in its place) differs. */
  ghost predicate Touched(s: State, t: State, root: nat, root': nat) {
    s.bs > 0 && t.bs == s.bs && t.first == s.first && |t.disk| == |s.disk| &&
    (root != 0 ==> root' == root) && (root == 0 && root' != 0 ==> root' !in s.streams) &&
    (root' == 0 || root' in t.streams) &&
    Contents(t) == (if root' == 0 then Contents(s) else Contents(s)[root' := BytesOf(Contents(t), root')]) &&
    Singles(t) == Singles(s)
  }

  /** Only bytes on disk differ: bitmap, owners and chains are the same. */
  ghost predicate SameAlloc(s: State, t: State) {
    t == s.(disk := t.disk)
  }

  /** Blocks were taken, lowest first, for something new: every stream that was there has its
      chain, and the last free block, if one is left, is the same. */
  ghost predicate Beside(s: State, t: State) {
    (forall r :: r in s.streams ==> r in t.streams && t.streams[r] == s.streams[r]) && LastKept(s.used, t.used)
  }

  lemma BesideTwice(s: State, t: State, u: State)
    requires Beside(s, t) && Beside(t, u) && ClearBits(u.used) <= ClearBits(t.used)
    ensures Beside(s, u)
  {
    hide ClearBits, LastClear;
  }

  /** Stream `root` has at most been made longer. */
  ghost predicate Extended(s: State, t: State, root: nat, root': nat) {
    Touched(s, t, root, root') && BytesOf(Contents(s), root) <= BytesOf(Contents(t), root')
  }

  lemma ExtendedNone(s: State, root: nat)
    requires Inv(s) && (root == 0 || root in s.streams)
    ensures Extended(s, s, root, root)
  {
    hide Inv, Content;
    NoNullStream(s);
    Blocksize(s);
  }

  lemma ExtendedMore(s: State, t: State, u: State, root: nat, root': nat, root'': nat)
    requires Inv(s) && Inv(u) && Extended(s, t, root, root') && Grown(t, u, root', root'')
    ensures Extended(s, u, root, root'')
  {
    hide Inv, Singles, Contents;
    NoNullStream(s);
    NoNullStream(u);
    InContents(u, root'');
    if root' == 0 {
      SameStreams(s, t);
    } else {
      UpdateTwice(Contents(s), root', BytesOf(Contents(t), root'), BytesOf(Contents(u), root'));
    }
  }

  lemma ContentLength(s: State, root: nat)
    requires Inv(s) && s.bs > 0 && (root == 0 || root in s.streams)
    ensures |BytesOf(Contents(s), root)| == |Blocks(ChainAt(s.streams, root))| * s.bs
  {
    hide Inv, Blocks, Content;
    NoNullStream(s);
    NoBlocks(ChainAt(s.streams, root));
  }

  lemma Blocksize(s: State)
    requires Inv(s)
    ensures s.bs >= 512 && s.bs % 8 == 0 && s.free >= 0
  {
    hide StreamOk, Backed, Tagged;
  }

  lemma TouchedTwice(s: State, t: State, u: State, r0: nat, r1: nat, r2: nat)
    requires Touched(s, t, r0, r1) && Touched(t, u, r1, r2)
    ensures Touched(s, u, r0, r2)
  {
    hide Singles, Contents, BytesOf;
    if r1 == 0 {
      SameStreams(s, t);
    } else {
      UpdateTwice(Contents(s), r1, BytesOf(Contents(t), r1), BytesOf(Contents(u), r1));
    }
  }

  lemma InContents(s: State, root: nat)
    requires root in s.streams
    ensures root in Contents(s) && BytesOf(Contents(s), root) == Contents(s)[root]
  {
  }

  lemma SameStreams(s: State, t: State)
    requires s.bs > 0 && t.bs > 0 && Contents(t) == Contents(s)
    ensures t.streams.Keys == s.streams.Keys
  {
    hide Content;
    assert Contents(t).Keys == t.streams.Keys;
    assert Contents(s).Keys == s.streams.Keys;
  }

  lemma UpdateTwice<K, V>(m: map<K, V>, k: K, x: V, y: V)
    ensures m[k := x][k := y] == m[k := y]
  {
  }

  /** A block is used exactly when it is metadata, a block on its own, or a list or data
      block of some stream. */
  ghost predicate Owned(s: State, b: nat) {
    b < s.first || b in Singles(s) || exists r :: r in s.streams && (b in Lists(s.streams[r]) || b in Blocks(s.streams[r]))
  }

  lemma Ledger(s: State, b: nat)
    requires Inv(s) && b < |s.used|
    ensures s.used[b] <==> Owned(s, b)
    ensures s.free == ClearBits(s.used)
  {
    hide NodeOnDisk, Blocks, Contents, Inv;
    UsedTag(s, b);
    if s.used[b] {
      TagPlace(s, b);
      match s.own[b]
      case ListOf(r, i) => assert Lists(s.streams[r])[i] == b;
      case DataOf(r, j) => assert Blocks(s.streams[r])[j] == b;
      case Meta =>
      case Single =>
    }
    if r :| r in s.streams && b in Lists(s.streams[r]) {
      var i :| 0 <= i < |s.streams[r]| && Lists(s.streams[r])[i] == b;
      ListTag(s, r, i);
    }
    if r :| r in s.streams && b in Blocks(s.streams[r]) {
      var j :| 0 <= j < |Blocks(s.streams[r])| && Blocks(s.streams[r])[j] == b;
      DataTag(s, r, j);
    }
  }

  lemma UsedTag(s: State, b: nat)
    requires Inv(s) && b < |s.used|
    ensures s.used[b] <==> b in s.own
    ensures b in s.own ==> (s.own[b] == Meta <==> b < s.first)
    ensures b < s.first ==> b in s.own
    ensures |s.disk| == |s.used| && s.free == ClearBits(s.used)
  {
    hide StreamOk, Backed;
  }

  /** Distinct blocks, none of them block 0: a stream is shorter than the volume, so every
      offset in it fits 64 bits. */
  lemma StreamFits(s: State, r: nat)
    requires Inv(s) && r in s.streams
    ensures |Contents(s)[r]| < U64_LIMIT && |Contents(s)[r]| % 8 == 0
  {
    hide Inv, Blocks, Content, NodeOnDisk;
    var bl := Blocks(s.streams[r]);
    Blocksize(s);
    forall i | 0 <= i < |bl|
      ensures bl[i] in s.own && s.own[bl[i]] == DataOf(r, i) && 0 < bl[i] < |s.disk|
    {
      DataTag(s, r, i);
      ZeroIsMeta(s);
    }
    VolumeBound(s);
    DistinctBelow(bl, |s.disk|);
    ProductBound(|bl|, |s.disk|, s.bs);
  }

  lemma ZeroIsMeta(s: State)
    requires Inv(s)
    ensures 0 in s.own && s.own[0] == Meta
  {
    hide StreamOk, Backed;
  }

  lemma VolumeBound(s: State)
    requires Inv(s)
    ensures |s.disk| > 0 && |s.disk| * s.bs <= U64_LIMIT
  {
    hide StreamOk, Backed, Tagged;
  }

  lemma ProductBound(a: nat, b: nat, bs: nat)
    requires a < b && bs > 0 && bs % 8 == 0 && b * bs <= U64_LIMIT
    ensures a * bs < U64_LIMIT && (a * bs) % 8 == 0
  {
    MultipleOf(a, bs);
    TimesLess(a, b, bs);
  }

  lemma {:induction false} MultipleOf(a: nat, bs: nat)
    requires bs % 8 == 0
    ensures (a * bs) % 8 == 0
  {
    if a > 0 {
      MultipleOf(a - 1, bs);
      SumMultiple((a - 1) * bs, bs);
      assert a * bs == (a - 1) * bs + bs;
    }
  }

  lemma SumMultiple(p: nat, q: nat)
    requires p % 8 == 0 && q % 8 == 0
    ensures (p + q) % 8 == 0
  {
  }

  lemma {:induction false} TimesLess(a: nat, b: nat, bs: nat)
    requires a < b && bs > 0
    ensures a * bs < b * bs
  {
    if a > 0 {
      TimesLess(a - 1, b - 1, bs);
      assert a * bs == (a - 1) * bs + bs && b * bs == (b - 1) * bs + bs;
    } else {
      assert b * bs > 0;
    }
  }

  // ----------------------------------------------------------------------------------
  // Writing inside a stream

  /** Overwriting part of data block `q` of stream `r`. */
  ghost predicate Overwritten(s: State, t: State, r: nat, q: nat, intra: nat, data: seq<Byte>) {
    r in s.streams && q < |Blocks(s.streams[r])| &&
    var b := Blocks(s.streams[r])[q];
    b < |s.disk| && intra + |data| <= |s.disk[b]| &&
    t == s.(disk := s.disk[b := Put(s.disk[b], intra, data)])
  }

  lemma OverwriteKeepsInv(s: State, t: State, r: nat, q: nat, intra: nat, data: seq<Byte>)
    requires Inv(s) && Overwritten(s, t, r, q, intra, data)
    ensures Inv(t)
  {
    hide NodeOnDisk, Blocks, ClearBits, Backed;
    var b := Blocks(s.streams[r])[q];
    assert StreamOk(s.disk, s.own, r, s.streams[r]);
    assert s.own[b] == DataOf(r, q);
    forall p | p in t.streams
      ensures StreamOk(t.disk, t.own, p, t.streams[p])
    {
      StreamFrame(s.disk, t.disk, s.own, t.own, p, s.streams[p]);
    }
  }

  lemma OverwriteContents(s: State, t: State, r: nat, q: nat, intra: nat, data: seq<Byte>, before: seq<Byte>, off: nat)
    requires s.bs > 0 && t.bs == s.bs
    requires r in s.streams && before == Content(s.disk, s.bs, Blocks(s.streams[r]))
    requires off == q * s.bs + intra && off + |data| <= |before|
    requires Inv(s) && Overwritten(s, t, r, q, intra, data)
    ensures Contents(t) == Contents(s)[r := Put(before, off, data)]
    ensures Singles(t) == Singles(s)
  {
    hide NodeOnDisk, Blocks, ClearBits, Content, Backed, Put, Inv;
    var bl := Blocks(s.streams[r]);
    DataTag(s, r, q);
    forall j | 0 <= j < |bl|
      ensures bl[j] < |s.disk| && |s.disk[bl[j]]| == s.bs && (j != q ==> bl[j] != bl[q])
    {
      DataTag(s, r, j);
    }
    ContentPut(s.disk, s.bs, bl, q, intra, data);
    forall p | p in s.streams && p != r
      ensures Content(t.disk, t.bs, Blocks(s.streams[p])) == Content(s.disk, s.bs, Blocks(s.streams[p]))
    {
      SameBytes(s, t, p);
    }
  }

  // ----------------------------------------------------------------------------------
  // Freeing a stream

  /** The blocks of stream `r` freed once `i` list blocks and `j` data blocks are gone. */
  ghost predicate Freed(own: map<nat, Owner>, b: nat, r: nat, i: nat, j: nat) {
    b in own && match own[b] {
      case ListOf(r', k) => r' == r && k < i
      case DataOf(r', k) => r' == r && k < j
      case _ => false
    }
  }

  /** The bitmap part way through freeing stream `r`: exactly the blocks freed so far
      have changed, from used to free. */
  ghost predicate PartlyFreed(s: State, used: seq<bool>, free: int, r: nat, i: nat, j: nat) {
    |used| == |s.used| && free == ClearBits(used) && free == s.free + i + j &&
    forall b :: 0 <= b < |used| ==> (used[b] <==> s.used[b] && !Freed(s.own, b, r, i, j))
  }

  lemma FreeData(s: State, used: seq<bool>, r: nat, i: nat, j: nat)
    requires Inv(s) && r in s.streams && j < |Blocks(s.streams[r])|
    requires PartlyFreed(s, used, ClearBits(used), r, i, j)
    ensures var b := Blocks(s.streams[r])[j];
            b < |used| && used[b] && PartlyFreed(s, used[b := false], ClearBits(used) + 1, r, i, j + 1)
  {
    hide NodeOnDisk, Blocks, ClearBits, Inv;
    var b := Blocks(s.streams[r])[j];
    DataTag(s, r, j);
    ClearBitsUpdate(used, b, false);
    var used' := used[b := false];
    forall x | 0 <= x < |used'|
      ensures used'[x] <==> s.used[x] && !Freed(s.own, x, r, i, j + 1)
    {
      if x in s.own && s.own[x] == DataOf(r, j) {
        TagPlace(s, x);
      }
    }
  }

  lemma FreeList(s: State, used: seq<bool>, r: nat, i: nat, j: nat)
    requires Inv(s) && r in s.streams && i < |s.streams[r]|
    requires PartlyFreed(s, used, ClearBits(used), r, i, j)
    ensures var b := s.streams[r][i].blk;
            b < |used| && used[b] && PartlyFreed(s, used[b := false], ClearBits(used) + 1, r, i + 1, j)
  {
    hide NodeOnDisk, Blocks, ClearBits, Inv;
    var b := s.streams[r][i].blk;
    ListTag(s, r, i);
    ClearBitsUpdate(used, b, false);
    var used' := used[b := false];
    forall x | 0 <= x < |used'|
      ensures used'[x] <==> s.used[x] && !Freed(s.own, x, r, i + 1, j)
    {
      if x in s.own && s.own[x] == ListOf(r, i) {
        TagPlace(s, x);
      }
    }
  }

  /** The tags that survive the removal of stream `r`. */
  ghost function Without(own: map<nat, Owner>, r: nat): map<nat, Owner> {
    map b | b in own && !((own[b].ListOf? || own[b].DataOf?) && own[b].root == r) :: own[b]
  }

  ghost predicate Removed(s: State, t: State, r: nat) {
    r in s.streams &&
    PartlyFreed(s, t.used, t.free, r, |s.streams[r]|, |Blocks(s.streams[r])|) &&
    t == s.(used := t.used, free := t.free, own := Without(s.own, r), streams := s.streams - {r})
  }

  /** Freeing a whole stream keeps the invariant, and no other stream notices. */
  lemma RemoveKeepsInv(s: State, t: State, r: nat)
    requires Inv(s) && Removed(s, t, r)
    ensures Inv(t)
  {
    hide NodeOnDisk, Blocks, ClearBits;
    forall p | p in t.streams
      ensures StreamOk(t.disk, t.own, p, t.streams[p])
    {
      StreamFrame(s.disk, t.disk, s.own, t.own, p, s.streams[p]);
    }
    forall b | b in t.own
      ensures Backed(t.streams, b, t.own[b])
    {
      assert Backed(s.streams, b, s.own[b]);
    }
    RemovedTags(s, t, r);
  }

  lemma RemoveContents(s: State, t: State, r: nat)
    requires Removed(s, t, r)
    ensures Contents(t) == Contents(s) - {r}
    ensures Singles(t) == Singles(s)
  {
    hide Blocks, Content, PartlyFreed;
  }

  lemma RemovedTags(s: State, t: State, r: nat)
    requires Inv(s) && Removed(s, t, r)
    ensures Tagged(t) && Shape(t)
  {
    hide NodeOnDisk, Blocks, ClearBits, StreamOk, Addressable;
    forall b | b in s.own
      ensures b in t.own <==> !Freed(s.own, b, r, |s.streams[r]|, |Blocks(s.streams[r])|)
    {
      assert Backed(s.streams, b, s.own[b]);
    }
  }

  // ----------------------------------------------------------------------------------
  // Blocks handed out one at a time

  ghost predicate SingleAdded(s: State, t: State, b: nat, bytes: seq<Byte>) {
    b < |s.used| && !s.used[b] && |bytes| == s.bs && |s.disk| == |s.used| &&
    t == s.(used := s.used[b := true], free := t.free, disk := s.disk[b := bytes], own := s.own[b := Single]) &&
    t.free == ClearBits(t.used)
  }

  lemma SingleKeepsInv(s: State, t: State, b: nat, bytes: seq<Byte>)
    requires Inv(s) && SingleAdded(s, t, b, bytes)
    ensures Inv(t)
  {
    hide NodeOnDisk, Blocks, ClearBits, Addressable, Shape, Tagged;
    SingleTags(s, t, b, bytes);
    forall p | p in t.streams
      ensures StreamOk(t.disk, t.own, p, t.streams[p])
    {
      StreamFrame(s.disk, t.disk, s.own, t.own, p, s.streams[p]);
    }
    forall x | x in t.own
      ensures Backed(t.streams, x, t.own[x])
    {
      if x != b { assert Backed(s.streams, x, s.own[x]); }
    }
  }

  lemma SingleTags(s: State, t: State, b: nat, bytes: seq<Byte>)
    requires Shape(s) && Tagged(s) && SingleAdded(s, t, b, bytes)
    ensures Shape(t) && Tagged(t) && b !in s.own
  {
    hide ClearBits, Addressable;
    assert t.own == s.own + map[b := Single];
    MoreTags(s, t, map[b := Single]);
  }

  lemma SingleContents(s: State, t: State, b: nat, bytes: seq<Byte>)
    requires s.bs > 0 && Inv(s) && SingleAdded(s, t, b, bytes)
    ensures Contents(t) == Contents(s)
    ensures Singles(t) == Singles(s)[b := bytes] && b !in Singles(s)
  {
    hide NodeOnDisk, Blocks, ClearBits, Content, Inv;
    if b in s.own { TagPlace(s, b); assert false; }
    forall p | p in s.streams
      ensures Content(t.disk, t.bs, Blocks(s.streams[p])) == Content(s.disk, s.bs, Blocks(s.streams[p]))
    {
      SameBytes(s, t, p);
    }
  }
}
