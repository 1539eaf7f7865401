/** Extent lists: the chained list blocks that name the data blocks of a stream, and
    the meaning of such a chain as a plain sequence of block numbers. */
module Extents {
  import opened Bytes

  const EXTENT_MAGIC: nat := 0x42545845
  const MAX_EXTENTS_PER_BLOCK: nat := 128
  const LIST_HEADER_SIZE: nat := 16
  const EXTENT_SIZE: nat := 16

  datatype Extent = Extent(start: nat, length: nat)

  /** One list block: its own block number and the extents it holds. */
  datatype Node = Node(blk: nat, extents: seq<Extent>)

  type Chain = seq<Node>

  function Run(start: nat, length: nat): (r: seq<nat>)
    ensures |r| == length
    ensures forall k :: 0 <= k < length ==> r[k] == start + k
  {
    seq(length, k requires 0 <= k => start + k)
  }

  /** The blocks a list of extents stands for, in stream order. */
  function Expand(extents: seq<Extent>): seq<nat> {
    if |extents| == 0 then [] else
      Expand(extents[..|extents| - 1]) +
      Run(extents[|extents| - 1].start, extents[|extents| - 1].length)
  }

  /** The data blocks of a whole chain, in stream order. */
  function Blocks(c: Chain): seq<nat> {
    if |c| == 0 then [] else Blocks(c[..|c| - 1]) + Expand(c[|c| - 1].extents)
  }

  /** The block numbers of the list blocks themselves. */
  function Lists(c: Chain): (r: seq<nat>)
    ensures |r| == |c|
    ensures forall i :: 0 <= i < |c| ==> r[i] == c[i].blk
  {
    seq(|c|, i requires 0 <= i < |c| => c[i].blk)
  }

  lemma {:induction false} ExpandPrefix(extents: seq<Extent>, i: nat)
    requires i <= |extents|
    ensures |Expand(extents[..i])| <= |Expand(extents)|
    ensures Expand(extents)[..|Expand(extents[..i])|] == Expand(extents[..i])
    decreases |extents|
  {
    if i == |extents| {
      assert extents[..i] == extents;
    } else {
      var init := extents[..|extents| - 1];
      ExpandPrefix(init, i);
      assert init[..i] == extents[..i];
    }
  }

  lemma {:induction false} BlocksPrefix(c: Chain, i: nat)
    requires i <= |c|
    ensures |Blocks(c[..i])| <= |Blocks(c)|
    ensures Blocks(c)[..|Blocks(c[..i])|] == Blocks(c[..i])
    decreases |c|
  {
    if i == |c| {
      assert c[..i] == c;
    } else {
      var init := c[..|c| - 1];
      BlocksPrefix(init, i);
      assert init[..i] == c[..i];
    }
  }

  /** Where block `k` of extent `j` sits in the expansion of a list block. */
  lemma ExpandAt(es: seq<Extent>, j: nat, k: nat)
    requires j < |es| && k < es[j].length
    ensures var p := |Expand(es[..j])| + k;
            p < |Expand(es)| && Expand(es)[p] == es[j].start + k
  {
    var p := |Expand(es[..j])| + k;
    assert es[..j + 1] == es[..j] + [es[j]];
    ExpandSnoc(es[..j], es[j]);
    ExpandPrefix(es, j + 1);
    assert Expand(es)[..|Expand(es[..j + 1])|][p] == Expand(es)[p];
  }

  /** Where block `p` of list block `i` sits in the whole stream. */
  lemma BlocksAt(c: Chain, i: nat, p: nat)
    requires i < |c| && p < |Expand(c[i].extents)|
    ensures |Blocks(c[..i])| + p < |Blocks(c)|
    ensures Blocks(c)[|Blocks(c[..i])| + p] == Expand(c[i].extents)[p]
  {
    hide Expand;
    var q := |Blocks(c[..i])| + p;
    assert c[..i + 1] == c[..i] + [c[i]];
    BlocksSnoc(c[..i], c[i]);
    BlocksPrefix(c, i + 1);
    assert Blocks(c)[..|Blocks(c[..i + 1])|][q] == Blocks(c)[q];
  }

  /** The three ways of extending a chain by one data block: lengthen the last extent,
      add an extent to the last list block, or chain a new list block. */
  function AppendBlock(c: Chain, data: nat, list: nat, blockSize: nat): Chain {
    if |c| == 0 then [Node(list, [Extent(data, 1)])]
    else
      var n := c[|c| - 1];
      if CanLengthen(n, data) then
        var e := n.extents[|n.extents| - 1];
        c[|c| - 1 := n.(extents := n.extents[|n.extents| - 1 := e.(length := e.length + 1)])]
      else if HasRoom(n, blockSize) then
        c[|c| - 1 := n.(extents := n.extents + [Extent(data, 1)])]
      else c + [Node(list, [Extent(data, 1)])]
  }

  predicate CanLengthen(n: Node, data: nat) {
    |n.extents| > 0 &&
    n.extents[|n.extents| - 1].start + n.extents[|n.extents| - 1].length == data
  }

  predicate HasRoom(n: Node, blockSize: nat) {
    |n.extents| < MAX_EXTENTS_PER_BLOCK &&
    (|n.extents| + 1) * EXTENT_SIZE + LIST_HEADER_SIZE <= blockSize
  }

  /** `c'` is `c` grown by the data block `data`, at the end of the stream, with at most
      one new list block `list`, at the end of the chain. */
  ghost predicate GrowsTo(c: Chain, c': Chain, data: nat, list: nat) {
    |c'| > 0 && |c| <= |c'| <= |c| + 1 &&
    Blocks(c') == Blocks(c) + [data] &&
    (forall i :: 0 <= i < |c| ==> c'[i].blk == c[i].blk) &&
    (|c'| > |c| ==> c'[|c|].blk == list)
  }

  /** Which way is taken: a block right behind the last extent costs no extent; else an extent
      is added as long as 16 bytes of header and 16 for each extent fit the block, and there are
      at most 128; only then a list block. */
  lemma AppendBlockTakes(c: Chain, data: nat, list: nat, blockSize: nat)
    requires |c| > 0
    ensures var n, c' := c[|c| - 1], AppendBlock(c, data, list, blockSize);
            var k := |n.extents|;
            if k > 0 && n.extents[k - 1].start + n.extents[k - 1].length == data then |c'| == |c| && |c'[|c| - 1].extents| == k
            else if k < 128 && 16 + 16 * k + 16 <= blockSize then |c'| == |c| && |c'[|c| - 1].extents| == k + 1
            else |c'| == |c| + 1 && |c'[|c|].extents| == 1
  {
  }

  lemma ExpandNone(es: seq<Extent>)
    ensures es == [] ==> Expand(es) == []
  {
  }

  lemma ExpandSnoc(es: seq<Extent>, e: Extent)
    ensures Expand(es + [e]) == Expand(es) + Run(e.start, e.length)
  {
    assert (es + [e])[..|es|] == es;
  }

  lemma BlocksSnoc(c: Chain, n: Node)
    ensures Blocks(c + [n]) == Blocks(c) + Expand(n.extents)
  {
    assert (c + [n])[..|c|] == c;
  }

  lemma NoBlocks(c: Chain)
    ensures c == [] ==> Blocks(c) == []
  {
  }

  lemma OneBlock(data: nat)
    ensures Expand([Extent(data, 1)]) == [data]
  {
    ExpandSnoc([], Extent(data, 1));
    assert [] + [Extent(data, 1)] == [Extent(data, 1)];
    assert Run(data, 1) == [data];
  }

  lemma Lengthen(es: seq<Extent>, data: nat)
    requires |es| > 0 && es[|es| - 1].start + es[|es| - 1].length == data
    ensures var e := es[|es| - 1];
            Expand(es[|es| - 1 := e.(length := e.length + 1)]) == Expand(es) + [data]
  {
    var e := es[|es| - 1];
    var init := es[..|es| - 1];
    assert es == init + [e];
    assert es[|es| - 1 := e.(length := e.length + 1)] == init + [e.(length := e.length + 1)];
    ExpandSnoc(init, e);
    ExpandSnoc(init, e.(length := e.length + 1));
    assert Run(e.start, e.length + 1) == Run(e.start, e.length) + [data];
  }

  lemma ReplaceLast(c: Chain, n: Node, data: nat)
    requires |c| > 0 && Expand(n.extents) == Expand(c[|c| - 1].extents) + [data]
    ensures Blocks(c[|c| - 1 := n]) == Blocks(c) + [data]
  {
    var init := c[..|c| - 1];
    assert c == init + [c[|c| - 1]];
    assert c[|c| - 1 := n] == init + [n];
    BlocksSnoc(init, c[|c| - 1]);
    BlocksSnoc(init, n);
  }

  /** Whichever way is taken, the stream grows by exactly the new block. */
  lemma AppendBlockGrows(c: Chain, data: nat, list: nat, blockSize: nat)
    ensures GrowsTo(c, AppendBlock(c, data, list, blockSize), data, list)
  {
    hide Blocks, Expand;
    OneBlock(data);
    if |c| == 0 {
      BlocksSnoc(c, Node(list, [Extent(data, 1)]));
      assert c + [Node(list, [Extent(data, 1)])] == [Node(list, [Extent(data, 1)])];
    } else {
      var n := c[|c| - 1];
      if CanLengthen(n, data) {
        var e := n.extents[|n.extents| - 1];
        Lengthen(n.extents, data);
        ReplaceLast(c, n.(extents := n.extents[|n.extents| - 1 := e.(length := e.length + 1)]), data);
      } else if HasRoom(n, blockSize) {
        ExpandSnoc(n.extents, Extent(data, 1));
        assert Run(data, 1) == [data];
        ReplaceLast(c, n.(extents := n.extents + [Extent(data, 1)]), data);
      } else {
        BlocksSnoc(c, Node(list, [Extent(data, 1)]));
      }
    }
  }

  // ----------------------------------------------------------------------------------
  // List blocks on disk

  /** The bytes of block `b` hold these extents and this next pointer. */
  ghost predicate NodeOnDisk(b: seq<Byte>, extents: seq<Extent>, next: nat) {
    |extents| <= MAX_EXTENTS_PER_BLOCK &&
    LIST_HEADER_SIZE + EXTENT_SIZE * |extents| <= |b| &&
    Field(b, 0, 4) == EXTENT_MAGIC &&
    Field(b, 4, 4) == |extents| &&
    Field(b, 8, 8) == next &&
    forall i :: 0 <= i < |extents| ==> ExtentOnDisk(b, i, extents[i])
  }

  ghost predicate ExtentOnDisk(b: seq<Byte>, i: nat, e: Extent) {
    LIST_HEADER_SIZE + EXTENT_SIZE * i + EXTENT_SIZE <= |b| &&
    Field(b, LIST_HEADER_SIZE + EXTENT_SIZE * i, 8) == e.start &&
    Field(b, LIST_HEADER_SIZE + EXTENT_SIZE * i + 8, 8) == e.length
  }

  function HeaderBytes(count: nat, next: nat): (r: seq<Byte>)
    ensures |r| == LIST_HEADER_SIZE
  {
    Enc(EXTENT_MAGIC, 4) + Enc(count, 4) + Enc(next, 8)
  }

  function ExtentBytes(e: Extent): (r: seq<Byte>)
    ensures |r| == EXTENT_SIZE
  {
    Enc(e.start, 8) + Enc(e.length, 8)
  }

  lemma HeaderFields(b: seq<Byte>, count: nat, next: nat)
    requires LIST_HEADER_SIZE <= |b| && b[..LIST_HEADER_SIZE] == HeaderBytes(count, next)
    requires count < U32_LIMIT && next < U64_LIMIT
    ensures Field(b, 0, 4) == EXTENT_MAGIC && Field(b, 4, 4) == count && Field(b, 8, 8) == next
  {
    Widths();
    var h := HeaderBytes(count, next);
    assert b[0..16] == h;
    FieldOfPart(b, 0, h, 0, 4, EXTENT_MAGIC);
    FieldOfPart(b, 0, h, 4, 4, count);
    FieldOfPart(b, 0, h, 8, 8, next);
  }

  lemma ExtentFields(b: seq<Byte>, i: nat, e: Extent)
    requires LIST_HEADER_SIZE + EXTENT_SIZE * i + EXTENT_SIZE <= |b|
    requires b[LIST_HEADER_SIZE + EXTENT_SIZE * i..LIST_HEADER_SIZE + EXTENT_SIZE * i + EXTENT_SIZE] == ExtentBytes(e)
    requires e.start < U64_LIMIT && e.length < U64_LIMIT
    ensures ExtentOnDisk(b, i, e)
  {
    Widths();
    var at := LIST_HEADER_SIZE + EXTENT_SIZE * i;
    FieldOfPart(b, at, ExtentBytes(e), 0, 8, e.start);
    FieldOfPart(b, at, ExtentBytes(e), 8, 8, e.length);
  }

  lemma ExtentFrame(b: seq<Byte>, b': seq<Byte>, i: nat, e: Extent)
    requires |b'| == |b| && ExtentOnDisk(b, i, e)
    requires forall k :: LIST_HEADER_SIZE + EXTENT_SIZE * i <= k < LIST_HEADER_SIZE + EXTENT_SIZE * i + EXTENT_SIZE ==> b'[k] == b[k]
    ensures ExtentOnDisk(b', i, e)
  {
    var at := LIST_HEADER_SIZE + EXTENT_SIZE * i;
    FieldFrame(b, b', at, 8);
    FieldFrame(b, b', at + 8, 8);
  }

  /** Writing slot `i` (an existing slot or the first unused one) and then a header that
      counts it gives the node with that slot replaced or added. */
  lemma WriteSlot(b: seq<Byte>, b1: seq<Byte>, b2: seq<Byte>,
                  extents: seq<Extent>, next: nat, i: nat, e: Extent, next': nat)
    requires NodeOnDisk(b, extents, next) && i <= |extents|
    requires i < MAX_EXTENTS_PER_BLOCK
    requires LIST_HEADER_SIZE + EXTENT_SIZE * i + EXTENT_SIZE <= |b|
    requires b1 == Put(b, LIST_HEADER_SIZE + EXTENT_SIZE * i, ExtentBytes(e))
    requires b2 == Put(b1, 0, HeaderBytes(if i < |extents| then |extents| else i + 1, next'))
    requires e.start < U64_LIMIT && e.length < U64_LIMIT && next' < U64_LIMIT
    ensures NodeOnDisk(b2, if i < |extents| then extents[i := e] else extents + [e], next')
  {
    hide Dec, Enc, Field, Put, HeaderBytes, ExtentBytes;
    var es := if i < |extents| then extents[i := e] else extents + [e];
    assert b2[..LIST_HEADER_SIZE] == b2[0..LIST_HEADER_SIZE];
    HeaderFields(b2, |es|, next');
    forall j | 0 <= j < |es|
      ensures ExtentOnDisk(b2, j, es[j])
    {
      if j == i {
        ExtentFields(b1, i, e);
        ExtentFrame(b1, b2, i, e);
      } else {
        SlotFrame(b, b1, b2, extents, next, i, e, j, |es|, next');
      }
    }
  }

  lemma SlotFrame(b: seq<Byte>, b1: seq<Byte>, b2: seq<Byte>, extents: seq<Extent>, next: nat, i: nat, e: Extent, j: nat, n: nat, next': nat)
    requires NodeOnDisk(b, extents, next) && i < MAX_EXTENTS_PER_BLOCK && j < |extents| && j != i
    requires n < U32_LIMIT && next' < U64_LIMIT && e.start < U64_LIMIT && e.length < U64_LIMIT
    requires LIST_HEADER_SIZE + EXTENT_SIZE * i + EXTENT_SIZE <= |b|
    requires b1 == Put(b, LIST_HEADER_SIZE + EXTENT_SIZE * i, ExtentBytes(e)) && b2 == Put(b1, 0, HeaderBytes(n, next'))
    ensures ExtentOnDisk(b2, j, extents[j])
  {
    hide Dec, Enc, Field, Put, HeaderBytes, ExtentBytes;
    ExtentFrame(b, b1, j, extents[j]);
    ExtentFrame(b1, b2, j, extents[j]);
  }

  /** Rewriting one slot leaves the header alone. */
  lemma RewriteSlot(b: seq<Byte>, b1: seq<Byte>, extents: seq<Extent>, next: nat, i: nat, e: Extent)
    requires NodeOnDisk(b, extents, next) && i < |extents|
    requires b1 == Put(b, LIST_HEADER_SIZE + EXTENT_SIZE * i, ExtentBytes(e))
    requires e.start < U64_LIMIT && e.length < U64_LIMIT
    ensures NodeOnDisk(b1, extents[i := e], next)
  {
    hide Dec, Enc, Field, Put, HeaderBytes, ExtentBytes;
    FieldFrame(b, b1, 0, 4);
    FieldFrame(b, b1, 4, 4);
    FieldFrame(b, b1, 8, 8);
    var es' := extents[i := e];
    forall j | 0 <= j < |es'|
      ensures ExtentOnDisk(b1, j, es'[j])
    {
      if j == i {
        ExtentFields(b1, i, e);
      } else {
        ExtentFrame(b, b1, j, extents[j]);
      }
    }
  }

  /** Rewriting the header with a new next pointer keeps the extents. */
  lemma Relink(b: seq<Byte>, b1: seq<Byte>, extents: seq<Extent>, next: nat, next': nat)
    requires NodeOnDisk(b, extents, next) && next' < U64_LIMIT
    requires b1 == Put(b, 0, HeaderBytes(|extents|, next'))
    ensures NodeOnDisk(b1, extents, next')
  {
    assert b1[..LIST_HEADER_SIZE] == b1[0..LIST_HEADER_SIZE];
    HeaderFields(b1, |extents|, next');
    forall j | 0 <= j < |extents|
      ensures ExtentOnDisk(b1, j, extents[j])
    {
      ExtentFrame(b, b1, j, extents[j]);
    }
  }

  /** A header with count one and one slot make a complete node, whatever the block held. */
  lemma FreshNode(b: seq<Byte>, b1: seq<Byte>, b2: seq<Byte>, e: Extent)
    requires LIST_HEADER_SIZE + EXTENT_SIZE <= |b|
    requires b1 == Put(b, 0, HeaderBytes(1, 0))
    requires b2 == Put(b1, LIST_HEADER_SIZE, ExtentBytes(e))
    requires e.start < U64_LIMIT && e.length < U64_LIMIT
    ensures NodeOnDisk(b2, [e], 0)
  {
    assert b1[..LIST_HEADER_SIZE] == b1[0..LIST_HEADER_SIZE];
    HeaderFields(b1, 1, 0);
    FieldFrame(b1, b2, 0, 4);
    FieldFrame(b1, b2, 4, 4);
    FieldFrame(b1, b2, 8, 8);
    ExtentFields(b2, 0, e);
  }
}
