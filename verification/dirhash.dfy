/** The directory hash table operations, over a byte stream of the volume. */
module DirHash {
  import opened Results
  import opened Bytes
  import opened Streams
  import opened Store
  import opened Counting
  import opened DirTable
  import opened DirBytes

  /** The bytes of the stream at `root`. */
  ghost function At(st: BlockStore, root: nat): seq<Byte>
    reads st
  {
    BytesOf(Contents(st.S()), root)
  }

  /** Stream `root` holds the table `t`. */
  ghost predicate Holds(st: BlockStore, hash: Name -> nat, root: nat, t: Table, free: nat)
    reads st
  {
    st.Valid() && root in st.streams && TableOk(hash, At(st, root), t, free)
  }

  // ----------------------------------------------------------------------------------
  // Reading records

  lemma SliceField(h: seq<Byte>, base: nat, size: nat, off: nat, n: nat)
    requires base + size <= |h| && off + n <= size
    ensures Field(h[base..base + size], off, n) == Field(h, base + off, n)
  {
    var d := h[base..base + size];
    var a, b := d[off..off + n], h[base + off..base + off + n];
    forall k | 0 <= k < n ensures a[k] == b[k] { assert a[k] == d[off + k]; }
    assert a == b;
  }

  /** The fixed part of record `i` of chain `b`, read from its offset. */
  method ReadDirent(st: BlockStore, hash: Name -> nat, root: nat, off: nat,
                    ghost t: Table, ghost free: nat, ghost b: nat, ghost i: nat) returns (de: seq<Byte>)
    requires Holds(st, hash, root, t, free) && b < BUCKETS && |t.chains| == BUCKETS && i < |t.chains[b]|
    requires Descending(t, t.chains[b]) && off == OffAt(t, b, i)
    ensures |de| == DIRENT_SIZE
    ensures var n := t.chains[b][i];
            var r := RecAt(t, b, i);
            Field(de, 0, 8) == r.ino && Field(de, 8, 8) == OffAt(t, b, i + 1) && Field(de, 16, 4) == Hash(hash, n) &&
            Field(de, 20, 2) == |n| && Field(de, 22, 1) == r.kind
    ensures FIRST_RECORD <= off && Bucket(hash, t.chains[b][i]) == b
  {
    hide Inv, Contents, TableOk, Dec, Hash, Bucket;
    ghost var h := At(st, root);
    RecFact(hash, h, t, free, b, i);
    de := st.ReadAt(root, off, DIRENT_SIZE);
    SliceField(h, off, DIRENT_SIZE, 0, 8);
    SliceField(h, off, DIRENT_SIZE, 8, 8);
    SliceField(h, off, DIRENT_SIZE, 16, 4);
    SliceField(h, off, DIRENT_SIZE, 20, 2);
    SliceField(h, off, DIRENT_SIZE, 22, 1);
  }

  /** Does record `i` of chain `b` carry this name? Hash and length are compared first. */
  method Matches(st: BlockStore, hash: Name -> nat, root: nat, off: nat, de: seq<Byte>, name: Name,
                 ghost t: Table, ghost free: nat, ghost b: nat, ghost i: nat) returns (same: bool)
    requires Holds(st, hash, root, t, free) && b < BUCKETS && |t.chains| == BUCKETS && i < |t.chains[b]|
    requires Descending(t, t.chains[b]) && off == OffAt(t, b, i)
    requires |de| == DIRENT_SIZE && Field(de, 16, 4) == Hash(hash, t.chains[b][i]) && Field(de, 20, 2) == |t.chains[b][i]|
    ensures same <==> t.chains[b][i] == name
  {
    hide Inv, Contents, TableOk, Dec, Hash, Bucket;
    if Field(de, 16, 4) == Hash(hash, name) && Field(de, 20, 2) == |name| {
      RecFact(hash, At(st, root), t, free, b, i);
      var bytes := st.ReadAt(root, off + DIRENT_SIZE, |name|);
      same := bytes == name;
    } else {
      same := false;
    }
  }

  /** The stored head of the bucket of `name`. */
  method ReadHead(st: BlockStore, hash: Name -> nat, root: nat, b: nat, ghost t: Table, ghost free: nat) returns (head: nat)
    requires Holds(st, hash, root, t, free) && b < BUCKETS
    ensures |t.chains| == BUCKETS && Descending(t, t.chains[b]) && head == OffAt(t, b, 0)
  {
    hide Inv, Contents, TableOk, Dec;
    HeadFact(hash, At(st, root), t, free, b);
    var bytes := st.ReadAt(root, HEADER_SIZE + 8 * b, 8);
    head := Dec(bytes);
  }

  /** The header, as read before every operation; its magic and bucket count are valid. */
  method ReadHeader(st: BlockStore, hash: Name -> nat, root: nat, ghost t: Table, ghost free: nat) returns (hdr: seq<Byte>)
    requires Holds(st, hash, root, t, free)
    ensures |hdr| == HEADER_SIZE && hdr == At(st, root)[..HEADER_SIZE] && FIRST_RECORD <= |At(st, root)|
    ensures Field(hdr, 0, 4) == DIRHASH_MAGIC && Field(hdr, 4, 4) == BUCKETS
    ensures Field(hdr, 8, 8) == |t.recs| && Field(hdr, 16, 8) == free
  {
    hide Inv, Contents, TableOk, Dec;
    ghost var h := At(st, root);
    HeaderFact(hash, h, t, free);
    hdr := st.ReadAt(root, 0, HEADER_SIZE);
    assert hdr == h[0..0 + HEADER_SIZE];
    SliceField(h, 0, HEADER_SIZE, 0, 4);
    SliceField(h, 0, HEADER_SIZE, 4, 4);
    SliceField(h, 0, HEADER_SIZE, 8, 8);
    SliceField(h, 0, HEADER_SIZE, 16, 8);
  }

  datatype Found = Found(status: Status, ino: nat, kind: nat)

  /** What a lookup must answer, given the map the directory stands for. */
  function LookupSpec(root: nat, name: Name, m: map<Name, Entry>): Found {
    if root == 0 then Found(NotFound, 0, 0)
    else if |name| == 0 || |name| > NAME_MAX then Found(InvalidArg, 0, 0)
    else if name in m then Found(Ok, m[name].ino, m[name].kind)
    else Found(NotFound, 0, 0)
  }

  /** Walks the chain of bucket `b` to the record of `name`. Terminates because offsets
      strictly decrease. Reports the record, its offset and the one before it, or 0. */
  method Walk(st: BlockStore, hash: Name -> nat, root: nat, name: Name, b: nat, ghost t: Table, ghost free: nat)
    returns (prev: nat, cur: nat, de: seq<Byte>, ghost i: nat)
    requires Holds(st, hash, root, t, free) && b < BUCKETS
    ensures |t.chains| == BUCKETS && Descending(t, t.chains[b]) && i <= |t.chains[b]| && cur == OffAt(t, b, i)
    ensures cur == 0 <==> i == |t.chains[b]|
    ensures prev == if i == 0 then 0 else OffAt(t, b, i - 1)
    ensures i == |t.chains[b]| ==> name !in t.chains[b]
    ensures i < |t.chains[b]| ==> t.chains[b][i] == name && |de| == DIRENT_SIZE
    ensures i < |t.chains[b]| ==> Field(de, 0, 8) == RecAt(t, b, i).ino && Field(de, 22, 1) == RecAt(t, b, i).kind
    ensures i < |t.chains[b]| ==> Field(de, 8, 8) == OffAt(t, b, i + 1)
  {
    hide Inv, Contents, TableOk, Dec, Hash, Bucket, OffAt, Descending, RecAt;
    cur := ReadHead(st, hash, root, b, t, free);
    prev, de, i := 0, [], 0;
    ghost var c := t.chains[b];
    EndOfChain(hash, At(st, root), t, free, b, i);
    while cur != 0
      invariant 0 <= i <= |c| && cur == OffAt(t, b, i) && (cur == 0 <==> i == |c|)
      invariant prev == if i == 0 then 0 else OffAt(t, b, i - 1)
      invariant forall k :: 0 <= k < i ==> c[k] != name
      decreases cur
    {
      de := ReadDirent(st, hash, root, cur, t, free, b, i);
      var same := Matches(st, hash, root, cur, de, name, t, free, b, i);
      if same {
        return;
      }
      OffsetsDrop(t, b, i);
      prev := cur;
      cur := Field(de, 8, 8);
      i := i + 1;
      EndOfChain(hash, At(st, root), t, free, b, i);
    }
  }

  /** Answers exactly as the map does, whatever names collide. */
  method Lookup(st: BlockStore, hash: Name -> nat, root: nat, name: Name, ghost t: Table, ghost free: nat)
    returns (r: Found)
    requires root != 0 ==> Holds(st, hash, root, t, free)
    ensures r == LookupSpec(root, name, Bindings(t))
  {
    hide Inv, Contents, TableOk, Dec, Hash, Bucket, OffAt, Descending;
    if root == 0 {
      return Found(NotFound, 0, 0);
    }
    if |name| == 0 || |name| > NAME_MAX {
      return Found(InvalidArg, 0, 0);
    }
    var hdr := ReadHeader(st, hash, root, t, free);
    var b := BucketOf(hash, name, Field(hdr, 4, 4));
    var prev, cur, de, i := Walk(st, hash, root, name, b, t, free);
    if cur == 0 {
      Absent(hash, At(st, root), t, free, name);
      return Found(NotFound, 0, 0);
    }
    RecFact(hash, At(st, root), t, free, b, i);
    return Found(Ok, Field(de, 0, 8), Field(de, 22, 1));
  }

  method BucketOf(hash: Name -> nat, name: Name, buckets: nat) returns (b: nat)
    requires buckets == BUCKETS
    ensures b == Bucket(hash, name)
  {
    b := Hash(hash, name) % buckets;
  }

  lemma EndOfChain(hash: Name -> nat, h: seq<Byte>, t: Table, free: nat, b: nat, i: nat)
    requires TableOk(hash, h, t, free) && b < BUCKETS
    ensures |t.chains| == BUCKETS && Descending(t, t.chains[b])
    ensures i <= |t.chains[b]| ==> (OffAt(t, b, i) == 0 <==> i == |t.chains[b]|)
  {
    hide TableOk, Dec, Hash, Bucket;
    HeadFact(hash, h, t, free, b);
    if i < |t.chains[b]| { RecFact(hash, h, t, free, b, i); }
  }

  lemma OffsetsDrop(t: Table, b: nat, i: nat)
    requires b < |t.chains| && Descending(t, t.chains[b]) && i < |t.chains[b]|
    ensures OffAt(t, b, i + 1) < OffAt(t, b, i) || OffAt(t, b, i + 1) == 0
  {
  }

  lemma Listed(hash: Name -> nat, h: seq<Byte>, t: Table, free: nat, n: Name)
    requires TableOk(hash, h, t, free) && n in t.recs
    ensures |t.chains| == BUCKETS && n in t.chains[Bucket(hash, n)]
  {
    hide RecordsOk, BucketsOk, HeaderOk, RecordNamesOk, AllApart, AllDescending, Bucket;
  }

  lemma Absent(hash: Name -> nat, h: seq<Byte>, t: Table, free: nat, n: Name)
    requires TableOk(hash, h, t, free) && |t.chains| == BUCKETS && n !in t.chains[Bucket(hash, n)]
    ensures n !in t.recs
  {
    hide TableOk, Bucket;
    if n in t.recs { Listed(hash, h, t, free, n); assert false; }
  }

  // ----------------------------------------------------------------------------------
  // Creating a table

  function FreshHeader(): (r: seq<Byte>)
    ensures |r| == HEADER_SIZE
  {
    Enc(DIRHASH_MAGIC, 4) + Enc(BUCKETS, 4) + Enc(0, 8) + Enc(FIRST_RECORD, 8) + Enc(0, 4) + Enc(0, 4)
  }

  function ZeroBytes(n: nat): (r: seq<Byte>)
    ensures |r| == n
  {
    seq(n, _ => 0)
  }

  lemma FreshTable(hash: Name -> nat, h: seq<Byte>)
    requires FIRST_RECORD <= |h| < U64_LIMIT && |h| % 8 == 0
    requires h[0..HEADER_SIZE] == FreshHeader()
    requires h[HEADER_SIZE..FIRST_RECORD] == ZeroBytes(8 * BUCKETS)
    ensures TableOk(hash, h, EmptyTable(), FIRST_RECORD)
  {
    hide HeaderOk, BucketsOk, WellFormed, FreshHeader, ZeroBytes;
    FreshHead(h);
    FreshBuckets(h);
    EmptyWellFormed(hash);
  }

  lemma FreshHead(h: seq<Byte>)
    requires FIRST_RECORD <= |h| && h[0..HEADER_SIZE] == FreshHeader()
    ensures HeaderOk(h, 0, FIRST_RECORD)
  {
    hide Dec, Enc, Field;
    Widths();
    var f := FreshHeader();
    FieldOfPart(h, 0, f, 0, 4, DIRHASH_MAGIC);
    FieldOfPart(h, 0, f, 4, 4, BUCKETS);
    FieldOfPart(h, 0, f, 8, 8, 0);
    FieldOfPart(h, 0, f, 16, 8, FIRST_RECORD);
  }

  lemma FreshBuckets(h: seq<Byte>)
    requires FIRST_RECORD <= |h| && h[HEADER_SIZE..FIRST_RECORD] == ZeroBytes(8 * BUCKETS)
    ensures BucketsOk(h, EmptyTable())
  {
    hide Dec;
    forall b | 0 <= b < BUCKETS
      ensures Field(h, HEADER_SIZE + 8 * b, 8) == OffAt(EmptyTable(), b, 0)
    {
      var at := HEADER_SIZE + 8 * b;
      var slot := h[at..at + 8];
      forall k | 0 <= k < 8 ensures slot[k] == 0 {
        assert h[at + k] == h[HEADER_SIZE..FIRST_RECORD][8 * b + k];
      }
      ZeroDec(slot);
    }
  }

  lemma EmptyWellFormed(hash: Name -> nat)
    ensures WellFormed(hash, EmptyTable(), FIRST_RECORD)
  {
    hide Bucket;
  }

  /** A new empty table in a stream of its own. Fails only before anything is kept. */
  method Create(st: BlockStore, hash: Name -> nat) returns (ok: bool, root: nat)
    requires st.Valid()
    modifies st
    ensures st.Valid() && Touched(old(st.S()), st.S(), 0, root)
    ensures !ok ==> root == 0 && st.S() == old(st.S())
    ensures ok ==> Holds(st, hash, root, EmptyTable(), FIRST_RECORD)
    ensures ok ==> |At(st, root)| == st.blockSize
    ensures ok <==> old(st.freeBlocks) >= 2
    ensures ok ==> st.freeBlocks == old(st.freeBlocks) - 2 && Beside(old(st.S()), st.S())
  {
    hide Inv, Contents, TableOk, Touched, Dec, Enc, FreshHeader, ZeroBytes, BlockStore.WriteEffect, BlockStore.Covered, Beside, SameAlloc;
    ghost var s := st.S();
    Blocksize(s);
    NoBytes(s);
    BlockStore.OneBlockNeeded(HEADER_SIZE, st.blockSize);
    BlockStore.OneBlockNeeded(FIRST_RECORD, st.blockSize);
    ok, root := st.WriteAt(0, 0, FreshHeader());
    ghost var t := st.S();
    if s.free >= 2 { BlockStore.EffectRoom(s, t, 0, root, 0, FreshHeader(), ok); }
    if !ok {
      BlockStore.EffectFull(s, t, 0, root, 0, FreshHeader());
      return;
    }
    BlockStore.EffectOk(s, t, 0, root, 0, FreshHeader());
    BlockStore.EffectCost(s, t, 0, root, 0, FreshHeader());
    Blocksize(t);
    ghost var r := root;
    ok, root := st.WriteAt(root, HEADER_SIZE, ZeroBytes(8 * BUCKETS));
    if !ok {
      BlockStore.EffectFull(t, st.S(), r, root, HEADER_SIZE, ZeroBytes(8 * BUCKETS));
      assert false;
    }
    BlockStore.EffectOk(t, st.S(), r, root, HEADER_SIZE, ZeroBytes(8 * BUCKETS));
    BlockStore.EffectCost(t, st.S(), r, root, HEADER_SIZE, ZeroBytes(8 * BUCKETS));
    TouchedTwice(s, t, st.S(), 0, r, root);
    BesideStill(s, t, st.S());
    StreamFits(st.S(), root);
    InContents(st.S(), root);
    HeaderKept(BytesOf(Contents(t), r), At(st, root));
    FreshTable(hash, At(st, root));
  }

  lemma BesideStill(s: State, t: State, u: State)
    requires Beside(s, t) && SameAlloc(t, u)
    ensures Beside(s, u)
  {
  }

  lemma HeaderKept(h1: seq<Byte>, h2: seq<Byte>)
    requires HEADER_SIZE <= |h1| <= |h2| && Written(h1, h2, HEADER_SIZE, ZeroBytes(8 * BUCKETS))
    ensures h2[0..HEADER_SIZE] == h1[0..HEADER_SIZE] && h2[HEADER_SIZE..FIRST_RECORD] == ZeroBytes(8 * BUCKETS)
  {
  }

  lemma NoBytes(s: State)
    requires Inv(s)
    ensures BytesOf(Contents(s), 0) == []
  {
    hide Inv;
    NoNullStream(s);
  }

  // ----------------------------------------------------------------------------------
  // Inserting a binding

  lemma RecordCount(hash: Name -> nat, h: seq<Byte>, t: Table, free: nat)
    requires TableOk(hash, h, t, free)
    ensures |t.recs| <= free
  {
    hide RecordsOk, BucketsOk, HeaderOk, AllListed, AllDescending;
    var f := n => if n in t.recs then t.recs[n].off else 0;
    forall x, y | x in t.recs && y in t.recs && x != y ensures f(x) != f(y) {
      assert Apart(t.recs[x], |x|, t.recs[y], |y|);
    }
    forall x | x in t.recs ensures f(x) < free { assert NameOk(t, x, free); }
    InjectiveBound(t.recs.Keys, f, free);
  }

  // A write that ended in "disk full" past the free offset does not touch the table.
  lemma TableKept(hash: Name -> nat, s: State, h: seq<Byte>, h': seq<Byte>, root: nat, t: Table, free: nat)
    requires TableOk(hash, h, t, free) && SameOn(h, h', 0, free) && |h| <= |h'|
    requires Inv(s) && root in s.streams && h' == BytesOf(Contents(s), root)
    ensures TableOk(hash, h', t, free)
  {
    hide TableOk, Inv, Contents;
    StreamFits(s, root);
    InContents(s, root);
    TableFrame(hash, h, h', t, free);
  }

  lemma TableFree(hash: Name -> nat, h: seq<Byte>, t: Table, free: nat)
    requires TableOk(hash, h, t, free)
    ensures FIRST_RECORD <= free <= |h| && |t.chains| == BUCKETS
  {
    hide TableOk;
    HeaderFact(hash, h, t, free);
  }

  /** There is room for a record with a name of length `n` at offset `free`: it ends inside
      the stream, or a block can be appended. One block is always enough. */
  ghost predicate RoomFor(s: State, root: nat, free: nat, n: nat) {
    free + DIRENT_SIZE + n <= |BytesOf(Contents(s), root)| || BlockStore.CanAppend(s, root)
  }

  ghost predicate SameLength(s: State, t: State, root: nat) {
    |BytesOf(Contents(t), root)| == |BytesOf(Contents(s), root)|
  }

  // What the writes of an insertion promise about space: they fail exactly for want of
  // room, and then, or if the record ends inside the stream, no block has changed hands.
  ghost predicate SpaceEffect(s: State, t: State, root: nat, free: nat, n: nat, ok: bool) {
    (ok <==> RoomFor(s, root, free, n)) && t.free <= s.free &&
    (!ok || free + DIRENT_SIZE + n <= |BytesOf(Contents(s), root)| ==>
      SameAlloc(s, t) && SameLength(s, t, root))
  }

  // The second write of a record: after `dirent`, already written in state `s1`.
  lemma SpaceAfter(s: State, s1: State, t: State, root: nat, free: nat, name: seq<Byte>, ok: bool)
    requires Inv(s) && Inv(s1) && root in s.streams && root in s1.streams && free <= |BytesOf(Contents(s), root)| && 0 < |name| <= NAME_MAX
    requires |BytesOf(Contents(s1), root)| == BlockStore.Max(|BytesOf(Contents(s), root)|, BlockStore.Covered(free + DIRENT_SIZE, s.bs))
    requires free + DIRENT_SIZE <= |BytesOf(Contents(s), root)| ==> SameAlloc(s, s1)
    requires free + DIRENT_SIZE <= |BytesOf(Contents(s), root)| || BlockStore.CanAppend(s, root)
    requires s1.bs == s.bs && s1.free <= s.free && BlockStore.WriteEffect(s1, t, root, root, free + DIRENT_SIZE, name, ok)
    ensures SpaceEffect(s, t, root, free, |name|, ok)
  {
    hide Inv, Contents, BlockStore.WriteEffect, BlockStore.Covered;
    var h := BytesOf(Contents(s), root);
    Blocksize(s);
    BlockStore.WholeBlocks(s, root, free + DIRENT_SIZE);
    BlockStore.OneBlockMore(s, root, free + DIRENT_SIZE);
    BlockStore.OneBlockMore(s1, root, free + DIRENT_SIZE + |name|);
    BlockStore.EffectExact(s1, t, root, root, free + DIRENT_SIZE, name, ok);
    if ok { BlockStore.EffectOk(s1, t, root, root, free + DIRENT_SIZE, name); }
    if free + DIRENT_SIZE > |h| {
      BlockStore.CoveredMore(s, root, free + DIRENT_SIZE);
    }
  }

  /** The record and its name, written at the free offset of the table: not yet linked. It
      fails exactly for want of room. */
  method WriteRecord(st: BlockStore, hash: Name -> nat, root: nat, dirent: seq<Byte>, name: Name, ghost t: Table, free: nat)
    returns (ok: bool, ghost h1: seq<Byte>)
    requires Holds(st, hash, root, t, free) && root != 0 && |dirent| == DIRENT_SIZE && 0 < |name| <= NAME_MAX
    modifies st
    ensures st.Valid() && Touched(old(st.S()), st.S(), root, root) && root in st.streams
    ensures Holds(st, hash, root, t, free) && SpaceEffect(old(st.S()), st.S(), root, free, |name|, ok)
    ensures ok ==> Written(old(At(st, root)), h1, free, dirent) && Written(h1, At(st, root), free + DIRENT_SIZE, name)
  {
    hide Inv, Contents, TableOk, Touched, BlockStore.WriteEffect, BlockStore.Covered, BlockStore.CanAppend;
    ghost var s := st.S();
    ghost var h := At(st, root);
    TableFree(hash, h, t, free);
    Blocksize(s);
    BlockStore.OneBlockMore(s, root, free + DIRENT_SIZE);
    var r1: nat;
    ok, r1 := st.WriteAt(root, free, dirent);
    ghost var s1 := st.S();
    h1 := At(st, root);
    BlockStore.EffectExact(s, s1, root, r1, free, dirent, ok);
    if !ok {
      BlockStore.EffectFull(s, s1, root, r1, free, dirent);
      TableKept(hash, s1, h, h1, root, t, free);
      return;
    }
    BlockStore.EffectOk(s, s1, root, r1, free, dirent);
    hide SpaceEffect;
    SameSize(s, s1, root);
    ok, r1 := st.WriteAt(root, free + DIRENT_SIZE, name);
    ghost var h2 := At(st, root);
    if !ok {
      BlockStore.EffectFull(s1, st.S(), root, r1, free + DIRENT_SIZE, name);
    } else {
      BlockStore.EffectOk(s1, st.S(), root, r1, free + DIRENT_SIZE, name);
    }
    SpaceAfter(s, s1, st.S(), root, free, name, ok);
    TouchedTwice(s, s1, st.S(), root, root, root);
    assert SameOn(h, h2, 0, free);
    TableKept(hash, st.S(), h, h2, root, t, free);
  }

  lemma SameSize(s: State, t: State, root: nat)
    requires Touched(s, t, root, root)
    ensures t.bs == s.bs
  {
  }

  /** The committing writes: bucket head, then header. They lie inside the table's first
      bytes and so never need a new block. */
  method WriteInside(st: BlockStore, root: nat, off: nat, data: seq<Byte>)
    requires st.Valid() && root in st.streams && root != 0 && 0 < |data| && off + |data| <= |At(st, root)|
    modifies st
    ensures st.Valid() && root in st.streams && Touched(old(st.S()), st.S(), root, root)
    ensures Written(old(At(st, root)), At(st, root), off, data) && |At(st, root)| == |old(At(st, root))| && SameAlloc(old(st.S()), st.S())
  {
    hide Inv, Contents, Touched, BlockStore.WriteEffect, BlockStore.Covered, Written;
    ghost var s := st.S();
    var ok, r1 := st.WriteAt(root, off, data);
    if !ok {
      BlockStore.EffectFull(s, st.S(), root, r1, off, data);
      assert false;
    }
    BlockStore.EffectOk(s, st.S(), root, r1, off, data);
  }

  ghost predicate Planned(hash: Name -> nat, h: seq<Byte>, t: Table, free: nat, name: Name, slot: nat, head: nat, hdr': seq<Byte>) {
    |t.chains| == BUCKETS && slot == HEADER_SIZE + 8 * Bucket(hash, name) && head == OffAt(t, Bucket(hash, name), 0) &&
    HEADER_SIZE <= |h| && hdr' == HeaderWith(h[..HEADER_SIZE], |t.recs| + 1, free + RecSize(|name|))
  }

  /** What an insertion reads from the table: the header, the end of the used part, the
      bucket's slot and its first record. */
  method InsertPlan(st: BlockStore, hash: Name -> nat, root: nat, name: Name, ghost t: Table, ghost free: nat)
    returns (at: nat, slot: nat, head: nat, hdr': seq<Byte>)
    requires Holds(st, hash, root, t, free) && root != 0 && 1 <= |name| <= NAME_MAX
    ensures at == free && slot + 8 <= FIRST_RECORD <= |At(st, root)| && |hdr'| == HEADER_SIZE && |t.chains| == BUCKETS
    ensures Planned(hash, At(st, root), t, free, name, slot, head, hdr')
  {
    hide Inv, Contents, TableOk, Enc, HeaderWith, Hash, RecSize, OffAt, Put, BytesOf;
    var hdr := ReadHeader(st, hash, root, t, free);
    var b := BucketOf(hash, name, Field(hdr, 4, 4));
    head := ReadHead(st, hash, root, b, t, free);
    at := Field(hdr, 16, 8);
    hdr' := HeaderWith(hdr, Field(hdr, 8, 8) + 1, at + RecSize(|name|));
    slot := HEADER_SIZE + 8 * b;
  }

  lemma HoldsTable(st: BlockStore, hash: Name -> nat, root: nat, t: Table, free: nat)
    requires Holds(st, hash, root, t, free)
    ensures st.Valid() && root in st.streams && TableOk(hash, At(st, root), t, free)
  {
  }

  /** Adds a binding to an existing table; the name must not be bound yet. Out of space,
      the table is what it was. */
  method InsertInto(st: BlockStore, hash: Name -> nat, root: nat, name: Name, ino: nat, kind: nat, ghost t: Table, ghost free: nat)
    returns (ok: bool)
    requires Holds(st, hash, root, t, free) && root != 0 && name !in t.recs && 1 <= |name| <= NAME_MAX
    requires ino < U64_LIMIT && kind < 256
    modifies st
    ensures st.Valid() && Touched(old(st.S()), st.S(), root, root)
    ensures SpaceEffect(old(st.S()), st.S(), root, free, |name|, ok)
    ensures !ok ==> Holds(st, hash, root, t, free)
    ensures ok ==> |t.chains| == BUCKETS
    ensures ok ==> Holds(st, hash, root, Inserted(hash, t, name, Rec(free, ino, kind)), free + RecSize(|name|))
  {
    hide Inv, Contents, TableOk, Touched, Written, Field, Enc, DirentBytes, HeaderWith, Hash, Bucket, RecSize, OffAt, Descending, Put, BytesOf, Inserted, Planned, Holds, SpaceEffect, SameAlloc, SameLength, At;
    HoldsTable(st, hash, root, t, free);
    ghost var s := st.S();
    ghost var h := At(st, root);
    var at, slot, head, hdr' := InsertPlan(st, hash, root, name, t, free);
    var dirent := DirentBytes(ino, head, Hash(hash, name), |name|, kind);
    ghost var h1;
    ok, h1 := WriteRecord(st, hash, root, dirent, name, t, at);
    if !ok {
      return;
    }
    ghost var s2 := st.S();
    WrittenGrows(h, h1, At(st, root), at, dirent, name);
    LinkRecord(st, hash, root, slot, at, hdr', head, name, h, h1, t, Rec(at, ino, kind));
    TouchedTwice(s, s2, st.S(), root, root, root);
    SpaceThen(s, s2, st.S(), root, at, |name|);
  }

  // The committing writes change no allocation.
  lemma SpaceThen(s: State, s1: State, t: State, root: nat, free: nat, n: nat)
    requires SpaceEffect(s, s1, root, free, n, true) && SameAlloc(s1, t) && SameLength(s1, t, root)
    ensures SpaceEffect(s, t, root, free, n, true)
  {
    hide Contents, BlockStore.CanAppend;
  }

  lemma InsertFinish(hash: Name -> nat, s: State, root: nat, h: seq<Byte>, h1: seq<Byte>, h2: seq<Byte>, h3: seq<Byte>,
                     t: Table, free: nat, name: Name, rec: Rec, head: nat, slot: nat, hdr': seq<Byte>)
    requires TableOk(hash, h, t, free) && name !in t.recs && 1 <= |name| <= NAME_MAX
    requires rec.off == free && rec.ino < U64_LIMIT && rec.kind < 256 && Planned(hash, h, t, free, name, slot, head, hdr')
    requires Inv(s) && root in s.streams
    requires Written(h, h1, free, DirentBytes(rec.ino, head, Hash(hash, name), |name|, rec.kind))
    requires Written(h1, h2, free + DIRENT_SIZE, name)
    requires Written(h2, h3, slot, Enc(free, 8)) && Written(h3, BytesOf(Contents(s), root), 0, hdr')
    ensures |t.chains| == BUCKETS
    ensures TableOk(hash, BytesOf(Contents(s), root), Inserted(hash, t, name, rec), free + RecSize(|name|))
  {
    hide Inv, Contents, TableOk, Written, Dec, Enc, DirentBytes, HeaderWith, Hash, Bucket, RecSize, OffAt;
    var h4 := BytesOf(Contents(s), root);
    HeadFact(hash, h, t, free, Bucket(hash, name));
    RecordCount(hash, h, t, free);
    HeaderFact(hash, h, t, free);
    StreamFits(s, root);
    InContents(s, root);
    ComposeInsert(hash, h, h1, h2, h3, h4, t, free, name, rec,
                  DirentBytes(rec.ino, head, Hash(hash, name), |name|, rec.kind), Enc(free, 8),
                  HeaderWith(h[..HEADER_SIZE], |t.recs| + 1, free + RecSize(|name|)));
    InsertOk(hash, h, h4, t, free, name, rec);
  }

  /** The committing writes of an insert: bucket head, then header. */
  method LinkRecord(st: BlockStore, ghost hash: Name -> nat, root: nat, slot: nat, at: nat, hdr: seq<Byte>, ghost head: nat,
                    ghost name: Name, ghost h: seq<Byte>, ghost h1: seq<Byte>, ghost t: Table, ghost rec: Rec)
    requires st.Valid() && root in st.streams && root != 0 && |hdr| == HEADER_SIZE
    requires slot + 8 <= FIRST_RECORD <= |h| <= |At(st, root)| && |t.chains| == BUCKETS
    requires rec.off == at && rec.ino < U64_LIMIT && rec.kind < 256 && Planned(hash, h, t, at, name, slot, head, hdr)
    requires name !in t.recs && 1 <= |name| <= NAME_MAX && TableOk(hash, h, t, at)
    requires Written(h, h1, at, DirentBytes(rec.ino, head, Hash(hash, name), |name|, rec.kind))
    requires Written(h1, At(st, root), at + DIRENT_SIZE, name)
    modifies st
    ensures st.Valid() && root in st.streams && Touched(old(st.S()), st.S(), root, root) && |t.chains| == BUCKETS
    ensures Holds(st, hash, root, Inserted(hash, t, name, rec), at + RecSize(|name|))
    ensures SameAlloc(old(st.S()), st.S()) && SameLength(old(st.S()), st.S(), root)
  {
    hide Inv, Contents, Touched, Written, Enc, TableOk, Planned, DirentBytes, Hash, RecSize, Inserted;
    ghost var s, h2 := st.S(), At(st, root);
    WriteInside(st, root, slot, Enc(at, 8));
    ghost var s3 := st.S();
    ghost var h3 := At(st, root);
    WriteInside(st, root, 0, hdr);
    TouchedTwice(s, s3, st.S(), root, root, root);
    InsertFinish(hash, st.S(), root, h, h1, h2, h3, t, at, name, rec, head, slot, hdr);
  }

  lemma WrittenGrows(h: seq<Byte>, h1: seq<Byte>, h2: seq<Byte>, at: nat, a: seq<Byte>, b: seq<Byte>)
    requires Written(h, h1, at, a) && Written(h1, h2, at + |a|, b)
    ensures |h| <= |h2|
  {
  }

  // ----------------------------------------------------------------------------------
  // Removing a binding

  /** Unlinks the record of `name` by rewriting the link to it, and lowers the count. */
  method Remove(st: BlockStore, hash: Name -> nat, root: nat, name: Name, ghost t: Table, ghost free: nat)
    returns (status: Status, ghost t': Table)
    requires root != 0 ==> Holds(st, hash, root, t, free)
    modifies st
    ensures status == LookupSpec(root, name, Bindings(t)).status
    ensures status != Ok ==> st.S() == old(st.S()) && t' == t
    ensures status == Ok ==> name in t.recs && Holds(st, hash, root, t', free) && Touched(old(st.S()), st.S(), root, root)
    ensures status == Ok ==> t'.recs == t.recs - {name} && SameAlloc(old(st.S()), st.S()) && SameLength(old(st.S()), st.S(), root)
  {
    hide Inv, Contents, TableOk, Touched, Written, Dec, Enc, HeaderWith, Hash, Bucket, OffAt, Descending, RecAt;
    t' := t;
    if root == 0 {
      return NotFound, t;
    }
    if |name| == 0 || |name| > NAME_MAX {
      return InvalidArg, t;
    }
    ghost var s := st.S();
    ghost var h := At(st, root);
    var hdr := ReadHeader(st, hash, root, t, free);
    var b := BucketOf(hash, name, Field(hdr, 4, 4));
    var prev, cur, de, i := Walk(st, hash, root, name, b, t, free);
    if cur == 0 {
      Absent(hash, h, t, free, name);
      return NotFound, t;
    }
    RecFact(hash, h, t, free, b, i);
    LinkPlace(hash, h, t, free, b, i, prev);
    var at := if prev == 0 then HEADER_SIZE + 8 * b else prev + 8;
    var link := Enc(Field(de, 8, 8), 8);
    WriteInside(st, root, at, link);
    ghost var s1 := st.S();
    ghost var h1 := At(st, root);
    var hdr' := HeaderWith(hdr, Field(hdr, 8, 8) - 1, Field(hdr, 16, 8));
    WriteInside(st, root, 0, hdr');
    TouchedTwice(s, s1, st.S(), root, root, root);
    ComposeRemove(h, h1, At(st, root), t, free, b, i, link, hdr');
    RemoveOk(hash, h, At(st, root), t, free, b, i);
    return Ok, Deleted(t, t.chains[b][i], b, i);
  }

  lemma LinkPlace(hash: Name -> nat, h: seq<Byte>, t: Table, free: nat, b: nat, i: nat, prev: nat)
    requires TableOk(hash, h, t, free) && b < BUCKETS && |t.chains| == BUCKETS && i < |t.chains[b]|
    requires prev == if i == 0 then 0 else OffAt(t, b, i - 1)
    ensures LinkAt(t, b, i) == if prev == 0 then HEADER_SIZE + 8 * b else prev + 8
    ensures HEADER_SIZE <= LinkAt(t, b, i) && LinkAt(t, b, i) + 8 <= |h| && FIRST_RECORD <= |h|
    ensures |t.recs| > 0 && Field(h, 8, 8) == |t.recs|
  {
    hide TableOk, Dec, Hash, Bucket;
    HeaderFact(hash, h, t, free);
    RecFact(hash, h, t, free, b, i);
    if i > 0 { RecFact(hash, h, t, free, b, i - 1); }
    assert t.recs != map[];
  }

  // ----------------------------------------------------------------------------------
  // Listing

  /** The names in the order a listing visits them: bucket by bucket, chain by chain. */
  ghost function Listing(chains: seq<seq<Name>>): seq<Name> {
    if |chains| == 0 then [] else Listing(chains[..|chains| - 1]) + chains[|chains| - 1]
  }

  lemma {:induction false} ListingPrefix(chains: seq<seq<Name>>, b: nat)
    requires b <= |chains|
    ensures |Listing(chains[..b])| <= |Listing(chains)|
    ensures Listing(chains)[..|Listing(chains[..b])|] == Listing(chains[..b])
    decreases |chains|
  {
    if b == |chains| {
      assert chains[..b] == chains;
    } else {
      var init := chains[..|chains| - 1];
      ListingPrefix(init, b);
      assert init[..b] == chains[..b];
    }
  }

  lemma ListingSnoc(chains: seq<seq<Name>>, b: nat)
    requires b < |chains|
    ensures Listing(chains[..b + 1]) == Listing(chains[..b]) + chains[b]
  {
    assert chains[..b + 1][..b] == chains[..b];
  }

  lemma ListingAt(chains: seq<seq<Name>>, b: nat, i: nat)
    requires b < |chains| && i < |chains[b]|
    ensures |Listing(chains[..b])| + i < |Listing(chains)|
    ensures Listing(chains)[|Listing(chains[..b])| + i] == chains[b][i]
  {
    hide Listing;
    ListingSnoc(chains, b);
    ListingPrefix(chains, b + 1);
    var p := |Listing(chains[..b])| + i;
    assert Listing(chains)[..|Listing(chains[..b + 1])|][p] == Listing(chains)[p];
  }

  lemma {:induction false} ListingMember(chains: seq<seq<Name>>, p: nat) returns (b: nat, i: nat)
    requires p < |Listing(chains)|
    ensures b < |chains| && i < |chains[b]| && p == |Listing(chains[..b])| + i && Listing(chains)[p] == chains[b][i]
    decreases |chains|
  {
    var init := chains[..|chains| - 1];
    if p < |Listing(init)| {
      b, i := ListingMember(init, p);
      assert init[..b] == chains[..b];
    } else {
      b, i := |chains| - 1, p - |Listing(init)|;
    }
  }

  /** Indices 0 to n-1 list each bound name exactly once, and n is the number of bindings. */
  lemma ListingExact(hash: Name -> nat, h: seq<Byte>, t: Table, free: nat)
    requires TableOk(hash, h, t, free)
    ensures |Listing(t.chains)| == |t.recs|
    ensures forall p, q :: 0 <= p < q < |Listing(t.chains)| ==> Listing(t.chains)[p] != Listing(t.chains)[q]
    ensures forall n :: n in t.recs <==> n in Listing(t.chains)
  {
    hide TableOk, Listing, Bucket, OffAt;
    var l := Listing(t.chains);
    TableFree(hash, h, t, free);
    forall p, q | 0 <= p < q < |l|
      ensures l[p] != l[q]
    {
      var b, i := ListingMember(t.chains, p);
      var c, j := ListingMember(t.chains, q);
      RecFact(hash, h, t, free, b, i);
      RecFact(hash, h, t, free, c, j);
      if l[p] == l[q] {
        ChainDistinct(t, t.chains[b], i, j);
        assert false;
      }
    }
    forall n
      ensures n in t.recs <==> n in l
    {
      if n in t.recs {
        Listed(hash, h, t, free, n);
        var b := Bucket(hash, n);
        var i :| 0 <= i < |t.chains[b]| && t.chains[b][i] == n;
        ListingAt(t.chains, b, i);
      }
      if n in l {
        var p :| 0 <= p < |l| && l[p] == n;
        var b, i := ListingMember(t.chains, p);
        RecFact(hash, h, t, free, b, i);
      }
    }
    DistinctSize(l);
    assert (set x | x in l) == t.recs.Keys;
  }

  /** Entry number `index` of the listing, or nothing past the last one. */
  method ReadIndex(st: BlockStore, hash: Name -> nat, root: nat, index: nat, ghost t: Table, ghost free: nat)
    returns (r: Option<(Name, Entry)>)
    requires root != 0 ==> Holds(st, hash, root, t, free)
    ensures root == 0 ==> r.None?
    ensures root != 0 ==> var l := Listing(t.chains);
              if index < |l| then l[index] in t.recs && r == Some((l[index], Bindings(t)[l[index]])) else r.None?
  {
    hide Inv, Contents, TableOk, Dec, Hash, Bucket, OffAt, Descending, Listing;
    if root == 0 {
      return None;
    }
    var hdr := ReadHeader(st, hash, root, t, free);
    TableFree(hash, At(st, root), t, free);
    var count := Field(hdr, 4, 4);
    assert t.chains[..0] == [];
    NoListing();
    var seen := 0;
    var b := 0;
    while b < count
      invariant 0 <= b <= count == BUCKETS && seen == |Listing(t.chains[..b])| <= index
    {
      r, seen := ScanChain(st, hash, root, index, seen, b, t, free);
      if r.Some? {
        return;
      }
      ListingSnoc(t.chains, b);
      b := b + 1;
    }
    assert t.chains[..b] == t.chains;
    return None;
  }

  lemma NoListing()
    ensures Listing([]) == []
  {
  }

  method ScanChain(st: BlockStore, hash: Name -> nat, root: nat, index: nat, start: nat, b: nat, ghost t: Table, ghost free: nat)
    returns (r: Option<(Name, Entry)>, seen: nat)
    requires Holds(st, hash, root, t, free) && b < BUCKETS && |t.chains| == BUCKETS
    requires start == |Listing(t.chains[..b])| <= index
    ensures r.None? ==> seen == start + |t.chains[b]| <= index
    ensures r.Some? ==> var l := Listing(t.chains);
              index < |l| && l[index] in t.recs && r == Some((l[index], Bindings(t)[l[index]]))
  {
    hide Inv, Contents, TableOk, Dec, Hash, Bucket, OffAt, Descending, Listing, RecAt;
    seen := start;
    var cur := ReadHead(st, hash, root, b, t, free);
    ghost var i := 0;
    EndOfChain(hash, At(st, root), t, free, b, i);
    while cur != 0
      invariant 0 <= i <= |t.chains[b]| && cur == OffAt(t, b, i) && (cur == 0 <==> i == |t.chains[b]|)
      invariant seen == start + i <= index
      decreases cur
    {
      var de := ReadDirent(st, hash, root, cur, t, free, b, i);
      if seen == index {
        RecFact(hash, At(st, root), t, free, b, i);
        ListingAt(t.chains, b, i);
        var name := ReadName(st, hash, root, cur, de, t, free, b, i);
        r := Some((name, Entry(Field(de, 0, 8), Field(de, 22, 1))));
        return;
      }
      seen := seen + 1;
      OffsetsDrop(t, b, i);
      cur := Field(de, 8, 8);
      i := i + 1;
      EndOfChain(hash, At(st, root), t, free, b, i);
    }
    r := None;
  }

  method ReadName(st: BlockStore, hash: Name -> nat, root: nat, off: nat, de: seq<Byte>,
                  ghost t: Table, ghost free: nat, ghost b: nat, ghost i: nat) returns (name: Name)
    requires Holds(st, hash, root, t, free) && b < BUCKETS && |t.chains| == BUCKETS && i < |t.chains[b]|
    requires off == OffAt(t, b, i) && |de| == DIRENT_SIZE && Field(de, 20, 2) == |t.chains[b][i]|
    ensures name == t.chains[b][i]
  {
    hide Inv, Contents, TableOk, Dec, Hash, Bucket;
    RecFact(hash, At(st, root), t, free, b, i);
    name := st.ReadAt(root, off + DIRENT_SIZE, Field(de, 20, 2));
  }
}
