/** The volume operations: create, mkdir, remove, read, write, listing and rename. */
module Nyfs {
  import opened Results
  import opened Bytes
  import opened Bits
  import Extents
  import opened Streams
  import opened Store
  import opened DirTable
  import opened DirBytes
  import opened DirHash
  import opened Acl
  import opened Volumes
  import opened FsSpec

  class Volume {
    const st: BlockStore
    const hash: Name -> nat
    var inodes: seq<Inode>
    var used: seq<bool>
    var freeInodes: int

    ghost var dirs: map<nat, Dir>
    ghost var refs: map<nat, Ref>
    ghost var aclRefs: map<nat, nat>
    ghost var home: map<nat, Place>

    ghost function V(): Vol
      reads this, st
    {
      Vol(hash, Contents(st.S()), Singles(st.S()), inodes, used, freeInodes, dirs, refs, aclRefs, home)
    }

    ghost predicate Valid()
      reads this, st
    {
      st.Valid() && VolInv(V())
    }

    /** Streams nobody refers to: still allocated, but lost to the file system. */
    ghost function LostStreams(): set<nat>
      reads this, st
    {
      Contents(st.S()).Keys - refs.Keys
    }

    /** Overflow blocks nobody refers to. */
    ghost function LostBlocks(): set<nat>
      reads this, st
    {
      Singles(st.S()).Keys - aclRefs.Keys
    }

    /** The file system this volume stands for. */
    ghost function Tree(): Fs
      reads this, st
    {
      Abs(V())
    }

    /** A volume that is being formatted: inode 0 reserved, nothing else there yet. */
    constructor (store: BlockStore, hash: Name -> nat, count: nat)
      requires count > 0
      ensures st == store && this.hash == hash && |inodes| == |used| == count
      ensures used == [true] + seq(count - 1, _ => false) && freeInodes == count - 1 == ClearBits(used)
      ensures dirs == map[] && refs == map[] && aclRefs == map[] && home == map[]
    {
      st := store;
      this.hash := hash;
      inodes := seq(count, _ => Inode(false, 0, 0, 0, 0, [], 0, 0, 0, 0, 0, 0));
      used := [true] + seq(count - 1, _ => false);
      freeInodes := count - 1;
      dirs, refs, aclRefs, home := map[], map[], map[], map[];
      ClearBitsConcat([true], seq(count - 1, _ => false));
      ClearBitsRun(count - 1, false);
      assert ClearBits([true]) == 0;
    }

    // ------------------------------------------------------------------------------
    // Inode allocation

    /** First-fit search of the inode bitmap. */
    method AllocInode() returns (r: Option<nat>)
      requires freeInodes == ClearBits(used)
      modifies this`used, this`freeInodes
      ensures freeInodes == ClearBits(used)
      ensures r.None? <==> old(freeInodes) == 0
      ensures r.None? ==> used == old(used) && freeInodes == old(freeInodes)
      ensures r.Some? ==> r.value < |old(used)| && !old(used)[r.value]
      ensures r.Some? ==> forall j :: 0 <= j < r.value ==> old(used)[j]
      ensures r.Some? ==> used == old(used)[r.value := true] && freeInodes == old(freeInodes) - 1
    {
      ClearBitsZero(used);
      var i := 0;
      while i < |used|
        invariant 0 <= i <= |used|
        invariant forall j :: 0 <= j < i ==> used[j]
      {
        if !used[i] {
          ClearBitsUpdate(used, i, true);
          used := used[i := true];
          freeInodes := freeInodes - 1;
          return Some(i);
        }
        i := i + 1;
      }
      return None;
    }

    method FreeInode(i: nat)
      requires i < |used|
      modifies this`used, this`freeInodes
      ensures used == old(used)[i := false] && freeInodes == old(freeInodes) + 1
    {
      used := used[i := false];
      freeInodes := freeInodes + 1;
    }

    // ------------------------------------------------------------------------------
    // Access control

    /** The whole access list of an inode, read from its slots and its overflow block. */
    method GatherAces(n: Inode) returns (aces: seq<Ace>)
      requires st.Valid() && |n.aces| <= INLINE_COUNT && n.aclCount + INLINE_COUNT <= MAX_ACES
      requires n.aclBlock == 0 ==> n.aclCount == 0
      requires n.aclBlock != 0 ==> n.aclBlock in Singles(st.S()) && ACE_SIZE * n.aclCount <= |Singles(st.S())[n.aclBlock]|
      ensures aces == Gathered(n, Singles(st.S())) && |aces| <= MAX_ACES
    {
      hide Inv, Singles, ParseAce;
      aces := n.aces;
      if n.aclBlock != 0 && n.aclCount > 0 {
        var bytes := st.ReadSingle(n.aclBlock, ACE_SIZE * n.aclCount);
        ParseSame(bytes, Singles(st.S())[n.aclBlock], n.aclCount);
        aces := aces + ParseList(bytes, n.aclCount);
      }
    }

    static lemma {:induction false} ParseSame(b: seq<Byte>, b': seq<Byte>, n: nat)
      requires ACE_SIZE * n <= |b| <= |b'| && b == b'[..|b|]
      ensures ParseList(b, n) == ParseList(b', n)
    {
      hide ParseAce;
      if n != 0 {
        ParseSame(b, b', n - 1);
        var k, m := ACE_SIZE * (n - 1), ACE_SIZE * n;
        assert b[k..m] == b'[k..m];
      }
    }

    /** The single place where access is decided. */
    method CheckAccess(n: Inode, c: Cred, request: bv32, ghost node: Node) returns (ok: bool)
      requires st.Valid() && |n.aces| <= INLINE_COUNT && n.aclCount + INLINE_COUNT <= MAX_ACES
      requires n.aclBlock == 0 ==> n.aclCount == 0
      requires n.aclBlock != 0 ==> n.aclBlock in Singles(st.S()) && ACE_SIZE * n.aclCount <= |Singles(st.S())[n.aclBlock]|
      requires node.mode == n.mode && node.uid == n.uid && node.gid == n.gid && node.acl == Gathered(n, Singles(st.S()))
      ensures ok <==> Allowed(node, c, request)
    {
      hide Inv, Singles, ParseAce, Verdict, Within, ModeMask;
      if c.uid == 0 {
        return true;
      }
      if |n.aces| == 0 && n.aclCount == 0 {
        return Within(request, ModeMask(n.mode, n.uid, n.gid, c));
      }
      var aces := GatherAces(n);
      assert aces != [];
      ok := CheckAces(aces, c, request);
    }

    /** An access list that does not fit in the inode's slots and one block. */
    static predicate TooLong(list: seq<Ace>, bs: nat) {
      |list| > INLINE_COUNT && (|list| - INLINE_COUNT) * ACE_SIZE > bs
    }

    /** The blocks a new node takes: one if its access list overflows, two for a table. */
    static function NodeBlocks(list: seq<Ace>, isDir: bool): nat {
      (if |list| > INLINE_COUNT then 1 else 0) + (if isDir then 2 else 0)
    }

    // What making a node without a name does to space; on failure some blocks may be lost.
    static ghost predicate NodeSpace(list: seq<Ace>, isDir: bool, s: State, t: State, status: Status) {
      (status == Overflow <==> TooLong(list, s.bs)) &&
      (status == Ok <==> !TooLong(list, s.bs) && s.free >= NodeBlocks(list, isDir)) &&
      (status == Ok ==> t.free == s.free - NodeBlocks(list, isDir)) &&
      (status == Ok ==> Beside(s, t)) && t.free <= s.free
    }

    /** The list a new child gets from directory `dir`: stored inline when short, with the
        rest in a block of its own otherwise. Fails before anything is kept. */
    method InheritAcl(parent: Inode, isDir: bool) returns (status: Status, aces: seq<Ace>, block: nat, count: nat)
      requires st.Valid() && |parent.aces| <= INLINE_COUNT && parent.aclCount + INLINE_COUNT <= MAX_ACES
      requires parent.aclBlock == 0 ==> parent.aclCount == 0
      requires parent.aclBlock != 0 ==>
                 parent.aclBlock in Singles(st.S()) && ACE_SIZE * parent.aclCount <= |Singles(st.S())[parent.aclBlock]|
      requires forall k :: 0 <= k < |Gathered(parent, Singles(st.S()))| ==> AceFits(Gathered(parent, Singles(st.S()))[k])
      modifies st
      ensures st.Valid() && Contents(st.S()) == Contents(old(st.S()))
      ensures status == Ok || status == Overflow || status == DiskFull
      ensures status != Ok ==> st.S() == old(st.S())
      ensures NodeSpace(Inherited(Gathered(parent, Singles(old(st.S()))), isDir), false, old(st.S()), st.S(), status)
      ensures status == Ok ==>
                var loose, loose' := Singles(old(st.S())), Singles(st.S());
                |aces| <= INLINE_COUNT && count + INLINE_COUNT <= MAX_ACES && (block == 0 ==> count == 0 && loose' == loose) &&
                (block != 0 ==>
                  block !in loose && block in loose' && ACE_SIZE * count <= |loose'[block]| &&
                  loose' == loose[block := loose'[block]]) &&
                var child := Inherited(Gathered(parent, loose), isDir);
                child == aces + (if block != 0 && count > 0 then ParseList(loose'[block], count) else [])
    {
      hide Inv, Singles, Contents, ParseAce, AceBytes, Inherited, AceFits, Beside, NodeSpace, CopiedFrom, Gathered;
      ghost var s := st.S();
      aces, block, count := [], 0, 0;
      BlockStore.StartAppend(st.S(), 0);
      var from := GatherAces(parent);
      var list := InheritList(from, isDir);
      InheritedFits(from, isDir);
      ListSpace(list, s, s);
      if |list| <= INLINE_COUNT {
        return Ok, list, 0, 0;
      }
      count := |list| - INLINE_COUNT;
      if count * ACE_SIZE > st.blockSize {
        return Overflow, [], 0, 0;
      }
      var rest := list[INLINE_COUNT..];
      var b := st.AllocSingle(ListBytes(rest));
      if b.None? {
        return DiskFull, [], 0, 0;
      }
      ListRoundTrip(rest, Singles(st.S())[b.value]);
      ListSpace(list, s, st.S());
      return Ok, list[..INLINE_COUNT], b.value, count;
    }

    // The blocks of an access list alone.
    static lemma ListSpace(list: seq<Ace>, s: State, t: State)
      requires Inv(s) && t.free == (if t == s then s.free else s.free - 1) && (t == s || Beside(s, t))
      ensures |list| <= INLINE_COUNT && t == s ==> NodeSpace(list, false, s, t, Ok)
      ensures TooLong(list, s.bs) && t == s ==> NodeSpace(list, false, s, t, Overflow)
      ensures |list| > INLINE_COUNT && !TooLong(list, s.bs) && t == s && s.free == 0 ==> NodeSpace(list, false, s, t, DiskFull)
      ensures |list| > INLINE_COUNT && !TooLong(list, s.bs) && t != s && s.free > 0 ==> NodeSpace(list, false, s, t, Ok)
    {
      hide Inv, Beside;
      FreeCounts(s);
      BesideSelf(s);
    }

    static lemma BesideSelf(s: State)
      ensures Beside(s, s)
    {
    }

    static lemma InheritedFits(from: seq<Ace>, isDir: bool)
      requires forall k :: 0 <= k < |from| ==> AceFits(from[k])
      ensures forall k :: 0 <= k < |Inherited(from, isDir)| ==> AceFits(Inherited(from, isDir)[k])
    {
      hide AceFits;
    }

    // ------------------------------------------------------------------------------
    // Create and mkdir

    // Volume value `v` seen through a store in state `s`.
    static ghost predicate Backs(s: State, v: Vol) {
      Inv(s) && v.files == Contents(s) && v.loose == Singles(s)
    }

    // A new stream, or nothing, appeared: nobody refers to it.
    static lemma FreshStreamNoise(v: Vol, s: State, t: State, root: nat)
      requires VolInv(v) && Backs(s, v) && Inv(t) && Touched(s, t, 0, root)
      ensures Noise(v, Contents(t), Singles(t))
    {
      hide Inv, Content, TableOk, VolInv;
      NullFree(s);
      NullFree(t);
      RefsFact(v);
      assert Contents(s).Keys == s.streams.Keys;
      forall r | r in v.refs ensures SameBytesFor(v, Contents(t), r) { assert r in v.files; }
    }

    static lemma NullFree(s: State)
      requires Inv(s)
      ensures 0 !in Contents(s) && 0 !in Singles(s) && 0 !in s.streams
    {
      hide Inv;
      NoNullStream(s);
      ZeroIsMeta(s);
    }

    // The stream of directory `d` changed but still holds the same table.
    static lemma SameTableNoise(v: Vol, s: State, t: State, d: nat)
      requires VolInv(v) && Backs(s, v) && Inv(t) && d in v.dirs && Live(v, d)
      requires Touched(s, t, v.inodes[d].hashRoot, v.inodes[d].hashRoot)
      requires TableOk(v.hash, BytesOf(Contents(t), v.inodes[d].hashRoot), v.dirs[d].table, v.dirs[d].free)
      ensures Noise(v, Contents(t), Singles(t))
    {
      hide Inv, Contents, Singles, TableOk, InodeOk, VolInv, RefBacked, NodeAt, Abs;
      NullFree(s);
      NullFree(t);
      InodeFact(v, d);
      HashRootFact(v, d);
      RefsFact(v);
      var root := v.inodes[d].hashRoot;
      forall r | r in v.refs ensures SameBytesFor(v, Contents(t), r) {
        if r == root { assert Contents(t)[r] == BytesOf(Contents(t), root); }
      }
    }

    // A new overflow block appeared.
    static lemma FreshBlockNoise(v: Vol, s: State, t: State)
      requires VolInv(v) && Backs(s, v) && Inv(t) && Contents(t) == Contents(s)
      requires forall b :: b in v.loose ==> b in Singles(t) && Singles(t)[b] == v.loose[b]
      ensures Noise(v, Contents(t), Singles(t))
    {
      hide Inv, Contents, Singles, VolInv, TableOk;
      NullFree(t);
      RefsFact(v);
    }

    // Every stream of `v` holds the same bytes in `w`.
    static ghost predicate SameStreams(v: Vol, w: Vol) {
      forall r :: r in v.files ==> r in w.files && w.files[r] == v.files[r]
    }

    static ghost predicate AddedKey(before: set<nat>, after: set<nat>, added: bool, key: nat) {
      if added then key !in before && after == before + {key} else after == before
    }

    static lemma KeyUsed(before: set<nat>, after: set<nat>, added: bool, key: nat, others: set<nat>)
      requires AddedKey(before, after, added, key)
      ensures after - others - (if added then {key} else {}) == before - others
    {
    }

    // The access list a child of `dir` inherits, and the volume once it is stored.
    method PrepareList(ghost v: Vol, parent: Inode, ghost dir: nat, isDir: bool)
      returns (status: Status, aces: seq<Ace>, block: nat, count: nat, ghost w: Vol)
      requires VolInv(v) && Backs(st.S(), v) && Live(v, dir) && parent == v.inodes[dir]
      modifies st
      ensures st.Valid() && VolInv(w) && Backs(st.S(), w) && Abs(w) == Abs(v) && w == v.(loose := w.loose)
      ensures status == Ok || status == Overflow || status == DiskFull
      ensures status != Ok ==> w == v && st.S() == old(st.S())
      ensures NodeSpace(Inherited(NodeAt(v, dir).acl, isDir), false, old(st.S()), st.S(), status)
      ensures status == Ok ==>
                AddedKey(v.loose.Keys, w.loose.Keys, block != 0, block) && |aces| <= INLINE_COUNT && count + INLINE_COUNT <= MAX_ACES &&
                (block == 0 ==> count == 0) && (block != 0 ==> block in w.loose && block !in w.aclRefs && ACE_SIZE * count <= |w.loose[block]|) &&
                Inherited(NodeAt(v, dir).acl, isDir) == aces + (if block != 0 && count > 0 then ParseList(w.loose[block], count) else [])
    {
      hide Inv, Contents, Singles, VolInv, TableOk, Inherited, AceFits, ParseList, HashOk, InodeDataOk, Abs, NodeSpace;
      ghost var s := st.S();
      InodeFact(v, dir);
      w := v;
      status, aces, block, count := InheritAcl(parent, isDir);
      if status == Ok {
        FreshBlockNoise(v, s, st.S());
        NoiseKeeps(v, Contents(st.S()), Singles(st.S()));
        AclNotShared(v, block);
        w := v.(files := Contents(st.S()), loose := Singles(st.S()));
      }
    }

    /** Inherits the access list and, for a directory, creates its empty table. On failure
        nothing visible has changed; blocks already taken are left unreferenced. */
    method PrepareNode(ghost v: Vol, parent: Inode, ghost dir: nat, isDir: bool, mode: bv16, cred: Cred, ghost i: nat)
      returns (status: Status, n: Inode, ghost w: Vol)
      requires VolInv(v) && Backs(st.S(), v) && Live(v, dir) && parent == v.inodes[dir] && v.hash == hash
      requires 0 < i < |v.inodes| && |v.used| == |v.inodes| && !v.used[i]
      modifies st
      ensures st.Valid() && VolInv(w) && Backs(st.S(), w) && Abs(w) == Abs(v)
      ensures w == v.(files := w.files, loose := w.loose)
      ensures status == Ok || status == Overflow || status == DiskFull
      ensures status == Ok ==> FreshNode(w, i, n) && n.isDir == isDir
      ensures NodeSpace(Inherited(NodeAt(v, dir).acl, isDir), isDir, old(st.S()), st.S(), status)
      ensures SameStreams(v, w)
      ensures status == Ok ==> AddedKey(v.files.Keys, w.files.Keys, isDir, n.hashRoot)
      ensures status == Ok ==> AddedKey(v.loose.Keys, w.loose.Keys, n.aclBlock != 0, n.aclBlock)
      ensures status == Ok ==>
                NewNode(n, Gathered(n, w.loose)) ==
                Node(isDir, mode, cred.uid, cred.gid, [], map[], Inherited(NodeAt(v, dir).acl, isDir))
    {
      hide Inv, Contents, Singles, VolInv, TableOk, Touched, Inherited, AceFits, ParseList, FreshNode, HashOk, InodeDataOk, Abs, NodeSpace, SameStreams;
      ghost var s := st.S();
      ghost var list := Inherited(NodeAt(v, dir).acl, isDir);
      InodeFact(v, dir);
      n := parent;
      var aces, block, count;
      status, aces, block, count, w := PrepareList(v, parent, dir, isDir);
      SameFiles(v, w, w);
      ghost var s1 := st.S();
      if status != Ok || !isDir { TableSpace(list, isDir, s, s1, s1, status, s1.free >= 2); }
      if status != Ok {
        return;
      }
      ghost var w1 := w;
      var root := 0;
      if isDir {
        var ok;
        ok, root, w := PrepareTable(w);
        SameFiles(v, w1, w);
        FreeCounts(s1);
        FreeCounts(st.S());
        TableSpace(list, isDir, s, s1, st.S(), Ok, ok);
        if !ok {
          return DiskFull, parent, w;
        }
      }
      n := Inode(isDir, mode, cred.uid, cred.gid, 1, aces, block, count, 0, 0, root, 0);
      NodeReady(w, i, n, NodeAt(v, dir).acl);
    }

    static lemma FreeCounts(s: State)
      requires Inv(s)
      ensures s.free == ClearBits(s.used)
    {
      hide Inv;
      BlockStore.StartAppend(s, 0);
    }

    static lemma SameFiles(v: Vol, w1: Vol, w: Vol)
      requires w1.files == v.files && (w == w1 || SameStreams(w1, w))
      ensures SameStreams(v, w)
    {
    }

    // The blocks of the access list, then those of the table.
    static lemma TableSpace(list: seq<Ace>, isDir: bool, s: State, s1: State, t: State, status: Status, ok: bool)
      requires NodeSpace(list, false, s, s1, status) && s1.bs == s.bs
      requires (ok <==> s1.free >= 2) && t.bs == s.bs && t.free == (if ok && isDir && status == Ok then s1.free - 2 else s1.free)
      requires status != Ok || !isDir ==> t == s1
      requires status == Ok && isDir && ok ==> Beside(s1, t) && s1.free == ClearBits(s1.used) && t.free == ClearBits(t.used)
      ensures NodeSpace(list, isDir, s, t, if status == Ok && isDir && !ok then DiskFull else status)
    {
      hide Beside;
      if status == Ok && isDir && ok { BesideTwice(s, s1, t); }
    }

    /** The empty table of a new directory, in a stream nobody refers to yet. */
    method PrepareTable(ghost v: Vol) returns (ok: bool, root: nat, ghost w: Vol)
      requires VolInv(v) && Backs(st.S(), v) && v.hash == hash
      modifies st
      ensures st.Valid() && VolInv(w) && Backs(st.S(), w) && Abs(w) == Abs(v) && w == v.(files := w.files) && SameStreams(v, w)
      ensures ok <==> old(st.freeBlocks) >= 2
      ensures st.freeBlocks == (if ok then old(st.freeBlocks) - 2 else old(st.freeBlocks)) && (ok ==> Beside(old(st.S()), st.S()))
      ensures ok ==>
                root != 0 && root !in v.refs && AddedKey(v.files.Keys, w.files.Keys, true, root) && root in w.files &&
                TableOk(hash, w.files[root], EmptyTable(), FIRST_RECORD)
    {
      hide Inv, Contents, Singles, VolInv, TableOk, Touched, Abs;
      ghost var s := st.S();
      w := v;
      ok, root := DirHash.Create(st, hash);
      if ok {
        ghost var t := st.S();
        FreshStreamNoise(v, s, t, root);
        NoiseKeeps(v, Contents(t), Singles(t));
        FreshRoot(v, s, t, root);
        w := v.(files := Contents(t), loose := Singles(t));
      }
    }

    static lemma FreshRoot(v: Vol, s: State, t: State, root: nat)
      requires VolInv(v) && v.files == Contents(s) && Inv(t) && Touched(s, t, 0, root) && root in t.streams
      ensures root !in v.refs && root != 0 && root in Contents(t) && BytesOf(Contents(t), root) == Contents(t)[root]
      ensures Singles(t) == Singles(s) && AddedKey(Contents(s).Keys, Contents(t).Keys, true, root)
      ensures SameStreams(v, v.(files := Contents(t), loose := Singles(t)))
    {
      hide Inv, Content, VolInv;
      NullFree(t);
      RefsFact(v);
    }

    static lemma AclNotShared(v: Vol, block: nat)
      requires VolInv(v)
      ensures block !in v.loose ==> block !in v.aclRefs
    {
      hide VolInv;
      RefsFact(v);
    }

    static lemma NodeReady(w: Vol, i: nat, n: Inode, parent: seq<Ace>)
      requires 0 < i < |w.inodes| && |w.used| == |w.inodes| && !w.used[i]
      requires n.links == 1 && n.dataRoot == 0 && n.size == 0 && n.entryCount == 0 && (!n.isDir ==> n.hashRoot == 0)
      requires n.isDir ==>
                 (n.hashRoot != 0 && n.hashRoot in w.files && n.hashRoot !in w.refs && TableOk(w.hash, w.files[n.hashRoot], EmptyTable(), FIRST_RECORD))
      requires |n.aces| <= INLINE_COUNT && n.aclCount + INLINE_COUNT <= MAX_ACES && (n.aclBlock == 0 ==> n.aclCount == 0)
      requires forall k :: 0 <= k < |parent| ==> AceFits(parent[k])
      requires n.aclBlock != 0 ==> n.aclBlock in w.loose && n.aclBlock !in w.aclRefs && ACE_SIZE * n.aclCount <= |w.loose[n.aclBlock]|
      requires Inherited(parent, n.isDir) ==
                 n.aces + (if n.aclBlock != 0 && n.aclCount > 0 then ParseList(w.loose[n.aclBlock], n.aclCount) else [])
      ensures FreshNode(w, i, n) && Gathered(n, w.loose) == Inherited(parent, n.isDir)
    {
      hide ParseList, AceFits, TableOk, Inherited;
      InheritedFits(parent, n.isDir);
      var all := Gathered(n, w.loose);
      assert all == Inherited(parent, n.isDir);
    }

    // `w` is `v` after directory `d` was given a new table, and `home` as the names.
    static ghost predicate Retabled(v: Vol, w: Vol, d: nat, home: map<nat, Place>) {
      d < |v.inodes| && d in w.dirs &&
      w == WithTable(v, d, w.dirs[d].table, w.dirs[d].free, BytesOf(w.files, v.inodes[d].hashRoot), home)
    }

    static lemma BindDone(v: Vol, s: State, d: nat, name: Name, c: nat, kind: nat, root: nat)
      requires VolInv(v) && Live(v, d) && d in v.dirs && name !in v.dirs[d].table.recs
      requires Live(v, c) && c != ROOT_INO && c !in v.home && kind == Kind(v.inodes[c])
      requires root == v.inodes[d].hashRoot && |v.dirs[d].table.chains| == BUCKETS
      requires TableOk(v.hash, BytesOf(Contents(s), root),
                       Inserted(v.hash, v.dirs[d].table, name, Rec(v.dirs[d].free, c, kind)), v.dirs[d].free + RecSize(|name|))
      ensures var t := Inserted(v.hash, v.dirs[d].table, name, Rec(v.dirs[d].free, c, kind));
              var free := v.dirs[d].free + RecSize(|name|);
              var w := WithTable(v, d, t, free, BytesOf(Contents(s), root), v.home[c := Place(d, name)]);
              VolInv(w) && d in Abs(v) && Abs(w) == Bind(Abs(v), d, name, Entry(c, kind)) &&
              |t.recs| == v.inodes[d].entryCount + 1
    {
      hide Inv, Contents, VolInv, TableOk, Abs, Bindings, RecSize, Inserted;
      var r := Rec(v.dirs[d].free, c, kind);
      var t := Inserted(v.hash, v.dirs[d].table, name, r);
      var free := v.dirs[d].free + RecSize(|name|);
      var h := BytesOf(Contents(s), root);
      InodeFact(v, d);
      HashRootFact(v, d);
      InsertedBindings(v.hash, v.dirs[d].table, name, r);
      BindNames(v, d, name, c, t, free, h);
      WithTableKeeps(v, d, t, free, h, v.home[c := Place(d, name)]);
      EntriesAre(v, d);
    }

    static lemma EntriesAre(v: Vol, d: nat)
      requires VolInv(v) && Live(v, d) && d in v.dirs
      ensures d in Abs(v) && Abs(v)[d].entries == Bindings(v.dirs[d].table)
    {
      hide VolInv, Bindings, InodeOk;
      InodeFact(v, d);
    }

    /** Whether directory `d` has room for a record with a name of length `n`: it ends inside
        the directory's stream, or a block can be appended to that. */
    static ghost predicate Fits(v: Vol, s: State, d: nat, n: nat) {
      d in v.dirs && d < |v.inodes| && RoomFor(s, v.inodes[d].hashRoot, v.dirs[d].free, n)
    }

    /** The record would end past the directory's stream. */
    static ghost predicate Crosses(v: Vol, d: nat, n: nat) {
      d in v.dirs && d < |v.inodes| && |BytesOf(v.files, v.inodes[d].hashRoot)| < v.dirs[d].free + DIRENT_SIZE + n
    }

    /** Every directory has room for exactly the records it had room for. */
    static ghost predicate SameRoom(v: Vol, s: State, w: Vol, t: State) {
      forall d: nat, n: nat {:trigger Fits(w, t, d, n)} :: Fits(w, t, d, n) <==> Fits(v, s, d, n)
    }

    /** What naming an entry does to space: it fails exactly when there is no room, and then
        the room is what it was; the next record starts after this one. */
    static ghost predicate BindSpace(v: Vol, s: State, w: Vol, t: State, d: nat, n: nat, ok: bool) {
      (ok <==> Fits(v, s, d, n)) && t.free <= s.free && d in v.dirs && d in w.dirs &&
      d < |v.inodes| && d < |w.inodes| && w.inodes[d].hashRoot == v.inodes[d].hashRoot &&
      w.dirs[d].free == v.dirs[d].free + (if ok then RecSize(n) else 0) &&
      (!Crosses(v, d, n) ==> SameLength(s, t, v.inodes[d].hashRoot)) &&
      (!ok ==> SameRoom(v, s, w, t))
    }

    static lemma SameRoomFrom(v: Vol, s: State, w: Vol, t: State, root: nat)
      requires SameAlloc(s, t) && Touched(s, t, root, root) && SameLength(s, t, root)
      requires w.dirs.Keys == v.dirs.Keys && |w.inodes| == |v.inodes|
      requires forall d :: d in v.dirs ==> w.dirs[d].free == v.dirs[d].free
      requires forall d :: 0 <= d < |v.inodes| ==> w.inodes[d].hashRoot == v.inodes[d].hashRoot
      ensures SameRoom(v, s, w, t)
    {
      hide Contents, Singles;
      forall d: nat, n: nat ensures Fits(w, t, d, n) <==> Fits(v, s, d, n) {
        if d in v.dirs && d < |v.inodes| {
          var r := v.inodes[d].hashRoot;
          assert |BytesOf(Contents(t), r)| == |BytesOf(Contents(s), r)|;
        }
      }
    }

    static lemma BindSpaceFrom(v: Vol, s: State, w: Vol, t: State, d: nat, n: nat, ok: bool)
      requires v.files == Contents(s) && d in v.dirs && d < |v.inodes| && d in w.dirs && |w.inodes| == |v.inodes|
      requires SpaceEffect(s, t, v.inodes[d].hashRoot, v.dirs[d].free, n, ok)
      requires w.inodes[d].hashRoot == v.inodes[d].hashRoot && w.dirs[d].free == v.dirs[d].free + (if ok then RecSize(n) else 0)
      requires !ok ==> SameRoom(v, s, w, t)
      ensures BindSpace(v, s, w, t, d, n, ok)
    {
      hide Contents, SameRoom, RecSize, BlockStore.CanAppend;
    }

    /** Gives the unnamed inode `c` the name `name` in directory `d`. */
    method BindEntry(d: nat, name: Name, c: nat, kind: nat) returns (ok: bool)
      requires Valid() && Live(V(), d) && d in dirs && name !in dirs[d].table.recs && 1 <= |name| <= NAME_MAX
      requires Live(V(), c) && c != ROOT_INO && c !in home && kind == Kind(inodes[c])
      modifies this`inodes, this`dirs, this`home, st
      ensures Valid() && LostStreams() == old(LostStreams()) && LostBlocks() == old(LostBlocks())
      ensures !ok ==> V() == old(V()).(files := V().files) && Tree() == old(Tree())
      ensures ok ==> Retabled(old(V()), V(), d, old(home)[c := Place(d, name)])
      ensures ok ==> d in old(Tree()) && Tree() == Bind(old(Tree()), d, name, Entry(c, kind))
      ensures BindSpace(old(V()), old(st.S()), V(), st.S(), d, |name|, ok)
    {
      hide Inv, Contents, Singles, VolInv, TableOk, Touched, Abs, Bindings, RecSize, Inserted, InodeOk, NodeAt, SpaceEffect, BindSpace, SameRoom, Retabled;
      ghost var v, s := V(), st.S();
      ghost var t, free := dirs[d].table, dirs[d].free;
      InodeFact(v, d);
      HashRootFact(v, d);
      InodeNumbers(v, c);
      var root := inodes[d].hashRoot;
      InStreams(s, root);
      ok := InsertInto(st, hash, root, name, c, kind, t, free);
      TouchedKeys(s, st.S(), root);
      if !ok {
        SameTableNoise(v, s, st.S(), d);
        NoiseKeeps(v, Contents(st.S()), Singles(st.S()));
        NoRoomLeft(v, s, V(), st.S(), d, |name|, root, free);
        return;
      }
      CountEntry(v, d, name, c, kind);
      RoomTaken(v, s, V(), st.S(), d, |name|, root, free, v.home[c := Place(d, name)]);
    }

    static lemma RoomTaken(v: Vol, s: State, w: Vol, t: State, d: nat, n: nat, root: nat, free: nat, home: map<nat, Place>)
      requires v.files == Contents(s) && d in v.dirs && d < |v.inodes| && root == v.inodes[d].hashRoot && free == v.dirs[d].free
      requires SpaceEffect(s, t, root, free, n, true) && Retabled(v, w, d, home) && w.dirs[d].free == free + RecSize(n)
      ensures BindSpace(v, s, w, t, d, n, true)
    {
      hide Contents, SameRoom, RecSize, BlockStore.CanAppend, SpaceEffect;
      BindSpaceFrom(v, s, w, t, d, n, true);
    }

    static lemma NoRoomLeft(v: Vol, s: State, w: Vol, t: State, d: nat, n: nat, root: nat, free: nat)
      requires v.files == Contents(s) && d in v.dirs && d < |v.inodes| && root == v.inodes[d].hashRoot && free == v.dirs[d].free
      requires Touched(s, t, root, root) && SpaceEffect(s, t, root, free, n, false) && w == v.(files := w.files)
      ensures BindSpace(v, s, w, t, d, n, false)
    {
      hide Contents, Singles, Touched, BlockStore.CanAppend, SameRoom;
      SameRoomFrom(v, s, w, t, root);
      BindSpaceFrom(v, s, w, t, d, n, false);
    }

    // The new entry is on disk: the directory inode counts it.
    method CountEntry(ghost v: Vol, d: nat, name: Name, ghost c: nat, ghost kind: nat)
      requires VolInv(v) && Live(v, d) && d in v.dirs && name !in v.dirs[d].table.recs && st.Valid()
      requires Live(v, c) && c != ROOT_INO && c !in v.home && kind == Kind(v.inodes[c])
      requires V() == v.(files := v.files[v.inodes[d].hashRoot := BytesOf(Contents(st.S()), v.inodes[d].hashRoot)])
      requires |v.dirs[d].table.chains| == BUCKETS
      requires TableOk(hash, BytesOf(Contents(st.S()), v.inodes[d].hashRoot),
                       Inserted(hash, v.dirs[d].table, name, Rec(v.dirs[d].free, c, kind)), v.dirs[d].free + RecSize(|name|))
      modifies this`inodes, this`dirs, this`home
      ensures Valid() && Retabled(v, V(), d, v.home[c := Place(d, name)]) && d in dirs && dirs[d].free == v.dirs[d].free + RecSize(|name|)
      ensures d in Abs(v) && Tree() == Bind(Abs(v), d, name, Entry(c, kind))
    {
      hide Inv, Contents, Singles, VolInv, TableOk, Abs, Bindings, RecSize, Inserted, InodeOk, NodeAt;
      BindDone(v, st.S(), d, name, c, kind, v.inodes[d].hashRoot);
      inodes := inodes[d := inodes[d].(entryCount := inodes[d].entryCount + 1)];
      dirs := dirs[d := Dir(Inserted(hash, v.dirs[d].table, name, Rec(v.dirs[d].free, c, kind)), v.dirs[d].free + RecSize(|name|))];
      home := home[c := Place(d, name)];
    }

    static lemma InodeNumbers(v: Vol, c: nat)
      requires VolInv(v) && Live(v, c)
      ensures c < U64_LIMIT && Kind(v.inodes[c]) < 256
    {
      hide InodesOk, RefsOk, NamesOk;
    }

    static lemma InStreams(s: State, root: nat)
      ensures root in Contents(s) <==> root in s.streams
      ensures root in Contents(s) ==> BytesOf(Contents(s), root) == Contents(s)[root]
    {
    }

    static lemma TouchedKeys(s: State, t: State, root: nat)
      requires Touched(s, t, root, root) && root != 0 && root in s.streams
      ensures Contents(t).Keys == Contents(s).Keys && Singles(t) == Singles(s)
      ensures Contents(t) == Contents(s)[root := BytesOf(Contents(t), root)]
    {
      hide Content;
    }

    static lemma InsertedBindings(hash: Name -> nat, t: Table, n: Name, r: Rec)
      requires |t.chains| == BUCKETS && n !in t.recs
      ensures var t' := Inserted(hash, t, n, r);
              t'.recs == t.recs[n := r] && t'.recs.Keys == t.recs.Keys + {n} && |t'.recs| == |t.recs| + 1 &&
              Bindings(t') == Bindings(t)[n := Entry(r.ino, r.kind)]
    {
      assert t.recs[n := r].Keys == t.recs.Keys + {n};
      assert |t.recs[n := r].Keys| == |t.recs.Keys| + 1;
    }

    static lemma UnbindDone(v: Vol, s: State, d: nat, name: Name, t: Table, root: nat)
      requires VolInv(v) && Live(v, d) && d in v.dirs && name in v.dirs[d].table.recs
      requires root == v.inodes[d].hashRoot && t.recs == v.dirs[d].table.recs - {name}
      requires TableOk(v.hash, BytesOf(Contents(s), root), t, v.dirs[d].free)
      ensures var c := v.dirs[d].table.recs[name].ino;
              var w := WithTable(v, d, t, v.dirs[d].free, BytesOf(Contents(s), root), v.home - {c});
              VolInv(w) && d in Abs(v) && Abs(w) == Unbind(Abs(v), d, name) &&
              v.inodes[d].entryCount > 0 && |t.recs| == v.inodes[d].entryCount - 1
    {
      hide Inv, Contents, VolInv, TableOk, Abs, Bindings, RecSize, Inserted;
      var c := v.dirs[d].table.recs[name].ino;
      var h := BytesOf(Contents(s), root);
      InodeFact(v, d);
      HashRootFact(v, d);
      RemovedBindings(v.dirs[d].table, t, name);
      UnbindNames(v, d, name, t, v.dirs[d].free, h);
      WithTableKeeps(v, d, t, v.dirs[d].free, h, v.home - {c});
      EntriesAre(v, d);
    }

    /** Takes the name `name` away from directory `d`; the inode it named stays, unnamed. */
    method UnbindEntry(d: nat, name: Name, ghost c: nat)
      requires Valid() && Live(V(), d) && d in dirs && name in dirs[d].table.recs && 1 <= |name| <= NAME_MAX
      requires c == dirs[d].table.recs[name].ino
      modifies this`inodes, this`dirs, this`home, st
      ensures Valid() && LostStreams() == old(LostStreams()) && LostBlocks() == old(LostBlocks())
      ensures Retabled(old(V()), V(), d, old(home) - {c})
      ensures d in dirs && dirs[d].table.recs == old(dirs)[d].table.recs - {name}
      ensures d in old(Tree()) && Tree() == Unbind(old(Tree()), d, name)
      ensures SameRoom(old(V()), old(st.S()), V(), st.S())
    {
      hide Inv, Contents, Singles, VolInv, TableOk, Touched, Abs, Bindings, InodeOk, NodeAt, SameRoom, SameAlloc, SameLength;
      ghost var v, s := V(), st.S();
      ghost var t, free := dirs[d].table, dirs[d].free;
      InodeFact(v, d);
      HashRootFact(v, d);
      var root := inodes[d].hashRoot;
      InStreams(s, root);
      BoundName(t, root, name);
      var status, t' := DirHash.Remove(st, hash, root, name, t, free);
      TouchedKeys(s, st.S(), root);
      UnbindDone(v, st.S(), d, name, t', root);
      inodes := inodes[d := inodes[d].(entryCount := inodes[d].entryCount - 1)];
      dirs := dirs[d := Dir(t', free)];
      home := home - {c};
      assert Retabled(v, V(), d, v.home - {c});
      hide Retabled;
      RoomKept(v, s, V(), st.S(), d, root, v.home - {c});
    }

    static lemma RoomKept(v: Vol, s: State, w: Vol, t: State, d: nat, root: nat, home: map<nat, Place>)
      requires SameAlloc(s, t) && Touched(s, t, root, root) && SameLength(s, t, root)
      requires d in v.dirs && Retabled(v, w, d, home) && w.dirs[d].free == v.dirs[d].free
      ensures SameRoom(v, s, w, t)
    {
      hide Contents, Singles, Touched, SameAlloc, SameLength, SameRoom;
      SameRoomFrom(v, s, w, t, root);
    }

    static lemma BoundName(t: Table, root: nat, n: Name)
      requires n in t.recs && root != 0 && 1 <= |n| <= NAME_MAX
      ensures LookupSpec(root, n, Bindings(t)).status == Ok
    {
    }

    static lemma RemovedBindings(t: Table, t': Table, n: Name)
      requires n in t.recs && t'.recs == t.recs - {n}
      ensures |t.recs| > 0 && |t'.recs| == |t.recs| - 1 && Bindings(t') == Bindings(t) - {n}
    {
      assert t.recs.Keys == t'.recs.Keys + {n};
      assert |t.recs.Keys| == |t'.recs.Keys| + 1;
    }

    /** Reads a directory inode and checks access to it. */
    method CheckDir(dir: nat, cred: Cred, request: bv32) returns (status: Status)
      requires Valid() && (dir == 0 || dir >= |inodes| || Live(V(), dir))
      ensures status == DirCheck(Tree(), |inodes|, dir, cred, request)
      ensures status == Ok ==> Live(V(), dir) && dir in dirs
    {
      hide Inv, Contents, Singles, VolInv, Abs, Allowed, HashOk, InodeDataOk, ParseList;
      if dir == 0 || dir >= |inodes| {
        return InvalidArg;
      }
      var n := inodes[dir];
      InodeFact(V(), dir);
      DirFact(V(), dir);
      if !n.isDir {
        return Unsupported;
      }
      var ok := CheckAccess(n, cred, request, NodeAt(V(), dir));
      return if ok then Ok else Permission;
    }

    /** Looks a name up in a directory that passed its check. */
    method FindName(dir: nat, name: Name) returns (r: Found)
      requires Valid() && Live(V(), dir) && dir in dirs
      ensures dir in Tree() && r.status == NameCheck(Tree(), dir, name)
      ensures r.status == Ok ==>
                name in dirs[dir].table.recs && 1 <= |name| <= NAME_MAX &&
                r.ino == dirs[dir].table.recs[name].ino && r.kind == dirs[dir].table.recs[name].kind &&
                Tree()[dir].entries[name] == Entry(r.ino, r.kind)
      ensures r.status == NotFound ==> name !in dirs[dir].table.recs && 1 <= |name| <= NAME_MAX
    {
      hide Inv, Contents, Singles, VolInv, Abs, TableOk, InodeOk;
      InodeFact(V(), dir);
      HashRootFact(V(), dir);
      EntriesAre(V(), dir);
      InStreams(st.S(), inodes[dir].hashRoot);
      r := DirHash.Lookup(st, hash, inodes[dir].hashRoot, name, dirs[dir].table, dirs[dir].free);
    }

    /** A successful create or mkdir: one fresh empty node with the inherited list, bound
        under one fresh name; no stream or block is lost. */
    static ghost predicate ChildMade(v: Vol, w: Vol, dir: nat, name: Name, i: nat, isDir: bool, mode: bv16, cred: Cred) {
      dir in Abs(v) &&
      Added(Abs(v), Abs(w), dir, name, i, Node(isDir, mode, cred.uid, cred.gid, [], map[], Inherited(Abs(v)[dir].acl, isDir))) &&
      w.home == v.home[i := Place(dir, name)] &&
      w.files.Keys - w.refs.Keys == v.files.Keys - v.refs.Keys && w.loose.Keys - w.aclRefs.Keys == v.loose.Keys - v.aclRefs.Keys
    }

    /** What create and mkdir answer for want of space, the name having length `n`. */
    static ghost predicate AddStatus(v: Vol, s: State, dir: nat, n: nat, isDir: bool, status: Status) {
      dir in Abs(v) &&
      var list := Inherited(Abs(v)[dir].acl, isDir);
      status == if TooLong(list, s.bs) then Overflow else if AddFits(v, s, dir, n, NodeBlocks(list, isDir)) then Ok else DiskFull
    }

    /** There is space for a node that takes `taken` blocks and for its record: that ends
        inside the directory's stream, or two more blocks are free, or one that can be
        recorded in the stream's last list block. First fit leaves the last free block. */
    static ghost predicate AddFits(v: Vol, s: State, dir: nat, n: nat, taken: nat) {
      var left := s.free - taken;
      left >= 0 && dir < |v.inodes| &&
      var root := v.inodes[dir].hashRoot;
      (Crosses(v, dir, n) ==> left >= 2 || (left == 1 && root in s.streams && BlockStore.Recordable(s.streams[root], LastClear(s.used), s.bs)))
    }

    /** The same, with the record placed and the blocks taken on success. */
    static ghost predicate AddSpace(v: Vol, s: State, w: Vol, t: State, dir: nat, n: nat, isDir: bool, status: Status) {
      AddStatus(v, s, dir, n, isDir, status) &&
      (status == Ok ==> Placed(v, w, dir, n) && t.free <= s.free - NodeBlocks(Inherited(Abs(v)[dir].acl, isDir), isDir))
    }

    /** A record with a name of length `n` went to the end of directory `d`. */
    static ghost predicate Placed(v: Vol, w: Vol, d: nat, n: nat) {
      d in v.dirs && d in w.dirs && d < |v.inodes| && d < |w.inodes| && w.dirs[d].free == v.dirs[d].free + RecSize(n) &&
      (!Crosses(v, d, n) ==> TableLength(w, d) == TableLength(v, d))
    }

    // The bytes a directory's table can hold without a new block.
    static ghost function TableLength(v: Vol, d: nat): nat {
      if d < |v.inodes| then |BytesOf(v.files, v.inodes[d].hashRoot)| else 0
    }

    /** Create (`isDir` false) and mkdir (`isDir` true). */
    method AddChild(dir: nat, name: Name, isDir: bool, mode: bv16, cred: Cred) returns (status: Status, ino: nat)
      requires Valid() && (dir == 0 || dir >= |inodes| || Live(V(), dir))
      modifies this, st
      ensures Valid()
      ensures var check := AddCheck(old(Tree()), |old(inodes)|, dir, name, cred);
              (check != Ok ==> status == check && V() == old(V())) &&
              (check == Ok && old(freeInodes) == 0 ==> status == OutOfMemory && V() == old(V())) &&
              (check == Ok && old(freeInodes) > 0 ==>
                AddSpace(old(V()), old(st.S()), V(), st.S(), dir, |name|, isDir, status))
      ensures status != Ok ==> Tree() == old(Tree()) && home == old(home)
      ensures status == Ok ==> ChildMade(old(V()), V(), dir, name, ino, isDir, mode & 0x0FFF, cred)
      ensures |inodes| == |old(inodes)|
    {
      hide Inv, Contents, Singles, VolInv, Abs, TableOk, Allowed, Inherited, ChildMade, InodeOk, NodeAt, AddSpace;
      ino := 0;
      status := CheckDir(dir, cred, WRITE_DATA);
      if status != Ok {
        return;
      }
      var found := FindName(dir, name);
      if found.status == Ok {
        return AlreadyExists, 0;
      }
      if found.status != NotFound {
        return found.status, 0;
      }
      ghost var v := V();
      ShapeFact(v);
      var slot := AllocInode();
      if slot.None? {
        return OutOfMemory, 0;
      }
      ino := slot.value;
      InodeFact(v, dir);
      status := MakeChild(v, dir, name, isDir, mode & 0x0FFF, cred, ino);
    }

    // The inode `i` has just been taken from the bitmap; everything else is as in `v`.
    ghost predicate InodeTaken(v: Vol, i: nat)
      reads this, st
    {
      VolInv(v) && st.Valid() && 0 < i < |v.inodes| && |v.used| == |v.inodes| && !v.used[i] &&
      V() == v.(used := v.used[i := true], free := v.free - 1)
    }

    /** Everything after the inode was taken: the new inode, its streams, its name. */
    method MakeChild(ghost v: Vol, dir: nat, name: Name, isDir: bool, mode: bv16, cred: Cred, i: nat) returns (status: Status)
      requires InodeTaken(v, i) && Live(v, dir) && dir in v.dirs && name !in v.dirs[dir].table.recs && 1 <= |name| <= NAME_MAX
      modifies this, st
      ensures Valid() && |inodes| == |v.inodes|
      ensures AddSpace(v, old(st.S()), V(), st.S(), dir, |name|, isDir, status)
      ensures status != Ok ==> Tree() == Abs(v) && home == v.home
      ensures status == Ok ==> ChildMade(v, V(), dir, name, i, isDir, mode, cred)
    {
      hide Inv, Contents, Singles, VolInv, Abs, TableOk, Inherited, FreshNode, InodeOk, Gathered, NewNode, AceFits, AddedKey, ChildMade,
           NodeAt, BindSpace, Fits, NodeSpace, SameStreams, AddSpace, WithNode;
      InodeFact(v, dir);
      ghost var s := st.S();
      var n;
      ghost var w;
      status, n, w := PrepareNode(v, inodes[dir], dir, isDir, mode, cred, i);
      ghost var s1 := st.S();
      if status != Ok {
        BlockStore.StartAppend(s, 0);
        NoNodeSpace(v, s, w, s1, dir, |name|, isDir, status);
        BlockStore.UndoAlloc(v.used, i);
        FreeInode(i);
        assert V() == w;
        return;
      }
      Install(w, i, n);
      ghost var x := V();
      status := NameChild(v, w, dir, name, i, n, mode, cred);
      FreshElsewhere(v, w, x, dir, i, n);
      FreeCounts(s);
      AddSpaceFrom(v, s, w, s1, x, V(), st.S(), dir, |name|, i, isDir, status);
    }

    static lemma FreshElsewhere(v: Vol, w: Vol, x: Vol, dir: nat, i: nat, n: Inode)
      requires VolInv(w) && FreshNode(w, i, n) && i < |w.inodes| && i < |w.used| && x == WithNode(w, i, n)
      requires Live(v, dir) && dir in v.dirs && w == v.(files := w.files, loose := w.loose)
      ensures i != dir && x.files == w.files && |x.inodes| == |w.inodes| && x.inodes[dir] == w.inodes[dir]
      ensures dir in x.dirs && x.dirs[dir] == w.dirs[dir]
    {
      hide VolInv, TableOk, AceFits, Gathered;
    }

    // The inode is in the table: it gets its name, or is given back.
    method NameChild(ghost v: Vol, ghost w: Vol, dir: nat, name: Name, i: nat, n: Inode, ghost mode: bv16, ghost cred: Cred) returns (status: Status)
      requires VolInv(v) && VolInv(w) && Live(v, dir) && dir in v.dirs && name !in v.dirs[dir].table.recs && 1 <= |name| <= NAME_MAX
      requires Abs(w) == Abs(v) && w == v.(files := w.files, loose := w.loose) && FreshNode(w, i, n)
      requires AddedKey(v.files.Keys, w.files.Keys, n.isDir, n.hashRoot) && AddedKey(v.loose.Keys, w.loose.Keys, n.aclBlock != 0, n.aclBlock)
      requires NewNode(n, Gathered(n, w.loose)) == Node(n.isDir, mode, cred.uid, cred.gid, [], map[], Inherited(NodeAt(v, dir).acl, n.isDir))
      requires i < |w.inodes| && i < |w.used| && Valid() && V() == WithNode(w, i, n) && Live(V(), i) && i !in home && i != ROOT_INO
      requires Tree() == Abs(w)[i := NewNode(n, Gathered(n, w.loose))]
      requires LostStreams() == w.files.Keys - w.refs.Keys - (if n.isDir then {n.hashRoot} else {})
      requires LostBlocks() == w.loose.Keys - w.aclRefs.Keys - (if n.aclBlock != 0 then {n.aclBlock} else {})
      modifies this, st
      ensures Valid() && |inodes| == |v.inodes| && (status == Ok || status == DiskFull)
      ensures status == Ok <==> Fits(old(V()), old(st.S()), dir, |name|)
      ensures status == Ok ==> BindSpace(old(V()), old(st.S()), V(), st.S(), dir, |name|, true)
      ensures status != Ok ==> Tree() == Abs(v) && home == v.home
      ensures status == Ok ==> ChildMade(v, V(), dir, name, i, n.isDir, mode, cred)
    {
      hide Inv, Contents, Singles, VolInv, Abs, TableOk, Inherited, FreshNode, InodeOk, Gathered, NewNode, AceFits, AddedKey, ChildMade, NodeAt, BindSpace, Fits;
      ghost var v0, s0 := V(), st.S();
      FreshKeys(w, i, n);
      InodeFact(v, dir);
      var ok := BindEntry(dir, name, i, Kind(n));
      BindDecided(v0, s0, V(), st.S(), dir, |name|, ok);
      if !ok {
        Forget(w, i, n);
        return DiskFull;
      }
      ChildDone(v, w, V(), dir, name, i, n, n.isDir, mode, cred);
      status := Ok;
    }

    static lemma BindDecided(v: Vol, s: State, w: Vol, t: State, d: nat, n: nat, ok: bool)
      requires BindSpace(v, s, w, t, d, n, ok)
      ensures ok <==> Fits(v, s, d, n)
    {
    }

    // The blocks of the node, then the room for its name, in the volume `x` that has the node.
    static lemma AddSpaceFrom(v: Vol, s: State, w: Vol, s1: State, x: Vol, y: Vol, t: State,
                              dir: nat, n: nat, i: nat, isDir: bool, status: Status)
      requires VolInv(v) && Live(v, dir) && dir in v.dirs && v.files == Contents(s) && w == v.(files := w.files, loose := w.loose)
      requires NodeSpace(Inherited(NodeAt(v, dir).acl, isDir), isDir, s, s1, Ok) && SameStreams(v, w) && w.files == Contents(s1)
      requires i != dir && x.files == w.files && |x.inodes| == |w.inodes| && x.inodes[dir] == w.inodes[dir]
      requires dir in x.dirs && x.dirs[dir] == w.dirs[dir]
      requires status == Ok || status == DiskFull
      requires status == Ok <==> Fits(x, s1, dir, n)
      requires y.files == Contents(t) && (status == Ok ==> BindSpace(x, s1, y, t, dir, n, true))
      requires Inv(s1) && s1.bs == s.bs && s.free >= 0
      ensures AddSpace(v, s, y, t, dir, n, isDir, status)
    {
      hide VolInv, Inv, Contents, TableOk, InodeOk, Inherited, NodeAt, Beside, BlockStore.CanAppend, BlockStore.Recordable, Fits, Crosses, BindSpace, Placed;
      InodeFact(v, dir);
      HashRootFact(v, dir);
      InStreams(s, v.inodes[dir].hashRoot);
      AppendAfter(s, s1, v.inodes[dir].hashRoot);
      SameRecord(v, w, s1, x, dir, n);
      if status == Ok { PlacedFrom(v, w, s1, x, y, t, dir, n); }
    }

    // The directory's stream is as long as it was before the node was made.
    static lemma SameRecord(v: Vol, w: Vol, s1: State, x: Vol, dir: nat, n: nat)
      requires dir in v.dirs && dir < |v.inodes| && w == v.(files := w.files, loose := w.loose) && SameStreams(v, w) && w.files == Contents(s1)
      requires x.files == w.files && |x.inodes| == |w.inodes| && x.inodes[dir] == w.inodes[dir] && dir in x.dirs && x.dirs[dir] == w.dirs[dir]
      requires v.inodes[dir].hashRoot in v.files
      ensures Fits(x, s1, dir, n) <==> !Crosses(v, dir, n) || BlockStore.CanAppend(s1, v.inodes[dir].hashRoot)
      ensures Crosses(x, dir, n) <==> Crosses(v, dir, n)
      ensures TableLength(x, dir) == TableLength(v, dir)
    {
      hide Contents, BlockStore.CanAppend;
    }

    static lemma PlacedFrom(v: Vol, w: Vol, s1: State, x: Vol, y: Vol, t: State, dir: nat, n: nat)
      requires BindSpace(x, s1, y, t, dir, n, true) && x.files == Contents(s1) && y.files == Contents(t)
      requires dir in v.dirs && dir < |v.inodes| && w == v.(files := w.files, loose := w.loose) && |x.inodes| == |w.inodes| &&
               x.inodes[dir] == w.inodes[dir] && dir in x.dirs && x.dirs[dir] == w.dirs[dir]
      requires (Crosses(x, dir, n) <==> Crosses(v, dir, n)) && TableLength(x, dir) == TableLength(v, dir)
      ensures Placed(v, y, dir, n) && t.free <= s1.free
    {
      hide Contents, Fits, Crosses;
    }

    // What was taken was the lowest blocks, so the last one left is the last of all.
    static lemma AppendAfter(s: State, s1: State, root: nat)
      requires Beside(s, s1) && Inv(s1) && s1.bs == s.bs && root in s.streams
      ensures BlockStore.CanAppend(s1, root) <==>
                s1.free >= 2 || (s1.free == 1 && BlockStore.Recordable(s.streams[root], LastClear(s.used), s.bs))
    {
      hide Inv, BlockStore.Recordable;
      FreeCounts(s1);
      if s1.free == 1 { OnlyClear(s1.used); }
    }

    // The node itself could not be made.
    static lemma NoNodeSpace(v: Vol, s: State, w: Vol, s1: State, dir: nat, n: nat, isDir: bool, status: Status)
      requires Live(v, dir) && NodeSpace(Inherited(NodeAt(v, dir).acl, isDir), isDir, s, s1, status)
      requires (status == Overflow || status == DiskFull) && s.free >= 0
      ensures AddSpace(v, s, w, s1, dir, n, isDir, status)
    {
      hide Inherited, NodeAt, Crosses, Fits;
    }

    static lemma ChildDone(v: Vol, w: Vol, y: Vol, dir: nat, name: Name, i: nat, n: Inode, isDir: bool, mode: bv16, cred: Cred)
      requires VolInv(v) && VolInv(w) && Live(v, dir) && dir in v.dirs && name !in v.dirs[dir].table.recs
      requires Abs(w) == Abs(v) && w == v.(files := w.files, loose := w.loose)
      requires FreshNode(w, i, n) && n.isDir == isDir && dir in Abs(w)
      requires AddedKey(v.files.Keys, w.files.Keys, isDir, n.hashRoot) && AddedKey(v.loose.Keys, w.loose.Keys, n.aclBlock != 0, n.aclBlock)
      requires NewNode(n, Gathered(n, w.loose)) == Node(isDir, mode, cred.uid, cred.gid, [], map[], Inherited(NodeAt(v, dir).acl, isDir))
      requires Abs(y) == Bind(Abs(w)[i := NewNode(n, Gathered(n, w.loose))], dir, name, Entry(i, Kind(n)))
      requires y.home == v.home[i := Place(dir, name)]
      requires y.files.Keys - y.refs.Keys == w.files.Keys - w.refs.Keys - (if n.isDir then {n.hashRoot} else {})
      requires y.loose.Keys - y.aclRefs.Keys == w.loose.Keys - w.aclRefs.Keys - (if n.aclBlock != 0 then {n.aclBlock} else {})
      ensures ChildMade(v, y, dir, name, i, isDir, mode, cred)
    {
      hide VolInv, Abs, Inherited, FreshNode, Gathered, NodeAt, InodeOk;
      InodeFact(v, dir);
      EntriesAre(v, dir);
      FreshKeys(w, i, n);
      AddedSteps(Abs(v), dir, name, i, Entry(i, Kind(n)), NewNode(n, Gathered(n, w.loose)));
      KeyUsed(v.files.Keys, w.files.Keys, isDir, n.hashRoot, v.refs.Keys);
      KeyUsed(v.loose.Keys, w.loose.Keys, n.aclBlock != 0, n.aclBlock, v.aclRefs.Keys);
    }

    static lemma FreshKeys(w: Vol, i: nat, n: Inode)
      requires FreshNode(w, i, n) && VolInv(w)
      ensures i !in w.dirs && i !in Abs(w)
      ensures n.isDir ==> n.hashRoot !in w.refs
      ensures n.aclBlock != 0 ==> n.aclBlock !in w.aclRefs
    {
      hide VolInv, TableOk, AceFits, Gathered;
      DirFact(w, i);
    }

    static lemma AddedSteps(a: Fs, dir: nat, name: Name, i: nat, e: Entry, node: Node)
      requires dir in a && i !in a
      ensures Bind(a[i := node], dir, name, e) == Bind(a, dir, name, e)[i := node]
    {
    }

    // Writes a new inode into the table; it is live but not named yet.
    method Install(ghost w: Vol, i: nat, n: Inode)
      requires VolInv(w) && st.Valid() && Backs(st.S(), w) && FreshNode(w, i, n)
      requires V() == w.(used := w.used[i := true], free := w.free - 1)
      modifies this`inodes, this`dirs, this`refs, this`aclRefs
      ensures Valid() && i < |w.inodes| && i < |w.used| && V() == WithNode(w, i, n)
      ensures Live(V(), i) && i !in home && i != ROOT_INO
      ensures Tree() == Abs(w)[i := NewNode(n, Gathered(n, w.loose))]
      ensures LostStreams() == w.files.Keys - w.refs.Keys - (if n.isDir then {n.hashRoot} else {})
      ensures LostBlocks() == w.loose.Keys - w.aclRefs.Keys - (if n.aclBlock != 0 then {n.aclBlock} else {})
    {
      hide Inv, Contents, Singles, VolInv, Abs, TableOk, Gathered, FreshNode, AceFits;
      WithNodeKeeps(w, i, n);
      WithNodeLost(w, i, n);
      inodes := inodes[i := n];
      dirs := if n.isDir then dirs[i := Dir(EmptyTable(), FIRST_RECORD)] else dirs;
      refs := if n.isDir then refs[n.hashRoot := HashRef(i)] else refs;
      aclRefs := if n.aclBlock != 0 then aclRefs[n.aclBlock := i] else aclRefs;
      assert V() == WithNode(w, i, n);
    }

    static lemma WithNodeLost(w: Vol, i: nat, n: Inode)
      requires i < |w.inodes| && i < |w.used|
      ensures var x := WithNode(w, i, n);
              x.files.Keys - x.refs.Keys == w.files.Keys - w.refs.Keys - (if n.isDir then {n.hashRoot} else {}) &&
              x.loose.Keys - x.aclRefs.Keys == w.loose.Keys - w.aclRefs.Keys - (if n.aclBlock != 0 then {n.aclBlock} else {})
    {
    }

    // Gives the inode back; whatever streams and blocks it had stay allocated.
    method Forget(ghost w: Vol, i: nat, ghost n: Inode)
      requires Valid() && VolInv(w) && FreshNode(w, i, n) && i < |w.inodes| && i < |w.used|
      requires V() == WithNode(w, i, n).(files := V().files)
      requires Tree() == Abs(w)[i := NewNode(n, Gathered(n, w.loose))]
      modifies this`used, this`freeInodes, this`dirs, this`refs, this`aclRefs
      ensures Valid() && Tree() == Abs(w) && home == w.home
    {
      hide Inv, Contents, Singles, VolInv, Abs, TableOk, Gathered, FreshNode, NewNode;
      ghost var v := V();
      ForgetDone(v, w, i, n);
      FreeInode(i);
      dirs := dirs - {i};
      refs := RefsWithout(refs, i);
      aclRefs := AclsWithout(aclRefs, i);
      assert V() == WithoutNode(v, i, v.files);
    }

    static lemma ForgetDone(v: Vol, w: Vol, i: nat, n: Inode)
      requires VolInv(v) && VolInv(w) && FreshNode(w, i, n) && v == WithNode(w, i, n).(files := v.files)
      requires Abs(v) == Abs(w)[i := NewNode(n, Gathered(n, w.loose))]
      ensures i < |v.used| && VolInv(WithoutNode(v, i, v.files)) && Abs(WithoutNode(v, i, v.files)) == Abs(w)
    {
      hide VolInv, Abs, TableOk, Gathered, AceFits, NodeAt, NewNode;
      WithNodeNames(w, i, n);
      ShapeFact(w);
      DirFact(w, i);
      NotLive(w, i);
      DropFresh(v, i);
    }

    static lemma NotLive(w: Vol, i: nat)
      requires i < |w.used| && !w.used[i]
      ensures i !in Abs(w)
    {
    }

    static lemma DropFresh(v: Vol, i: nat)
      requires VolInv(v) && Live(v, i) && i != ROOT_INO && i !in v.home
      requires i in v.dirs ==> v.dirs[i].table.recs == map[]
      ensures VolInv(WithoutNode(v, i, v.files)) && Abs(WithoutNode(v, i, v.files)) == Abs(v) - {i}
    {
      hide VolInv, Abs;
      ShapeFact(v);
      RefsFact(v);
      WithoutNodeKeeps(v, i, v.files);
    }

    // ------------------------------------------------------------------------------
    // Remove

    /** Frees the streams of an unnamed inode, each block once, and then the inode. Its
        overflow block, if any, is not freed. */
    method DropNode(c: nat, n: Inode)
      requires c < |inodes| && n == inodes[c]
      requires Valid() && Live(V(), c) && c != ROOT_INO && c !in home
      requires c in dirs ==> dirs[c].table.recs == map[]
      modifies this`used, this`freeInodes, this`dirs, this`refs, this`aclRefs, st
      ensures Valid() && Tree() == old(Tree()) - {c}
      ensures Contents(st.S()) == Contents(old(st.S())) - {n.dataRoot, n.hashRoot}
      ensures LostStreams() == old(LostStreams())
      ensures LostBlocks() == old(LostBlocks()) + (if n.aclBlock != 0 then {n.aclBlock} else {})
    {
      hide Inv, Contents, Singles, VolInv, Abs, TableOk, NodeAt, Removed, RefsWithout, AclsWithout;
      ghost var v := V();
      RootFacts(v, st.S(), c);
      if n.isDir {
        st.FreeChain(n.hashRoot);
      }
      InStreams(st.S(), n.dataRoot);
      st.FreeChain(n.dataRoot);
      ghost var files := Contents(st.S());
      MinusTwo(v, c, files);
      DropStreams(v, c, files);
      FreeInode(c);
      dirs := dirs - {c};
      refs := RefsWithout(refs, c);
      aclRefs := AclsWithout(aclRefs, c);
      assert V() == WithoutNode(v, c, files);
    }

    static lemma RootFacts(v: Vol, s: State, c: nat)
      requires VolInv(v) && Live(v, c) && v.files == Contents(s)
      ensures var n := v.inodes[c];
              (n.isDir ==> n.hashRoot in s.streams && n.hashRoot != n.dataRoot) &&
              (n.dataRoot == 0 || (n.dataRoot in s.streams && n.dataRoot in v.files))
    {
      hide VolInv, TableOk, AclOk, NodeAt;
      InodeFact(v, c);
      assert Contents(s).Keys == s.streams.Keys;
    }

    static lemma MinusTwo(v: Vol, c: nat, files: map<nat, seq<Byte>>)
      requires VolInv(v) && Live(v, c)
      requires files == if v.inodes[c].isDir then v.files - {v.inodes[c].hashRoot} - {v.inodes[c].dataRoot}
                        else v.files - {v.inodes[c].dataRoot}
      ensures files == v.files - {v.inodes[c].dataRoot, v.inodes[c].hashRoot}
    {
      hide VolInv, TableOk, AclOk;
      ShapeFact(v);
      InodeFact(v, c);
    }

    static lemma DropStreams(v: Vol, c: nat, files: map<nat, seq<Byte>>)
      requires VolInv(v) && Live(v, c) && c != ROOT_INO && c !in v.home
      requires c in v.dirs ==> v.dirs[c].table.recs == map[]
      requires files == v.files - {v.inodes[c].dataRoot, v.inodes[c].hashRoot}
      ensures VolInv(WithoutNode(v, c, files)) && Abs(WithoutNode(v, c, files)) == Abs(v) - {c}
      ensures files.Keys - RefsWithout(v.refs, c).Keys == v.files.Keys - v.refs.Keys
      ensures v.loose.Keys - AclsWithout(v.aclRefs, c).Keys ==
              v.loose.Keys - v.aclRefs.Keys + (if v.inodes[c].aclBlock != 0 then {v.inodes[c].aclBlock} else {})
    {
      hide VolInv, Abs, TableOk, NodeAt, Gathered, AceFits;
      ShapeFact(v);
      InodeFact(v, c);
      RefsFact(v);
      forall r | r in v.refs && v.refs[r].ino != c
        ensures r in files && files[r] == v.files[r]
      {
        assert RefBacked(v, r);
      }
      WithoutNodeKeeps(v, c, files);
      LostSame(v, c, files);
    }

    static lemma LostSame(v: Vol, c: nat, files: map<nat, seq<Byte>>)
      requires RefsOk(v) && InodeOk(v, c) && 0 !in v.files && 0 !in v.loose
      requires files == v.files - {v.inodes[c].dataRoot, v.inodes[c].hashRoot}
      ensures files.Keys - RefsWithout(v.refs, c).Keys == v.files.Keys - v.refs.Keys
      ensures v.loose.Keys - AclsWithout(v.aclRefs, c).Keys ==
              v.loose.Keys - v.aclRefs.Keys + (if v.inodes[c].aclBlock != 0 then {v.inodes[c].aclBlock} else {})
    {
      hide TableOk, Gathered, AceFits;
      var n := v.inodes[c];
      var refs, acls := RefsWithout(v.refs, c), AclsWithout(v.aclRefs, c);
      forall r | r in v.refs
        ensures r in refs <==> !(r == n.dataRoot || r == n.hashRoot)
      {
        assert RefBacked(v, r);
      }
      forall r
        ensures r in files && r !in refs <==> r in v.files && r !in v.refs
      {
      }
      forall b | b in v.aclRefs
        ensures b in acls <==> b != n.aclBlock
      {
        assert AclBacked(v, b);
      }
    }

    /** A successful unlink: one binding and its node are gone, no stream is lost, and of
        the blocks only the overflow block of the removed inode is. */
    static ghost predicate RemoveEffect(v: Vol, w: Vol, dir: nat, name: Name) {
      Dropped(Abs(v), Abs(w), dir, name) &&
      var c := Abs(v)[dir].entries[name].ino;
      w.home == v.home - {c} &&
      w.files.Keys - w.refs.Keys == v.files.Keys - v.refs.Keys &&
      c < |v.inodes| &&
      w.loose.Keys - w.aclRefs.Keys ==
        v.loose.Keys - v.aclRefs.Keys + (if v.inodes[c].aclBlock != 0 then {v.inodes[c].aclBlock} else {})
    }

    /** Unlink, for files and for empty directories. */
    method Remove(dir: nat, name: Name, cred: Cred) returns (status: Status)
      requires Valid() && (dir == 0 || dir >= |inodes| || Live(V(), dir))
      modifies this, st
      ensures Valid() && status == RemoveCheck(old(Tree()), |old(inodes)|, dir, name, cred)
      ensures status != Ok ==> V() == old(V())
      ensures status == Ok ==> RemoveEffect(old(V()), V(), dir, name)
      ensures |inodes| == |old(inodes)|
    {
      hide Inv, Contents, Singles, VolInv, Abs, TableOk, Allowed, NodeAt, InodeOk;
      status := CheckDir(dir, cred, DELETE_CHILD);
      if status != Ok {
        return;
      }
      var found := FindName(dir, name);
      if found.status != Ok {
        return found.status;
      }
      ghost var v := V();
      var target := found.ino;
      TargetFacts(v, dir, name);
      var n := inodes[target];
      if n.isDir && n.entryCount > 0 {
        return Busy;
      }
      assert n.links == 1;
      DropEntry(dir, name, target, n);
    }

    /** The same for callers that tell unlink from rmdir. */
    method RemoveAs(dir: nat, name: Name, cred: Cred, expectDir: bool) returns (status: Status)
      requires Valid() && (dir == 0 || dir >= |inodes| || Live(V(), dir))
      modifies this, st
      ensures Valid() && status == RemoveAsCheck(old(Tree()), |old(inodes)|, dir, name, cred, expectDir)
      ensures status != Ok ==> V() == old(V())
      ensures status == Ok ==> RemoveEffect(old(V()), V(), dir, name)
      ensures |inodes| == |old(inodes)|
    {
      hide Inv, Contents, Singles, VolInv, Abs, TableOk, Allowed, NodeAt, InodeOk;
      status := CheckDir(dir, cred, DELETE_CHILD);
      if status != Ok {
        return;
      }
      var found := FindName(dir, name);
      if found.status != Ok {
        return found.status;
      }
      TargetFacts(V(), dir, name);
      if inodes[found.ino].isDir != expectDir {
        return Unsupported;
      }
      if inodes[found.ino].isDir && inodes[found.ino].entryCount > 0 {
        return Busy;
      }
      DropEntry(dir, name, found.ino, inodes[found.ino]);
    }

    /** The entry goes first, then the streams and the inode it named. */
    method DropEntry(dir: nat, name: Name, target: nat, n: Inode)
      requires Valid() && Live(V(), dir) && dir in dirs && name in dirs[dir].table.recs && 1 <= |name| <= NAME_MAX
      requires target == dirs[dir].table.recs[name].ino && target < |inodes| && n == inodes[target]
      requires n.isDir ==> n.entryCount == 0
      modifies this, st
      ensures Valid() && RemoveEffect(old(V()), V(), dir, name) && |inodes| == |old(inodes)|
    {
      hide Inv, Contents, Singles, VolInv, Abs, TableOk, NodeAt, InodeOk, Bindings;
      ghost var v := V();
      TargetFacts(v, dir, name);
      UnbindEntry(dir, name, target);
      RetabledNode(v, V(), dir, target);
      DropNode(target, n);
      EntriesAre(v, dir);
      EntryOf(v.dirs[dir].table, name);
    }

    static lemma EntryOf(t: Table, n: Name)
      requires n in t.recs
      ensures n in Bindings(t) && Bindings(t)[n] == Entry(t.recs[n].ino, t.recs[n].kind)
    {
    }

    // The node a directory entry names, before the entry is removed.
    static lemma TargetFacts(v: Vol, d: nat, name: Name)
      requires VolInv(v) && Live(v, d) && d in v.dirs && name in v.dirs[d].table.recs
      ensures var c := v.dirs[d].table.recs[name].ino;
              Live(v, c) && c != ROOT_INO && c in Abs(v) && c in v.home && v.inodes[c].links == 1 &&
              Abs(v)[c].isDir == v.inodes[c].isDir && v.dirs[d].table.recs[name].kind == Kind(v.inodes[c]) &&
              (v.inodes[c].isDir ==>
                c in v.dirs && v.inodes[c].entryCount == |v.dirs[c].table.recs| &&
                Abs(v)[c].entries == Bindings(v.dirs[c].table)) &&
              (v.inodes[c].isDir && v.inodes[c].entryCount == 0 ==> c != d && v.dirs[c].table.recs == map[] && Abs(v)[c].entries == map[]) &&
              (v.inodes[c].isDir && v.inodes[c].entryCount > 0 ==> Abs(v)[c].entries != map[]) &&
              (!v.inodes[c].isDir ==> c != d && c !in v.dirs)
    {
      hide VolInv, TableOk, AclOk, InodeDataOk, Gathered;
      EntryFact(v, d, name);
      var c := v.dirs[d].table.recs[name].ino;
      InodeFact(v, c);
      InodeFact(v, d);
      if v.inodes[c].isDir {
        var m := Bindings(v.dirs[c].table);
        assert |m| == |m.Keys| == |v.dirs[c].table.recs.Keys|;
        if v.inodes[c].entryCount == 0 { assert v.dirs[c].table.recs == map[]; }
      }
    }

    static lemma RetabledNode(v: Vol, w: Vol, d: nat, c: nat)
      requires VolInv(v) && Live(v, d) && d in v.dirs && Retabled(v, w, d, v.home - {c}) && Live(v, c) && c != d
      ensures Live(w, c) && w.inodes[c] == v.inodes[c] && c !in w.home && |w.inodes| == |v.inodes|
      ensures c in w.dirs <==> c in v.dirs
      ensures c in v.dirs ==> w.dirs[c] == v.dirs[c]
    {
      hide VolInv;
    }

    // ------------------------------------------------------------------------------
    // Read, write and listing

    /** Reads an inode and checks access to its data. */
    method CheckFile(ino: nat, cred: Cred, request: bv32) returns (status: Status)
      requires Valid() && (ino == 0 || ino >= |inodes| || Live(V(), ino))
      ensures status == FileCheck(Tree(), |inodes|, ino, cred, request)
      ensures status == Ok ==> Live(V(), ino)
    {
      hide Inv, Contents, Singles, VolInv, Abs, Allowed, HashOk, InodeDataOk, ParseList;
      if ino == 0 || ino >= |inodes| {
        return InvalidArg;
      }
      InodeFact(V(), ino);
      var ok := CheckAccess(inodes[ino], cred, request, NodeAt(V(), ino));
      return if ok then Ok else Permission;
    }

    /** Reads at most `n` bytes at `off`, on an open handle: access was decided when it was
        opened. The bytes the node holds there, cut at its end. */
    method ReadData(ino: nat, off: nat, n: nat) returns (status: Status, bytes: seq<Byte>)
      requires Valid() && (ino == 0 || ino >= |inodes| || Live(V(), ino))
      ensures status == if ino in Tree() && ino != 0 then Ok else InvalidArg
      ensures bytes == if status == Ok then ReadSpec(Tree()[ino].data, off, n) else []
    {
      hide Inv, Contents, Singles, VolInv, Allowed, HashOk, AclOk, Gathered;
      bytes := [];
      if ino == 0 || ino >= |inodes| {
        return InvalidArg, [];
      }
      InodeFact(V(), ino);
      var i := inodes[ino];
      status := Ok;
      if off >= i.size {
        return;
      }
      var avail := i.size - off;
      var size := if n < avail then n else avail;
      InStreams(st.S(), i.dataRoot);
      bytes := st.ReadAt(i.dataRoot, off, size);
      CutRead(BytesOf(Contents(st.S()), i.dataRoot), i.size, off, n);
    }

    /** The same behind an access check. */
    method Read(ino: nat, off: nat, n: nat, cred: Cred) returns (status: Status, bytes: seq<Byte>)
      requires Valid() && (ino == 0 || ino >= |inodes| || Live(V(), ino))
      ensures status == FileCheck(Tree(), |inodes|, ino, cred, READ_DATA)
      ensures status == Ok ==> ino in Tree() && bytes == ReadSpec(Tree()[ino].data, off, n)
      ensures status != Ok ==> bytes == []
    {
      hide Inv, Contents, Singles, VolInv, Abs, Allowed;
      bytes := [];
      status := CheckFile(ino, cred, READ_DATA);
      if status == Ok {
        status, bytes := ReadData(ino, off, n);
      }
    }

    static lemma CutRead(c: seq<Byte>, size: nat, off: nat, n: nat)
      requires off < size <= |c|
      ensures ReadSpec(c, off, if n < size - off then n else size - off) == ReadSpec(c[..size], off, n)
    {
    }

    /** Entry number `index` of a directory's listing. */
    method ReadDirectory(dir: nat, index: nat, cred: Cred) returns (status: Status, r: Option<(Name, Entry)>)
      requires Valid() && (dir == 0 || dir >= |inodes| || Live(V(), dir))
      ensures DirCheck(Tree(), |inodes|, dir, cred, READ_DATA) != Ok ==>
                status == DirCheck(Tree(), |inodes|, dir, cred, READ_DATA) && r.None?
      ensures DirCheck(Tree(), |inodes|, dir, cred, READ_DATA) == Ok ==>
                dir in dirs && dir in Tree() &&
                var l := Listing(dirs[dir].table.chains);
                if index < |l| then status == Ok && l[index] in Tree()[dir].entries && r == Some((l[index], Tree()[dir].entries[l[index]]))
                else status == NotFound && r.None?
    {
      hide Inv, Contents, Singles, VolInv, Abs, Allowed, TableOk, InodeOk, Listing, Bindings;
      r := None;
      status := CheckDir(dir, cred, READ_DATA);
      if status != Ok {
        return;
      }
      InodeFact(V(), dir);
      HashRootFact(V(), dir);
      EntriesAre(V(), dir);
      InStreams(st.S(), inodes[dir].hashRoot);
      r := DirHash.ReadIndex(st, hash, inodes[dir].hashRoot, index, dirs[dir].table, dirs[dir].free);
      status := if r.Some? then Ok else NotFound;
    }

    /** The listing of a live directory names each of its entries exactly once. */
    lemma ListingComplete(dir: nat)
      requires Valid() && Live(V(), dir) && dir in dirs
      ensures dir in Tree()
      ensures var l := Listing(dirs[dir].table.chains);
              |l| == |Tree()[dir].entries| && (forall n :: n in Tree()[dir].entries <==> n in l) &&
              (forall p, q :: 0 <= p < q < |l| ==> l[p] != l[q])
    {
      hide Inv, Contents, Singles, VolInv, Abs, TableOk, InodeOk, Listing;
      InodeFact(V(), dir);
      HashRootFact(V(), dir);
      EntriesAre(V(), dir);
      InStreams(st.S(), inodes[dir].hashRoot);
      ListingExact(hash, V().files[inodes[dir].hashRoot], dirs[dir].table, dirs[dir].free);
      assert |Bindings(dirs[dir].table).Keys| == |dirs[dir].table.recs.Keys|;
    }

    static function Larger(a: nat, b: nat): nat {
      if a > b then a else b
    }

    static lemma DataWrittenFrom(before: seq<Byte>, after: seq<Byte>, size: nat, off: nat, data: seq<Byte>)
      requires Written(before, after, off, data) && size <= |before|
      ensures Larger(size, off + |data|) <= |after|
      ensures DataWritten(before[..size], after[..Larger(size, off + |data|)], off, data)
    {
      var m := Larger(size, off + |data|);
      assert after[..m][off..off + |data|] == after[off..off + |data|];
    }

    // The bytes an inode's data stream can hold without a new block.
    static ghost function Capacity(v: Vol, ino: nat): nat {
      if ino < |v.inodes| then |BytesOf(v.files, v.inodes[ino].dataRoot)| else 0
    }

    /** A successful write: one node's bytes, no stream or block lost. */
    static ghost predicate WriteEffect(v: Vol, w: Vol, ino: nat, off: nat, data: seq<Byte>) {
      Stored(Abs(v), Abs(w), ino, off, data) && w.home == v.home && |w.inodes| == |v.inodes| &&
      w.files.Keys - w.refs.Keys == v.files.Keys - v.refs.Keys && w.loose == v.loose && w.aclRefs == v.aclRefs
    }

    static lemma WriteDone(v: Vol, s: State, t: State, ino: nat, off: nat, data: seq<Byte>, root: nat, w: Vol)
      requires VolInv(v) && Backs(s, v) && Inv(t) && Live(v, ino) && |data| > 0
      requires BlockStore.WriteEffect(s, t, v.inodes[ino].dataRoot, root, off, data, true)
      requires w == v.(files := Contents(t), loose := Singles(t), refs := v.refs[root := DataRef(ino)],
                       inodes := v.inodes[ino := v.inodes[ino].(dataRoot := root, size := Larger(v.inodes[ino].size, off + |data|))])
      ensures VolInv(w) && WriteEffect(v, w, ino, off, data)
    {
      hide Inv, Contents, Singles, VolInv, Abs, TableOk, BlockStore.WriteEffect, HashOk, AclOk, Written, DataWritten;
      var n := v.inodes[ino];
      InodeFact(v, ino);
      BlockStore.EffectOk(s, t, n.dataRoot, root, off, data);
      WriteRoot(v, s, t, ino, root);
      var before, after := BytesOf(v.files, n.dataRoot), BytesOf(Contents(t), root);
      var size := Larger(n.size, off + |data|);
      DataWrittenFrom(before, after, n.size, off, data);
      WithDataKeeps(v, ino, root, after, size);
      assert w == WithData(v, ino, root, after, size);
    }

    static lemma WriteRoot(v: Vol, s: State, t: State, ino: nat, root: nat)
      requires VolInv(v) && Backs(s, v) && Inv(t) && Live(v, ino) && InodeOk(v, ino)
      requires Touched(s, t, v.inodes[ino].dataRoot, root) && root in t.streams
      ensures root != 0 && Contents(t) == Contents(s)[root := BytesOf(Contents(t), root)] && Singles(t) == Singles(s)
      ensures if v.inodes[ino].dataRoot == 0 then root !in v.refs && root !in v.files
              else root == v.inodes[ino].dataRoot && root in v.files && root in v.refs
    {
      hide Inv, Content, VolInv, TableOk, HashOk, AclOk;
      NullFree(s);
      NullFree(t);
      RefsFact(v);
    }

    static lemma GrownDataNoise(v: Vol, s: State, t: State, ino: nat, root: nat)
      requires VolInv(v) && Backs(s, v) && Inv(t) && Live(v, ino) && InodeOk(v, ino)
      requires Touched(s, t, v.inodes[ino].dataRoot, root)
      requires BytesOf(Contents(s), v.inodes[ino].dataRoot) <= BytesOf(Contents(t), root)
      ensures Noise(v, Contents(t), Singles(t)) && Singles(t) == Singles(s)
      ensures v.inodes[ino].dataRoot != 0 ==> Contents(t).Keys == v.files.Keys
    {
      hide Inv, Contents, Singles, InodeOk, VolInv, TableOk;
      NullFree(s);
      NullFree(t);
      RefsFact(v);
      var r0 := v.inodes[ino].dataRoot;
      if r0 == 0 {
        FreshStreamNoise(v, s, t, root);
      } else {
        DataRootFact(v, ino);
        forall r | r in v.refs ensures SameBytesFor(v, Contents(t), r) {
          if r == r0 { assert Contents(t)[r] == BytesOf(Contents(t), root); }
        }
        assert Contents(t).Keys == Contents(s).Keys + {root};
      }
    }

    static lemma DataRootFact(v: Vol, i: nat)
      requires InodeOk(v, i) && v.inodes[i].dataRoot != 0
      ensures v.inodes[i].dataRoot in v.files && v.inodes[i].dataRoot in v.refs && v.refs[v.inodes[i].dataRoot] == DataRef(i)
    {
      hide TableOk;
    }

    /** A zero-length write only moves the recorded size; past the allocated blocks that
        would leave a size the stream cannot back. */
    static lemma EmptyWrite(v: Vol, ino: nat, off: nat, w: Vol)
      requires VolInv(v) && Live(v, ino)
      requires w == v.(inodes := v.inodes[ino := v.inodes[ino].(size := Larger(v.inodes[ino].size, off))])
      ensures off <= Capacity(v, ino) ==> VolInv(w) && WriteEffect(v, w, ino, off, [])
      ensures off > Capacity(v, ino) ==> !VolInv(w)
    {
      hide VolInv, Abs, TableOk, HashOk, AclOk, Gathered;
      InodeFact(v, ino);
      ShapeFact(v);
      var n := v.inodes[ino];
      var bytes := BytesOf(v.files, n.dataRoot);
      if off > |bytes| {
        if VolInv(w) { InodeFact(w, ino); assert false; }
      } else if n.dataRoot == 0 {
        assert w == v;
        assert Abs(v)[ino := Abs(v)[ino].(data := Abs(v)[ino].data)] == Abs(v);
      } else {
        var size := Larger(n.size, off);
        WithDataKeeps(v, ino, n.dataRoot, bytes, size);
        assert v.files[n.dataRoot := bytes] == v.files && v.refs[n.dataRoot := DataRef(ino)] == v.refs;
        assert w == WithData(v, ino, n.dataRoot, bytes, size);
      }
    }

    /** A write of `n` bytes at `off` succeeds exactly when it is empty or the blocks it lacks
        can be appended, one after the other. */
    static ghost predicate WriteSpace(v: Vol, s: State, ino: nat, off: nat, n: nat, status: Status) {
      s.bs > 0 && status == if n == 0 || Holds(v, s, ino, off + n) then Ok else DiskFull
    }

    /** What decides whether an inode's data can grow. */
    static ghost function RoomAt(v: Vol, s: State, ino: nat): Room {
      if ino < |v.inodes| then BlockStore.RoomOf(s, v.inodes[ino].dataRoot) else Room([], [])
    }

    /** The inode can be given the blocks for bytes up to `end`. */
    static ghost predicate Holds(v: Vol, s: State, ino: nat, end: nat) {
      Extensible(RoomAt(v, s, ino), BlockStore.RoundUp(end, s.bs), s.bs)
    }

    /** In numbers of blocks: two free ones for each that is missing always suffice, since each
        may need a list block; one for each is needed. */
    static lemma HoldsBounds(v: Vol, s: State, ino: nat, end: nat)
      requires Inv(s) && ino < |v.inodes|
      ensures var have, need := |Extents.Blocks(RoomAt(v, s, ino).chain)|, BlockStore.RoundUp(end, s.bs);
              (need <= have || s.free >= 2 * (need - have) ==> Holds(v, s, ino, end)) &&
              (Holds(v, s, ino, end) ==> need <= have || s.free >= need - have)
    {
      hide Inv, BlockStore.RoundUp, AfterRoom, Extents.Blocks;
      FreeCounts(s);
      var r, need := RoomAt(v, s, ino), BlockStore.RoundUp(end, s.bs);
      if need > |Extents.Blocks(r.chain)| { AfterCost(r, need - |Extents.Blocks(r.chain)|, s.bs); }
    }

    static lemma WriteSpaceFrom(v: Vol, s: State, t: State, ino: nat, root: nat, off: nat, data: seq<Byte>, ok: bool)
      requires ino < |v.inodes| && s.bs > 0 && BlockStore.WriteEffect(s, t, v.inodes[ino].dataRoot, root, off, data, ok)
      ensures WriteSpace(v, s, ino, off, |data|, if ok then Ok else DiskFull)
    {
      hide Contents, Touched, BlockStore.Covered, BlockStore.CanAppend, BlockStore.RoundUp, Extensible;
    }

    /** Writes at `off`, on an open handle. Out of space, nothing visible changes. A successful
        write keeps the volume valid exactly when it has data or stays within the allocated
        blocks. */
    method WriteData(ino: nat, off: nat, data: seq<Byte>) returns (status: Status, written: nat)
      requires Valid() && (ino == 0 || ino >= |inodes| || Live(V(), ino))
      modifies this`inodes, this`refs, st
      ensures if ino !in old(Tree()) || ino == 0 then status == InvalidArg && V() == old(V())
              else (status == Ok || status == DiskFull) && WriteSpace(old(V()), old(st.S()), ino, off, |data|, status)
      ensures status == Ok ==> written == |data| && (Valid() <==> |data| > 0 || off <= Capacity(old(V()), ino))
      ensures status == Ok && Valid() ==> WriteEffect(old(V()), V(), ino, off, data)
      ensures status == Ok && data != [] ==>
                RoomAt(V(), st.S(), ino) == ExtendedRoom(RoomAt(old(V()), old(st.S()), ino), BlockStore.RoundUp(off + |data|, st.blockSize), st.blockSize)
      ensures status != Ok ==> written == 0 && Valid() && Tree() == old(Tree()) && V() == old(V()).(files := V().files)
      ensures status != Ok && ino < |old(inodes)| && old(inodes)[ino].dataRoot != 0 ==> LostStreams() == old(LostStreams())
      ensures LostBlocks() == old(LostBlocks()) && |inodes| == |old(inodes)|
    {
      hide Inv, Contents, Singles, VolInv, Abs, TableOk, Allowed, BlockStore.WriteEffect, WriteEffect, InodeOk, Touched, WriteSpace, RoomAt, ExtendedRoom, BlockStore.RoundUp;
      written := 0;
      ghost var v, s := V(), st.S();
      InTree(v, ino);
      if ino == 0 || ino >= |inodes| {
        return InvalidArg, 0;
      }
      var n := inodes[ino];
      InodeFact(v, ino);
      RootFacts(v, s, ino);
      Blocksize(s);
      var ok, root := st.WriteAt(n.dataRoot, off, data);
      WriteSpaceFrom(v, s, st.S(), ino, root, off, data, ok);
      if !ok {
        BlockStore.EffectFull(s, st.S(), n.dataRoot, root, off, data);
        GrownDataNoise(v, s, st.S(), ino, root);
        NoiseKeeps(v, Contents(st.S()), Singles(st.S()));
        return DiskFull, 0;
      }
      status, written := Ok, |data|;
      Record(ino, off, data, root, v, s);
      if data != [] { RoomMore(v, s, V(), st.S(), ino, root, off, data); }
    }

    static lemma InTree(v: Vol, i: nat)
      ensures i in Abs(v) <==> Live(v, i)
      ensures Live(v, i) ==> i < |v.inodes|
    {
    }

    static lemma RoomMore(v: Vol, s: State, w: Vol, t: State, ino: nat, root: nat, off: nat, data: seq<Byte>)
      requires ino < |v.inodes| && ino < |w.inodes| && w.inodes[ino].dataRoot == root && data != []
      requires BlockStore.WriteEffect(s, t, v.inodes[ino].dataRoot, root, off, data, true)
      ensures RoomAt(w, t, ino) == ExtendedRoom(RoomAt(v, s, ino), BlockStore.RoundUp(off + |data|, s.bs), s.bs)
    {
      hide Contents, Touched, Written, BlockStore.Covered, BlockStore.CanAppend, BlockStore.RoundUp, Extensible, ExtendedRoom;
    }

    /** The same behind an access check. */
    method Write(ino: nat, off: nat, data: seq<Byte>, cred: Cred) returns (status: Status, written: nat)
      requires Valid() && (ino == 0 || ino >= |inodes| || Live(V(), ino))
      modifies this`inodes, this`refs, st
      ensures var check := FileCheck(old(Tree()), |old(inodes)|, ino, cred, WRITE_DATA);
              if check != Ok then status == check && V() == old(V())
              else (status == Ok || status == DiskFull) && WriteSpace(old(V()), old(st.S()), ino, off, |data|, status)
      ensures status == Ok ==> written == |data| && (Valid() <==> |data| > 0 || off <= Capacity(old(V()), ino))
      ensures status == Ok && Valid() ==> WriteEffect(old(V()), V(), ino, off, data)
      ensures status != Ok ==> written == 0 && Valid() && Tree() == old(Tree()) && V() == old(V()).(files := V().files)
      ensures status != Ok && ino < |old(inodes)| && old(inodes)[ino].dataRoot != 0 ==> LostStreams() == old(LostStreams())
      ensures LostBlocks() == old(LostBlocks()) && |inodes| == |old(inodes)|
    {
      hide Inv, Contents, Singles, VolInv, Abs, Allowed, WriteEffect, WriteSpace, RoomAt, ExtendedRoom;
      written := 0;
      status := CheckFile(ino, cred, WRITE_DATA);
      if status == Ok {
        InTree(V(), ino);
        status, written := WriteData(ino, off, data);
      }
    }

    // The blocks hold the data: the inode gets its root and its size.
    method Record(ino: nat, off: nat, data: seq<Byte>, root: nat, ghost v: Vol, ghost s: State)
      requires VolInv(v) && Backs(s, v) && st.Valid() && Live(v, ino) && V() == v.(files := Contents(st.S()), loose := Singles(st.S()))
      requires ino < |inodes| && BlockStore.WriteEffect(s, st.S(), v.inodes[ino].dataRoot, root, off, data, true)
      modifies this`inodes, this`refs
      ensures Valid() <==> |data| > 0 || off <= Capacity(v, ino)
      ensures Valid() ==> WriteEffect(v, V(), ino, off, data)
      ensures Singles(st.S()) == v.loose && |inodes| == |v.inodes| && inodes[ino].dataRoot == root
    {
      hide Inv, Contents, Singles, VolInv, Abs, TableOk, BlockStore.WriteEffect, WriteEffect, InodeOk, Touched;
      var n := inodes[ino];
      inodes := inodes[ino := n.(dataRoot := root, size := Larger(n.size, off + |data|))];
      if |data| > 0 {
        refs := refs[root := DataRef(ino)];
        WriteDone(v, s, st.S(), ino, off, data, root, V());
        SameLoose(v, V(), ino, off, data);
      } else {
        EmptyEffect(s, st.S(), n.dataRoot, root, off, data);
        EmptyWrite(v, ino, off, V());
      }
    }

    static lemma SameLoose(v: Vol, w: Vol, ino: nat, off: nat, data: seq<Byte>)
      requires WriteEffect(v, w, ino, off, data)
      ensures w.loose == v.loose && w.aclRefs == v.aclRefs
    {
    }

    static lemma EmptyEffect(s: State, t: State, root: nat, root': nat, off: nat, data: seq<Byte>)
      requires BlockStore.WriteEffect(s, t, root, root', off, data, true) && data == []
      ensures t == s && root' == root
    {
    }

    // ------------------------------------------------------------------------------
    // Rename

    /** The outcome of a rename that passed its checks, given whether there is room for the
        old and for the new record: moved if there is room for the new one; else the old
        binding is back if there is room for it; else it is lost and the inode unnamed. */
    static ghost predicate RenameEffect(v: Vol, w: Vol, status: Status, room1: bool, room2: bool, d1: nat, n1: Name, d2: nat, n2: Name) {
      status == (if (d1 == d2 && n1 == n2) || room2 then Ok else DiskFull) &&
      w.files.Keys - w.refs.Keys == v.files.Keys - v.refs.Keys && w.loose.Keys - w.aclRefs.Keys == v.loose.Keys - v.aclRefs.Keys &&
      d1 in Abs(v) && n1 in Abs(v)[d1].entries &&
      var c := Abs(v)[d1].entries[n1].ino;
      match status
      case Ok => Moved(Abs(v), Abs(w), d1, n1, d2, n2) && w.home == v.home[c := Place(d2, n2)]
      case DiskFull =>
        if room1 then Abs(w) == Abs(v) && w.home == v.home
        else Abs(w) == Unbind(Abs(v), d1, n1) && w.home == v.home - {c}
      case _ => false
    }

    /** Moves one binding. Only the move of a directory into itself is refused; deeper
        cycles are the business of the layer above. */
    method Rename(d1: nat, n1: Name, d2: nat, n2: Name, cred: Cred) returns (status: Status)
      requires Valid() && (d1 == 0 || d1 >= |inodes| || Live(V(), d1)) && (d2 == 0 || d2 >= |inodes| || Live(V(), d2))
      modifies this, st
      ensures Valid() && |inodes| == |old(inodes)|
      ensures var check := RenameCheck(old(Tree()), |old(inodes)|, d1, n1, d2, n2, cred);
              if check != Ok then status == check && V() == old(V())
              else RenameEffect(old(V()), V(), status, Fits(old(V()), old(st.S()), d1, |n1|), Fits(old(V()), old(st.S()), d2, |n2|), d1, n1, d2, n2)
    {
      hide Inv, Contents, Singles, VolInv, Abs, TableOk, Allowed, NodeAt, InodeOk, RenameEffect;
      status := RenameChecks(d1, d2, cred);
      if status != Ok {
        return;
      }
      var found := FindName(d1, n1);
      if found.status != Ok {
        return found.status;
      }
      if d1 == d2 && n1 == n2 {
        SameNameEffect(V(), d1, n1, Fits(V(), st.S(), d1, |n1|));
        return Ok;
      }
      if found.kind == KIND_DIR && found.ino == d2 {
        return InvalidArg;
      }
      var existing := FindName(d2, n2);
      if existing.status == Ok {
        return AlreadyExists;
      }
      if existing.status != NotFound {
        return existing.status;
      }
      status := Move(d1, n1, d2, n2, found.ino, found.kind);
    }

    static lemma SameNameEffect(v: Vol, d: nat, n: Name, room: bool)
      requires VolInv(v) && Live(v, d) && d in v.dirs && n in v.dirs[d].table.recs
      ensures RenameEffect(v, v, Ok, room, room, d, n, d, n)
    {
      hide VolInv, Abs, TableOk, Bindings;
      EntryFact(v, d, n);
      EntriesAre(v, d);
      EntryOf(v.dirs[d].table, n);
      assert v.home[v.dirs[d].table.recs[n].ino := Place(d, n)] == v.home;
    }

    // The checks of the two directory inodes, in the order they are made.
    method RenameChecks(d1: nat, d2: nat, cred: Cred) returns (status: Status)
      requires Valid() && (d1 == 0 || d1 >= |inodes| || Live(V(), d1)) && (d2 == 0 || d2 >= |inodes| || Live(V(), d2))
      ensures status ==
                if d1 == 0 || d1 >= |inodes| || d1 !in Tree() then InvalidArg
                else if !Tree()[d1].isDir then Unsupported
                else if d2 == 0 || d2 >= |inodes| || d2 !in Tree() then InvalidArg
                else if !Tree()[d2].isDir then Unsupported
                else if !Allowed(Tree()[d1], cred, DELETE_CHILD) then Permission
                else if !Allowed(Tree()[d2], cred, WRITE_DATA) then Permission
                else Ok
      ensures status == Ok ==> Live(V(), d1) && d1 in dirs && Live(V(), d2) && d2 in dirs
    {
      hide Inv, Contents, Singles, VolInv, Abs, Allowed, HashOk, InodeDataOk, ParseList, AceFits;
      if d1 == 0 || d1 >= |inodes| {
        return InvalidArg;
      }
      InodeFact(V(), d1);
      DirFact(V(), d1);
      if !inodes[d1].isDir {
        return Unsupported;
      }
      if d2 == 0 || d2 >= |inodes| {
        return InvalidArg;
      }
      InodeFact(V(), d2);
      DirFact(V(), d2);
      if !inodes[d2].isDir {
        return Unsupported;
      }
      var ok := CheckAccess(inodes[d1], cred, DELETE_CHILD, NodeAt(V(), d1));
      if !ok {
        return Permission;
      }
      ok := CheckAccess(inodes[d2], cred, WRITE_DATA, NodeAt(V(), d2));
      return if ok then Ok else Permission;
    }

    /** Removes the old entry, then adds the new one, or tries to put the old one back. */
    method Move(d1: nat, n1: Name, d2: nat, n2: Name, c: nat, kind: nat) returns (status: Status)
      requires Valid() && Live(V(), d1) && d1 in dirs && Live(V(), d2) && d2 in dirs && !(d1 == d2 && n1 == n2)
      requires n1 in dirs[d1].table.recs && c == dirs[d1].table.recs[n1].ino && kind == dirs[d1].table.recs[n1].kind
      requires n2 !in dirs[d2].table.recs && 1 <= |n1| <= NAME_MAX && 1 <= |n2| <= NAME_MAX
      modifies this, st
      ensures Valid() && |inodes| == |old(inodes)|
      ensures RenameEffect(old(V()), V(), status, Fits(old(V()), old(st.S()), d1, |n1|), Fits(old(V()), old(st.S()), d2, |n2|), d1, n1, d2, n2)
    {
      hide Inv, Contents, Singles, VolInv, Abs, TableOk, NodeAt, InodeOk, Bindings, RenameEffect, Fits, SameLength;
      ghost var v, s := V(), st.S();
      TargetFacts(v, d1, n1);
      EntriesAre(v, d1);
      EntriesAre(v, d2);
      EntryOf(v.dirs[d1].table, n1);
      UnbindEntry(d1, n1, c);
      ghost var v1 := V();
      AfterUnbind(v, v1, d1, n1, d2, n2, c);
      var ok := BindEntry(d2, n2, c, kind);
      if ok {
        MovedEffect(v, v1, V(), Fits(v, s, d1, |n1|), d1, n1, d2, n2, c, kind);
        return Ok;
      }
      ghost var v2 := V();
      AfterUnbind(v, v2.(files := v1.files), d1, n1, d1, n1, c);
      var back := BindEntry(d1, n1, c, kind);
      BackEffect(v, v1, V(), back, d1, n1, d2, n2, c, kind);
      return DiskFull;
    }

    static lemma AfterUnbind(v: Vol, w: Vol, d1: nat, n1: Name, d2: nat, n2: Name, c: nat)
      requires VolInv(v) && Live(v, d1) && d1 in v.dirs && Retabled(v, w, d1, v.home - {c}) && Live(v, c)
      requires d1 in w.dirs && w.dirs[d1].table.recs == v.dirs[d1].table.recs - {n1}
      requires Live(v, d2) && d2 in v.dirs && (n2 !in v.dirs[d2].table.recs || (d1 == d2 && n1 == n2))
      ensures Live(w, d2) && d2 in w.dirs && n2 !in w.dirs[d2].table.recs
      ensures Live(w, c) && c !in w.home && Kind(w.inodes[c]) == Kind(v.inodes[c]) && |w.inodes| == |v.inodes|
    {
      hide VolInv;
    }

    static lemma MovedEffect(v: Vol, v1: Vol, w: Vol, room1: bool, d1: nat, n1: Name, d2: nat, n2: Name, c: nat, kind: nat)
      requires d1 in Abs(v) && d2 in Abs(v) && n1 in Abs(v)[d1].entries && Abs(v)[d1].entries[n1] == Entry(c, kind)
      requires n2 !in Abs(v)[d2].entries && !(d1 == d2 && n1 == n2)
      requires Abs(v1) == Unbind(Abs(v), d1, n1) && d2 in Abs(v1) && Abs(w) == Bind(Abs(v1), d2, n2, Entry(c, kind))
      requires v1.home == v.home - {c} && w.home == v1.home[c := Place(d2, n2)]
      requires w.files.Keys - w.refs.Keys == v.files.Keys - v.refs.Keys && w.loose.Keys - w.aclRefs.Keys == v.loose.Keys - v.aclRefs.Keys
      ensures RenameEffect(v, w, Ok, room1, true, d1, n1, d2, n2)
    {
      hide Abs;
      assert (v.home - {c})[c := Place(d2, n2)] == v.home[c := Place(d2, n2)];
    }

    static lemma BackEffect(v: Vol, v1: Vol, w: Vol, back: bool, d1: nat, n1: Name, d2: nat, n2: Name, c: nat, kind: nat)
      requires VolInv(v) && d1 in v.dirs && n1 in v.dirs[d1].table.recs && v.dirs[d1].table.recs[n1].ino == c
      requires d1 in Abs(v) && n1 in Abs(v)[d1].entries && Abs(v)[d1].entries[n1] == Entry(c, kind)
      requires Abs(v1) == Unbind(Abs(v), d1, n1) && v1.home == v.home - {c}
      requires if back then d1 in Abs(v1) && Abs(w) == Bind(Abs(v1), d1, n1, Entry(c, kind)) && w.home == v1.home[c := Place(d1, n1)]
               else Abs(w) == Abs(v1) && w.home == v1.home
      requires w.files.Keys - w.refs.Keys == v.files.Keys - v.refs.Keys && w.loose.Keys - w.aclRefs.Keys == v.loose.Keys - v.aclRefs.Keys
      requires !(d1 == d2 && n1 == n2)
      ensures RenameEffect(v, w, DiskFull, back, false, d1, n1, d2, n2)
    {
      hide Abs, VolInv;
      EntryFact(v, d1, n1);
      if back {
        var e := Abs(v)[d1].entries;
        assert (e - {n1})[n1 := Entry(c, kind)] == e;
        assert Bind(Unbind(Abs(v), d1, n1), d1, n1, Entry(c, kind)) == Abs(v);
        assert (v.home - {c})[c := Place(d1, n1)] == v.home;
      }
    }

    // ------------------------------------------------------------------------------
    // Format

    static function Pow2(n: nat): nat {
      if n == 0 then 1 else 2 * Pow2(n - 1)
    }

    static function AtLeastOne(n: nat): nat {
      if n == 0 then 1 else n
    }

    /** The first block after superblock, the two bitmaps and the inode table. */
    static function FirstData(bs: nat, total: nat, count: nat): (r: nat)
      ensures r >= 4
    {
      1 + AtLeastOne(BlockStore.RoundUp((count + 7) / 8, bs)) + AtLeastOne(BlockStore.RoundUp((total + 7) / 8, bs)) +
      AtLeastOne(BlockStore.RoundUp(count * 256, bs))
    }

    /** The least positive number of pieces of `unit` that hold `size`. */
    static predicate Holding(n: nat, unit: nat, size: nat) {
      n > 0 && size <= n * unit && (n > 1 ==> n * unit - unit < size)
    }

    /** The layout of a volume: after the superblock just enough blocks for a bit per inode, for
        a bit per block, and for an inode of 256 bytes each, in this order; then the data. */
    static lemma Layout(bs: nat, total: nat, count: nat) returns (inodeBits: nat, blockBits: nat, table: nat)
      requires bs > 0
      ensures Holding(inodeBits, 8 * bs, count) && Holding(blockBits, 8 * bs, total) && Holding(table, bs, 256 * count)
      ensures FirstData(bs, total, count) == 1 + inodeBits + blockBits + table
    {
      hide BlockStore.RoundUp;
      inodeBits, blockBits := BitBlocks(bs, count), BitBlocks(bs, total);
      table := AtLeastOne(BlockStore.RoundUp(count * 256, bs));
      BlockStore.RoundUpCovers(count * 256, bs);
    }

    static function BitBlocks(bs: nat, bits: nat): (n: nat)
      requires bs > 0
      ensures Holding(n, 8 * bs, bits)
    {
      BitsCovered(bs, bits);
      AtLeastOne(BlockStore.RoundUp((bits + 7) / 8, bs))
    }

    static lemma BitsCovered(bs: nat, bits: nat)
      requires bs > 0
      ensures Holding(AtLeastOne(BlockStore.RoundUp((bits + 7) / 8, bs)), 8 * bs, bits)
    {
      hide BlockStore.RoundUp;
      var bytes := (bits + 7) / 8;
      var n := BlockStore.RoundUp(bytes, bs);
      BlockStore.RoundUpCovers(bytes, bs);
      assert 8 * bytes - 8 < bits <= 8 * bytes || bits == 0;
      assert n * (8 * bs) == 8 * (n * bs);
    }

    static function InodeCount(total: nat, asked: nat): nat {
      if asked != 0 then asked else if total / 8 < 16 then 16 else total / 8
    }

    static lemma BlockSizes(shift: nat)
      requires 9 <= shift <= 16
      ensures 512 <= Pow2(shift) && Pow2(shift) % 8 == 0
    {
      assert Pow2(9) == 512 by { assert Pow2(3) == 8 && Pow2(6) == 64; }
      if shift > 9 { BlockSizes(shift - 1); }
    }

    // The root directory of a freshly formatted volume.
    static function RootInode(hashRoot: nat): Inode {
      Inode(true, 0x1ED, 0, 0, 1, [], 0, 0, 0, 0, hashRoot, 0)
    }

    static lemma RootVolume(v: Vol, root: nat)
      requires 2 <= |v.inodes| < U64_LIMIT && v.used == [true, true] + seq(|v.inodes| - 2, _ => false)
      requires v.free == ClearBits(v.used) && v.inodes[1] == RootInode(root)
      requires root != 0 && v.files.Keys == {root} && v.loose == map[]
      requires TableOk(v.hash, v.files[root], EmptyTable(), FIRST_RECORD)
      requires v.dirs == map[1 := Dir(EmptyTable(), FIRST_RECORD)] && v.refs == map[root := HashRef(1)]
      requires v.aclRefs == map[] && v.home == map[]
      ensures VolInv(v) && Abs(v) == map[1 := Node(true, 0x1ED, 0, 0, [], map[], [])]
    {
      hide TableOk, ClearBits;
      assert forall i :: Live(v, i) <==> i == 1;
      assert InodeOk(v, 1);
      assert NodeAt(v, 1) == Node(true, 0x1ED, 0, 0, [], map[], []);
    }

    /** Lays out an empty volume with a root directory on the given blocks. */
    static method Format(shift: nat, blocks: Disk, asked: nat, hash: Name -> nat) returns (status: Status, vol: Volume?)
      requires forall b :: 0 <= b < |blocks| ==> |blocks[b]| == Pow2(shift)
      requires Addressable(|blocks|, Pow2(shift)) && InodeCount(|blocks|, asked) < U64_LIMIT
      ensures var count := InodeCount(|blocks|, asked);
              var first := FirstData(Pow2(shift), |blocks|, count);
              status ==
                if shift < 9 || shift > 16 || |blocks| < 64 || first >= |blocks| then InvalidArg
                else if count < 2 then OutOfMemory
                else if |blocks| - first < 2 then DiskFull
                else Ok
      ensures status != Ok ==> vol == null
      ensures status == Ok ==> vol != null && fresh(vol) && fresh(vol.st) && vol.Valid() && vol.hash == hash
      ensures status == Ok ==> vol.Tree() == map[ROOT_INO := Node(true, 0x1ED, 0, 0, [], map[], [])]
      ensures status == Ok ==> vol.LostStreams() == {} && vol.LostBlocks() == {} && vol.home == map[]
      ensures status == Ok ==>
                vol.st.firstData == FirstData(Pow2(shift), |blocks|, InodeCount(|blocks|, asked)) &&
                vol.dirs == map[ROOT_INO := Dir(EmptyTable(), FIRST_RECORD)] && TableLength(vol.V(), ROOT_INO) == Pow2(shift) &&
                vol.st.freeBlocks == |blocks| - vol.st.firstData - 2 && vol.freeInodes == InodeCount(|blocks|, asked) - 2
    {
      hide Inv, Contents, Singles, VolInv, Abs, TableOk, FirstData, InodeCount, Pow2, Touched, Addressable;
      if shift < 9 || shift > 16 || |blocks| < 64 {
        return InvalidArg, null;
      }
      var bs := Pow2(shift);
      BlockSizes(shift);
      var count := InodeCount(|blocks|, asked);
      var first := FirstData(bs, |blocks|, count);
      if first >= |blocks| {
        return InvalidArg, null;
      }
      CountPositive(|blocks|, asked);
      var store := new BlockStore(bs, first, blocks);
      var v := new Volume(store, hash, count);
      ghost var was := v.used;
      var root := v.AllocInode();
      if root.None? {
        return OutOfMemory, null;
      }
      assert root.value == ROOT_INO by {
        assert was[0];
        if |was| > 1 { assert !was[1]; }
      }
      ghost var s := store.S();
      var ok, hashRoot := DirHash.Create(store, hash);
      if !ok {
        return DiskFull, null;
      }
      FormatStore(s, store.S(), hashRoot);
      v.inodes := v.inodes[ROOT_INO := RootInode(hashRoot)];
      v.dirs := map[ROOT_INO := Dir(EmptyTable(), FIRST_RECORD)];
      v.refs := map[hashRoot := HashRef(ROOT_INO)];
      RootVolume(v.V(), hashRoot);
      return Ok, v;
    }

    static lemma CountPositive(total: nat, asked: nat)
      ensures InodeCount(total, asked) > 0
    {
    }

    static lemma FormatStore(s: State, t: State, root: nat)
      requires Inv(s) && Inv(t) && Contents(s) == map[] && Singles(s) == map[] && Touched(s, t, 0, root) && root in t.streams
      ensures Contents(t).Keys == {root} && Singles(t) == map[] && root != 0 && BytesOf(Contents(t), root) == Contents(t)[root]
    {
      hide Inv, Content;
      NullFree(t);
    }
  }
}
