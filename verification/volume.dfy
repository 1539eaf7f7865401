/** A volume as a value: inode table, inode bitmap, stream contents and directory tables,
    with the invariant that every operation keeps and the file system it stands for. */
module Volumes {
  import opened Bytes
  import opened Bits
  import opened Streams
  import opened DirTable
  import opened DirBytes
  import opened Acl

  const ROOT_INO: nat := 1
  const KIND_FILE: nat := 1
  const KIND_DIR: nat := 2

  datatype Inode = Inode(
    isDir: bool, mode: bv16, uid: nat, gid: nat, links: nat,
    aces: seq<Ace>, aclBlock: nat, aclCount: nat,
    size: nat, dataRoot: nat, hashRoot: nat, entryCount: nat)

  /** Which inode uses a stream, and as what. */
  datatype Ref = DataRef(ino: nat) | HashRef(ino: nat)

  /** A directory's table and the next free offset in its stream. */
  datatype Dir = Dir(table: Table, free: nat)

  /** Where an inode is named. */
  datatype Place = Place(dir: nat, name: Name)

  datatype Vol = Vol(
    hash: Name -> nat,
    files: map<nat, seq<Byte>>, loose: map<nat, seq<Byte>>,
    inodes: seq<Inode>, used: seq<bool>, free: int,
    dirs: map<nat, Dir>, refs: map<nat, Ref>, aclRefs: map<nat, nat>, home: map<nat, Place>)

  predicate Live(v: Vol, i: nat) {
    0 < i < |v.inodes| && i < |v.used| && v.used[i]
  }

  function Kind(n: Inode): nat {
    if n.isDir then KIND_DIR else KIND_FILE
  }

  /** The whole access list of an inode: inline slots, then the overflow block. */
  ghost function Gathered(n: Inode, loose: map<nat, seq<Byte>>): seq<Ace> {
    if n.aclBlock != 0 && n.aclCount > 0 && n.aclBlock in loose && ACE_SIZE * n.aclCount <= |loose[n.aclBlock]|
    then n.aces + ParseList(loose[n.aclBlock], n.aclCount)
    else n.aces
  }

  // ----------------------------------------------------------------------------------
  // The invariant

  ghost predicate AclOk(v: Vol, i: nat, n: Inode) {
    |n.aces| <= INLINE_COUNT && n.aclCount + INLINE_COUNT <= MAX_ACES &&
    (n.aclBlock == 0 ==> n.aclCount == 0) &&
    (n.aclBlock != 0 ==>
      n.aclBlock in v.loose && ACE_SIZE * n.aclCount <= |v.loose[n.aclBlock]| &&
      n.aclBlock in v.aclRefs && v.aclRefs[n.aclBlock] == i) &&
    forall k :: 0 <= k < |Gathered(n, v.loose)| ==> AceFits(Gathered(n, v.loose)[k])
  }

  ghost predicate InodeDataOk(v: Vol, i: nat, n: Inode) {
    (n.dataRoot != 0 ==> n.dataRoot in v.files && n.dataRoot in v.refs && v.refs[n.dataRoot] == DataRef(i)) &&
    n.size <= |BytesOf(v.files, n.dataRoot)|
  }

  ghost predicate HashOk(v: Vol, i: nat, n: Inode) {
    (n.isDir <==> i in v.dirs) &&
    (!n.isDir ==> n.hashRoot == 0) &&
    (n.isDir ==>
      n.hashRoot != 0 && n.hashRoot in v.files && n.hashRoot in v.refs && v.refs[n.hashRoot] == HashRef(i) &&
      TableOk(v.hash, v.files[n.hashRoot], v.dirs[i].table, v.dirs[i].free) &&
      n.entryCount == |v.dirs[i].table.recs|)
  }

  ghost predicate InodeOk(v: Vol, i: nat) {
    Live(v, i) && v.inodes[i].links == 1 &&
    AclOk(v, i, v.inodes[i]) && InodeDataOk(v, i, v.inodes[i]) && HashOk(v, i, v.inodes[i])
  }

  ghost predicate Shaped(v: Vol) {
    |v.inodes| == |v.used| && 2 <= |v.inodes| < U64_LIMIT && v.used[0] && v.free == ClearBits(v.used) &&
    Live(v, ROOT_INO) && v.inodes[ROOT_INO].isDir && 0 !in v.files && 0 !in v.loose
  }

  ghost predicate DirBacked(v: Vol, d: nat) {
    Live(v, d) && v.inodes[d].isDir
  }

  ghost predicate InodesOk(v: Vol) {
    (forall i {:trigger InodeOk(v, i)} :: Live(v, i) ==> InodeOk(v, i)) && (forall d {:trigger DirBacked(v, d)} :: d in v.dirs ==> DirBacked(v, d))
  }

  /** Streams and overflow blocks are used by one live inode each, or by nobody. */
  ghost predicate RefsOk(v: Vol) {
    (forall r {:trigger RefBacked(v, r)} :: r in v.refs ==> RefBacked(v, r)) &&
    (forall b {:trigger AclBacked(v, b)} :: b in v.aclRefs ==> AclBacked(v, b))
  }

  ghost predicate RefBacked(v: Vol, r: nat)
    requires r in v.refs
  {
    r in v.files && r != 0 && Live(v, v.refs[r].ino) &&
    match v.refs[r] case DataRef(i) => v.inodes[i].dataRoot == r case HashRef(i) => v.inodes[i].hashRoot == r
  }

  ghost predicate AclBacked(v: Vol, b: nat)
    requires b in v.aclRefs
  {
    b in v.loose && Live(v, v.aclRefs[b]) && v.inodes[v.aclRefs[b]].aclBlock == b
  }

  /** Every directory entry names a live non-root inode of the recorded type, which is
      named nowhere else. */
  ghost predicate EntryOk(v: Vol, d: nat, n: Name)
    requires d in v.dirs && n in v.dirs[d].table.recs
  {
    var r := v.dirs[d].table.recs[n];
    Live(v, r.ino) && r.ino != ROOT_INO && r.kind == Kind(v.inodes[r.ino]) &&
    r.ino in v.home && v.home[r.ino] == Place(d, n)
  }

  ghost predicate HomeOk(v: Vol, c: nat)
    requires c in v.home
  {
    var p := v.home[c];
    p.dir in v.dirs && p.name in v.dirs[p.dir].table.recs && v.dirs[p.dir].table.recs[p.name].ino == c
  }

  ghost predicate NamesOk(v: Vol) {
    (forall d, n {:trigger EntryOk(v, d, n)} :: d in v.dirs && n in v.dirs[d].table.recs ==> EntryOk(v, d, n)) &&
    (forall c {:trigger HomeOk(v, c)} :: c in v.home ==> HomeOk(v, c))
  }

  ghost predicate VolInv(v: Vol) {
    Shaped(v) && InodesOk(v) && RefsOk(v) && NamesOk(v)
  }

  // ----------------------------------------------------------------------------------
  // The file system a volume stands for

  /** A file or directory: both carry data; only a directory has entries. */
  datatype Node = Node(
    isDir: bool, mode: bv16, uid: nat, gid: nat,
    data: seq<Byte>, entries: map<Name, Entry>, acl: seq<Ace>)

  /** Root bypasses every check; without a list the mode bits decide; with one, only the
      list does. */
  ghost predicate Allowed(n: Node, c: Cred, request: bv32) {
    c.uid == 0 ||
    if n.acl == [] then Within(request, ModeMask(n.mode, n.uid, n.gid, c)) else Verdict(n.acl, c, request)
  }

  ghost function NodeAt(v: Vol, i: nat): Node
    requires i < |v.inodes|
  {
    var n := v.inodes[i];
    var bytes := BytesOf(v.files, n.dataRoot);
    Node(n.isDir, n.mode, n.uid, n.gid,
         if n.size <= |bytes| then bytes[..n.size] else bytes,
         if i in v.dirs then Bindings(v.dirs[i].table) else map[],
         Gathered(n, v.loose))
  }

  type Fs = map<nat, Node>

  ghost function Abs(v: Vol): (fs: Fs)
    ensures forall i :: i in fs <==> Live(v, i)
  {
    map i | 0 <= i < |v.inodes| && Live(v, i) :: NodeAt(v, i)
  }

  // ----------------------------------------------------------------------------------
  // What the invariant says about one inode

  lemma InodeFact(v: Vol, i: nat)
    requires VolInv(v) && Live(v, i)
    ensures InodeOk(v, i) && i in Abs(v) && Abs(v)[i] == NodeAt(v, i)
  {
    hide InodeOk, NodeAt, NamesOk, RefsOk;
  }

  lemma ShapeFact(v: Vol)
    requires VolInv(v)
    ensures Shaped(v)
  {
  }

  lemma RefsFact(v: Vol)
    requires VolInv(v)
    ensures RefsOk(v)
    ensures (forall r :: r in v.refs ==> RefBacked(v, r) && r in v.files) && (forall b :: b in v.aclRefs ==> b in v.loose)
  {
    hide InodesOk, NamesOk, Shaped;
    forall r | r in v.refs ensures RefBacked(v, r) && r in v.files { assert RefBacked(v, r); }
    forall b | b in v.aclRefs ensures b in v.loose { assert AclBacked(v, b); }
  }

  lemma EntryFact(v: Vol, d: nat, n: Name)
    requires VolInv(v) && d in v.dirs && n in v.dirs[d].table.recs
    ensures EntryOk(v, d, n) && Live(v, d) && v.inodes[d].isDir
  {
    hide InodeOk, RefsOk, EntryOk;
    assert DirBacked(v, d);
  }

  lemma DirFact(v: Vol, d: nat)
    requires VolInv(v)
    ensures d in v.dirs <==> Live(v, d) && v.inodes[d].isDir
  {
    hide AclOk, InodeDataOk, NamesOk, RefsOk, TableOk;
    if Live(v, d) { InodeFact(v, d); }
    if d in v.dirs { assert DirBacked(v, d); }
  }

  // ----------------------------------------------------------------------------------
  // Step 1: stream growth and unreferenced blocks change nothing that is visible

  ghost predicate SameBytesFor(v: Vol, files: map<nat, seq<Byte>>, r: nat) {
    r in v.files && r in files && r in v.refs &&
    (files[r] == v.files[r] ||
     match v.refs[r]
     case DataRef(i) => v.files[r] <= files[r]
     case HashRef(i) => i in v.dirs && TableOk(v.hash, files[r], v.dirs[i].table, v.dirs[i].free))
  }

  ghost predicate Noise(v: Vol, files: map<nat, seq<Byte>>, loose: map<nat, seq<Byte>>) {
    0 !in files && 0 !in loose &&
    (forall r :: r in v.refs ==> SameBytesFor(v, files, r)) &&
    (forall b :: b in v.aclRefs ==> b in v.loose && b in loose && loose[b] == v.loose[b])
  }

  lemma NoiseInode(v: Vol, files: map<nat, seq<Byte>>, loose: map<nat, seq<Byte>>, i: nat)
    requires Live(v, i) && InodeOk(v, i) && Noise(v, files, loose) && 0 !in v.files
    ensures InodeOk(v.(files := files, loose := loose), i)
    ensures NodeAt(v.(files := files, loose := loose), i) == NodeAt(v, i)
  {
    hide TableOk, AceFits, ParseList;
    var n := v.inodes[i];
    if n.dataRoot != 0 { assert SameBytesFor(v, files, n.dataRoot); }
    if n.isDir { assert SameBytesFor(v, files, n.hashRoot); }
    assert Gathered(n, loose) == Gathered(n, v.loose);
    assert BytesOf(files, n.dataRoot)[..n.size] == BytesOf(v.files, n.dataRoot)[..n.size];
  }

  lemma NoiseKeeps(v: Vol, files: map<nat, seq<Byte>>, loose: map<nat, seq<Byte>>)
    requires VolInv(v) && Noise(v, files, loose)
    ensures VolInv(v.(files := files, loose := loose)) && Abs(v.(files := files, loose := loose)) == Abs(v)
  {
    hide InodeOk, TableOk, NodeAt;
    var w := v.(files := files, loose := loose);
    forall i | Live(w, i)
      ensures InodeOk(w, i) && NodeAt(w, i) == NodeAt(v, i)
    {
      InodeFact(v, i);
      NoiseInode(v, files, loose, i);
    }
    forall r | r in w.refs ensures RefBacked(w, r) {
      assert SameBytesFor(v, files, r) && RefBacked(v, r);
    }
    forall b | b in w.aclRefs ensures AclBacked(w, b) { if b in v.aclRefs { assert AclBacked(v, b); } }
    DirsFrame(v, w);
    NoiseNames(v, w);
  }

  // Names do not depend on stream contents.
  lemma NoiseNames(v: Vol, w: Vol)
    requires NamesOk(v) && w == v.(files := w.files, loose := w.loose)
    ensures NamesOk(w)
  {
    forall d, n | d in w.dirs && n in w.dirs[d].table.recs ensures EntryOk(w, d, n) { assert EntryOk(v, d, n); }
    forall c | c in w.home ensures HomeOk(w, c) { assert HomeOk(v, c); }
  }

  /** Inode `j` is untouched by a step that keeps its own table entry, its streams, its
      directory table and its references. */
  lemma InodeFrame(v: Vol, w: Vol, j: nat)
    requires Live(v, j) && InodeOk(v, j) && Live(w, j) && w.inodes[j] == v.inodes[j] && w.hash == v.hash
    requires var n := v.inodes[j];
             (n.dataRoot == 0 ==> 0 !in v.files && 0 !in w.files) &&
             (n.dataRoot != 0 ==>
               n.dataRoot in w.files && w.files[n.dataRoot] == v.files[n.dataRoot] &&
               n.dataRoot in w.refs && w.refs[n.dataRoot] == v.refs[n.dataRoot]) &&
             (n.isDir ==>
               n.hashRoot in w.files && w.files[n.hashRoot] == v.files[n.hashRoot] &&
               n.hashRoot in w.refs && w.refs[n.hashRoot] == v.refs[n.hashRoot]) &&
             (n.aclBlock != 0 ==>
               n.aclBlock in w.loose && w.loose[n.aclBlock] == v.loose[n.aclBlock] &&
               n.aclBlock in w.aclRefs && w.aclRefs[n.aclBlock] == v.aclRefs[n.aclBlock]) &&
             (j in w.dirs <==> j in v.dirs) && (j in v.dirs ==> w.dirs[j] == v.dirs[j])
    ensures InodeOk(w, j) && NodeAt(w, j) == NodeAt(v, j)
  {
    hide TableOk, AceFits, ParseList;
    var n := v.inodes[j];
    assert Gathered(n, w.loose) == Gathered(n, v.loose);
  }

  /** A step that keeps the inodes of directories directories. */
  lemma DirsFrame(v: Vol, w: Vol)
    requires VolInv(v) && forall d :: d in w.dirs ==> (d in v.dirs && (DirBacked(v, d) ==> DirBacked(w, d))) || DirBacked(w, d)
    ensures forall d :: d in w.dirs ==> DirBacked(w, d)
  {
    hide VolInv, DirBacked;
    forall d | d in w.dirs ensures DirBacked(w, d) {
      if d in v.dirs { DirBackedFact(v, d); }
    }
  }

  lemma DirBackedFact(v: Vol, d: nat)
    requires VolInv(v) && d in v.dirs
    ensures DirBacked(v, d)
  {
    hide InodeOk, RefsOk, NamesOk;
  }

  lemma HomeLive(v: Vol, c: nat)
    requires VolInv(v) && c in v.home
    ensures Live(v, c) && c != ROOT_INO && HomeOk(v, c) && EntryOk(v, v.home[c].dir, v.home[c].name)
  {
    hide InodeOk, RefsOk, Shaped;
    assert HomeOk(v, c);
    assert EntryOk(v, v.home[c].dir, v.home[c].name);
  }

  // ----------------------------------------------------------------------------------
  // Step 2: a new inode, not named yet

  ghost function WithNode(v: Vol, i: nat, n: Inode): Vol
    requires i < |v.inodes| && i < |v.used|
  {
    v.(inodes := v.inodes[i := n], used := v.used[i := true], free := v.free - 1,
       dirs := if n.isDir then v.dirs[i := Dir(EmptyTable(), FIRST_RECORD)] else v.dirs,
       refs := if n.isDir then v.refs[n.hashRoot := HashRef(i)] else v.refs,
       aclRefs := if n.aclBlock != 0 then v.aclRefs[n.aclBlock := i] else v.aclRefs)
  }

  ghost function NewNode(n: Inode, acl: seq<Ace>): Node {
    Node(n.isDir, n.mode, n.uid, n.gid, [], map[], acl)
  }

  ghost predicate FreshNode(v: Vol, i: nat, n: Inode) {
    0 < i < |v.inodes| && |v.used| == |v.inodes| && !v.used[i] &&
    n.links == 1 && n.dataRoot == 0 && n.size == 0 && n.entryCount == 0 &&
    (!n.isDir ==> n.hashRoot == 0) &&
    (n.isDir ==>
      n.hashRoot != 0 && n.hashRoot in v.files && n.hashRoot !in v.refs &&
      TableOk(v.hash, v.files[n.hashRoot], EmptyTable(), FIRST_RECORD)) &&
    |n.aces| <= INLINE_COUNT && n.aclCount + INLINE_COUNT <= MAX_ACES && (n.aclBlock == 0 ==> n.aclCount == 0) &&
    (n.aclBlock != 0 ==> n.aclBlock in v.loose && n.aclBlock !in v.aclRefs && ACE_SIZE * n.aclCount <= |v.loose[n.aclBlock]|) &&
    forall k :: 0 <= k < |Gathered(n, v.loose)| ==> AceFits(Gathered(n, v.loose)[k])
  }

  lemma WithNodeInodes(v: Vol, i: nat, n: Inode, j: nat)
    requires VolInv(v) && FreshNode(v, i, n) && Live(WithNode(v, i, n), j)
    ensures InodeOk(WithNode(v, i, n), j)
    ensures j != i ==> Live(v, j) && NodeAt(WithNode(v, i, n), j) == NodeAt(v, j)
    ensures j == i ==> NodeAt(WithNode(v, i, n), j) == NewNode(n, Gathered(n, v.loose))
  {
    hide TableOk, VolInv, AceFits, ParseList;
    var w := WithNode(v, i, n);
    ShapeFact(v);
    DirFact(v, i);
    if j != i {
      InodeFact(v, j);
      InodeFrame(v, w, j);
    } else {
      WithNodeSelf(v, i, n);
    }
  }

  lemma WithNodeSelf(v: Vol, i: nat, n: Inode)
    requires FreshNode(v, i, n) && i !in v.dirs && 0 !in v.files
    ensures var w := WithNode(v, i, n); InodeOk(w, i) && NodeAt(w, i) == NewNode(n, Gathered(n, v.loose))
  {
    hide TableOk, AceFits, ParseList;
    var w := WithNode(v, i, n);
    assert BytesOf(w.files, 0) == [];
    assert n.isDir ==> Bindings(EmptyTable()) == map[];
  }

  lemma WithNodeNames(v: Vol, i: nat, n: Inode)
    requires VolInv(v) && FreshNode(v, i, n)
    ensures NamesOk(WithNode(v, i, n)) && i !in v.home
  {
    hide VolInv, TableOk, AceFits, Gathered;
    var w := WithNode(v, i, n);
    if i in v.home { HomeLive(v, i); assert false; }
    forall d, m | d in w.dirs && m in w.dirs[d].table.recs
      ensures EntryOk(w, d, m)
    {
      EntryFact(v, d, m);
    }
    forall c | c in w.home ensures HomeOk(w, c) {
      HomeLive(v, c);
      DirFact(v, i);
    }
  }

  lemma WithNodeRefs(v: Vol, i: nat, n: Inode)
    requires VolInv(v) && FreshNode(v, i, n)
    ensures RefsOk(WithNode(v, i, n))
  {
    hide InodesOk, TableOk, NamesOk, AceFits, Gathered;
    var w := WithNode(v, i, n);
    forall r | r in w.refs ensures RefBacked(w, r) {
      if r in v.refs { assert RefBacked(v, r); }
    }
    forall b | b in w.aclRefs ensures AclBacked(w, b) { if b in v.aclRefs { assert AclBacked(v, b); } }
  }

  lemma WithNodeKeeps(v: Vol, i: nat, n: Inode)
    requires VolInv(v) && FreshNode(v, i, n)
    ensures i < |v.inodes| && i < |v.used|
    ensures var w := WithNode(v, i, n);
            VolInv(w) && Live(w, i) && i !in w.home && i != ROOT_INO &&
            Abs(w) == Abs(v)[i := NewNode(n, Gathered(n, v.loose))]
  {
    hide InodeOk, TableOk, NamesOk, RefsOk, NodeAt, Gathered, FreshNode;
    WithNodeShape(v, i, n);
    var w := WithNode(v, i, n);
    forall j | Live(w, j)
      ensures InodeOk(w, j)
      ensures j != i ==> Live(v, j) && NodeAt(w, j) == NodeAt(v, j)
      ensures j == i ==> NodeAt(w, j) == NewNode(n, Gathered(n, v.loose))
    {
      WithNodeInodes(v, i, n, j);
    }
    DirsFrame(v, w);
    WithNodeNames(v, i, n);
    WithNodeRefs(v, i, n);
  }

  lemma WithNodeShape(v: Vol, i: nat, n: Inode)
    requires Shaped(v) && FreshNode(v, i, n)
    ensures i < |v.inodes| && i < |v.used| && Shaped(WithNode(v, i, n)) && !Live(v, i) && i != ROOT_INO
    ensures forall j :: Live(v, j) ==> Live(WithNode(v, i, n), j) && j != i
    ensures Live(WithNode(v, i, n), i)
  {
    hide TableOk, Gathered, AceFits;
    ClearBitsUpdate(v.used, i, true);
  }

  // ----------------------------------------------------------------------------------
  // Step 3: naming an inode; step 4: taking a name away

  /** Directory `d` now holds table `t` in bytes `h`, and `home` says where inodes live. */
  ghost function WithTable(v: Vol, d: nat, t: Table, free: nat, h: seq<Byte>, home: map<nat, Place>): Vol
    requires d < |v.inodes|
  {
    v.(files := v.files[v.inodes[d].hashRoot := h],
       inodes := v.inodes[d := v.inodes[d].(entryCount := |t.recs|)],
       dirs := v.dirs[d := Dir(t, free)],
       home := home)
  }

  lemma WithTableInodes(v: Vol, d: nat, t: Table, free: nat, h: seq<Byte>, home: map<nat, Place>, j: nat)
    requires VolInv(v) && d in v.dirs && Live(v, d) && TableOk(v.hash, h, t, free) && Live(v, j)
    ensures var w := WithTable(v, d, t, free, h, home);
            InodeOk(w, j) &&
            NodeAt(w, j) == if j == d then NodeAt(v, d).(entries := Bindings(t)) else NodeAt(v, j)
  {
    hide TableOk, VolInv, AceFits, ParseList, Bindings;
    var w := WithTable(v, d, t, free, h, home);
    ShapeFact(v);
    InodeFact(v, d);
    InodeFact(v, j);
    if j != d {
      InodeFrame(v, w, j);
    } else {
      assert Gathered(w.inodes[d], w.loose) == Gathered(v.inodes[d], v.loose);
      assert InodeOk(w, d);
    }
  }

  lemma WithTableRefs(v: Vol, d: nat, t: Table, free: nat, h: seq<Byte>, home: map<nat, Place>)
    requires VolInv(v) && d in v.dirs && Live(v, d) && v.inodes[d].hashRoot != 0
    ensures RefsOk(WithTable(v, d, t, free, h, home))
  {
    hide InodesOk, TableOk, NamesOk;
    var w := WithTable(v, d, t, free, h, home);
    forall r | r in w.refs ensures RefBacked(w, r) {
      assert RefBacked(v, r);
    }
    forall b | b in w.aclRefs ensures AclBacked(w, b) { if b in v.aclRefs { assert AclBacked(v, b); } }
  }

  lemma WithTableKeeps(v: Vol, d: nat, t: Table, free: nat, h: seq<Byte>, home: map<nat, Place>)
    requires VolInv(v) && d in v.dirs && TableOk(v.hash, h, t, free)
    requires d < |v.inodes| && NamesOk(WithTable(v, d, t, free, h, home))
    ensures var w := WithTable(v, d, t, free, h, home);
            VolInv(w) && d in Abs(v) && Abs(w) == Abs(v)[d := Abs(v)[d].(entries := Bindings(t))]
  {
    hide InodeOk, TableOk, NamesOk, RefsOk, NodeAt, Bindings;
    var w := WithTable(v, d, t, free, h, home);
    DirFact(v, d);
    InodeFact(v, d);
    HashRootFact(v, d);
    forall j | Live(v, j)
      ensures InodeOk(w, j) && NodeAt(w, j) == if j == d then NodeAt(v, d).(entries := Bindings(t)) else NodeAt(v, j)
    {
      WithTableInodes(v, d, t, free, h, home, j);
    }
    assert forall j :: Live(w, j) <==> Live(v, j);
    DirsFrame(v, w);
    WithTableRefs(v, d, t, free, h, home);
  }

  lemma HashRootFact(v: Vol, d: nat)
    requires Live(v, d) && InodeOk(v, d) && d in v.dirs
    ensures v.inodes[d].hashRoot != 0 && v.inodes[d].hashRoot in v.files && v.inodes[d].isDir
    ensures TableOk(v.hash, v.files[v.inodes[d].hashRoot], v.dirs[d].table, v.dirs[d].free)
    ensures v.inodes[d].entryCount == |v.dirs[d].table.recs|
    ensures v.inodes[d].hashRoot in v.refs && v.refs[v.inodes[d].hashRoot] == HashRef(d)
  {
    hide AclOk, InodeDataOk, TableOk;
  }

  // An entry is as good as before when its record, its place and its target's type are.
  lemma EntryFrame(v: Vol, w: Vol, e: nat, m: Name)
    requires e in v.dirs && m in v.dirs[e].table.recs && EntryOk(v, e, m)
    requires e in w.dirs && m in w.dirs[e].table.recs && w.dirs[e].table.recs[m] == v.dirs[e].table.recs[m]
    requires var c := v.dirs[e].table.recs[m].ino;
             c in w.home && w.home[c] == v.home[c] && Live(w, c) && Kind(w.inodes[c]) == Kind(v.inodes[c])
    ensures EntryOk(w, e, m)
  {
  }

  /** Binding an unnamed inode keeps the naming invariant. */
  lemma BindNames(v: Vol, d: nat, n: Name, c: nat, t: Table, free: nat, h: seq<Byte>)
    requires VolInv(v) && d in v.dirs && d < |v.inodes| && n !in v.dirs[d].table.recs
    requires Live(v, c) && c != ROOT_INO && c !in v.home
    requires t.recs.Keys == v.dirs[d].table.recs.Keys + {n}
    requires t.recs[n].ino == c && t.recs[n].kind == Kind(v.inodes[c])
    requires forall m :: m in v.dirs[d].table.recs ==> t.recs[m] == v.dirs[d].table.recs[m]
    ensures NamesOk(WithTable(v, d, t, free, h, v.home[c := Place(d, n)]))
  {
    hide VolInv;
    var w := WithTable(v, d, t, free, h, v.home[c := Place(d, n)]);
    forall e, m | e in w.dirs && m in w.dirs[e].table.recs
      ensures EntryOk(w, e, m)
    {
      if e != d || m != n {
        EntryFact(v, e, m);
        EntryFrame(v, w, e, m);
      }
    }
    BindHomes(v, w, d, n, c, t);
  }

  lemma BindHomes(v: Vol, w: Vol, d: nat, n: Name, c: nat, t: Table)
    requires VolInv(v) && d in v.dirs && w.home == v.home[c := Place(d, n)] && d in w.dirs && w.dirs == v.dirs[d := Dir(t, w.dirs[d].free)]
    requires t.recs.Keys == v.dirs[d].table.recs.Keys + {n} && t.recs[n].ino == c
    requires forall m :: m in v.dirs[d].table.recs ==> t.recs[m] == v.dirs[d].table.recs[m]
    ensures forall x :: x in w.home ==> HomeOk(w, x)
  {
    hide VolInv;
    forall x | x in w.home ensures HomeOk(w, x) {
      if x != c { HomeLive(v, x); }
    }
  }

  /** Taking away a name leaves its inode unnamed, and every other name in place. */
  lemma UnbindNames(v: Vol, d: nat, n: Name, t: Table, free: nat, h: seq<Byte>)
    requires VolInv(v) && d in v.dirs && d < |v.inodes| && n in v.dirs[d].table.recs
    requires t.recs == v.dirs[d].table.recs - {n}
    ensures var c := v.dirs[d].table.recs[n].ino;
            NamesOk(WithTable(v, d, t, free, h, v.home - {c})) && c in v.home && Live(v, c) && c != ROOT_INO
  {
    hide VolInv, TableOk, AceFits, Gathered;
    var c := v.dirs[d].table.recs[n].ino;
    var w := WithTable(v, d, t, free, h, v.home - {c});
    EntryFact(v, d, n);
    forall e, m | e in w.dirs && m in w.dirs[e].table.recs
      ensures EntryOk(w, e, m)
    {
      EntryFact(v, e, m);
      EntryFrame(v, w, e, m);
    }
    forall x | x in w.home ensures HomeOk(w, x) {
      HomeLive(v, x);
    }
  }

  // ----------------------------------------------------------------------------------
  // Step 5: dropping an unnamed inode, with or without giving its streams back

  ghost function WithoutNode(v: Vol, c: nat, files: map<nat, seq<Byte>>): Vol
    requires c < |v.used|
  {
    v.(files := files, used := v.used[c := false], free := v.free + 1, dirs := v.dirs - {c},
       refs := RefsWithout(v.refs, c), aclRefs := AclsWithout(v.aclRefs, c))
  }

  ghost function RefsWithout(refs: map<nat, Ref>, c: nat): map<nat, Ref> {
    map r | r in refs && refs[r].ino != c :: refs[r]
  }

  ghost function AclsWithout(refs: map<nat, nat>, c: nat): map<nat, nat> {
    map b | b in refs && refs[b] != c :: refs[b]
  }

  ghost predicate Droppable(v: Vol, c: nat, files: map<nat, seq<Byte>>) {
    Live(v, c) && c != ROOT_INO && c !in v.home && 0 !in files &&
    (c in v.dirs ==> v.dirs[c].table.recs == map[]) &&
    forall r :: r in v.refs && v.refs[r].ino != c ==> r in v.files && r in files && files[r] == v.files[r]
  }

  lemma WithoutNodeInodes(v: Vol, c: nat, files: map<nat, seq<Byte>>, j: nat)
    requires VolInv(v) && Droppable(v, c, files) && Live(v, j) && j != c
    ensures InodeOk(WithoutNode(v, c, files), j) && NodeAt(WithoutNode(v, c, files), j) == NodeAt(v, j)
  {
    hide TableOk, VolInv, AceFits, ParseList;
    ShapeFact(v);
    InodeFact(v, j);
    InodeFrame(v, WithoutNode(v, c, files), j);
  }

  lemma WithoutNodeNames(v: Vol, c: nat, files: map<nat, seq<Byte>>)
    requires VolInv(v) && Droppable(v, c, files)
    ensures NamesOk(WithoutNode(v, c, files))
  {
    hide VolInv, TableOk, AceFits, Gathered;
    var w := WithoutNode(v, c, files);
    forall e, m | e in w.dirs && m in w.dirs[e].table.recs
      ensures EntryOk(w, e, m)
    {
      EntryFact(v, e, m);
    }
    forall x | x in w.home ensures HomeOk(w, x) {
      HomeLive(v, x);
    }
  }

  lemma WithoutNodeRefs(v: Vol, c: nat, files: map<nat, seq<Byte>>)
    requires VolInv(v) && Droppable(v, c, files)
    ensures RefsOk(WithoutNode(v, c, files))
  {
    hide InodesOk, TableOk, NamesOk;
    var w := WithoutNode(v, c, files);
    forall r | r in w.refs ensures RefBacked(w, r) {
      assert RefBacked(v, r);
    }
    forall b | b in w.aclRefs ensures AclBacked(w, b) { if b in v.aclRefs { assert AclBacked(v, b); } }
  }

  lemma WithoutNodeKeeps(v: Vol, c: nat, files: map<nat, seq<Byte>>)
    requires VolInv(v) && Droppable(v, c, files)
    ensures VolInv(WithoutNode(v, c, files)) && Abs(WithoutNode(v, c, files)) == Abs(v) - {c}
  {
    hide InodeOk, TableOk, NamesOk, RefsOk, NodeAt;
    var w := WithoutNode(v, c, files);
    ClearBitsUpdate(v.used, c, false);
    forall j | Live(w, j)
      ensures InodeOk(w, j) && NodeAt(w, j) == NodeAt(v, j)
    {
      WithoutNodeInodes(v, c, files, j);
    }
    assert forall j :: Live(w, j) <==> Live(v, j) && j != c;
    DirsFrame(v, w);
    WithoutNodeNames(v, c, files);
    WithoutNodeRefs(v, c, files);
  }

  // ----------------------------------------------------------------------------------
  // Step 6: writing file data

  ghost function WithData(v: Vol, i: nat, root: nat, bytes: seq<Byte>, size: nat): Vol
    requires i < |v.inodes|
  {
    v.(files := v.files[root := bytes],
       inodes := v.inodes[i := v.inodes[i].(dataRoot := root, size := size)],
       refs := v.refs[root := DataRef(i)])
  }

  ghost predicate Storable(v: Vol, i: nat, root: nat, bytes: seq<Byte>, size: nat) {
    Live(v, i) && root != 0 && size <= |bytes| &&
    (if v.inodes[i].dataRoot == 0 then root !in v.refs else root == v.inodes[i].dataRoot)
  }

  lemma WithDataInodes(v: Vol, i: nat, root: nat, bytes: seq<Byte>, size: nat, j: nat)
    requires VolInv(v) && Storable(v, i, root, bytes, size) && Live(v, j)
    ensures var w := WithData(v, i, root, bytes, size);
            InodeOk(w, j) && NodeAt(w, j) == if j == i then NodeAt(v, i).(data := bytes[..size]) else NodeAt(v, j)
  {
    hide TableOk, VolInv, AceFits, ParseList, Bindings;
    var w := WithData(v, i, root, bytes, size);
    ShapeFact(v);
    InodeFact(v, i);
    InodeFact(v, j);
    if j != i {
      InodeFrame(v, w, j);
    } else {
      WithDataSelf(v, i, root, bytes, size);
    }
  }

  lemma WithDataSelf(v: Vol, i: nat, root: nat, bytes: seq<Byte>, size: nat)
    requires InodeOk(v, i) && Storable(v, i, root, bytes, size)
    ensures var w := WithData(v, i, root, bytes, size);
            InodeOk(w, i) && NodeAt(w, i) == NodeAt(v, i).(data := bytes[..size])
  {
    hide TableOk, AceFits, ParseList, Bindings;
    var w := WithData(v, i, root, bytes, size);
    assert Gathered(w.inodes[i], w.loose) == Gathered(v.inodes[i], v.loose);
    assert AclOk(w, i, w.inodes[i]);
  }

  lemma WithDataKeeps(v: Vol, i: nat, root: nat, bytes: seq<Byte>, size: nat)
    requires VolInv(v) && Storable(v, i, root, bytes, size)
    ensures var w := WithData(v, i, root, bytes, size);
            VolInv(w) && i in Abs(v) && Abs(w) == Abs(v)[i := Abs(v)[i].(data := bytes[..size])]
  {
    hide InodeOk, TableOk, NamesOk, RefsOk, NodeAt;
    var w := WithData(v, i, root, bytes, size);
    InodeFact(v, i);
    forall j | Live(v, j)
      ensures InodeOk(w, j) && NodeAt(w, j) == if j == i then NodeAt(v, i).(data := bytes[..size]) else NodeAt(v, j)
    {
      WithDataInodes(v, i, root, bytes, size, j);
    }
    assert forall j :: Live(w, j) <==> Live(v, j);
    DirsFrame(v, w);
    WithDataRest(v, i, root, bytes, size);
  }

  lemma WithDataRest(v: Vol, i: nat, root: nat, bytes: seq<Byte>, size: nat)
    requires VolInv(v) && Storable(v, i, root, bytes, size)
    ensures NamesOk(WithData(v, i, root, bytes, size)) && RefsOk(WithData(v, i, root, bytes, size))
  {
    hide VolInv, TableOk;
    var w := WithData(v, i, root, bytes, size);
    forall e, m | e in w.dirs && m in w.dirs[e].table.recs ensures EntryOk(w, e, m) { EntryFact(v, e, m); }
    forall x | x in w.home ensures HomeOk(w, x) { HomeLive(v, x); }
    WithDataRefs(v, i, root, bytes, size);
  }

  lemma WithDataRefs(v: Vol, i: nat, root: nat, bytes: seq<Byte>, size: nat)
    requires VolInv(v) && Storable(v, i, root, bytes, size)
    ensures RefsOk(WithData(v, i, root, bytes, size))
  {
    hide InodesOk, NamesOk;
    var w := WithData(v, i, root, bytes, size);
    forall r | r in w.refs ensures RefBacked(w, r) {
      if r in v.refs { assert RefBacked(v, r); }
    }
    forall b | b in w.aclRefs ensures AclBacked(w, b) { if b in v.aclRefs { assert AclBacked(v, b); } }
  }
}
