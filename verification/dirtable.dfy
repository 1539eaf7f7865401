/** The directory hash table as bytes of a stream: header, bucket heads, and chains of
    bump-allocated records. The table stands for a finite map from names to entries. */
module DirTable {
  import opened Bytes

  type Name = seq<Byte>

  const DIRHASH_MAGIC: nat := 0x48524944
  const BUCKETS: nat := 16
  const HEADER_SIZE: nat := 32
  const FIRST_RECORD: nat := 160
  const DIRENT_SIZE: nat := 24
  const NAME_MAX: nat := 255

  /** What a directory binds a name to. */
  datatype Entry = Entry(ino: nat, kind: nat)

  /** A record: where it starts in the stream, and what it binds. */
  datatype Rec = Rec(off: nat, ino: nat, kind: nat)

  /** The records by name, and the chain of names hanging off each bucket. */
  datatype Table = Table(recs: map<Name, Rec>, chains: seq<seq<Name>>)

  /** The finite map the table stands for. */
  function Bindings(t: Table): (m: map<Name, Entry>)
    ensures m.Keys == t.recs.Keys
  {
    map n | n in t.recs :: Entry(t.recs[n].ino, t.recs[n].kind)
  }

  function Hash(hash: Name -> nat, n: Name): nat {
    hash(n) % U32_LIMIT
  }

  function Bucket(hash: Name -> nat, n: Name): (b: nat)
    ensures b < BUCKETS
  {
    Hash(hash, n) % BUCKETS
  }

  /** Record length, padded so that the next record starts on an 8-byte boundary. */
  function RecSize(len: nat): (r: nat)
    ensures DIRENT_SIZE + len <= r < DIRENT_SIZE + len + 8 && r % 8 == 0
  {
    (DIRENT_SIZE + len + 7) / 8 * 8
  }

  // ----------------------------------------------------------------------------------
  // Structure of the table, without the bytes

  ghost predicate NameOk(t: Table, n: Name, free: nat)
    requires n in t.recs
  {
    var r := t.recs[n];
    1 <= |n| <= NAME_MAX && FIRST_RECORD <= r.off && r.off + RecSize(|n|) <= free &&
    r.ino < U64_LIMIT && r.kind < 256
  }

  ghost predicate Apart(a: Rec, la: nat, b: Rec, lb: nat) {
    a.off + RecSize(la) <= b.off || b.off + RecSize(lb) <= a.off
  }

  /** Every chain entry is a record of its bucket. */
  ghost predicate ChainsOk(hash: Name -> nat, t: Table) {
    |t.chains| == BUCKETS &&
    forall b, i :: 0 <= b < BUCKETS && 0 <= i < |t.chains[b]| ==>
      t.chains[b][i] in t.recs && Bucket(hash, t.chains[b][i]) == b
  }

  /** Every record hangs off its bucket. */
  ghost predicate AllListed(hash: Name -> nat, t: Table)
    requires |t.chains| == BUCKETS
  {
    forall n :: n in t.recs ==> n in t.chains[Bucket(hash, n)]
  }

  /** Along a chain the offsets strictly decrease: newer records come first. */
  ghost predicate Descending(t: Table, c: seq<Name>) {
    (forall i :: 0 <= i < |c| ==> c[i] in t.recs) &&
    forall i, j :: 0 <= i < j < |c| ==> t.recs[c[j]].off < t.recs[c[i]].off
  }

  ghost predicate AllDescending(t: Table) {
    forall b :: 0 <= b < |t.chains| ==> Descending(t, t.chains[b])
  }

  ghost predicate RecordNamesOk(t: Table, free: nat) {
    forall n :: n in t.recs ==> NameOk(t, n, free)
  }

  /** No two records overlap. */
  ghost predicate AllApart(t: Table) {
    forall m, n :: m in t.recs && n in t.recs && m != n ==> Apart(t.recs[m], |m|, t.recs[n], |n|)
  }

  ghost predicate WellFormed(hash: Name -> nat, t: Table, free: nat) {
    ChainsOk(hash, t) && AllListed(hash, t) && AllDescending(t) && RecordNamesOk(t, free) && AllApart(t)
  }

  ghost function RecAt(t: Table, b: nat, i: nat): Rec {
    if b < |t.chains| && i < |t.chains[b]| && t.chains[b][i] in t.recs then t.recs[t.chains[b][i]] else Rec(0, 0, 0)
  }

  /** Offset of entry `i` of chain `b`; 0 past the end. */
  ghost function OffAt(t: Table, b: nat, i: nat): nat {
    RecAt(t, b, i).off
  }

  function EmptyTable(): Table {
    Table(map[], seq(BUCKETS, _ => []))
  }

  ghost function Inserted(hash: Name -> nat, t: Table, n: Name, r: Rec): Table
    requires |t.chains| == BUCKETS
  {
    var b := Bucket(hash, n);
    Table(t.recs[n := r], t.chains[b := [n] + t.chains[b]])
  }

  lemma InsertedChains(hash: Name -> nat, t: Table, n: Name, r: Rec)
    requires ChainsOk(hash, t) && AllListed(hash, t) && n !in t.recs
    ensures ChainsOk(hash, Inserted(hash, t, n, r)) && AllListed(hash, Inserted(hash, t, n, r))
  {
    hide Bucket;
    var t' := Inserted(hash, t, n, r);
    var b := Bucket(hash, n);
    assert t'.chains[b][0] == n;
    forall m | m in t'.recs
      ensures m in t'.chains[Bucket(hash, m)]
    {
      if m != n && Bucket(hash, m) == b {
        var i :| 0 <= i < |t.chains[b]| && t.chains[b][i] == m;
        assert t'.chains[b][i + 1] == m;
      }
    }
  }

  lemma InsertedDescending(hash: Name -> nat, t: Table, free: nat, n: Name, r: Rec)
    requires ChainsOk(hash, t) && AllDescending(t) && RecordNamesOk(t, free) && n !in t.recs && r.off == free
    ensures AllDescending(Inserted(hash, t, n, r))
  {
    hide Bucket;
    var t' := Inserted(hash, t, n, r);
    var b := Bucket(hash, n);
    forall d | 0 <= d < |t'.chains|
      ensures Descending(t', t'.chains[d])
    {
      var c, c' := t.chains[d], t'.chains[d];
      assert Descending(t, c);
      if d == b {
        forall i, j | 0 <= i < j < |c'|
          ensures t'.recs[c'[j]].off < t'.recs[c'[i]].off
        {
          assert c'[j] == c[j - 1] && NameOk(t, c[j - 1], free);
          if i > 0 { assert c'[i] == c[i - 1]; }
        }
      }
    }
  }

  lemma InsertedNames(hash: Name -> nat, t: Table, free: nat, n: Name, r: Rec, free': nat)
    requires |t.chains| == BUCKETS && RecordNamesOk(t, free) && AllApart(t) && n !in t.recs
    requires 1 <= |n| <= NAME_MAX && FIRST_RECORD <= free == r.off && free' == free + RecSize(|n|)
    requires r.ino < U64_LIMIT && r.kind < 256
    ensures RecordNamesOk(Inserted(hash, t, n, r), free') && AllApart(Inserted(hash, t, n, r))
  {
    hide RecSize, Bucket;
    forall m | m in t.recs
      ensures NameOk(t, m, free) && Apart(t.recs[m], |m|, r, |n|)
    {
    }
  }

  /** A new name at the free offset keeps the structure. */
  lemma InsertedWellFormed(hash: Name -> nat, t: Table, free: nat, n: Name, r: Rec, free': nat)
    requires WellFormed(hash, t, free) && n !in t.recs
    requires 1 <= |n| <= NAME_MAX && FIRST_RECORD <= free == r.off && free' == free + RecSize(|n|)
    requires r.ino < U64_LIMIT && r.kind < 256
    ensures WellFormed(hash, Inserted(hash, t, n, r), free')
  {
    InsertedChains(hash, t, n, r);
    InsertedDescending(hash, t, free, n, r);
    InsertedNames(hash, t, free, n, r, free');
    hide AllListed, AllDescending, RecordNamesOk, AllApart, Bucket;
  }

  ghost function Deleted(t: Table, n: Name, b: nat, i: nat): Table
    requires b < |t.chains| && i < |t.chains[b]|
  {
    Table(t.recs - {n}, t.chains[b := Cut(t.chains[b], i)])
  }

  function Cut<T>(c: seq<T>, i: nat): (r: seq<T>)
    requires i < |c|
    ensures |r| == |c| - 1
    ensures forall k :: 0 <= k < |r| ==> r[k] == if k < i then c[k] else c[k + 1]
  {
    c[..i] + c[i + 1..]
  }

  /** In a chain no name occurs twice: offsets decrease, and a name has one record. */
  lemma ChainDistinct(t: Table, c: seq<Name>, i: nat, j: nat)
    requires Descending(t, c) && i < |c| && j < |c| && c[i] == c[j]
    ensures i == j
  {
  }

  lemma DeletedChains(hash: Name -> nat, t: Table, b: nat, i: nat)
    requires ChainsOk(hash, t) && AllListed(hash, t) && AllDescending(t) && b < BUCKETS && i < |t.chains[b]|
    ensures var t' := Deleted(t, t.chains[b][i], b, i);
            ChainsOk(hash, t') && AllListed(hash, t')
  {
    hide Bucket;
    var c := t.chains[b];
    var n := c[i];
    var t' := Deleted(t, n, b, i);
    assert Descending(t, c);
    forall d, k | 0 <= d < BUCKETS && 0 <= k < |t'.chains[d]|
      ensures t'.chains[d][k] in t'.recs && Bucket(hash, t'.chains[d][k]) == d
    {
      if d == b {
        var k' := if k < i then k else k + 1;
        assert t'.chains[d][k] == c[k'];
        assert c[k'] != n;
      } else {
        assert Bucket(hash, t.chains[d][k]) == d;
      }
    }
    DeletedListed(hash, t, b, i);
  }

  lemma DeletedListed(hash: Name -> nat, t: Table, b: nat, i: nat)
    requires |t.chains| == BUCKETS && AllListed(hash, t) && b < BUCKETS && i < |t.chains[b]|
    ensures AllListed(hash, Deleted(t, t.chains[b][i], b, i))
  {
    hide Bucket;
    var c := t.chains[b];
    var t' := Deleted(t, c[i], b, i);
    forall m | m in t'.recs
      ensures m in t'.chains[Bucket(hash, m)]
    {
      if Bucket(hash, m) == b {
        var k :| 0 <= k < |c| && c[k] == m;
        assert t'.chains[b][if k < i then k else k - 1] == m;
      }
    }
  }

  lemma DeletedDescending(hash: Name -> nat, t: Table, b: nat, i: nat)
    requires AllDescending(t) && |t.chains| == BUCKETS && b < BUCKETS && i < |t.chains[b]|
    requires ChainsOk(hash, Deleted(t, t.chains[b][i], b, i))
    ensures AllDescending(Deleted(t, t.chains[b][i], b, i))
  {
    hide Bucket;
    var t' := Deleted(t, t.chains[b][i], b, i);
    forall d | 0 <= d < |t'.chains|
      ensures Descending(t', t'.chains[d])
    {
      assert Descending(t, t.chains[d]);
    }
  }

  lemma DeletedWellFormed(hash: Name -> nat, t: Table, free: nat, b: nat, i: nat)
    requires WellFormed(hash, t, free) && b < BUCKETS && i < |t.chains[b]|
    ensures WellFormed(hash, Deleted(t, t.chains[b][i], b, i), free)
  {
    hide Bucket, RecSize, AllListed, AllDescending;
    DeletedChains(hash, t, b, i);
    DeletedDescending(hash, t, b, i);
    var t' := Deleted(t, t.chains[b][i], b, i);
    forall m | m in t'.recs ensures NameOk(t', m, free) { assert NameOk(t, m, free); }
  }

  // ----------------------------------------------------------------------------------
  // The table in the bytes of a stream

  ghost predicate RecOnDisk(hash: Name -> nat, h: seq<Byte>, n: Name, r: Rec, next: nat) {
    r.off + DIRENT_SIZE + |n| <= |h| &&
    Field(h, r.off, 8) == r.ino &&
    Field(h, r.off + 8, 8) == next &&
    Field(h, r.off + 16, 4) == Hash(hash, n) &&
    Field(h, r.off + 20, 2) == |n| &&
    Field(h, r.off + 22, 1) == r.kind &&
    h[r.off + DIRENT_SIZE..r.off + DIRENT_SIZE + |n|] == n
  }

  ghost predicate HeaderOk(h: seq<Byte>, count: nat, free: nat) {
    FIRST_RECORD <= |h| &&
    Field(h, 0, 4) == DIRHASH_MAGIC && Field(h, 4, 4) == BUCKETS &&
    Field(h, 8, 8) == count && Field(h, 16, 8) == free
  }

  ghost predicate BucketsOk(h: seq<Byte>, t: Table) {
    FIRST_RECORD <= |h| &&
    forall b :: 0 <= b < BUCKETS ==> Field(h, HEADER_SIZE + 8 * b, 8) == OffAt(t, b, 0)
  }

  ghost predicate RecordsOk(hash: Name -> nat, h: seq<Byte>, t: Table) {
    forall b, i :: 0 <= b < |t.chains| && 0 <= i < |t.chains[b]| ==>
      RecOnDisk(hash, h, t.chains[b][i], RecAt(t, b, i), OffAt(t, b, i + 1))
  }

  /** The bytes `h` hold the table `t`, with `free` the next free offset. */
  ghost predicate TableOk(hash: Name -> nat, h: seq<Byte>, t: Table, free: nat) {
    WellFormed(hash, t, free) && HeaderOk(h, |t.recs|, free) &&
    FIRST_RECORD <= free <= |h| < U64_LIMIT && free % 8 == 0 && |h| % 8 == 0 &&
    BucketsOk(h, t) && RecordsOk(hash, h, t)
  }
}
