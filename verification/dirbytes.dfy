/** How the byte writes of a directory insert or remove change the table they hold. */
module DirBytes {
  import opened Bytes
  import opened Streams
  import opened DirTable

  function DirentBytes(ino: nat, next: nat, hash: nat, len: nat, kind: nat): (r: seq<Byte>)
    ensures |r| == DIRENT_SIZE
  {
    Enc(ino, 8) + Enc(next, 8) + Enc(hash, 4) + Enc(len, 2) + Enc(kind, 1) + Enc(0, 1)
  }

  /** A header as it is written back: two of its fields changed. */
  function HeaderWith(hdr: seq<Byte>, count: nat, free: nat): (r: seq<Byte>)
    requires |hdr| == HEADER_SIZE
    ensures |r| == HEADER_SIZE
  {
    Put(Put(hdr, 8, Enc(count, 8)), 16, Enc(free, 8))
  }

  lemma HeaderWithOk(h: seq<Byte>, hdr: seq<Byte>, count: nat, free: nat)
    requires FIRST_RECORD <= |h| && |hdr| == HEADER_SIZE && count < U64_LIMIT && free < U64_LIMIT
    requires Field(hdr, 0, 4) == DIRHASH_MAGIC && Field(hdr, 4, 4) == BUCKETS
    requires h[0..HEADER_SIZE] == HeaderWith(hdr, count, free)
    ensures HeaderOk(h, count, free)
  {
    hide Dec, Enc;
    Widths();
    var a := Put(hdr, 8, Enc(count, 8));
    var b := HeaderWith(hdr, count, free);
    FieldFrame(hdr, a, 0, 4);
    FieldFrame(hdr, a, 4, 4);
    FieldFrame(a, b, 0, 4);
    FieldFrame(a, b, 4, 4);
    FieldIs(a, 8, 8, count);
    FieldFrame(a, b, 8, 8);
    FieldIs(b, 16, 8, free);
    assert forall k :: 0 <= k < HEADER_SIZE ==> h[k] == h[0..HEADER_SIZE][k];
    FieldFrame(h, b, 0, 4);
    FieldFrame(h, b, 4, 4);
    FieldFrame(h, b, 8, 8);
    FieldFrame(h, b, 16, 8);
  }

  lemma NewRecord(hash: Name -> nat, h: seq<Byte>, n: Name, r: Rec, next: nat)
    requires r.off + DIRENT_SIZE + |n| <= |h| && r.ino < U64_LIMIT && next < U64_LIMIT && |n| <= NAME_MAX && r.kind < 256
    requires h[r.off..r.off + DIRENT_SIZE] == DirentBytes(r.ino, next, Hash(hash, n), |n|, r.kind)
    requires h[r.off + DIRENT_SIZE..r.off + DIRENT_SIZE + |n|] == n
    ensures RecOnDisk(hash, h, n, r, next)
  {
    hide Dec, Enc, Field;
    Widths();
    var d := DirentBytes(r.ino, next, Hash(hash, n), |n|, r.kind);
    FieldOfPart(h, r.off, d, 0, 8, r.ino);
    FieldOfPart(h, r.off, d, 8, 8, next);
    FieldOfPart(h, r.off, d, 16, 4, Hash(hash, n));
    FieldOfPart(h, r.off, d, 20, 2, |n|);
    FieldOfPart(h, r.off, d, 22, 1, r.kind);
  }

  ghost predicate SameOn(h: seq<Byte>, h': seq<Byte>, lo: nat, hi: nat) {
    hi <= |h| && hi <= |h'| && forall k :: lo <= k < hi ==> h'[k] == h[k]
  }

  lemma RecFrame(hash: Name -> nat, h: seq<Byte>, h': seq<Byte>, n: Name, r: Rec, next: nat)
    requires RecOnDisk(hash, h, n, r, next) && SameOn(h, h', r.off, r.off + DIRENT_SIZE + |n|)
    ensures RecOnDisk(hash, h', n, r, next)
  {
    hide Dec;
    FieldFrame(h, h', r.off, 8);
    FieldFrame(h, h', r.off + 8, 8);
    FieldFrame(h, h', r.off + 16, 4);
    FieldFrame(h, h', r.off + 20, 2);
    FieldFrame(h, h', r.off + 22, 1);
    var a := r.off + DIRENT_SIZE;
    assert h'[a..a + |n|] == h[a..a + |n|];
  }

  /** Rewriting only the link field of a record. */
  lemma RecRelink(hash: Name -> nat, h: seq<Byte>, h': seq<Byte>, n: Name, r: Rec, next: nat, next': nat)
    requires RecOnDisk(hash, h, n, r, next) && next' < U64_LIMIT
    requires SameOn(h, h', r.off, r.off + 8) && SameOn(h, h', r.off + 16, r.off + DIRENT_SIZE + |n|)
    requires h'[r.off + 8..r.off + 16] == Enc(next', 8)
    ensures RecOnDisk(hash, h', n, r, next')
  {
    hide Dec, Enc;
    Widths();
    FieldFrame(h, h', r.off, 8);
    FieldIs(h', r.off + 8, 8, next');
    FieldFrame(h, h', r.off + 16, 4);
    FieldFrame(h, h', r.off + 20, 2);
    FieldFrame(h, h', r.off + 22, 1);
    var a := r.off + DIRENT_SIZE;
    assert h'[a..a + |n|] == h[a..a + |n|];
  }

  // What a table says about one bucket head and one chain entry.

  lemma HeadFact(hash: Name -> nat, h: seq<Byte>, t: Table, free: nat, b: nat)
    requires TableOk(hash, h, t, free) && b < BUCKETS
    ensures FIRST_RECORD <= |h| && |t.chains| == BUCKETS && Descending(t, t.chains[b])
    ensures Field(h, HEADER_SIZE + 8 * b, 8) == OffAt(t, b, 0)
  {
    hide Dec, RecordsOk, AllListed, RecordNamesOk, AllApart, Descending;
  }

  lemma RecFact(hash: Name -> nat, h: seq<Byte>, t: Table, free: nat, b: nat, i: nat)
    requires TableOk(hash, h, t, free) && b < BUCKETS && i < |t.chains[b]|
    ensures var n := t.chains[b][i];
            Descending(t, t.chains[b]) && n in t.recs && Bucket(hash, n) == b && NameOk(t, n, free) &&
            RecAt(t, b, i) == t.recs[n] && RecOnDisk(hash, h, n, t.recs[n], OffAt(t, b, i + 1))
  {
    hide Dec, RecOnDisk, BucketsOk, AllListed, AllApart, Descending, Bucket, RecSize;
  }

  lemma HeaderFact(hash: Name -> nat, h: seq<Byte>, t: Table, free: nat)
    requires TableOk(hash, h, t, free)
    ensures HeaderOk(h, |t.recs|, free) && FIRST_RECORD <= free <= |h| < U64_LIMIT
    ensures free % 8 == 0 && |h| % 8 == 0 && |t.chains| == BUCKETS
  {
    hide Dec, RecordsOk, AllListed, RecordNamesOk, AllApart, AllDescending, BucketsOk, HeaderOk;
  }

  /** Bytes at or past the free offset do not matter: what a failed insert may have left
      there, and blocks appended meanwhile, leave the table as it was. */
  lemma TableFrame(hash: Name -> nat, h: seq<Byte>, h': seq<Byte>, t: Table, free: nat)
    requires TableOk(hash, h, t, free)
    requires SameOn(h, h', 0, free) && |h| <= |h'| < U64_LIMIT && |h'| % 8 == 0
    ensures TableOk(hash, h', t, free)
  {
    hide Dec, RecOnDisk, AllListed, AllApart, AllDescending, RecordNamesOk, Bucket, Field;
    FieldFrame(h, h', 0, 4);
    FieldFrame(h, h', 4, 4);
    FieldFrame(h, h', 8, 8);
    FieldFrame(h, h', 16, 8);
    forall b | 0 <= b < BUCKETS
      ensures Field(h', HEADER_SIZE + 8 * b, 8) == OffAt(t, b, 0)
    {
      FieldFrame(h, h', HEADER_SIZE + 8 * b, 8);
    }
    forall b, i | 0 <= b < BUCKETS && 0 <= i < |t.chains[b]|
      ensures RecOnDisk(hash, h', t.chains[b][i], RecAt(t, b, i), OffAt(t, b, i + 1))
    {
      RecFact(hash, h, t, free, b, i);
      RecFrame(hash, h, h', t.chains[b][i], t.recs[t.chains[b][i]], OffAt(t, b, i + 1));
    }
  }

  // ----------------------------------------------------------------------------------
  // Insert

  /** The bytes after an insert: record at the free offset, bucket head, header; every
      other byte below the old free offset is unchanged. */
  ghost predicate InsertBytes(hash: Name -> nat, h: seq<Byte>, h': seq<Byte>, t: Table, free: nat, n: Name, r: Rec) {
    var b := Bucket(hash, n);
    var slot := HEADER_SIZE + 8 * b;
    FIRST_RECORD <= free <= |h| <= |h'| && free + DIRENT_SIZE + |n| <= |h'| &&
    h'[free..free + DIRENT_SIZE] == DirentBytes(r.ino, Field(h, slot, 8), Hash(hash, n), |n|, r.kind) &&
    h'[free + DIRENT_SIZE..free + DIRENT_SIZE + |n|] == n &&
    h'[slot..slot + 8] == Enc(free, 8) &&
    h'[0..HEADER_SIZE] == HeaderWith(h[..HEADER_SIZE], |t.recs| + 1, free + RecSize(|n|)) &&
    SameOn(h, h', HEADER_SIZE, slot) && SameOn(h, h', slot + 8, free)
  }

  /** The four writes of an insert, in order, give exactly those bytes. */
  lemma ComposeInsert(hash: Name -> nat, h: seq<Byte>, h1: seq<Byte>, h2: seq<Byte>, h3: seq<Byte>, h4: seq<Byte>,
                      t: Table, free: nat, n: Name, r: Rec, dirent: seq<Byte>, head: seq<Byte>, hdr: seq<Byte>)
    requires FIRST_RECORD <= free <= |h|
    requires dirent == DirentBytes(r.ino, Field(h, HEADER_SIZE + 8 * Bucket(hash, n), 8), Hash(hash, n), |n|, r.kind)
    requires head == Enc(free, 8) && hdr == HeaderWith(h[..HEADER_SIZE], |t.recs| + 1, free + RecSize(|n|))
    requires Written(h, h1, free, dirent) && Written(h1, h2, free + DIRENT_SIZE, n)
    requires Written(h2, h3, HEADER_SIZE + 8 * Bucket(hash, n), head) && Written(h3, h4, 0, hdr)
    ensures InsertBytes(hash, h, h4, t, free, n, r)
  {
    hide Dec, Enc, Hash, DirentBytes, HeaderWith, Field, Bucket;
    var slot := HEADER_SIZE + 8 * Bucket(hash, n);
    var e := free + DIRENT_SIZE;
    WrittenSlice(h1, h2, e, n, free, e);
    WrittenSlice(h2, h3, slot, head, free, e + |n|);
    WrittenSlice(h3, h4, 0, hdr, free, e + |n|);
    WrittenSlice(h3, h4, 0, hdr, slot, slot + 8);
    assert SameOn(h, h4, HEADER_SIZE, slot) && SameOn(h, h4, slot + 8, free);
    SubSlice(h2, h4, free, e + |n|, free, e);
    SubSlice(h2, h4, free, e + |n|, e, e + |n|);
  }

  lemma WrittenSlice(a: seq<Byte>, b: seq<Byte>, off: nat, data: seq<Byte>, lo: nat, hi: nat)
    requires Written(a, b, off, data) && lo <= hi <= |a| && (hi <= off || off + |data| <= lo)
    ensures b[lo..hi] == a[lo..hi]
  {
  }

  lemma SubSlice(a: seq<Byte>, b: seq<Byte>, lo: nat, hi: nat, x: nat, y: nat)
    requires hi <= |a| && hi <= |b| && lo <= x <= y <= hi && a[lo..hi] == b[lo..hi]
    ensures a[x..y] == b[x..y]
  {
    forall k | x <= k < y ensures a[k] == b[k] {
      assert a[k] == a[lo..hi][k - lo] && b[k] == b[lo..hi][k - lo];
    }
  }

  lemma InsertedRecords(hash: Name -> nat, h: seq<Byte>, h': seq<Byte>, t: Table, free: nat, n: Name, r: Rec, c: nat, i: nat)
    requires |t.chains| == BUCKETS
    requires TableOk(hash, h, t, free) && n !in t.recs && InsertBytes(hash, h, h', t, free, n, r)
    requires |n| <= NAME_MAX && r.off == free && r.ino < U64_LIMIT && r.kind < 256
    requires var t' := Inserted(hash, t, n, r);
             ChainsOk(hash, t') && c < BUCKETS && i < |t'.chains[c]|
    ensures var t' := Inserted(hash, t, n, r);
            RecOnDisk(hash, h', t'.chains[c][i], RecAt(t', c, i), OffAt(t', c, i + 1))
  {
    hide Dec, Enc, RecOnDisk, TableOk, Hash, DirentBytes, HeaderWith, Bucket;
    HeadFact(hash, h, t, free, c);
    HeaderFact(hash, h, t, free);
    var t' := Inserted(hash, t, n, r);
    var b := Bucket(hash, n);
    if c == b && i == 0 {
      var head := Field(h, HEADER_SIZE + 8 * b, 8);
      assert head < U64_LIMIT by {
        if |t.chains[b]| > 0 { RecFact(hash, h, t, free, b, 0); }
      }
      assert t'.chains[c][0] == n;
      assert OffAt(t', c, 1) == OffAt(t, c, 0) by {
        if |t.chains[b]| > 0 { assert t'.chains[c][1] == t.chains[b][0]; }
      }
      NewRecord(hash, h', n, r, head);
    } else {
      var k := if c == b then i - 1 else i;
      RecFact(hash, h, t, free, c, k);
      assert t'.chains[c][i] == t.chains[c][k];
      assert OffAt(t', c, i + 1) == OffAt(t, c, k + 1) by {
        if k + 1 < |t.chains[c]| { assert t'.chains[c][i + 1] == t.chains[c][k + 1]; }
      }
      RecFrame(hash, h, h', t.chains[c][k], t.recs[t.chains[c][k]], OffAt(t, c, k + 1));
    }
  }

  lemma InsertedBuckets(hash: Name -> nat, h: seq<Byte>, h': seq<Byte>, t: Table, free: nat, n: Name, r: Rec)
    requires |t.chains| == BUCKETS
    requires TableOk(hash, h, t, free) && n !in t.recs && InsertBytes(hash, h, h', t, free, n, r)
    requires r.off == free && ChainsOk(hash, Inserted(hash, t, n, r))
    ensures BucketsOk(h', Inserted(hash, t, n, r))
  {
    hide Dec, Enc, TableOk, Hash, DirentBytes, HeaderWith, Bucket, Field;
    HeaderFact(hash, h, t, free);
    var t' := Inserted(hash, t, n, r);
    forall c | 0 <= c < BUCKETS
      ensures Field(h', HEADER_SIZE + 8 * c, 8) == OffAt(t', c, 0)
    {
      HeadFact(hash, h, t, free, c);
      if c == Bucket(hash, n) {
        Widths();
        FieldIs(h', HEADER_SIZE + 8 * c, 8, free);
        assert t'.chains[c][0] == n;
      } else {
        FieldFrame(h, h', HEADER_SIZE + 8 * c, 8);
      }
    }
  }

  /** After the four writes of an insert the bytes hold the table with the new binding. */
  lemma InsertOk(hash: Name -> nat, h: seq<Byte>, h': seq<Byte>, t: Table, free: nat, n: Name, r: Rec)
    requires |t.chains| == BUCKETS
    requires TableOk(hash, h, t, free) && n !in t.recs && InsertBytes(hash, h, h', t, free, n, r)
    requires 1 <= |n| <= NAME_MAX && r.off == free && r.ino < U64_LIMIT && r.kind < 256
    requires |h'| < U64_LIMIT && |h'| % 8 == 0 && |t.recs| + 1 < U64_LIMIT
    ensures TableOk(hash, h', Inserted(hash, t, n, r), free + RecSize(|n|))
  {
    hide Dec, RecOnDisk, AllListed, AllApart, AllDescending, RecordNamesOk, Bucket, BucketsOk, InsertBytes, HeaderOk;
    var t' := Inserted(hash, t, n, r);
    InsertedWellFormed(hash, t, free, n, r, free + RecSize(|n|));
    InsertedBuckets(hash, h, h', t, free, n, r);
    InsertedHeader(hash, h, h', t, free, n, r);
    forall c, i | 0 <= c < BUCKETS && 0 <= i < |t'.chains[c]|
      ensures RecOnDisk(hash, h', t'.chains[c][i], RecAt(t', c, i), OffAt(t', c, i + 1))
    {
      InsertedRecords(hash, h, h', t, free, n, r, c, i);
    }
  }

  lemma InsertedHeader(hash: Name -> nat, h: seq<Byte>, h': seq<Byte>, t: Table, free: nat, n: Name, r: Rec)
    requires |t.chains| == BUCKETS
    requires TableOk(hash, h, t, free) && n !in t.recs && InsertBytes(hash, h, h', t, free, n, r)
    requires |h'| < U64_LIMIT && |h'| % 8 == 0 && |t.recs| + 1 < U64_LIMIT
    ensures HeaderOk(h', |t.recs[n := r]|, free + RecSize(|n|)) && free + RecSize(|n|) <= |h'| && (free + RecSize(|n|)) % 8 == 0
  {
    hide Dec, Enc, TableOk, Hash, DirentBytes, HeaderWith, Bucket, Field;
    HeaderFact(hash, h, t, free);
    var hdr := h[..HEADER_SIZE];
    FieldFrame(h, hdr, 0, 4);
    FieldFrame(h, hdr, 4, 4);
    PaddedFits(free, |n|, |h'|);
    HeaderWithOk(h', hdr, |t.recs| + 1, free + RecSize(|n|));
    assert t.recs[n := r].Keys == t.recs.Keys + {n};
    assert |t.recs[n := r]| == |t.recs| + 1;
  }

  // The padding of a record always fits, since streams end on 8-byte boundaries.
  lemma PaddedFits(free: nat, len: nat, size: nat)
    requires free % 8 == 0 && size % 8 == 0 && free + DIRENT_SIZE + len <= size
    ensures free + RecSize(len) <= size && (free + RecSize(len)) % 8 == 0
  {
  }

  // ----------------------------------------------------------------------------------
  // Remove

  /** Where the link to entry `i` of chain `b` is stored: the bucket head, or the link
      field of the record before it. */
  ghost function LinkAt(t: Table, b: nat, i: nat): nat
  {
    if i == 0 then HEADER_SIZE + 8 * b else OffAt(t, b, i - 1) + 8
  }

  /** The bytes after a remove: the link skips the record and the count is one less. */
  ghost predicate RemoveBytes(h: seq<Byte>, h': seq<Byte>, t: Table, free: nat, b: nat, i: nat) {
    var at := LinkAt(t, b, i);
    |h'| == |h| && FIRST_RECORD <= |h| && HEADER_SIZE <= at && at + 8 <= |h| &&
    h'[at..at + 8] == Enc(OffAt(t, b, i + 1), 8) && |t.recs| > 0 &&
    h'[0..HEADER_SIZE] == HeaderWith(h[..HEADER_SIZE], |t.recs| - 1, free) &&
    SameOn(h, h', HEADER_SIZE, at) && SameOn(h, h', at + 8, |h|)
  }

  /** The two writes of a remove, in order, give exactly those bytes. */
  lemma ComposeRemove(h: seq<Byte>, h1: seq<Byte>, h2: seq<Byte>, t: Table, free: nat, b: nat, i: nat, link: seq<Byte>, hdr: seq<Byte>)
    requires FIRST_RECORD <= |h| && |h1| == |h| && |h2| == |h| && |t.recs| > 0
    requires HEADER_SIZE <= LinkAt(t, b, i) && LinkAt(t, b, i) + 8 <= |h|
    requires link == Enc(OffAt(t, b, i + 1), 8) && hdr == HeaderWith(h[..HEADER_SIZE], |t.recs| - 1, free)
    requires Written(h, h1, LinkAt(t, b, i), link) && Written(h1, h2, 0, hdr)
    ensures RemoveBytes(h, h2, t, free, b, i)
  {
    hide Enc, HeaderWith, OffAt;
    var at := LinkAt(t, b, i);
    WrittenSlice(h1, h2, 0, hdr, at, at + 8);
  }

  lemma OffAtCut(t: Table, b: nat, i: nat, c: nat, k: nat)
    requires b < |t.chains| && i < |t.chains[b]| && c < |t.chains| && Descending(t, t.chains[b]) && Descending(t, t.chains[c])
    requires var t' := Deleted(t, t.chains[b][i], b, i); Descending(t', t'.chains[c])
    ensures var t' := Deleted(t, t.chains[b][i], b, i);
            OffAt(t', c, k) == OffAt(t, c, if c == b && k >= i then k + 1 else k)
  {
  }

  lemma RemovedRecords(hash: Name -> nat, h: seq<Byte>, h': seq<Byte>, t: Table, free: nat, b: nat, i: nat, c: nat, k: nat)
    requires |t.chains| == BUCKETS
    requires TableOk(hash, h, t, free) && b < BUCKETS && i < |t.chains[b]| && Descending(t, t.chains[b])
    requires RemoveBytes(h, h', t, free, b, i)
    requires var t' := Deleted(t, t.chains[b][i], b, i);
             c < BUCKETS && k < |t'.chains[c]| && Descending(t', t'.chains[c])
    ensures var t' := Deleted(t, t.chains[b][i], b, i);
            RecOnDisk(hash, h', t'.chains[c][k], RecAt(t', c, k), OffAt(t', c, k + 1))
  {
    hide Dec, Enc, RecOnDisk, TableOk, Hash, HeaderWith, Bucket;
    HeaderFact(hash, h, t, free);
    var t' := Deleted(t, t.chains[b][i], b, i);
    HeadFact(hash, h, t, free, c);
    var k' := if c == b && k >= i then k + 1 else k;
    var n := t'.chains[c][k];
    assert n == t.chains[c][k'];
    RecFact(hash, h, t, free, c, k');
    OffAtCut(t, b, i, c, k + 1);
    var next := OffAt(t, c, k' + 1);
    if c == b && k + 1 == i {
      assert OffAt(t, b, i + 1) < U64_LIMIT by {
        if i + 1 < |t.chains[b]| { RecFact(hash, h, t, free, b, i + 1); }
      }
      RecRelink(hash, h, h', n, t.recs[n], next, OffAt(t, b, i + 1));
    } else {
      RemovedElsewhere(hash, h, h', t, free, b, i, c, k');
      RecFrame(hash, h, h', n, t.recs[n], next);
    }
  }

  // A record that is not the one before the removed entry keeps all its bytes.
  lemma RemovedElsewhere(hash: Name -> nat, h: seq<Byte>, h': seq<Byte>, t: Table, free: nat, b: nat, i: nat, c: nat, k: nat)
    requires |t.chains| == BUCKETS && b < BUCKETS && i < |t.chains[b]| && c < BUCKETS && k < |t.chains[c]|
    requires TableOk(hash, h, t, free) && RemoveBytes(h, h', t, free, b, i) && !(c == b && k + 1 == i)
    ensures var n := t.chains[c][k];
            n in t.recs && SameOn(h, h', t.recs[n].off, t.recs[n].off + DIRENT_SIZE + |n|)
  {
    hide Dec, Enc, RecOnDisk, TableOk, Hash, HeaderWith, Bucket;
    var n := t.chains[c][k];
    HeaderFact(hash, h, t, free);
    RecFact(hash, h, t, free, c, k);
    if i > 0 {
      RecFact(hash, h, t, free, b, i - 1);
      NotPrevious(hash, t, free, b, i, c, k);
      RecApart(hash, h, t, free, n, t.chains[b][i - 1]);
    }
  }

  lemma NotPrevious(hash: Name -> nat, t: Table, free: nat, b: nat, i: nat, c: nat, k: nat)
    requires b < |t.chains| && 0 < i < |t.chains[b]| && c < |t.chains| && k < |t.chains[c]|
    requires Descending(t, t.chains[b]) && !(c == b && k == i - 1)
    requires Bucket(hash, t.chains[b][i - 1]) == b && Bucket(hash, t.chains[c][k]) == c
    ensures t.chains[c][k] != t.chains[b][i - 1]
  {
    hide Bucket;
    var j := i - 1;
    if c == b { assert k < j || j < k; }
  }

  lemma RecApart(hash: Name -> nat, h: seq<Byte>, t: Table, free: nat, m: Name, n: Name)
    requires TableOk(hash, h, t, free) && m in t.recs && n in t.recs && m != n
    ensures Apart(t.recs[m], |m|, t.recs[n], |n|)
  {
    hide RecordsOk, BucketsOk, HeaderOk, AllListed, RecordNamesOk, AllDescending, Apart;
  }

  lemma RemovedBuckets(hash: Name -> nat, h: seq<Byte>, h': seq<Byte>, t: Table, free: nat, b: nat, i: nat)
    requires |t.chains| == BUCKETS
    requires TableOk(hash, h, t, free) && b < BUCKETS && i < |t.chains[b]| && Descending(t, t.chains[b])
    requires RemoveBytes(h, h', t, free, b, i)
    requires ChainsOk(hash, Deleted(t, t.chains[b][i], b, i)) && AllDescending(Deleted(t, t.chains[b][i], b, i))
    ensures BucketsOk(h', Deleted(t, t.chains[b][i], b, i))
  {
    hide Dec, Enc, TableOk, Hash, HeaderWith, Bucket, Field;
    HeaderFact(hash, h, t, free);
    var t' := Deleted(t, t.chains[b][i], b, i);
    if i > 0 { RecFact(hash, h, t, free, b, i - 1); }
    forall c | 0 <= c < BUCKETS
      ensures Field(h', HEADER_SIZE + 8 * c, 8) == OffAt(t', c, 0)
    {
      HeadFact(hash, h, t, free, c);
      assert Descending(t', t'.chains[c]);
      OffAtCut(t, b, i, c, 0);
      if c == b && i == 0 {
        Widths();
        assert OffAt(t, b, 1) < U64_LIMIT by {
          if 1 < |t.chains[b]| { RecFact(hash, h, t, free, b, 1); }
        }
        FieldIs(h', HEADER_SIZE + 8 * c, 8, OffAt(t, b, 1));
      } else {
        FieldFrame(h, h', HEADER_SIZE + 8 * c, 8);
      }
    }
  }

  /** After the two writes of a remove the bytes hold the table without the binding. */
  lemma RemoveOk(hash: Name -> nat, h: seq<Byte>, h': seq<Byte>, t: Table, free: nat, b: nat, i: nat)
    requires |t.chains| == BUCKETS
    requires TableOk(hash, h, t, free) && b < BUCKETS && i < |t.chains[b]| && Descending(t, t.chains[b])
    requires RemoveBytes(h, h', t, free, b, i)
    ensures TableOk(hash, h', Deleted(t, t.chains[b][i], b, i), free)
  {
    hide Dec, RecOnDisk, AllListed, AllApart, RecordNamesOk, Bucket, BucketsOk, HeaderOk;
    var t' := Deleted(t, t.chains[b][i], b, i);
    DeletedWellFormed(hash, t, free, b, i);
    RemovedBuckets(hash, h, h', t, free, b, i);
    RemovedHeader(hash, h, h', t, free, b, i);
    forall c, k | 0 <= c < BUCKETS && 0 <= k < |t'.chains[c]|
      ensures RecOnDisk(hash, h', t'.chains[c][k], RecAt(t', c, k), OffAt(t', c, k + 1))
    {
      RemovedRecords(hash, h, h', t, free, b, i, c, k);
    }
  }

  lemma RemovedHeader(hash: Name -> nat, h: seq<Byte>, h': seq<Byte>, t: Table, free: nat, b: nat, i: nat)
    requires |t.chains| == BUCKETS
    requires TableOk(hash, h, t, free) && b < BUCKETS && i < |t.chains[b]| && Descending(t, t.chains[b])
    requires RemoveBytes(h, h', t, free, b, i)
    ensures HeaderOk(h', |t.recs - {t.chains[b][i]}|, free)
  {
    hide Dec, Enc, TableOk, Hash, HeaderWith, Bucket, Field;
    HeaderFact(hash, h, t, free);
    var hdr := h[..HEADER_SIZE];
    var n := t.chains[b][i];
    FieldFrame(h, hdr, 0, 4);
    FieldFrame(h, hdr, 4, 4);
    CountFits(h, |t.recs|, free);
    HeaderWithOk(h', hdr, |t.recs| - 1, free);
    assert (t.recs - {n}).Keys == t.recs.Keys - {n};
    assert |t.recs - {n}| == |t.recs| - 1;
  }

  lemma CountFits(h: seq<Byte>, count: nat, free: nat)
    requires HeaderOk(h, count, free)
    ensures count < U64_LIMIT
  {
    Widths();
    EncDec(h[8..16]);
  }
}
