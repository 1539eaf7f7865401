/** Read-only FAT16: the boot sector, cluster chains of any shape, directory search and
    file reads. */
module Fat16 {
  import opened Results
  import opened Bytes
  import opened Counting
  import opened Streams

  const SECTOR: nat := 512
  const ENTRY: nat := 32
  const PER_SECTOR: nat := 16
  const BAD: nat := 0xFFF7
  const EOC: nat := 0xFFF8
  const MIN_CLUSTERS: nat := 4085
  const MAX_CLUSTERS: nat := 65524

  datatype Geometry = Geometry(
    spc: nat, rootSectors: nat, firstFat: nat, firstRoot: nat, firstData: nat, total: nat, clusters: nat)

  predicate PowerOfTwo(x: nat) {
    x == 1 || x == 2 || x == 4 || x == 8 || x == 16 || x == 32 || x == 64 || x == 128
  }

  /** The geometry a boot sector describes, or why it is refused. */
  function LoadBoot(boot: seq<Byte>): (r: (Status, Geometry))
    requires |boot| == SECTOR
  {
    var none := Geometry(0, 0, 0, 0, 0, 0, 0);
    var spc: nat, reserved, fats: nat, roots, fatSize := boot[13], Field(boot, 14, 2), boot[16], Field(boot, 17, 2), Field(boot, 22, 2);
    var total := if Field(boot, 19, 2) != 0 then Field(boot, 19, 2) else Field(boot, 32, 4);
    if Field(boot, 510, 2) != 0xAA55 then (BadFilesystem, none)
    else if Field(boot, 11, 2) != SECTOR then (Unsupported, none)
    else if !PowerOfTwo(spc) then (BadFilesystem, none)
    else if reserved == 0 || fats == 0 || fats > 2 || fatSize == 0 || roots == 0 then (BadFilesystem, none)
    else if total == 0 then (BadFilesystem, none)
    else
      var rootSectors := (roots * ENTRY + SECTOR - 1) / SECTOR;
      var firstRoot := reserved + fats * fatSize;
      var firstData := firstRoot + rootSectors;
      if firstData >= total then (BadFilesystem, none)
      else
        var clusters := (total - firstData) / spc;
        if clusters < MIN_CLUSTERS || clusters > MAX_CLUSTERS then (BadFilesystem, none)
        else if fatSize * SECTOR < (clusters + 2) * 2 then (BadFilesystem, none)
        else (Ok, Geometry(spc, rootSectors, reserved, firstRoot, firstData, total, clusters))
  }

  predicate ValidCluster(g: Geometry, c: nat) {
    2 <= c < g.clusters + 2
  }

  function FirstSector(g: Geometry, c: nat): nat
    requires c >= 2
  {
    g.firstData + (c - 2) * g.spc
  }

  /** `g` is the layout this boot sector describes, and one that can be used: reserved sectors,
      then all copies of the table, then the root directory in just the sectors it needs, then as
      many whole clusters as the rest holds, few enough for their entries to fit one copy and of
      a number that makes it FAT16 (Microsoft FAT specification, FAT Data Structure). */
  ghost predicate Describes(boot: seq<Byte>, g: Geometry)
    requires |boot| == SECTOR
  {
    var reserved, copies: nat, roots, tableSize := Field(boot, 14, 2), boot[16], Field(boot, 17, 2), Field(boot, 22, 2);
    boot[510] == 0x55 && boot[511] == 0xAA && Field(boot, 11, 2) == 512 && g.spc == boot[13] && PowerOfTwo(g.spc) &&
    reserved > 0 && 1 <= copies <= 2 && tableSize > 0 && roots > 0 &&
    g.total == (if Field(boot, 19, 2) != 0 then Field(boot, 19, 2) else Field(boot, 32, 4)) &&
    g.firstFat == reserved && g.firstRoot == reserved + copies * tableSize && g.firstData == g.firstRoot + g.rootSectors < g.total &&
    512 * g.rootSectors - 512 < 32 * roots <= 512 * g.rootSectors &&
    g.firstData + g.clusters * g.spc <= g.total < g.firstData + g.clusters * g.spc + g.spc &&
    4085 <= g.clusters <= 65524 && 2 * (g.clusters + 2) <= 512 * tableSize
  }

  /** Exactly the boot sectors that describe a usable layout are accepted, with that layout. */
  lemma BootMeans(boot: seq<Byte>, g: Geometry)
    requires |boot| == SECTOR
    ensures LoadBoot(boot) == (Ok, g) <==> Describes(boot, g)
  {
    hide Field, PowerOfTwo;
    Signature(boot);
    SomePower(boot[13]);
    var spc: nat, copies: nat, tableSize := boot[13], boot[16], Field(boot, 22, 2);
    assert copies == 1 ==> copies * tableSize == tableSize;
    assert copies == 2 ==> copies * tableSize == 2 * tableSize;
    if spc > 0 && g.firstData < g.total { Quotient(g.total - g.firstData, spc, g.clusters); }
  }

  lemma Signature(boot: seq<Byte>)
    requires |boot| == SECTOR
    ensures Field(boot, 510, 2) == 0xAA55 <==> boot[510] == 0x55 && boot[511] == 0xAA
  {
    var s := boot[510..512];
    assert Dec(s) == s[0] + 256 * Dec(s[1..]) && Dec(s[1..]) == s[1] + 256 * Dec(s[1..][1..]);
    assert Dec(s[1..][1..]) == 0;
  }

  lemma SomePower(spc: nat)
    ensures PowerOfTwo(spc) ==> spc > 0
  {
  }

  lemma Quotient(d: nat, k: nat, q: nat)
    requires k > 0
    ensures q == d / k <==> q * k <= d < q * k + k
  {
    var r := d / k;
    assert r * k <= d < r * k + k by { assert d == r * k + d % k; }
    if q < r { ProductLess(q, r, k); }
    if r < q { ProductLess(r, q, k); }
  }

  /** What the checks on the boot sector buy: the table entry of every valid cluster lies
      in the first FAT, before the root directory; the root directory and the sectors of
      every valid cluster lie inside the volume; and no valid cluster number looks like a
      bad-cluster or end-of-chain mark. */
  ghost predicate Sane(g: Geometry) {
    0 < g.spc <= 128 && 0 < g.firstFat && g.firstRoot + g.rootSectors == g.firstData < g.total &&
    MIN_CLUSTERS <= g.clusters <= MAX_CLUSTERS && g.firstFat * SECTOR + (g.clusters + 2) * 2 <= g.firstRoot * SECTOR &&
    g.firstData + g.clusters * g.spc <= g.total
  }

  lemma BootIsSane(boot: seq<Byte>)
    requires |boot| == SECTOR && LoadBoot(boot).0 == Ok
    ensures Sane(LoadBoot(boot).1)
  {
    hide Field;
    var g := LoadBoot(boot).1;
    var fats, fatSize := boot[16], Field(boot, 22, 2);
    assert fats * fatSize >= fatSize by { if fats == 2 { assert fats * fatSize == 2 * fatSize; } }
    WholeClusters(g.total - g.firstData, g.spc);
  }

  lemma WholeClusters(sectors: nat, spc: nat)
    requires spc > 0
    ensures sectors / spc * spc <= sectors
  {
  }

  lemma ClusterInVolume(g: Geometry, c: nat)
    requires Sane(g) && ValidCluster(g, c)
    ensures g.firstData <= FirstSector(g, c) && FirstSector(g, c) + g.spc <= g.total
    ensures c < BAD && g.firstFat * SECTOR + 2 * c + 2 <= g.firstRoot * SECTOR
  {
    ProductLess(c - 2, g.clusters, g.spc);
  }

  lemma ProductLess(a: nat, b: nat, k: nat)
    requires a < b
    ensures a * k + k <= b * k
  {
    assert (b - a - 1) * k >= 0;
    assert b * k == a * k + k + (b - a - 1) * k;
  }

  // ----------------------------------------------------------------------------------
  // Cluster chains

  /** The volume is on the disk. */
  ghost predicate OnDisk(disk: seq<Byte>, g: Geometry) {
    Sane(g) && g.total * SECTOR <= |disk|
  }

  /** The FAT entry of a cluster. */
  function Fat(disk: seq<Byte>, g: Geometry, c: nat): nat {
    var at := g.firstFat * SECTOR + 2 * c;
    if at + 2 <= |disk| then Field(disk, at, 2) else 0
  }

  /** Where a walk of `k` steps along the chain from `start` is: at a cluster, past the end
      of the chain, or lost at a mark or number that is no cluster. */
  datatype Place = At(cluster: nat) | End | Lost

  function Follow(disk: seq<Byte>, g: Geometry, p: Place): Place {
    match p
    case At(c) =>
      var next := Fat(disk, g, c);
      if next >= EOC then End else if next == BAD || !ValidCluster(g, next) then Lost else At(next)
    case _ => p
  }

  function Nth(disk: seq<Byte>, g: Geometry, start: nat, k: nat): (p: Place)
    ensures p.At? ==> ValidCluster(g, p.cluster)
  {
    if k == 0 then (if ValidCluster(g, start) then At(start) else Lost)
    else Follow(disk, g, Nth(disk, g, start, k - 1))
  }

  /** Reads a FAT entry; only valid clusters have one. */
  method GetFatEntry(disk: seq<Byte>, g: Geometry, c: nat) returns (status: Status, next: nat)
    requires OnDisk(disk, g)
    ensures status == if ValidCluster(g, c) then Ok else Corrupted
    ensures status == Ok ==> next == Fat(disk, g, c)
  {
    if !ValidCluster(g, c) {
      return Corrupted, 0;
    }
    ClusterInVolume(g, c);
    var at := g.firstFat * SECTOR + 2 * c;
    return Ok, Field(disk, at, 2);
  }

  /** Cluster number `index` of a chain. */
  method GetNthCluster(disk: seq<Byte>, g: Geometry, start: nat, index: nat) returns (status: Status, c: nat)
    requires OnDisk(disk, g)
    ensures ValidCluster(g, start) && index < g.clusters ==>
              match Nth(disk, g, start, index) case At(x) => status == Ok && c == x case End => status == NotFound case Lost => status == Corrupted
    ensures !(ValidCluster(g, start) && index < g.clusters) ==> status == Corrupted
  {
    hide OnDisk;
    c := start;
    if !ValidCluster(g, c) || index >= g.clusters {
      return Corrupted, 0;
    }
    var i := 0;
    while i < index
      invariant 0 <= i <= index && Nth(disk, g, start, i) == At(c)
    {
      var next;
      status, next := GetFatEntry(disk, g, c);
      if next >= EOC {
        Stuck(disk, g, start, i + 1, index);
        return NotFound, 0;
      }
      if next == BAD || !ValidCluster(g, next) {
        Stuck(disk, g, start, i + 1, index);
        return Corrupted, 0;
      }
      c := next;
      i := i + 1;
    }
    status := Ok;
  }

  // Past the end, or lost, a walk stays there.
  lemma {:induction false} Stuck(disk: seq<Byte>, g: Geometry, start: nat, i: nat, k: nat)
    requires i <= k && !Nth(disk, g, start, i).At?
    ensures Nth(disk, g, start, k) == Nth(disk, g, start, i)
    decreases k - i
  {
    if i < k { Stuck(disk, g, start, i, k - 1); }
  }

  /** Pigeonhole: a walk as long as the volume has clusters, and still at a cluster, has
      been somewhere twice. */
  lemma LongChainsRepeat(disk: seq<Byte>, g: Geometry, start: nat)
    requires Nth(disk, g, start, g.clusters).At?
    ensures exists i, j :: 0 <= i < j <= g.clusters && Nth(disk, g, start, i).At? && Nth(disk, g, start, i) == Nth(disk, g, start, j)
  {
    forall i | 0 <= i <= g.clusters ensures Nth(disk, g, start, i).At? {
      if !Nth(disk, g, start, i).At? { Stuck(disk, g, start, i, g.clusters); }
    }
    var q: seq<nat> := seq(g.clusters + 1, i requires 0 <= i <= g.clusters => if Nth(disk, g, start, i).At? then Nth(disk, g, start, i).cluster - 1 else 0);
    if forall i, j :: 0 <= i < j <= g.clusters ==> Nth(disk, g, start, i) != Nth(disk, g, start, j) {
      forall i, j | 0 <= i < j < |q| ensures q[i] != q[j] { assert Nth(disk, g, start, i) != Nth(disk, g, start, j); }
      DistinctBelow(q, g.clusters + 1);
      assert false;
    }
  }

  // ----------------------------------------------------------------------------------
  // Directory search

  /** Directory entry `j` of a sector. */
  function Ent(disk: seq<Byte>, sector: nat, j: nat): seq<Byte>
    requires (sector + 1) * SECTOR <= |disk| && j < PER_SECTOR
  {
    disk[sector * SECTOR + j * ENTRY..sector * SECTOR + (j + 1) * ENTRY]
  }

  /** An entry that is in use, no long-name part, no volume label, and has the name sought. */
  predicate Hit(e: seq<Byte>, matches: seq<Byte> -> bool)
    requires |e| == ENTRY
  {
    e[0] != 0 && e[0] != 0xE5 && e[11] % 16 != 0x0F && e[11] / 8 % 2 == 0 && matches(e[..11])
  }

  predicate Quiet(e: seq<Byte>, matches: seq<Byte> -> bool)
    requires |e| == ENTRY
  {
    e[0] != 0 && !Hit(e, matches)
  }

  datatype Scan = Found(j: nat) | Stop(j: nat) | Nothing

  /** What scanning a sector must answer: the first entry that is a hit or the end mark. */
  ghost predicate Scanned(disk: seq<Byte>, sector: nat, matches: seq<Byte> -> bool, r: Scan)
    requires (sector + 1) * SECTOR <= |disk|
  {
    match r
    case Found(j) => j < PER_SECTOR && Hit(Ent(disk, sector, j), matches) && forall i :: 0 <= i < j ==> Quiet(Ent(disk, sector, i), matches)
    case Stop(j) => j < PER_SECTOR && Ent(disk, sector, j)[0] == 0 && forall i :: 0 <= i < j ==> Quiet(Ent(disk, sector, i), matches)
    case Nothing => forall i :: 0 <= i < PER_SECTOR ==> Quiet(Ent(disk, sector, i), matches)
  }

  /** Scans one sector, which must lie inside the volume. */
  method ScanSector(disk: seq<Byte>, g: Geometry, sector: nat, matches: seq<Byte> -> bool) returns (r: Scan)
    requires OnDisk(disk, g) && sector < g.total
    ensures (sector + 1) * SECTOR <= |disk| && Scanned(disk, sector, matches, r)
  {
    ProductLess(sector, g.total, SECTOR);
    var j := 0;
    while j < PER_SECTOR
      invariant 0 <= j <= PER_SECTOR && forall i :: 0 <= i < j ==> Quiet(Ent(disk, sector, i), matches)
    {
      var e := Ent(disk, sector, j);
      if e[0] == 0 {
        return Stop(j);
      }
      if Hit(e, matches) {
        return Found(j);
      }
      j := j + 1;
    }
    return Nothing;
  }

  ghost predicate QuietAt(disk: seq<Byte>, base: nat, i: nat, matches: seq<Byte> -> bool) {
    (base + i + 1) * SECTOR <= |disk| && Scanned(disk, base + i, matches, Nothing)
  }

  /** No hit and no end mark in the first `s` sectors from `base`. */
  ghost predicate QuietRun(disk: seq<Byte>, base: nat, s: nat, matches: seq<Byte> -> bool) {
    forall i :: 0 <= i < s ==> QuietAt(disk, base, i, matches)
  }

  /** No hit and no end mark in the first `s` sectors of cluster `c`. */
  ghost predicate QuietPart(disk: seq<Byte>, g: Geometry, c: nat, s: nat, matches: seq<Byte> -> bool) {
    c >= 2 && QuietRun(disk, FirstSector(g, c), s, matches)
  }

  /** The first `k` clusters of the chain are there, with no hit and no end mark. */
  ghost predicate QuietChain(disk: seq<Byte>, g: Geometry, start: nat, k: nat, matches: seq<Byte> -> bool) {
    forall i {:trigger Nth(disk, g, start, i)} :: 0 <= i < k ==>
      Nth(disk, g, start, i).At? && QuietPart(disk, g, Nth(disk, g, start, i).cluster, g.spc, matches)
  }

  /** The outcome of searching a chain: where the search stopped, and why. */
  datatype Outcome = Outcome(status: Status, k: nat, cluster: nat, sector: nat, j: nat)

  ghost predicate Searched(disk: seq<Byte>, g: Geometry, start: nat, matches: seq<Byte> -> bool, r: Outcome) {
    QuietChain(disk, g, start, r.k, matches) && r.k <= g.clusters &&
    var here := Nth(disk, g, start, r.k);
    match r.status
    case Ok =>
      here == At(r.cluster) && r.sector < g.spc && r.cluster >= 2 && QuietPart(disk, g, r.cluster, r.sector, matches) &&
      var at := FirstSector(g, r.cluster) + r.sector;
      (at + 1) * SECTOR <= |disk| && Scanned(disk, at, matches, Found(r.j))
    case NotFound =>
      here == End ||
      (here == At(r.cluster) && r.sector < g.spc && r.cluster >= 2 && QuietPart(disk, g, r.cluster, r.sector, matches) &&
       var at := FirstSector(g, r.cluster) + r.sector;
       (at + 1) * SECTOR <= |disk| && Scanned(disk, at, matches, Stop(r.j)))
    case Corrupted => here == Lost || (r.k == g.clusters && here.At?)
    case _ => false
  }

  /** Searches the directory whose chain starts at `start`. It always ends, reads only
      sectors of the volume, and gives up only where the chain leaves the volume or, by
      LongChainsRepeat, after it has come back to a cluster. */
  method FindEntry(disk: seq<Byte>, g: Geometry, start: nat, matches: seq<Byte> -> bool) returns (r: Outcome)
    requires OnDisk(disk, g)
    ensures Searched(disk, g, start, matches, r)
  {
    hide OnDisk, Sane, QuietPart, Scanned, Fat;
    var cluster: nat, k := start, 0;
    PositiveClusters(disk, g);
    while k < g.clusters
      invariant 0 <= k <= g.clusters && QuietChain(disk, g, start, k, matches)
      invariant Nth(disk, g, start, k) == (if ValidCluster(g, cluster) then At(cluster) else Lost)
    {
      if !ValidCluster(g, cluster) {
        return Outcome(Corrupted, k, 0, 0, 0);
      }
      var stop, s, j := SearchCluster(disk, g, cluster, matches);
      if stop.Some? {
        return Outcome(if stop.value then Ok else NotFound, k, cluster, s, j);
      }
      var status, next := GetFatEntry(disk, g, cluster);
      if next >= EOC {
        return Outcome(NotFound, k + 1, 0, 0, 0);
      }
      if next == BAD {
        return Outcome(Corrupted, k + 1, 0, 0, 0);
      }
      cluster := next;
      k := k + 1;
    }
    return Outcome(Corrupted, k, 0, 0, 0);
  }

  /** What a search has found, on the disk: in that sector of that cluster a directory entry in
      use, not a part of a long name and not the volume label, with the name sought (Microsoft FAT
      specification, FAT Directory Structure). */
  lemma FoundOnDisk(disk: seq<Byte>, g: Geometry, start: nat, matches: seq<Byte> -> bool, r: Outcome)
    requires Searched(disk, g, start, matches, r) && r.status == Ok
    ensures r.cluster >= 2 && r.sector < g.spc && r.j < 16
    ensures var at := 512 * (g.firstData + (r.cluster - 2) * g.spc + r.sector) + 32 * r.j;
            at + 32 <= |disk| && disk[at] != 0 && disk[at] != 0xE5 && disk[at + 11] % 16 != 0x0F && disk[at + 11] / 8 % 2 == 0 &&
            matches(disk[at..at + 11])
  {
    hide Nth, QuietChain, QuietPart;
    var at := 512 * (g.firstData + (r.cluster - 2) * g.spc + r.sector) + 32 * r.j;
    var e := Ent(disk, FirstSector(g, r.cluster) + r.sector, r.j);
    assert e == disk[at..at + 32];
    assert e[..11] == disk[at..at + 11];
  }

  lemma PositiveClusters(disk: seq<Byte>, g: Geometry)
    requires OnDisk(disk, g)
    ensures g.clusters > 0 && g.spc > 0
  {
  }

  /** Searches one cluster: a hit (true), the end mark (false), or neither. */
  method SearchCluster(disk: seq<Byte>, g: Geometry, c: nat, matches: seq<Byte> -> bool) returns (stop: Option<bool>, s: nat, j: nat)
    requires OnDisk(disk, g) && ValidCluster(g, c)
    ensures stop.None? ==> QuietPart(disk, g, c, g.spc, matches)
    ensures stop.Some? ==> s < g.spc && QuietPart(disk, g, c, s, matches) && (FirstSector(g, c) + s + 1) * SECTOR <= |disk|
    ensures stop.Some? ==> Scanned(disk, FirstSector(g, c) + s, matches, if stop.value then Found(j) else Stop(j))
  {
    hide OnDisk, Sane, Scanned;
    ClusterRange(disk, g, c);
    s, j := 0, 0;
    while s < g.spc
      invariant 0 <= s <= g.spc && QuietPart(disk, g, c, s, matches)
    {
      var r := ScanSector(disk, g, FirstSector(g, c) + s, matches);
      match r {
        case Found(at) => return Some(true), s, at;
        case Stop(at) => return Some(false), s, at;
        case Nothing =>
      }
      assert QuietAt(disk, FirstSector(g, c), s, matches);
      s := s + 1;
    }
    stop := None;
  }

  lemma ClusterRange(disk: seq<Byte>, g: Geometry, c: nat)
    requires OnDisk(disk, g) && ValidCluster(g, c)
    ensures FirstSector(g, c) + g.spc <= g.total && g.spc > 0
  {
    ClusterInVolume(g, c);
  }

  /** Searches the root directory, which is a fixed run of sectors. */
  method FindRootEntry(disk: seq<Byte>, g: Geometry, matches: seq<Byte> -> bool) returns (status: Status, s: nat, j: nat)
    requires OnDisk(disk, g)
    ensures s <= g.rootSectors && QuietRun(disk, g.firstRoot, s, matches)
    ensures status == Ok || status == NotFound
    ensures status == Ok ==> s < g.rootSectors && (g.firstRoot + s + 1) * SECTOR <= |disk| && Scanned(disk, g.firstRoot + s, matches, Found(j))
    ensures status == NotFound ==>
              s == g.rootSectors || ((g.firstRoot + s + 1) * SECTOR <= |disk| && Scanned(disk, g.firstRoot + s, matches, Stop(j)))
  {
    hide Scanned;
    s, j := 0, 0;
    while s < g.rootSectors
      invariant 0 <= s <= g.rootSectors && QuietRun(disk, g.firstRoot, s, matches)
    {
      var r := ScanSector(disk, g, g.firstRoot + s, matches);
      match r {
        case Found(at) => return Ok, s, at;
        case Stop(at) => return NotFound, s, at;
        case Nothing =>
      }
      assert QuietAt(disk, g.firstRoot, s, matches);
      s := s + 1;
    }
    status := NotFound;
  }

  // ----------------------------------------------------------------------------------
  // Reading files

  function ClusterSize(g: Geometry): nat { SECTOR * g.spc }

  function ClusterStart(g: Geometry, c: nat): nat
    requires c >= 2
  {
    g.firstData * SECTOR + (c - 2) * ClusterSize(g)
  }

  /** The byte at position `pos` of the chain, if the chain gets there. */
  function ByteAt(disk: seq<Byte>, g: Geometry, start: nat, pos: nat): Option<Byte>
    requires g.spc > 0
  {
    var k, o := pos / ClusterSize(g), pos % ClusterSize(g);
    var p := Nth(disk, g, start, k);
    if k < g.clusters && p.At? && ClusterStart(g, p.cluster) + o < |disk| then Some(disk[ClusterStart(g, p.cluster) + o]) else None
  }

  /** The chain gets to every byte in `[off, off + n)`, and these are the bytes. */
  ghost predicate BytesAt(disk: seq<Byte>, g: Geometry, start: nat, off: nat, n: nat, bytes: seq<Byte>)
    requires g.spc > 0
  {
    |bytes| == n && forall i {:trigger bytes[i]} :: 0 <= i < n ==> ByteAt(disk, g, start, off + i) == Some(bytes[i])
  }

  /** Why the chain does not get to position `pos`: it ended before, or it left the volume,
      or it would have to be longer than the volume has clusters. */
  function FailStatus(disk: seq<Byte>, g: Geometry, start: nat, pos: nat): Status
    requires g.spc > 0
  {
    var k := pos / ClusterSize(g);
    if k < g.clusters && Nth(disk, g, start, k).End? then NotFound else Corrupted
  }

  /** The first byte at or after `off` that a file does not have. */
  function MissingAt(file: seq<Byte>, off: nat): nat { if off > |file| then off else |file| }

  /** The error of a read at `off` that wants a byte the file does not have. */
  function ReadError(disk: seq<Byte>, g: Geometry, start: nat, size: nat, off: nat): Status {
    if g.spc == 0 then Corrupted else FailStatus(disk, g, start, MissingAt(FileBytes(disk, g, start, size), off))
  }

  /** Position `p` is the first from `off` on that the chain does not get to. */
  ghost predicate FirstMissing(disk: seq<Byte>, g: Geometry, start: nat, off: nat, p: nat)
    requires g.spc > 0
  {
    off <= p && ByteAt(disk, g, start, p).None? && forall q {:trigger ByteAt(disk, g, start, q)} :: off <= q < p ==> ByteAt(disk, g, start, q).Some?
  }

  /** Reads up to `n` bytes at `off` of a file; never past its size. */
  method FileRead(disk: seq<Byte>, g: Geometry, start: nat, size: nat, off: nat, n: nat) returns (status: Status, bytes: seq<Byte>)
    requires OnDisk(disk, g)
    ensures ReadOutcome(FileBytes(disk, g, start, size), size, off, n, ReadError(disk, g, start, size, off), status, bytes)
  {
    hide OnDisk, Nth;
    PositiveClusters(disk, g);
    ghost var p;
    status, bytes, p := ReadChain(disk, g, start, size, off, n);
    if off < size { ReadIsSlice(disk, g, start, size, off, n, status, bytes, p); }
  }

  /** The loop over the clusters, in terms of single bytes. */
  method ReadChain(disk: seq<Byte>, g: Geometry, start: nat, size: nat, off: nat, n: nat) returns (status: Status, bytes: seq<Byte>, ghost p: nat)
    requires OnDisk(disk, g)
    ensures g.spc > 0
    ensures off >= size ==> status == Ok && bytes == []
    ensures off < size && status == Ok ==> BytesAt(disk, g, start, off, Least(n, size - off), bytes)
    ensures off < size && status != Ok ==>
              bytes == [] && p < off + Least(n, size - off) && FirstMissing(disk, g, start, off, p) && status == FailStatus(disk, g, start, p)
  {
    hide OnDisk, Nth, ByteAt;
    PositiveClusters(disk, g);
    bytes, p := [], 0;
    if off >= size {
      return Ok, [], 0;
    }
    var want := Least(n, size - off);
    while |bytes| < want
      invariant |bytes| <= want && BytesAt(disk, g, start, off, |bytes|, bytes)
    {
      var pos := off + |bytes|;
      var cs := ClusterSize(g);
      var index, o := pos / cs, pos % cs;
      Split(pos, cs, index, o);
      if index >= g.clusters {
        NotReached(disk, g, start, off, bytes, pos);
        return Corrupted, [], pos;
      }
      var c;
      status, c := GetNthCluster(disk, g, start, index);
      if status != Ok {
        StartLost(disk, g, start, index);
        NotReached(disk, g, start, off, bytes, pos);
        return status, [], pos;
      }
      var chunk := Least(cs - o, want - |bytes|);
      ClusterBytes(disk, g, c);
      var at := ClusterStart(g, c) + o;
      ghost var before := bytes;
      bytes := bytes + disk[at..at + chunk];
      Chunk(disk, g, start, off, before, bytes, index, o, c, chunk);
    }
    status := Ok;
  }

  // After the bytes read so far, the chain does not get to the next one.
  lemma NotReached(disk: seq<Byte>, g: Geometry, start: nat, off: nat, bytes: seq<Byte>, pos: nat)
    requires g.spc > 0 && BytesAt(disk, g, start, off, |bytes|, bytes) && pos == off + |bytes|
    requires pos / ClusterSize(g) >= g.clusters || !Nth(disk, g, start, pos / ClusterSize(g)).At?
    ensures FirstMissing(disk, g, start, off, pos)
  {
    hide Nth;
    forall q | off <= q < pos ensures ByteAt(disk, g, start, q).Some? {
      assert ByteAt(disk, g, start, off + (q - off)) == Some(bytes[q - off]);
    }
  }

  lemma Split(pos: nat, cs: nat, q: nat, o: nat)
    requires cs > 0 && q == pos / cs && o == pos % cs
    ensures pos == q * cs + o && o < cs
  {
  }

  lemma {:induction false} StartLost(disk: seq<Byte>, g: Geometry, start: nat, k: nat)
    ensures !ValidCluster(g, start) ==> Nth(disk, g, start, k) == Lost
    decreases k
  {
    if k > 0 { StartLost(disk, g, start, k - 1); }
  }

  lemma ClusterBytes(disk: seq<Byte>, g: Geometry, c: nat)
    requires OnDisk(disk, g) && ValidCluster(g, c)
    ensures ClusterStart(g, c) + ClusterSize(g) <= |disk|
  {
    ClusterInVolume(g, c);
    var a := c - 2;
    assert a * (SECTOR * g.spc) == SECTOR * (a * g.spc);
    assert FirstSector(g, c) * SECTOR == ClusterStart(g, c);
  }

  // One chunk, all of it in cluster `c`, is `index`-th in the chain.
  lemma Chunk(disk: seq<Byte>, g: Geometry, start: nat, off: nat, before: seq<Byte>, bytes: seq<Byte>, index: nat, o: nat, c: nat, chunk: nat)
    requires g.spc > 0 && index < g.clusters && Nth(disk, g, start, index) == At(c) && BytesAt(disk, g, start, off, |before|, before)
    requires off + |before| == index * ClusterSize(g) + o && o + chunk <= ClusterSize(g) && c >= 2
    requires ClusterStart(g, c) + ClusterSize(g) <= |disk|
    requires bytes == before + disk[ClusterStart(g, c) + o..ClusterStart(g, c) + o + chunk]
    ensures BytesAt(disk, g, start, off, |bytes|, bytes)
  {
    hide Nth, ClusterStart;
    forall i | 0 <= i < |bytes| ensures ByteAt(disk, g, start, off + i) == Some(bytes[i]) {
      if i < |before| {
        assert bytes[i] == before[i];
      } else {
        var d := i - |before|;
        InCluster(off + i, ClusterSize(g), index, o + d);
      }
    }
  }

  lemma InCluster(pos: nat, cs: nat, q: nat, o: nat)
    requires pos == q * cs + o && o < cs
    ensures pos / cs == q && pos % cs == o
  {
    if pos / cs > q { ProductLess(q, pos / cs, cs); }
    if pos / cs < q { ProductLess(pos / cs, q, cs); }
  }

  // ----------------------------------------------------------------------------------
  // Files as byte sequences

  /** The first `k` clusters of the chain, one after the other, as far as it goes. */
  function Content(disk: seq<Byte>, g: Geometry, start: nat, k: nat): seq<Byte> {
    if k == 0 then [] else
    var p := Nth(disk, g, start, k - 1);
    Content(disk, g, start, k - 1) +
    (if p.At? && ClusterStart(g, p.cluster) + ClusterSize(g) <= |disk|
     then disk[ClusterStart(g, p.cluster)..ClusterStart(g, p.cluster) + ClusterSize(g)] else [])
  }

  /** The number of clusters `size` bytes need. */
  function ClustersFor(g: Geometry, size: nat): nat {
    if g.spc == 0 then 0 else (size + ClusterSize(g) - 1) / ClusterSize(g)
  }

  /** The bytes of a file: its chain, cut at its size. A chain that is too short, or that
      is followed for longer than the volume has clusters, leaves fewer bytes than that. */
  function FileBytes(disk: seq<Byte>, g: Geometry, start: nat, size: nat): seq<Byte> {
    var c := Content(disk, g, start, Least(ClustersFor(g, size), g.clusters));
    c[..Least(|c|, size)]
  }

  /** What a read of a file with these bytes and this recorded size answers: it fails, with
      the error given, exactly when it wants a byte within the size that the chain does not
      have. */
  predicate ReadOutcome(file: seq<Byte>, size: nat, off: nat, n: nat, error: Status, status: Status, bytes: seq<Byte>) {
    status == (if Readable(file, size, off, n) then Ok else error) &&
    bytes == (if Readable(file, size, off, n) then ReadSpec(file, off, n) else [])
  }

  /** The file has the bytes in `[off, off + n)` as far as they lie within the size. */
  predicate Readable(file: seq<Byte>, size: nat, off: nat, n: nat) {
    n == 0 || off >= size || off + Least(n, size - off) <= |file|
  }

  /** The content of a chain, byte by byte: it has the bytes the chain gets to, and no others
      up to the `k`-th cluster; it is whole exactly when the chain has `k` clusters. */
  lemma {:induction false} ContentBytes(disk: seq<Byte>, g: Geometry, start: nat, k: nat)
    requires OnDisk(disk, g) && k <= g.clusters
    ensures g.spc > 0
    ensures var c := Content(disk, g, start, k);
            BytesAt(disk, g, start, 0, |c|, c) && |c| <= k * ClusterSize(g) &&
            (forall p {:trigger ByteAt(disk, g, start, p)} :: |c| <= p < k * ClusterSize(g) ==> ByteAt(disk, g, start, p).None?)
    ensures k > 0 ==> var c := Content(disk, g, start, k);
                      if Nth(disk, g, start, k - 1).At? then |c| == k * ClusterSize(g) else |c| <= (k - 1) * ClusterSize(g)
    decreases k
  {
    hide OnDisk, Nth;
    PositiveClusters(disk, g);
    if k > 0 {
      ContentBytes(disk, g, start, k - 1);
      var cs := ClusterSize(g);
      var p := Nth(disk, g, start, k - 1);
      var before := Content(disk, g, start, k - 1);
      assert k * cs == (k - 1) * cs + cs;
      if p.At? {
        if k > 1 { StillAt(disk, g, start, k - 1); }
        ValidAt(disk, g, start, k - 1);
        ClusterBytes(disk, g, p.cluster);
        Chunk(disk, g, start, 0, before, Content(disk, g, start, k), k - 1, 0, p.cluster, cs);
      } else {
        PastChain(disk, g, start, k - 1);
      }
    }
  }

  lemma ValidAt(disk: seq<Byte>, g: Geometry, start: nat, k: nat)
    ensures Nth(disk, g, start, k).At? ==> ValidCluster(g, Nth(disk, g, start, k).cluster)
  {
  }

  lemma StillAt(disk: seq<Byte>, g: Geometry, start: nat, k: nat)
    requires k > 0 && Nth(disk, g, start, k).At?
    ensures Nth(disk, g, start, k - 1).At?
  {
  }

  // The bytes of a cluster the chain does not have.
  lemma PastChain(disk: seq<Byte>, g: Geometry, start: nat, k: nat)
    requires g.spc > 0 && !Nth(disk, g, start, k).At?
    ensures forall p {:trigger ByteAt(disk, g, start, p)} :: k * ClusterSize(g) <= p < k * ClusterSize(g) + ClusterSize(g) ==> ByteAt(disk, g, start, p).None?
  {
    hide Nth;
    var cs := ClusterSize(g);
    forall p | k * cs <= p < k * cs + cs ensures ByteAt(disk, g, start, p).None? { InCluster(p, cs, k, p - k * cs); }
  }

  /** A byte within the size is in the file exactly when the chain gets there. */
  lemma FileByte(disk: seq<Byte>, g: Geometry, start: nat, size: nat, p: nat)
    requires OnDisk(disk, g) && p < size
    ensures g.spc > 0
    ensures var file := FileBytes(disk, g, start, size); ByteAt(disk, g, start, p) == if p < |file| then Some(file[p]) else None
  {
    hide OnDisk, Nth, Content;
    PositiveClusters(disk, g);
    var k, cs := Least(ClustersFor(g, size), g.clusters), ClusterSize(g);
    ContentBytes(disk, g, start, k);
    var c := Content(disk, g, start, k);
    Covers(size, cs);
    if p < |c| {
      assert ByteAt(disk, g, start, 0 + p) == Some(c[p]);
    } else if p >= k * cs {
      FarByte(p, cs, g.clusters);
    }
  }

  lemma Covers(size: nat, cs: nat)
    requires cs > 0
    ensures var k := (size + cs - 1) / cs; size <= k * cs && (size > 0 ==> k > 0 && (k - 1) * cs < size)
  {
    var k := (size + cs - 1) / cs;
    Split(size + cs - 1, cs, k, (size + cs - 1) % cs);
    assert (k - 1) * cs == k * cs - cs;
    assert k == 0 ==> k * cs == 0;
  }

  lemma FarByte(p: nat, cs: nat, k: nat)
    requires cs > 0 && p >= k * cs
    ensures p / cs >= k
  {
    Split(p, cs, p / cs, p % cs);
    if p / cs < k { ProductLess(p / cs, k, cs); }
  }

  /** A read answers with a slice of the file, or fails on the first byte it wants and the
      file does not have. */
  lemma ReadIsSlice(disk: seq<Byte>, g: Geometry, start: nat, size: nat, off: nat, n: nat, status: Status, bytes: seq<Byte>, p: nat)
    requires OnDisk(disk, g) && g.spc > 0 && off < size
    requires status == Ok ==> BytesAt(disk, g, start, off, Least(n, size - off), bytes)
    requires status != Ok ==>
               bytes == [] && p < off + Least(n, size - off) && FirstMissing(disk, g, start, off, p) && status == FailStatus(disk, g, start, p)
    ensures ReadOutcome(FileBytes(disk, g, start, size), size, off, n, ReadError(disk, g, start, size, off), status, bytes)
  {
    hide OnDisk, ByteAt, FileBytes, FailStatus;
    var file := FileBytes(disk, g, start, size);
    var want := Least(n, size - off);
    SizeBound(disk, g, start, size);
    forall p | off <= p < off + want ensures ByteAt(disk, g, start, p) == if p < |file| then Some(file[p]) else None {
      FileByte(disk, g, start, size, p);
    }
    if status == Ok && want > 0 {
      assert ByteAt(disk, g, start, off + (want - 1)) == Some(bytes[want - 1]);
      forall i | 0 <= i < want ensures bytes[i] == file[off..off + want][i] {
        assert ByteAt(disk, g, start, off + i) == Some(bytes[i]);
      }
      assert bytes == file[off..off + want];
    }
    if status != Ok {
      if p > off { assert ByteAt(disk, g, start, p - 1).Some?; }
      assert p == MissingAt(file, off);
    }
  }

  lemma SizeBound(disk: seq<Byte>, g: Geometry, start: nat, size: nat)
    ensures |FileBytes(disk, g, start, size)| <= size
  {
  }

  /** A file has all its bytes exactly when its chain has the clusters its size needs; then
      every read succeeds. */
  lemma FileComplete(disk: seq<Byte>, g: Geometry, start: nat, size: nat)
    requires OnDisk(disk, g)
    ensures |FileBytes(disk, g, start, size)| == size <==>
              size == 0 || (ClustersFor(g, size) <= g.clusters && Nth(disk, g, start, ClustersFor(g, size) - 1).At?)
    ensures |FileBytes(disk, g, start, size)| == size ==>
              forall off: nat, n: nat :: Readable(FileBytes(disk, g, start, size), size, off, n)
  {
    hide OnDisk, Nth, Content;
    PositiveClusters(disk, g);
    var k, cs := ClustersFor(g, size), ClusterSize(g);
    Covers(size, cs);
    ContentBytes(disk, g, start, Least(k, g.clusters));
    if k > g.clusters { Slower(g.clusters, k - 1, cs); }
  }

  lemma Slower(a: nat, b: nat, k: nat)
    requires a <= b
    ensures a * k <= b * k
  {
    if a < b && k > 0 { ProductLess(a, b, k); }
  }

  /** `cs` are clusters of the volume, each named by the 16 bits the first copy of the table has
      for the one before. */
  ghost predicate Linked(disk: seq<Byte>, g: Geometry, cs: seq<nat>) {
    |cs| > 0 && (forall k :: 0 <= k < |cs| ==> 2 <= cs[k] < g.clusters + 2) &&
    forall k :: 0 <= k < |cs| - 1 ==> NextIs(disk, 512 * g.firstFat + 2 * cs[k], cs[k + 1])
  }

  predicate NextIs(disk: seq<Byte>, at: nat, next: nat) {
    at + 1 < |disk| && next == (disk[at] as int) + 256 * (disk[at + 1] as int)
  }

  lemma {:induction false} LinkedNth(disk: seq<Byte>, g: Geometry, cs: seq<nat>, k: nat)
    requires OnDisk(disk, g) && Linked(disk, g, cs) && k < |cs|
    ensures Nth(disk, g, cs[0], k) == At(cs[k])
    decreases k
  {
    hide Field;
    if k > 0 {
      LinkedNth(disk, g, cs, k - 1);
      var at := 512 * g.firstFat + 2 * cs[k - 1];
      assert NextIs(disk, at, cs[k - 1 + 1]);
      TwoBytes(disk, at);
    }
  }

  lemma TwoBytes(s: seq<Byte>, at: nat)
    requires at + 2 <= |s|
    ensures Field(s, at, 2) == (s[at] as int) + 256 * (s[at + 1] as int)
  {
    var b := s[at..at + 2];
    assert Dec(b) == b[0] + 256 * Dec(b[1..]) && Dec(b[1..]) == b[1] + 256 * Dec(b[1..][1..]);
    assert Dec(b[1..][1..]) == 0;
  }

  /** The byte at offset `o` of cluster number `c`, clusters being laid out from the data area on,
      number 2 first (Microsoft FAT specification, FAT and Cluster Mapping). */
  function ByteOf(disk: seq<Byte>, g: Geometry, c: nat, o: nat): Option<Byte> {
    var at := if c >= 2 then 512 * (g.firstData + (c - 2) * g.spc) + o else 0;
    if c >= 2 && at < |disk| then Some(disk[at]) else None
  }

  /** Byte `o` of cluster `k` of a chain is the byte of the file there, as far as it is in it. */
  lemma FileOnDisk(disk: seq<Byte>, g: Geometry, cs: seq<nat>, size: nat, file: seq<Byte>, k: nat, o: nat, p: nat)
    requires OnDisk(disk, g) && Linked(disk, g, cs) && k < |cs| <= g.clusters && file == FileBytes(disk, g, cs[0], size)
    requires o < 512 * g.spc && p == k * (512 * g.spc) + o && p < size
    ensures p < |file| && ByteOf(disk, g, cs[k], o) == Some(file[p])
  {
    hide OnDisk, Nth, FileBytes, Linked;
    PositiveClusters(disk, g);
    LinkedNth(disk, g, cs, k);
    InChain(disk, g, cs, k);
    ClusterBytes(disk, g, cs[k]);
    InCluster(p, ClusterSize(g), k, o);
    FileByte(disk, g, cs[0], size, p);
    assert (cs[k] - 2) * (512 * g.spc) == 512 * ((cs[k] - 2) * g.spc);
  }

  lemma InChain(disk: seq<Byte>, g: Geometry, cs: seq<nat>, k: nat)
    requires Linked(disk, g, cs) && k < |cs|
    ensures ValidCluster(g, cs[k])
  {
  }

  /** Reads in pieces of any sizes, each where the last one ended: put together they are one
      read, and they fail exactly when that would. */
  method ReadPieces(disk: seq<Byte>, g: Geometry, start: nat, size: nat, off: nat, sizes: seq<nat>) returns (status: Status, bytes: seq<Byte>)
    requires OnDisk(disk, g)
    ensures ReadOutcome(FileBytes(disk, g, start, size), size, off, Sum(sizes), ReadError(disk, g, start, size, off), status, bytes)
  {
    hide OnDisk, FileBytes, Sum, ReadSpec, FailStatus, Readable;
    ghost var file, error := FileBytes(disk, g, start, size), ReadError(disk, g, start, size, off);
    SizeBound(disk, g, start, size);
    status, bytes := Ok, [];
    SumNone(sizes);
    IsError(disk, g, start, size, off);
    NothingRead(file, size, off, error);
    var k := 0;
    while k < |sizes|
      invariant 0 <= k <= |sizes| && status == Ok && ReadOutcome(file, size, off, Sum(sizes[..k]), error, Ok, bytes)
    {
      var piece;
      status, piece := FileRead(disk, g, start, size, off + |bytes|, sizes[k]);
      SumMore(sizes, k);
      SameMissing(file, size, off, Sum(sizes[..k]), error, bytes);
      OutcomesJoin(file, size, off, Sum(sizes[..k]), sizes[k], error, bytes, status, piece);
      if status != Ok {
        SumGrows(sizes, k + 1);
        OutcomeStays(file, size, off, Sum(sizes[..k + 1]), Sum(sizes), error);
        return status, [];
      }
      bytes := bytes + piece;
      k := k + 1;
    }
    assert sizes[..k] == sizes;
  }

  lemma NothingRead(file: seq<Byte>, size: nat, off: nat, error: Status)
    ensures ReadOutcome(file, size, off, 0, error, Ok, [])
  {
  }

  lemma IsError(disk: seq<Byte>, g: Geometry, start: nat, size: nat, off: nat)
    ensures ReadError(disk, g, start, size, off) != Ok
  {
  }

  // What a file lacks from `off` on, it lacks from where a read at `off` ended.
  lemma SameMissing(file: seq<Byte>, size: nat, off: nat, n: nat, error: Status, bytes: seq<Byte>)
    requires ReadOutcome(file, size, off, n, error, Ok, bytes)
    ensures MissingAt(file, off + |bytes|) == MissingAt(file, off)
  {
  }

  lemma OutcomesJoin(file: seq<Byte>, size: nat, off: nat, a: nat, b: nat, error: Status, bytes: seq<Byte>, status: Status, piece: seq<Byte>)
    requires |file| <= size && error != Ok
    requires ReadOutcome(file, size, off, a, error, Ok, bytes) && ReadOutcome(file, size, off + |bytes|, b, error, status, piece)
    ensures ReadOutcome(file, size, off, a + b, error, status, if status == Ok then bytes + piece else [])
  {
    ReadsJoin(file, off, a, b);
  }

  lemma OutcomeStays(file: seq<Byte>, size: nat, off: nat, a: nat, b: nat, error: Status)
    requires a <= b && error != Ok && ReadOutcome(file, size, off, a, error, error, [])
    ensures ReadOutcome(file, size, off, b, error, error, [])
  {
  }
}
