/** The directory tree: unique names, and no cycle. */
module FsTree {
  import opened Results
  import opened Bytes
  import opened DirTable
  import opened DirBytes
  import opened Acl
  import opened Volumes
  import opened FsSpec

  type Homes = map<nat, Place>
  type Levels = map<nat, nat>

  ghost predicate EntryNamed(fs: Fs, home: Homes, d: nat, n: Name) {
    d in fs && n in fs[d].entries &&
    var c := fs[d].entries[n].ino;
    fs[d].isDir && c in fs && c != ROOT_INO && c in home && home[c] == Place(d, n)
  }

  ghost predicate HomeNamed(fs: Fs, home: Homes, c: nat) {
    c in home && c in fs && home[c].dir in fs && home[c].name in fs[home[c].dir].entries && fs[home[c].dir].entries[home[c].name].ino == c
  }

  /** `home` says for each named inode the one place where it is named. */
  ghost predicate FsNamed(fs: Fs, home: Homes) {
    ROOT_INO in fs &&
    (forall d, n {:trigger EntryNamed(fs, home, d, n)} :: d in fs && n in fs[d].entries ==> EntryNamed(fs, home, d, n)) &&
    (forall c {:trigger HomeNamed(fs, home, c)} :: c in home ==> HomeNamed(fs, home, c))
  }

  lemma VolumeNamed(v: Vol)
    requires VolInv(v)
    ensures FsNamed(Abs(v), v.home)
  {
    hide VolInv, TableOk, Gathered, Bindings, Abs, NodeAt, InodeOk;
    ShapeFact(v);
    InodeFact(v, ROOT_INO);
    forall d, n | d in Abs(v) && n in Abs(v)[d].entries ensures EntryNamed(Abs(v), v.home, d, n) { NamedEntry(v, d, n); }
    forall c | c in v.home ensures HomeNamed(Abs(v), v.home, c) { NamedHome(v, c); }
  }

  lemma NamedEntry(v: Vol, d: nat, n: Name)
    requires VolInv(v) && d in Abs(v) && n in Abs(v)[d].entries
    ensures EntryNamed(Abs(v), v.home, d, n)
  {
    hide VolInv, TableOk, Gathered, HashOk, AclOk, InodeDataOk;
    InodeFact(v, d);
    EntryFact(v, d, n);
    InodeFact(v, v.dirs[d].table.recs[n].ino);
  }

  lemma NamedHome(v: Vol, c: nat)
    requires VolInv(v) && c in v.home
    ensures HomeNamed(Abs(v), v.home, c)
  {
    hide VolInv, TableOk, Gathered, HashOk, AclOk, InodeDataOk;
    HomeLive(v, c);
    InodeFact(v, c);
    DirFact(v, v.home[c].dir);
    InodeFact(v, v.home[c].dir);
  }

  // ----------------------------------------------------------------------------------
  // No cycles

  /** Every named inode is deeper than the directory that names it. */
  ghost predicate Ranked(fs: Fs, home: Homes, level: Levels) {
    level.Keys == fs.Keys &&
    forall c {:trigger home[c]} :: c in home && c in fs ==> home[c].dir in fs && level[home[c].dir] < level[c]
  }

  ghost predicate Acyclic(fs: Fs, home: Homes) {
    exists level :: Ranked(fs, home, level)
  }

  predicate Edge(fs: Fs, a: nat, b: nat) {
    a in fs && exists n :: n in fs[a].entries && fs[a].entries[n].ino == b
  }

  /** Going down from directory to entry any number of times never comes back. */
  lemma {:induction false} NoCycle(fs: Fs, home: Homes, chain: seq<nat>)
    requires FsNamed(fs, home) && Acyclic(fs, home) && |chain| > 1
    requires forall i :: 0 <= i < |chain| - 1 ==> Edge(fs, chain[i], chain[i + 1])
    ensures chain[0] != chain[|chain| - 1]
  {
    var level :| Ranked(fs, home, level);
    Descends(fs, home, level, chain);
  }

  lemma {:induction false} Descends(fs: Fs, home: Homes, level: Levels, chain: seq<nat>)
    requires FsNamed(fs, home) && Ranked(fs, home, level) && |chain| > 1
    requires forall i :: 0 <= i < |chain| - 1 ==> Edge(fs, chain[i], chain[i + 1])
    ensures chain[0] in fs && chain[|chain| - 1] in fs && level[chain[0]] < level[chain[|chain| - 1]]
    decreases |chain|
  {
    var k := |chain| - 2;
    assert Edge(fs, chain[k], chain[k + 1]);
    var n :| n in fs[chain[k]].entries && fs[chain[k]].entries[n].ino == chain[k + 1];
    assert EntryNamed(fs, home, chain[k], n);
    assert home[chain[k + 1]].dir == chain[k];
    if k > 0 {
      var front := chain[..k + 1];
      forall i | 0 <= i < |front| - 1 ensures Edge(fs, front[i], front[i + 1]) { assert Edge(fs, chain[i], chain[i + 1]); }
      Descends(fs, home, level, front);
    }
  }

  /** Inode `x` is `t` or lies below it. */
  ghost predicate Under(home: Homes, level: Levels, t: nat, x: nat)
    decreases if x in level then level[x] else 0
  {
    x == t ||
    (x in home && x in level && home[x].dir in level && level[home[x].dir] < level[x] && Under(home, level, t, home[x].dir))
  }

  lemma AddedRanked(a: Fs, b: Fs, home: Homes, home': Homes, dir: nat, name: Name, ino: nat, node: Node)
    requires FsNamed(a, home) && Acyclic(a, home) && Added(a, b, dir, name, ino, node) && home' == home[ino := Place(dir, name)]
    ensures Acyclic(b, home')
  {
    var level :| Ranked(a, home, level);
    var level' := level[ino := level[dir] + 1];
    forall c | c in home' && c in b ensures home'[c].dir in b && level'[home'[c].dir] < level'[c] {
      if c != ino { assert HomeNamed(a, home, c); }
    }
    assert Ranked(b, home', level');
  }

  lemma DroppedRanked(a: Fs, b: Fs, home: Homes, home': Homes, dir: nat, name: Name)
    requires FsNamed(a, home) && Acyclic(a, home) && Dropped(a, b, dir, name)
    requires var t := a[dir].entries[name].ino; a[t].entries == map[] && home' == home - {t}
    ensures Acyclic(b, home')
  {
    var level :| Ranked(a, home, level);
    var t := a[dir].entries[name].ino;
    forall c | c in home' && c in b ensures home'[c].dir in b && level[home'[c].dir] < level[c] {
      assert HomeNamed(a, home, c);
    }
    assert Ranked(b, home', level - {t});
  }

  lemma UnboundRanked(a: Fs, home: Homes, home': Homes, d: nat, n: Name)
    requires Acyclic(a, home) && d in a && (forall c :: c in home' ==> c in home && home'[c] == home[c])
    ensures Acyclic(Unbind(a, d, n), home')
  {
    var level :| Ranked(a, home, level);
    assert Ranked(Unbind(a, d, n), home', level);
  }

  ghost function Lifted(home: Homes, level: Levels, t: nat, lift: nat): Levels {
    map x | x in level :: if Under(home, level, t, x) then level[x] + lift else level[x]
  }

  /** Moving a directory to a place that does not lie below it makes no cycle. */
  lemma MovedRanked(a: Fs, b: Fs, home: Homes, home': Homes, level: Levels, d1: nat, n1: Name, d2: nat, n2: Name)
    requires FsNamed(a, home) && Ranked(a, home, level) && Moved(a, b, d1, n1, d2, n2) && !(d1 == d2 && n1 == n2)
    requires var t := a[d1].entries[n1].ino; home' == home[t := Place(d2, n2)] && !Under(home, level, t, d2)
    ensures Acyclic(b, home')
  {
    var t := a[d1].entries[n1].ino;
    assert EntryNamed(a, home, d1, n1);
    var lift := level[d2] + 1;
    var level' := Lifted(home, level, t, lift);
    forall c | c in home' && c in b ensures home'[c].dir in b && level'[home'[c].dir] < level'[c] {
      if c != t {
        assert HomeNamed(a, home, c);
        assert level[home[c].dir] < level[c];
        assert Under(home, level, t, c) <==> Under(home, level, t, home[c].dir);
      }
    }
    assert Ranked(b, home', level');
  }
}
