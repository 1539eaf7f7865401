/** Access control lists: the verdict of an access check, inheritance by new children,
    and the storage of a list in four inline slots plus one overflow block. */
module Acl {
  import opened Bytes

  const EVERYONE: nat := 0xFFFF_FFFF
  const ALLOW: nat := 0
  const DENY: nat := 1
  const INLINE_COUNT: nat := 4
  const MAX_ACES: nat := 64
  const ACE_SIZE: nat := 12

  const FLAG_GROUP: bv8 := 0x01
  const FLAG_INHERIT_FILE: bv8 := 0x02
  const FLAG_INHERIT_DIR: bv8 := 0x04
  const FLAG_INHERIT_ONLY: bv8 := 0x08
  const FLAG_NO_PROPAGATE: bv8 := 0x10

  const READ_DATA: bv32 := 0x01
  const WRITE_DATA: bv32 := 0x02
  const APPEND_DATA: bv32 := 0x04
  const DELETE_CHILD: bv32 := 0x08
  const EXECUTE: bv32 := 0x10

  datatype Ace = Ace(id: nat, mask: bv32, kind: nat, flags: bv8)
  datatype Cred = Cred(uid: nat, gid: nat)

  predicate AceFits(a: Ace) {
    a.id < U32_LIMIT && a.kind < 256
  }

  function Or(x: bv32, y: bv32): bv32 { x | y }
  predicate Meets(x: bv32, m: bv32) { x & m != 0 }
  predicate Within(request: bv32, granted: bv32) { request & granted == request }
  predicate Has(flags: bv8, flag: bv8) { flags & flag != 0 }

  // ----------------------------------------------------------------------------------
  // The access verdict

  predicate IdMatches(a: Ace, c: Cred) {
    a.id == EVERYONE || (if Has(a.flags, FLAG_GROUP) then a.id == c.gid else a.id == c.uid)
  }

  /** The entry is evaluated for this caller: not inherit-only, and its id matches. */
  predicate Applies(a: Ace, c: Cred) {
    !Has(a.flags, FLAG_INHERIT_ONLY) && IdMatches(a, c)
  }

  predicate Denies(a: Ace, c: Cred, request: bv32) {
    Applies(a, c) && a.kind == DENY && Meets(a.mask, request)
  }

  /** The union of the masks of the allow entries that apply. */
  function Granted(aces: seq<Ace>, c: Cred): bv32 {
    if |aces| == 0 then 0 else
      Or(Granted(aces[..|aces| - 1], c), AllowMask(aces[|aces| - 1], c))
  }

  function AllowMask(a: Ace, c: Cred): bv32 {
    if Applies(a, c) && a.kind == ALLOW then a.mask else 0
  }

  /** Deny overrides: one applicable deny entry that meets the request refuses it;
      otherwise every requested bit must be granted by some allow entry. */
  ghost predicate Verdict(aces: seq<Ace>, c: Cred, request: bv32) {
    (forall a :: a in aces ==> !Denies(a, c, request)) && Within(request, Granted(aces, c))
  }

  lemma {:induction false} GrantedConcat(a: seq<Ace>, b: seq<Ace>, c: Cred)
    ensures Granted(a + b, c) == Or(Granted(a, c), Granted(b, c))
    decreases |b|
  {
    hide AllowMask, Or;
    OrZero(Granted(a, c));
    if |b| == 0 {
      assert a + b == a;
    } else {
      assert (a + b)[..|a + b| - 1] == a + b[..|b| - 1];
      GrantedConcat(a, b[..|b| - 1], c);
      OrAssoc(Granted(a, c), Granted(b[..|b| - 1], c), AllowMask(b[|b| - 1], c));
    }
  }

  lemma {:induction false} GrantedOrder(a: seq<Ace>, b: seq<Ace>, c: Cred)
    requires multiset(a) == multiset(b)
    ensures Granted(a, c) == Granted(b, c)
    decreases |a|
  {
    hide Granted, Or;
    if |a| == 0 {
      assert |b| == |multiset(b)| == 0;
    } else {
      var x := a[0];
      var p, q := Pluck(a, b);
      GrantedOrder(a[1..], p + q, c);
      GrantedConcat([x], a[1..], c);
      GrantedConcat(p, q, c);
      GrantedConcat(p + [x], q, c);
      GrantedConcat(p, [x], c);
      OrAssoc(Granted([x], c), Granted(p, c), Granted(q, c));
      OrAssoc(Granted(p, c), Granted([x], c), Granted(q, c));
      OrComm(Granted([x], c), Granted(p, c));
    }
  }

  lemma Pluck(a: seq<Ace>, b: seq<Ace>) returns (p: seq<Ace>, q: seq<Ace>)
    requires multiset(a) == multiset(b) && |a| > 0
    ensures a == [a[0]] + a[1..] && b == p + [a[0]] + q && multiset(a[1..]) == multiset(p + q)
  {
    var x := a[0];
    assert x in multiset(a);
    var j :| 0 <= j < |b| && b[j] == x;
    p, q := b[..j], b[j + 1..];
    assert a == [x] + a[1..] && b == p + [x] + q;
    assert multiset(a) == multiset{x} + multiset(a[1..]);
    assert multiset(b) == multiset(p) + multiset{x} + multiset(q);
    assert multiset(p + q) == multiset(p) + multiset(q);
    assert multiset(b) == multiset{x} + multiset(p + q);
    Cancel(x, multiset(a[1..]), multiset(p + q));
  }

  lemma Cancel(x: Ace, s: multiset<Ace>, t: multiset<Ace>)
    requires multiset{x} + s == multiset{x} + t
    ensures s == t
  {
    assert s == (multiset{x} + s) - multiset{x};
    assert t == (multiset{x} + t) - multiset{x};
  }

  lemma OrAssoc(x: bv32, y: bv32, z: bv32)
    ensures Or(Or(x, y), z) == Or(x, Or(y, z))
  {
    assert (x | y) | z == x | (y | z);
  }

  lemma OrComm(x: bv32, y: bv32)
    ensures Or(x, y) == Or(y, x)
  {
  }

  lemma OrZero(x: bv32)
    ensures Or(x, 0) == x
  {
  }

  /** The verdict depends on which entries the list holds, not on their order. */
  lemma VerdictOrder(a: seq<Ace>, b: seq<Ace>, c: Cred, request: bv32)
    requires multiset(a) == multiset(b)
    ensures Verdict(a, c, request) == Verdict(b, c, request)
  {
    hide Granted, Or, Within, Denies;
    GrantedOrder(a, b, c);
    forall x ensures x in a <==> x in b {
      assert x in a <==> x in multiset(a);
      assert x in b <==> x in multiset(b);
    }
  }

  /** Nothing added to a list takes back a refusal by a deny entry, and a bit can only be
      granted by an entry of the list. */
  lemma DenyOverrides(a: seq<Ace>, b: seq<Ace>, c: Cred, request: bv32, d: Ace)
    requires d in a && Denies(d, c, request)
    ensures !Verdict(a + b, c, request) && !Verdict(b + a, c, request)
  {
    assert d in a + b && d in b + a;
  }

  /** A requested bit is granted exactly when some applicable allow entry carries it. */
  lemma {:induction false} GrantedMeets(aces: seq<Ace>, c: Cred, m: bv32)
    ensures Meets(Granted(aces, c), m) <==> exists a :: a in aces && Meets(AllowMask(a, c), m)
  {
    hide Or, AllowMask;
    if |aces| != 0 {
      var init, last := aces[..|aces| - 1], aces[|aces| - 1];
      GrantedMeets(init, c, m);
      hide Meets;
      OrMeets(Granted(init, c), AllowMask(last, c), m);
      assert aces == init + [last];
      assert forall a :: a in aces <==> a in init || a == last;
    }
  }

  lemma OrMeets(x: bv32, y: bv32, m: bv32)
    ensures Meets(Or(x, y), m) <==> Meets(x, m) || Meets(y, m)
  {
    assert (x | y) & m == (x & m) | (y & m);
  }

  /** One bit of a mask. */
  predicate OneBit(m: bv32) { m != 0 && m & (m - 1) == 0 }

  /** The entry's id is everyone's, or the caller's user or, with flag 1, group. */
  predicate NamesCaller(a: Ace, c: Cred) {
    a.id == 0xFFFF_FFFF || a.id == if Has(a.flags, 0x01) then c.gid else c.uid
  }

  lemma BitWithin(request: bv32, granted: bv32)
    ensures Within(request, granted) <==> forall m: bv32 {:trigger OneBit(m)} :: OneBit(m) && Meets(request, m) ==> Meets(granted, m)
  {
    if Within(request, granted) {
      forall m: bv32 | OneBit(m) && Meets(request, m) ensures Meets(granted, m) { BitKept(request, granted, m); }
    } else {
      var m := FirstMissing(request, granted);
      assert OneBit(m) && Meets(request, m);
    }
  }

  lemma BitKept(request: bv32, granted: bv32, m: bv32)
    requires Within(request, granted) && Meets(request, m)
    ensures Meets(granted, m)
  {
    assert request & m == (request & granted) & m;
    assert (request & granted) & m == request & (granted & m);
    assert request & (0 as bv32) == 0;
  }

  lemma FirstMissing(request: bv32, granted: bv32) returns (m: bv32)
    requires !Within(request, granted)
    ensures OneBit(m) && Meets(request, m) && !Meets(granted, m)
  {
    hide LowestBit, Within, Meets, OneBit;
    SomeMissing(request, granted);
    m := LowestBit(request & !granted);
    PartOf(request, granted, m);
  }

  lemma SomeMissing(request: bv32, granted: bv32)
    requires !Within(request, granted)
    ensures request & !granted != 0
  {
  }

  lemma PartOf(request: bv32, granted: bv32, m: bv32)
    requires m != 0 && (request & !granted) & m == m
    ensures Meets(request, m) && !Meets(granted, m)
  {
  }

  function LowestBit(x: bv32): (m: bv32)
    requires x != 0
    ensures OneBit(m) && x & m == m && m != 0
  {
    NotZero(x);
    LowestIsOne(x);
    LowestIsIn(x);
    x & (0 - x)
  }

  lemma NotZero(x: bv32)
    requires x != 0
    ensures x & (0 - x) != 0
  {
  }

  lemma LowestIsOne(x: bv32)
    ensures (x & (0 - x)) & ((x & (0 - x)) - 1) == 0
  {
  }

  lemma LowestIsIn(x: bv32)
    ensures x & (x & (0 - x)) == x & (0 - x)
  {
  }

  /** An entry of this type, not inherit-only, that names the caller and meets the mask. */
  predicate Acts(a: Ace, kind: nat, c: Cred, m: bv32) {
    a.kind == kind && !Has(a.flags, 0x08) && NamesCaller(a, c) && Meets(a.mask, m)
  }

  ghost predicate SomeActs(aces: seq<Ace>, kind: nat, c: Cred, m: bv32) {
    exists a :: a in aces && Acts(a, kind, c, m)
  }

  /** What the verdict says, bit by bit: no entry of type 1, deny, acts on the request, and on
      every bit asked for an entry of type 0, allow, does. */
  lemma VerdictMeans(aces: seq<Ace>, c: Cred, request: bv32)
    ensures Verdict(aces, c, request) <==>
              !SomeActs(aces, 1, c, request) && forall m: bv32 {:trigger OneBit(m)} :: OneBit(m) && Meets(request, m) ==> SomeActs(aces, 0, c, m)
  {
    hide Granted, Within, OneBit, Acts, Denies, Meets;
    BitWithin(request, Granted(aces, c));
    forall a: Ace ensures Denies(a, c, request) <==> Acts(a, 1, c, request) { SameRefusal(a, c, request); }
    forall m: bv32 ensures Meets(Granted(aces, c), m) <==> SomeActs(aces, 0, c, m) { GrantedBy(aces, c, m); }
  }

  lemma SameRefusal(a: Ace, c: Cred, request: bv32)
    ensures Denies(a, c, request) <==> Acts(a, 1, c, request)
  {
    hide Meets, Has;
  }

  lemma GrantedBy(aces: seq<Ace>, c: Cred, m: bv32)
    ensures Meets(Granted(aces, c), m) <==> SomeActs(aces, 0, c, m)
  {
    hide Granted, Meets, Has;
    GrantedMeets(aces, c, m);
    NoMeet(m);
    forall a: Ace ensures Meets(AllowMask(a, c), m) <==> Acts(a, 0, c, m) { }
  }

  lemma NoMeet(m: bv32)
    ensures !Meets(0, m)
  {
  }

  /** The two passes over the list: deny entries first, then the union of the allows. */
  method CheckAces(aces: seq<Ace>, c: Cred, request: bv32) returns (ok: bool)
    ensures ok <==> Verdict(aces, c, request)
  {
    hide Or, Meets, Within, Has, IdMatches;
    var i := 0;
    while i < |aces|
      invariant 0 <= i <= |aces|
      invariant forall k :: 0 <= k < i ==> !Denies(aces[k], c, request)
    {
      if !Has(aces[i].flags, FLAG_INHERIT_ONLY) && aces[i].kind == DENY && IdMatches(aces[i], c) {
        if Meets(aces[i].mask, request) {
          assert Denies(aces[i], c, request);
          return false;
        }
      }
      i := i + 1;
    }
    var granted: bv32 := 0;
    i := 0;
    while i < |aces|
      invariant 0 <= i <= |aces|
      invariant granted == Granted(aces[..i], c)
    {
      assert aces[..i + 1][..i] == aces[..i];
      if !Has(aces[i].flags, FLAG_INHERIT_ONLY) && aces[i].kind == ALLOW && IdMatches(aces[i], c) {
        granted := Or(granted, aces[i].mask);
      } else {
        OrZero(granted);
      }
      i := i + 1;
    }
    assert aces[..i] == aces;
    ok := Within(request, granted);
  }

  // ----------------------------------------------------------------------------------
  // The UNIX mode, used only when there is no list

  /** One class of permission bits, as a mask of requests it allows. */
  function ClassMask(r: bool, w: bool, x: bool): bv32 {
    (if r then READ_DATA else 0) | (if w then WRITE_DATA | APPEND_DATA else 0) | (if x then EXECUTE else 0)
  }

  function ModeMask(mode: bv16, uid: nat, gid: nat, c: Cred): bv32 {
    if c.uid == uid then ClassMask(mode & 0x100 != 0, mode & 0x80 != 0, mode & 0x40 != 0)
    else if c.gid == gid then ClassMask(mode & 0x20 != 0, mode & 0x10 != 0, mode & 0x08 != 0)
    else ClassMask(mode & 0x04 != 0, mode & 0x02 != 0, mode & 0x01 != 0)
  }

  /** The three bits of the class of the caller decide: reading by the first, writing and
      appending by the second, executing by the third; nothing else is ever allowed. */
  lemma ModeMeans(mode: bv16, uid: nat, gid: nat, c: Cred, request: bv32)
    ensures Within(request, ModeMask(mode, uid, gid, c)) <==>
              var rwx := if c.uid == uid then mode >> 6 else if c.gid == gid then mode >> 3 else mode;
              request & 0xFFFF_FFE8 == 0 && (request & 0x01 != 0 ==> rwx & 4 != 0) && (request & 0x06 != 0 ==> rwx & 2 != 0) &&
              (request & 0x10 != 0 ==> rwx & 1 != 0)
  {
    hide ClassMask, Within;
    ModeBits(mode);
    ClassMeans(mode & 0x100 != 0, mode & 0x80 != 0, mode & 0x40 != 0, request);
    ClassMeans(mode & 0x20 != 0, mode & 0x10 != 0, mode & 0x08 != 0, request);
    ClassMeans(mode & 0x04 != 0, mode & 0x02 != 0, mode & 0x01 != 0, request);
  }

  lemma ModeBits(mode: bv16)
    ensures (mode & 0x100 != 0 <==> (mode >> 6) & 4 != 0) && (mode & 0x80 != 0 <==> (mode >> 6) & 2 != 0) && (mode & 0x40 != 0 <==> (mode >> 6) & 1 != 0)
    ensures (mode & 0x20 != 0 <==> (mode >> 3) & 4 != 0) && (mode & 0x10 != 0 <==> (mode >> 3) & 2 != 0) && (mode & 0x08 != 0 <==> (mode >> 3) & 1 != 0)
  {
  }

  lemma ClassMeans(r: bool, w: bool, x: bool, request: bv32)
    ensures Within(request, ClassMask(r, w, x)) <==>
              request & 0xFFFF_FFE8 == 0 && (request & 0x01 != 0 ==> r) && (request & 0x06 != 0 ==> w) && (request & 0x10 != 0 ==> x)
  {
  }

  // ----------------------------------------------------------------------------------
  // Inheritance

  function NeedFlag(isDir: bool): bv8 {
    if isDir then FLAG_INHERIT_DIR else FLAG_INHERIT_FILE
  }

  /** The copy a child gets: effective on the child itself, and cut off from further
      inheritance when the entry said so. */
  function Adjusted(a: Ace): Ace {
    var f := a.flags & !FLAG_INHERIT_ONLY;
    a.(flags := if a.flags & FLAG_NO_PROPAGATE != 0
                then f & !(FLAG_INHERIT_FILE | FLAG_INHERIT_DIR | FLAG_NO_PROPAGATE) else f)
  }

  /** The list a new child receives from its parent's list. */
  function Inherited(aces: seq<Ace>, isDir: bool): (r: seq<Ace>)
    ensures |r| <= |aces|
    ensures forall i :: 0 <= i < |r| ==> r[i].flags & FLAG_INHERIT_ONLY == 0
    ensures (forall i :: 0 <= i < |aces| ==> AceFits(aces[i])) ==> forall i :: 0 <= i < |r| ==> AceFits(r[i])
  {
    if |aces| == 0 then [] else
      var last := aces[|aces| - 1];
      var r := Inherited(aces[..|aces| - 1], isDir);
      if last.flags & NeedFlag(isDir) == 0 then r else
        (AdjustedClears(last);
         r + [Adjusted(last)])
  }

  lemma AdjustedClears(a: Ace)
    ensures Adjusted(a).flags & FLAG_INHERIT_ONLY == 0
    ensures a.flags & FLAG_NO_PROPAGATE != 0 ==>
              Adjusted(a).flags & FLAG_INHERIT_DIR == 0 && Adjusted(a).flags & FLAG_INHERIT_FILE == 0
    ensures a.flags & FLAG_NO_PROPAGATE == 0 ==>
              Adjusted(a).flags & FLAG_INHERIT_DIR == a.flags & FLAG_INHERIT_DIR && Adjusted(Adjusted(a)) == Adjusted(a)
    ensures Adjusted(a).flags & FLAG_NO_PROPAGATE == 0
  {
  }

  /** The lists of directories nested `depth` levels below one with list `aces`. */
  function Nested(aces: seq<Ace>, depth: nat): seq<Ace> {
    if depth == 0 then aces else Inherited(Nested(aces, depth - 1), true)
  }

  predicate Settled(a: Ace) {
    a.flags & FLAG_INHERIT_ONLY == 0 && a.flags & FLAG_NO_PROPAGATE == 0
  }

  lemma {:induction false} InheritedSettled(aces: seq<Ace>)
    ensures forall i :: 0 <= i < |Inherited(aces, true)| ==> Settled(Inherited(aces, true)[i])
  {
    if |aces| != 0 {
      InheritedSettled(aces[..|aces| - 1]);
      AdjustedClears(aces[|aces| - 1]);
    }
  }

  /** A list whose entries have settled passes on exactly its directory entries. */
  lemma {:induction false} SettledTwice(aces: seq<Ace>)
    requires forall i :: 0 <= i < |aces| ==> Settled(aces[i])
    ensures Inherited(Inherited(aces, true), true) == Inherited(aces, true)
  {
    if |aces| != 0 {
      var init, last := aces[..|aces| - 1], aces[|aces| - 1];
      SettledTwice(init);
      if last.flags & FLAG_INHERIT_DIR != 0 {
        AdjustedClears(last);
        assert Settled(aces[|aces| - 1]);
        assert Inherited(aces, true)[..|Inherited(init, true)|] == Inherited(init, true);
      }
    }
  }

  /** From the second level of nesting on, the list no longer changes, at any depth. */
  lemma {:induction false} NestingStable(aces: seq<Ace>, depth: nat)
    requires depth >= 2
    ensures Nested(aces, depth) == Nested(aces, 2)
  {
    if depth > 2 {
      NestingStable(aces, depth - 1);
      var one := Nested(aces, 1);
      assert one == Inherited(Nested(aces, 0), true);
      InheritedSettled(aces);
      SettledTwice(one);
      assert Nested(aces, 2) == Inherited(one, true);
    }
  }

  predicate Marked(a: Ace) {
    a.flags & FLAG_NO_PROPAGATE != 0
  }

  /** The entries that may go further than one level. */
  function Lasting(aces: seq<Ace>): seq<Ace> {
    if |aces| == 0 then [] else
      var last := aces[|aces| - 1];
      if Marked(last) then Lasting(aces[..|aces| - 1]) else Lasting(aces[..|aces| - 1]) + [last]
  }

  lemma LastingNone()
    ensures Lasting([]) == []
  {
  }

  lemma LastingStep(aces: seq<Ace>, a: Ace)
    ensures Lasting(aces + [a]) == if Marked(a) then Lasting(aces) else Lasting(aces) + [a]
  {
    var all := aces + [a];
    assert all[..|all| - 1] == aces && all[|all| - 1] == a;
  }

  lemma InheritedStep(aces: seq<Ace>, a: Ace, isDir: bool)
    ensures Inherited(aces + [a], isDir) == Inherited(aces, isDir) + (if a.flags & NeedFlag(isDir) == 0 then [] else [Adjusted(a)])
  {
    var all := aces + [a];
    assert all[..|all| - 1] == aces && all[|all| - 1] == a;
  }

  /** What one entry gives to the second level. */
  function Twice(a: Ace, isDir: bool): seq<Ace> {
    if a.flags & FLAG_INHERIT_DIR == 0 || Adjusted(a).flags & NeedFlag(isDir) == 0 then [] else [Adjusted(Adjusted(a))]
  }

  lemma MarkedOnce(a: Ace, isDir: bool)
    ensures Marked(a) ==> Twice(a, isDir) == []
  {
    AdjustedClears(a);
  }

  lemma TwoSteps(aces: seq<Ace>, a: Ace, isDir: bool)
    ensures Inherited(Inherited(aces + [a], true), isDir) == Inherited(Inherited(aces, true), isDir) + Twice(a, isDir)
  {
    hide Inherited, Adjusted;
    var one := Inherited(aces, true);
    InheritedStep(aces, a, true);
    InheritedStep(one, Adjusted(a), isDir);
    assert one + [] == one && Inherited(one, isDir) + [] == Inherited(one, isDir);
  }

  /** An entry marked no-propagate reaches one level and no deeper, whatever else is in the
      list: from the second level on, files and directories get what they would get if the
      marked entries had never been there. */
  lemma {:induction false} NoPropagate(aces: seq<Ace>, isDir: bool)
    ensures Inherited(Inherited(aces, true), isDir) == Inherited(Inherited(Lasting(aces), true), isDir)
  {
    hide Inherited, Twice, Lasting, Marked;
    if |aces| == 0 {
      LastingNone();
    } else {
      var init, last := aces[..|aces| - 1], aces[|aces| - 1];
      assert aces == init + [last];
      NoPropagate(init, isDir);
      LastingStep(init, last);
      TwoSteps(init, last, isDir);
      TwoSteps(Lasting(init), last, isDir);
      MarkedOnce(last, isDir);
    }
  }

  /** The same at any depth. */
  lemma {:induction false} NoPropagateNested(aces: seq<Ace>, depth: nat)
    requires depth >= 2
    ensures Nested(aces, depth) == Nested(Lasting(aces), depth)
  {
    if depth == 2 {
      assert Nested(aces, 1) == Inherited(Nested(aces, 0), true) && Nested(Lasting(aces), 1) == Inherited(Nested(Lasting(aces), 0), true);
      NoPropagate(aces, true);
    } else {
      NoPropagateNested(aces, depth - 1);
    }
  }

  /** An entry that goes to children of this kind. */
  predicate Inheritable(a: Ace, isDir: bool) { Has(a.flags, if isDir then 0x04 else 0x02) }

  /** The child's copy of an entry: all of it, but that it is not inherit-only, and goes no
      further if the entry said so. */
  predicate Copied(a: Ace, b: Ace) {
    b.id == a.id && b.mask == a.mask && b.kind == a.kind && b.flags == if Has(a.flags, 0x10) then a.flags & 0xE1 else a.flags & 0xF7
  }

  /** The list `r` consists of copies of the inheritable entries of `aces`, the ones at `js`,
      all of them and in their order. */
  ghost predicate CopiedFrom(aces: seq<Ace>, isDir: bool, js: seq<nat>, r: seq<Ace>) {
    |js| == |r| && (forall k, l :: 0 <= k < l < |js| ==> js[k] < js[l]) &&
    (forall i {:trigger i in js} :: 0 <= i < |aces| ==> (i in js <==> Inheritable(aces[i], isDir))) &&
    forall k :: 0 <= k < |js| ==> js[k] < |aces| && Copied(aces[js[k]], r[k])
  }

  lemma {:induction false} ChildList(aces: seq<Ace>, isDir: bool) returns (js: seq<nat>)
    ensures CopiedFrom(aces, isDir, js, Inherited(aces, isDir))
  {
    hide Adjusted, Copied;
    js := [];
    if |aces| != 0 {
      var n := |aces| - 1;
      js := ChildList(aces[..n], isDir);
      SameNeed(aces[n], isDir);
      if Inheritable(aces[n], isDir) {
        AdjustedCopies(aces[n]);
        js := js + [n];
      }
    }
  }

  lemma SameNeed(a: Ace, isDir: bool)
    ensures Inheritable(a, isDir) <==> a.flags & NeedFlag(isDir) != 0
  {
  }

  lemma AdjustedCopies(a: Ace)
    ensures Copied(a, Adjusted(a))
  {
  }

  lemma CopyActs(a: Ace, b: Ace, kind: nat, c: Cred, m: bv32)
    requires Copied(a, b)
    ensures Acts(b, kind, c, m) <==> a.kind == kind && NamesCaller(a, c) && Meets(a.mask, m)
  {
    hide Meets, Has;
    CopyFlags(a.flags);
  }

  lemma CopyFlags(f: bv8)
    ensures Has(f & 0xE1, 0x01) == Has(f, 0x01) && Has(f & 0xF7, 0x01) == Has(f, 0x01)
    ensures !Has(f & 0xE1, 0x08) && !Has(f & 0xF7, 0x08)
  {
  }

  /** An inheritable entry of this type, inherit-only or not, names the caller and meets the
      mask. */
  ghost predicate SomeInheritable(aces: seq<Ace>, isDir: bool, kind: nat, c: Cred, m: bv32) {
    exists a :: a in aces && Inheritable(a, isDir) && a.kind == kind && NamesCaller(a, c) && Meets(a.mask, m)
  }

  /** Access to a child that got its list from `aces`: refused if an inheritable deny entry names
      the caller and meets the request, and else granted exactly if every bit asked for is in an
      inheritable allow entry that names the caller. */
  lemma ChildVerdict(aces: seq<Ace>, isDir: bool, c: Cred, request: bv32)
    ensures Verdict(Inherited(aces, isDir), c, request) <==>
              !SomeInheritable(aces, isDir, 1, c, request) &&
              forall m: bv32 {:trigger OneBit(m)} :: OneBit(m) && Meets(request, m) ==> SomeInheritable(aces, isDir, 0, c, m)
  {
    hide Verdict, Inherited, OneBit, Meets, SomeActs, SomeInheritable, CopiedFrom;
    var r := Inherited(aces, isDir);
    var js := ChildList(aces, isDir);
    VerdictMeans(r, c, request);
    OnChild(aces, isDir, js, r, 1, c, request);
    forall m: bv32 ensures SomeActs(r, 0, c, m) <==> SomeInheritable(aces, isDir, 0, c, m) { OnChild(aces, isDir, js, r, 0, c, m); }
  }

  lemma OnChild(aces: seq<Ace>, isDir: bool, js: seq<nat>, r: seq<Ace>, kind: nat, c: Cred, m: bv32)
    requires CopiedFrom(aces, isDir, js, r)
    ensures SomeActs(r, kind, c, m) <==> SomeInheritable(aces, isDir, kind, c, m)
  {
    hide Meets, Inheritable, NamesCaller, Copied, Acts;
    forall k | 0 <= k < |r|
      ensures Acts(r[k], kind, c, m) <==> aces[js[k]].kind == kind && NamesCaller(aces[js[k]], c) && Meets(aces[js[k]].mask, m)
      ensures Inheritable(aces[js[k]], isDir)
    {
      CopyActs(aces[js[k]], r[k], kind, c, m);
      assert js[k] in js;
    }
    forall a | a in aces && Inheritable(a, isDir) ensures exists k :: 0 <= k < |r| && aces[js[k]] == a {
      var i :| 0 <= i < |aces| && aces[i] == a;
      assert i in js;
    }
  }

  /** The filtering loop. */
  method InheritList(aces: seq<Ace>, isDir: bool) returns (r: seq<Ace>)
    requires |aces| <= MAX_ACES
    ensures r == Inherited(aces, isDir) && exists js :: CopiedFrom(aces, isDir, js, r)
  {
    hide Inheritable, CopiedFrom, Copied;
    ghost var js := ChildList(aces, isDir);
    r := [];
    var i := 0;
    while i < |aces|
      invariant 0 <= i <= |aces|
      invariant r == Inherited(aces[..i], isDir)
    {
      assert aces[..i + 1][..i] == aces[..i];
      if aces[i].flags & NeedFlag(isDir) != 0 {
        var f := aces[i].flags & !FLAG_INHERIT_ONLY;
        if aces[i].flags & FLAG_NO_PROPAGATE != 0 {
          f := f & !(FLAG_INHERIT_FILE | FLAG_INHERIT_DIR | FLAG_NO_PROPAGATE);
        }
        r := r + [aces[i].(flags := f)];
      }
      i := i + 1;
    }
    assert aces[..i] == aces;
  }

  // ----------------------------------------------------------------------------------
  // Entries on disk

  function AceBytes(a: Ace): (r: seq<Byte>)
    ensures |r| == ACE_SIZE
  {
    Enc(a.id, 4) + Enc(a.mask as nat, 4) + Enc(a.kind, 1) + Enc(a.flags as nat, 1) + Enc(0, 2)
  }

  function ParseAce(b: seq<Byte>): Ace
    requires |b| == ACE_SIZE
  {
    Widths();
    EncDec(b[4..8]);
    EncDec(b[9..10]);
    Ace(Field(b, 0, 4), Field(b, 4, 4) as bv32, Field(b, 8, 1), Field(b, 9, 1) as bv8)
  }

  lemma AceRoundTrip(a: Ace)
    requires AceFits(a)
    ensures ParseAce(AceBytes(a)) == a
  {
    hide Dec, Enc;
    Widths();
    var b := AceBytes(a);
    assert b[0..ACE_SIZE] == b;
    FieldOfPart(b, 0, b, 0, 4, a.id);
    FieldOfPart(b, 0, b, 4, 4, a.mask as nat);
    FieldOfPart(b, 0, b, 8, 1, a.kind);
    FieldOfPart(b, 0, b, 9, 1, a.flags as nat);
  }

  /** Where the fields of a stored entry are. */
  lemma AceLayout(a: Ace)
    requires AceFits(a)
    ensures var b := AceBytes(a);
            Field(b, 0, 4) == a.id && Field(b, 4, 4) == a.mask as nat && Field(b, 8, 1) == a.kind && Field(b, 9, 1) == a.flags as nat &&
            Field(b, 10, 2) == 0
  {
    hide Dec, Enc;
    Widths();
    var b := AceBytes(a);
    assert b[0..ACE_SIZE] == b;
    FieldOfPart(b, 0, b, 0, 4, a.id);
    FieldOfPart(b, 0, b, 4, 4, a.mask as nat);
    FieldOfPart(b, 0, b, 8, 1, a.kind);
    FieldOfPart(b, 0, b, 9, 1, a.flags as nat);
    FieldOfPart(b, 0, b, 10, 2, 0);
  }

  /** A list of entries, back to back. */
  function ListBytes(aces: seq<Ace>): (r: seq<Byte>)
    ensures |r| == ACE_SIZE * |aces|
  {
    if |aces| == 0 then [] else ListBytes(aces[..|aces| - 1]) + AceBytes(aces[|aces| - 1])
  }

  function ParseList(b: seq<Byte>, n: nat): (r: seq<Ace>)
    requires ACE_SIZE * n <= |b|
    ensures |r| == n
  {
    if n == 0 then [] else ParseList(b, n - 1) + [ParseAce(b[ACE_SIZE * (n - 1)..ACE_SIZE * n])]
  }

  /** Whatever follows in the block, reading back a stored list gives the list. */
  lemma {:induction false} ListRoundTrip(aces: seq<Ace>, b: seq<Byte>)
    requires forall i :: 0 <= i < |aces| ==> AceFits(aces[i])
    requires ACE_SIZE * |aces| <= |b| && b[..ACE_SIZE * |aces|] == ListBytes(aces)
    ensures ParseList(b, |aces|) == aces
  {
    hide AceBytes, ParseAce;
    if |aces| != 0 {
      var init, last := aces[..|aces| - 1], aces[|aces| - 1];
      var k, m := ACE_SIZE * |init|, ACE_SIZE * |aces|;
      TakeTake(b, m, k);
      ListRoundTrip(init, b);
      assert b[k..m] == AceBytes(last);
      assert AceFits(aces[|aces| - 1]);
      AceRoundTrip(last);
    }
  }
}
