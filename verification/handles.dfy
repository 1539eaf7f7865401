/** Handle tables: values tagged with the generation of their slot, rights that only
    shrink when a handle is duplicated. */
module Handles {
  import opened Results
  import opened Bytes

  const MAX_HANDLES: nat := 32
  const RIGHTS_ALL: bv32 := 0x1F
  const RIGHT_DUP: bv32 := 0x10
  const GENERATIONS: nat := U32_LIMIT

  predicate Subset(a: bv32, b: bv32) { a & b == a }
  function Both(a: bv32, b: bv32): bv32 { a & b }

  lemma BothSubset(a: bv32, b: bv32)
    ensures Subset(Both(a, b), a) && Subset(Both(a, b), b)
  {
  }

  lemma KnownRights(a: bv32, mask: bv32)
    requires Both(mask, RIGHTS_ALL) == mask
    ensures Both(Both(a, mask), RIGHTS_ALL) == Both(a, mask)
  {
    assert (a & mask) & RIGHTS_ALL == a & (mask & RIGHTS_ALL);
  }

  lemma SubsetTrans(a: bv32, b: bv32, c: bv32)
    requires Subset(a, b) && Subset(b, c)
    ensures Subset(a, c)
  {
    assert a & c == (a & b) & c == a & (b & c) == a & b == a;
  }

  /** A slot: what it stands for, if open. */
  datatype Slot = Slot(open: bool, rights: bv32, generation: nat, obj: nat)

  /** A slot's whole history: how often it was closed, the objects it has stood for in each
      of its lives, and the rights each handle of the current lineage was given, from the
      original to this one. */
  datatype Past = Past(closes: nat, objs: seq<nat>, lineage: seq<bv32>)

  /** Each is a part of the one before. */
  ghost predicate Shrinking(l: seq<bv32>) {
    forall i :: 0 < i < |l| ==> Subset(l[i], l[i - 1])
  }

  function Value(index: nat, generation: nat): nat {
    generation * U32_LIMIT + index
  }

  /** The handle issued for slot `i` after it had been closed `closes` times. */
  function Issued(i: nat, closes: nat): nat {
    Value(i, closes % GENERATIONS)
  }

  ghost predicate SlotOk(s: Slot, p: Past) {
    s.generation == p.closes % GENERATIONS && |p.objs| == p.closes + (if s.open then 1 else 0) &&
    (s.open ==> p.objs[p.closes] == s.obj) &&
    (s.open ==> p.lineage != [] && p.lineage[|p.lineage| - 1] == s.rights && Shrinking(p.lineage))
  }

  ghost predicate TableOk(slots: seq<Slot>, past: seq<Past>) {
    |slots| == MAX_HANDLES && |past| == MAX_HANDLES && forall i {:trigger SlotOk(slots[i], past[i])} :: 0 <= i < MAX_HANDLES ==> SlotOk(slots[i], past[i])
  }

  /** History is never rewritten. */
  ghost predicate Longer(a: seq<Past>, b: seq<Past>) {
    |a| == |b| && forall i {:trigger b[i]} :: 0 <= i < |a| ==> a[i].closes <= b[i].closes && a[i].objs <= b[i].objs
  }

  /** Whether a handle value names an open slot of its generation. */
  predicate Names(slots: seq<Slot>, h: nat, i: nat) {
    i == h % U32_LIMIT && i < |slots| && slots[i].open && slots[i].generation == h / U32_LIMIT % U32_LIMIT
  }

  class HandleTable {
    var slots: seq<Slot>
    ghost var past: seq<Past>

    ghost predicate Valid()
      reads this
    {
      TableOk(slots, past)
    }

    constructor ()
      ensures Valid() && forall i :: 0 <= i < |slots| ==> !slots[i].open && past[i].closes == 0
    {
      slots := seq(MAX_HANDLES, _ => Slot(false, 0, 0, 0));
      past := seq(MAX_HANDLES, _ => Past(0, [], []));
    }

    /** Takes the first free slot; its generation stays. `from` is the lineage continued. */
    method Alloc(rights: bv32, obj: nat, ghost from: seq<bv32>) returns (status: Status, h: nat, i: nat)
      requires Valid() && Shrinking(from) && (from != [] ==> Subset(rights, from[|from| - 1]))
      modifies this
      ensures Valid() && |old(slots)| == |slots|
      ensures status == if exists k :: 0 <= k < |old(slots)| && !old(slots)[k].open then Ok else OutOfMemory
      ensures status != Ok ==> slots == old(slots) && past == old(past)
      ensures status == Ok ==> i < |slots| && !old(slots)[i].open && h == Issued(i, past[i].closes) && Names(slots, h, i)
      ensures status == Ok ==> forall k :: 0 <= k < i ==> old(slots)[k].open
      ensures status == Ok ==> slots == old(slots)[i := Slot(true, Both(rights, RIGHTS_ALL), old(slots)[i].generation, obj)]
      ensures status == Ok ==> past == old(past)[i := Past(old(past)[i].closes, old(past)[i].objs + [obj], from + [Both(rights, RIGHTS_ALL)])]
    {
      h, i := 0, 0;
      while i < MAX_HANDLES
        invariant 0 <= i <= MAX_HANDLES && forall k :: 0 <= k < i ==> slots[k].open
      {
        if !slots[i].open {
          assert SlotOk(slots[i], past[i]);
          var given := Both(rights, RIGHTS_ALL);
          Extends(from, rights, given);
          slots := slots[i := Slot(true, given, slots[i].generation, obj)];
          past := past[i := Past(past[i].closes, past[i].objs + [obj], from + [given])];
          h := Value(i, slots[i].generation);
          ValueParts(i, slots[i].generation);
          forall k | 0 <= k < MAX_HANDLES ensures SlotOk(slots[k], past[k]) { assert SlotOk(old(slots)[k], old(past)[k]); }
          return Ok, h, i;
        }
        i := i + 1;
      }
      status := OutOfMemory;
    }

    static lemma Extends(from: seq<bv32>, rights: bv32, given: bv32)
      requires Shrinking(from) && (from != [] ==> Subset(rights, from[|from| - 1])) && given == Both(rights, RIGHTS_ALL)
      ensures Shrinking(from + [given])
    {
      BothSubset(rights, RIGHTS_ALL);
      if from != [] { SubsetTrans(given, rights, from[|from| - 1]); }
    }

    static lemma ValueParts(i: nat, g: nat)
      requires i < U32_LIMIT && g < U32_LIMIT
      ensures Value(i, g) % U32_LIMIT == i && Value(i, g) / U32_LIMIT == g
    {
    }

    /** Checks a handle value: index, generation, rights. */
    method Lookup(h: nat, required: bv32) returns (status: Status, i: nat)
      requires Valid() && h < U64_LIMIT
      ensures status == if !Names(slots, h, h % U32_LIMIT) then InvalidArg
                        else if !Subset(required, slots[h % U32_LIMIT].rights) then Permission else Ok
      ensures status == Ok ==> i < |slots| && Names(slots, h, i)
    {
      i := h % U32_LIMIT;
      var generation := h / U32_LIMIT;
      if i >= MAX_HANDLES {
        return InvalidArg, 0;
      }
      if !slots[i].open || slots[i].generation != generation {
        return InvalidArg, 0;
      }
      if !Subset(required, slots[i].rights) {
        return Permission, 0;
      }
      status := Ok;
    }

    /** Empties a slot and moves its generation on, in 32-bit arithmetic. */
    method Discard(i: nat)
      requires Valid() && i < |slots| && slots[i].open
      modifies this
      ensures Valid() && slots == old(slots)[i := slots[i]] && !slots[i].open
      ensures past == old(past)[i := Past(old(past)[i].closes + 1, old(past)[i].objs, old(past)[i].lineage)]
    {
      assert SlotOk(slots[i], past[i]);
      slots := slots[i := Slot(false, 0, (slots[i].generation + 1) % GENERATIONS, 0)];
      past := past[i := Past(past[i].closes + 1, past[i].objs, past[i].lineage)];
      NextGeneration(past[i].closes - 1);
      forall k | 0 <= k < MAX_HANDLES ensures SlotOk(slots[k], past[k]) { assert SlotOk(old(slots)[k], old(past)[k]); }
    }

    static lemma NextGeneration(n: nat)
      ensures (n + 1) % GENERATIONS == (n % GENERATIONS + 1) % GENERATIONS
    {
    }

    /** Closes a handle; its value stops being valid. */
    method Close(h: nat) returns (status: Status)
      requires Valid() && h < U64_LIMIT
      modifies this
      ensures Valid() && status == if Names(old(slots), h, h % U32_LIMIT) then Ok else InvalidArg
      ensures status != Ok ==> slots == old(slots) && past == old(past)
      ensures status == Ok ==> var i := h % U32_LIMIT;
                i < |old(slots)| && |slots| == |old(slots)| && slots == old(slots)[i := slots[i]] && !slots[i].open && past[i].closes == old(past)[i].closes + 1 &&
                past == old(past)[i := past[i]] && past[i].objs == old(past)[i].objs
    {
      var i;
      NoneRequired();
      status, i := Lookup(h, 0);
      if status == Ok {
        Discard(i);
      }
    }

    static lemma NoneRequired()
      ensures forall r :: Subset(0, r)
    {
    }

    /** Duplicates a handle with at most the rights in `mask`; `reopen` is the answer to
        opening the file again. */
    method Duplicate(h: nat, mask: bv32, reopen: Status) returns (status: Status, h': nat, i: nat, i': nat)
      requires Valid() && h < U64_LIMIT
      modifies this
      ensures Valid() && |slots| == |old(slots)|
      ensures status == if Both(mask, RIGHTS_ALL) != mask || !Names(old(slots), h, h % U32_LIMIT) then InvalidArg
                        else if !Subset(RIGHT_DUP, old(slots)[h % U32_LIMIT].rights) then Permission
                        else if forall k :: 0 <= k < |old(slots)| ==> old(slots)[k].open then OutOfMemory
                        else reopen
      ensures status != Ok ==> forall k :: 0 <= k < |slots| && old(slots)[k].open ==> slots[k] == old(slots)[k] && past[k] == old(past)[k]
      ensures Longer(old(past), past)
      ensures status == Ok ==> Names(old(slots), h, i) && i < |slots| && i' < |slots| && i' != i && !old(slots)[i'].open && h' == Issued(i', past[i'].closes) && Names(slots, h', i')
      ensures status == Ok ==> forall k :: 0 <= k < i' ==> old(slots)[k].open
      ensures status == Ok ==> slots == old(slots)[i' := slots[i']] && past == old(past)[i' := past[i']] && past[i'].closes == old(past)[i'].closes
      ensures status == Ok ==> slots[i'].obj == slots[i].obj && slots[i'].rights == Both(slots[i].rights, mask) && Subset(slots[i'].rights, slots[i].rights)
      ensures status == Ok ==>
                past[i'] == Past(old(past)[i'].closes, old(past)[i'].objs + [slots[i].obj], old(past)[i].lineage + [slots[i'].rights])
    {
      h', i, i' := 0, 0, 0;
      if Both(mask, RIGHTS_ALL) != mask {
        return InvalidArg, 0, 0, 0;
      }
      status, i := Lookup(h, RIGHT_DUP);
      if status != Ok {
        return;
      }
      assert SlotOk(slots[i], past[i]);
      var rights := Both(slots[i].rights, mask);
      BothSubset(slots[i].rights, mask);
      KnownRights(slots[i].rights, mask);
      status, h', i' := Alloc(rights, slots[i].obj, past[i].lineage);
      if status != Ok {
        return;
      }
      if reopen != Ok {
        Discard(i');
        return reopen, 0, 0, 0;
      }
    }
  }

  // ----------------------------------------------------------------------------------
  // Over any run

  datatype Op = New(rights: bv32, obj: nat) | Dup(h: nat, mask: bv32, reopen: Status) | Close(h: nat)

  /** What an operation answered, and the handle it issued if it did. */
  datatype Result = Result(status: Status, h: nat)

  /** A table with its history. */
  datatype Table = Table(slots: seq<Slot>, past: seq<Past>)

  predicate Issues(op: Op, r: Result) {
    !op.Close? && r.status == Ok
  }

  predicate Closes(op: Op, r: Result, h: nat) {
    op == Close(h) && r.status == Ok
  }

  /** Handle `h` of slot `i` was issued for this object with these rights, the last of its
      lineage. */
  ghost predicate Opened(a: Table, b: Table, h: nat, i: nat, rights: bv32, obj: nat, from: seq<bv32>) {
    i < |a.slots| && |b.slots| == |a.slots| == |a.past| == |b.past| && !a.slots[i].open && Names(b.slots, h, i) && (forall k :: 0 <= k < i ==> a.slots[k].open) &&
    b.slots == a.slots[i := b.slots[i]] && b.slots[i].rights == rights && b.slots[i].obj == obj &&
    b.past == a.past[i := Past(a.past[i].closes, a.past[i].objs + [obj], from + [rights])] && h == Issued(i, b.past[i].closes)
  }

  /** What was open is as it was. */
  ghost predicate KeepsOpen(a: Table, b: Table) {
    |b.slots| == |a.slots| == |a.past| == |b.past| &&
    forall k :: 0 <= k < |a.slots| && a.slots[k].open ==> b.slots[k] == a.slots[k] && b.past[k] == a.past[k]
  }

  /** One operation, with its answer. */
  ghost predicate HandleStep(a: Table, op: Op, r: Result, b: Table) {
    TableOk(a.slots, a.past) && TableOk(b.slots, b.past) && Longer(a.past, b.past) &&
    match op
    case New(rights, obj) =>
      if exists k :: 0 <= k < |a.slots| && !a.slots[k].open
      then r.status == Ok && Opened(a, b, r.h, r.h % U32_LIMIT, Both(rights, RIGHTS_ALL), obj, [])
      else r.status == OutOfMemory && b == a
    case Dup(h, mask, reopen) =>
      var i := h % U32_LIMIT;
      r.status == DupStatus(a.slots, h, mask, reopen) &&
      (if r.status == Ok then
         i < |a.slots| && i < |a.past| &&
         Opened(a, b, r.h, r.h % U32_LIMIT, Both(a.slots[i].rights, mask), a.slots[i].obj, a.past[i].lineage)
       else KeepsOpen(a, b))
    case Close(h) =>
      var i := h % U32_LIMIT;
      r.status == (if Names(a.slots, h, i) then Ok else InvalidArg) &&
      (if r.status == Ok then
         i < |a.slots| && |b.slots| == |a.slots| && b.slots == a.slots[i := b.slots[i]] && !b.slots[i].open &&
         b.past == a.past[i := b.past[i]] && b.past[i].closes == a.past[i].closes + 1
       else b == a)
  }

  function DupStatus(slots: seq<Slot>, h: nat, mask: bv32, reopen: Status): Status {
    if Both(mask, RIGHTS_ALL) != mask || !Names(slots, h, h % U32_LIMIT) then InvalidArg
    else if !Subset(RIGHT_DUP, slots[h % U32_LIMIT].rights) then Permission
    else if forall k :: 0 <= k < |slots| ==> slots[k].open then OutOfMemory
    else reopen
  }

  ghost predicate HandleRun(trace: seq<Table>, ops: seq<Op>, results: seq<Result>) {
    |trace| == |ops| + 1 && |results| == |ops| &&
    (forall k :: 0 <= k < |ops| && !ops[k].New? ==> ops[k].h < U64_LIMIT) &&
    forall k :: 0 <= k < |ops| ==> HandleStep(trace[k], ops[k], results[k], trace[k + 1])
  }

  /** Executes one operation. */
  method Step(t: HandleTable, op: Op) returns (r: Result)
    requires t.Valid() && (!op.New? ==> op.h < U64_LIMIT)
    modifies t
    ensures t.Valid() && HandleStep(old(Table(t.slots, t.past)), op, r, Table(t.slots, t.past))
  {
    match op {
      case New(rights, obj) =>
        var status, h, i := t.Alloc(rights, obj, []);
        r := Result(status, h);
      case Dup(h, mask, reopen) =>
        var status, h', i, i' := t.Duplicate(h, mask, reopen);
        r := Result(status, h');
      case Close(h) =>
        var status := t.Close(h);
        r := Result(status, 0);
    }
  }

  /** Any run of allocations, duplications and closes. */
  method Run(t: HandleTable, ops: seq<Op>) returns (results: seq<Result>, ghost trace: seq<Table>)
    requires t.Valid() && forall k :: 0 <= k < |ops| && !ops[k].New? ==> ops[k].h < U64_LIMIT
    modifies t
    ensures t.Valid() && HandleRun(trace, ops, results) && trace[0] == old(Table(t.slots, t.past)) && trace[|ops|] == Table(t.slots, t.past)
  {
    hide HandleStep;
    results, trace := [], [Table(t.slots, t.past)];
    while |results| < |ops|
      invariant |results| <= |ops| && t.Valid() && HandleRun(trace, ops[..|results|], results)
      invariant trace[0] == old(Table(t.slots, t.past)) && trace[|results|] == Table(t.slots, t.past)
    {
      var n := |results|;
      ghost var before, answered := trace, results;
      var r := Step(t, ops[n]);
      results, trace := results + [r], trace + [Table(t.slots, t.past)];
      assert ops[..n + 1] == ops[..n] + [ops[n]];
      forall k | 0 <= k < n + 1 ensures HandleStep(trace[k], ops[..n + 1][k], results[k], trace[k + 1]) {
        if k < n { assert trace[k] == before[k] && trace[k + 1] == before[k + 1] && results[k] == answered[k]; }
      }
    }
    assert ops[..|results|] == ops;
  }

  /** A handle that is in use stays as it is through any step that does not close it. */
  lemma StepKeeps(a: Table, op: Op, r: Result, b: Table, h: nat, i: nat)
    requires HandleStep(a, op, r, b) && Names(a.slots, h, i) && !Closes(op, r, h) && h < U64_LIMIT && (op.Close? ==> op.h < U64_LIMIT)
    ensures Names(b.slots, h, i) && b.slots[i] == a.slots[i] && i < |a.past| && i < |b.past| && b.past[i] == a.past[i]
  {
    if op.Close? && r.status == Ok && op.h % U32_LIMIT == i { SameHandle(h, op.h); }
  }

  lemma SameHandle(h: nat, g: nat)
    requires h < U64_LIMIT && g < U64_LIMIT && h % U32_LIMIT == g % U32_LIMIT && h / U32_LIMIT % U32_LIMIT == g / U32_LIMIT % U32_LIMIT
    ensures h == g
  {
    assert h / U32_LIMIT < U32_LIMIT && g / U32_LIMIT < U32_LIMIT;
  }

  /** A handle issued at step `k`, for the object of its slot then. */
  lemma IssuedAt(trace: seq<Table>, ops: seq<Op>, results: seq<Result>, k: nat)
    requires HandleRun(trace, ops, results) && k < |ops| && Issues(ops[k], results[k])
    ensures var h, b := results[k].h, trace[k + 1];
            var i := h % U32_LIMIT;
            h < U64_LIMIT && Names(b.slots, h, i) && i < |b.past| && h == Issued(i, b.past[i].closes)
    ensures ops[k].New? ==> trace[k + 1].slots[results[k].h % U32_LIMIT].obj == ops[k].obj
  {
    assert HandleStep(trace[k], ops[k], results[k], trace[k + 1]);
    var h, b := results[k].h, trace[k + 1];
    SmallHandle(h % U32_LIMIT, b.past[h % U32_LIMIT].closes);
  }

  lemma SmallHandle(i: nat, closes: nat)
    requires i < U32_LIMIT
    ensures Issued(i, closes) < U64_LIMIT
  {
  }

  /** End to end: a handle issued at step `k` and not closed by any later step up to `n` names
      its slot still, with the object and the rights it had. */
  lemma {:induction false} UnclosedResolves(trace: seq<Table>, ops: seq<Op>, results: seq<Result>, k: nat, n: nat)
    requires HandleRun(trace, ops, results) && k < n <= |ops| && Issues(ops[k], results[k])
    requires forall j :: k < j < n ==> !Closes(ops[j], results[j], results[k].h)
    ensures var h := results[k].h;
            var i := h % U32_LIMIT;
            Names(trace[n].slots, h, i) && Names(trace[k + 1].slots, h, i) && trace[n].slots[i] == trace[k + 1].slots[i] &&
            i < |trace[n].past| && i < |trace[k + 1].past| && trace[n].past[i] == trace[k + 1].past[i]
    decreases n
  {
    hide HandleStep;
    IssuedAt(trace, ops, results, k);
    if n > k + 1 {
      UnclosedResolves(trace, ops, results, k, n - 1);
      assert HandleStep(trace[n - 1], ops[n - 1], results[n - 1], trace[n - 1 + 1]);
      var h := results[k].h;
      StepKeeps(trace[n - 1], ops[n - 1], results[n - 1], trace[n], h, h % U32_LIMIT);
    }
  }

  /** End to end: once closed, by step `j`, it is refused at every later moment `n`, unless
      its slot is open and was closed a multiple of 2^32 times since it was issued. */
  lemma ClosedRefused(trace: seq<Table>, ops: seq<Op>, results: seq<Result>, k: nat, j: nat, n: nat)
    requires HandleRun(trace, ops, results) && k < j < n <= |ops| && Issues(ops[k], results[k]) && Closes(ops[j], results[j], results[k].h)
    ensures var h := results[k].h;
            var i := h % U32_LIMIT;
            i < |trace[n].slots| && i < |trace[n].past| && i < |trace[k + 1].past| &&
            var since := trace[n].past[i].closes - trace[k + 1].past[i].closes;
            since > 0 && (Names(trace[n].slots, h, i) <==> trace[n].slots[i].open && since % GENERATIONS == 0)
  {
    hide HandleStep;
    IssuedAt(trace, ops, results, k);
    var h := results[k].h;
    var i := h % U32_LIMIT;
    HistoryGrows(trace, ops, results, k + 1, j);
    HistoryGrows(trace, ops, results, j + 1, n);
    CloseCounts(trace, ops, results, j, h);
    StaleRefused(trace[n].slots, trace[n].past, i, trace[k + 1].past[i].closes);
  }

  lemma CloseCounts(trace: seq<Table>, ops: seq<Op>, results: seq<Result>, j: nat, h: nat)
    requires HandleRun(trace, ops, results) && j < |ops| && Closes(ops[j], results[j], h)
    ensures var i := h % U32_LIMIT;
            i < |trace[j].past| && i < |trace[j + 1].past| && trace[j + 1].past[i].closes == trace[j].past[i].closes + 1
  {
    assert HandleStep(trace[j], ops[j], results[j], trace[j + 1]);
  }

  lemma {:induction false} HistoryGrows(trace: seq<Table>, ops: seq<Op>, results: seq<Result>, a: nat, b: nat)
    requires HandleRun(trace, ops, results) && 0 < a <= b <= |ops|
    ensures TableOk(trace[b].slots, trace[b].past) && Longer(trace[a].past, trace[b].past)
    decreases b
  {
    assert HandleStep(trace[b - 1], ops[b - 1], results[b - 1], trace[b - 1 + 1]);
    if a < b {
      HistoryGrows(trace, ops, results, a, b - 1);
      hide HandleStep;
      LongerTwice(trace[a].past, trace[b - 1].past, trace[b].past);
    }
  }

  lemma LongerTwice(a: seq<Past>, b: seq<Past>, c: seq<Past>)
    requires Longer(a, b) && Longer(b, c)
    ensures Longer(a, c)
  {
  }

  /** A handle from an earlier life of its slot is refused, until the slot has been closed
      a whole round of generations after it was issued: exactly then it is taken for the
      handle that is open now. */
  lemma StaleRefused(slots: seq<Slot>, past: seq<Past>, i: nat, closes: nat)
    requires TableOk(slots, past) && i < MAX_HANDLES && closes < past[i].closes
    ensures Names(slots, Issued(i, closes), i) <==> slots[i].open && (past[i].closes - closes) % GENERATIONS == 0
    ensures past[i].closes < closes + GENERATIONS ==> !Names(slots, Issued(i, closes), i)
  {
    assert SlotOk(slots[i], past[i]);
    HandleTable.ValueParts(i, closes % GENERATIONS);
    SameResidue(past[i].closes, closes);
  }

  lemma SameResidue(a: nat, b: nat)
    requires b <= a
    ensures a % GENERATIONS == b % GENERATIONS <==> (a - b) % GENERATIONS == 0
    ensures b < a < b + GENERATIONS ==> (a - b) % GENERATIONS != 0
  {
  }

  /** A chain of duplications: the first handle issued somehow, each other one issued for the
      handle before it, while that had not been closed. */
  ghost predicate DupChain(ops: seq<Op>, results: seq<Result>, ks: seq<nat>) {
    |ks| > 0 && |results| == |ops| && (forall m :: 0 <= m < |ks| ==> ks[m] < |ops| && Issues(ops[ks[m]], results[ks[m]])) &&
    forall m :: 0 < m < |ks| ==> DupOf(ops, results, ks[m - 1], ks[m])
  }

  ghost predicate DupOf(ops: seq<Op>, results: seq<Result>, k: nat, n: nat) {
    k < n < |ops| && |results| == |ops| && ops[n].Dup? && ops[n].h == results[k].h && forall j :: k < j < n ==> !Closes(ops[j], results[j], results[k].h)
  }

  /** The rights of the handle issued at step `k`, and of all before it in its lineage. */
  ghost function RightsAt(trace: seq<Table>, results: seq<Result>, k: nat): bv32 {
    if k + 1 < |trace| && k < |results| && results[k].h % U32_LIMIT < |trace[k + 1].slots|
    then trace[k + 1].slots[results[k].h % U32_LIMIT].rights else 0
  }

  ghost function LineageAt(trace: seq<Table>, results: seq<Result>, k: nat): seq<bv32> {
    if k + 1 < |trace| && k < |results| && results[k].h % U32_LIMIT < |trace[k + 1].past|
    then trace[k + 1].past[results[k].h % U32_LIMIT].lineage else []
  }

  /** Over any run: along a chain of duplications every handle has only rights that each
      handle before it in the chain had, however much else happens in between. */
  lemma RightsShrink(trace: seq<Table>, ops: seq<Op>, results: seq<Result>, ks: seq<nat>, m: nat, n: nat)
    requires HandleRun(trace, ops, results) && DupChain(ops, results, ks) && m <= n < |ks|
    ensures Subset(RightsAt(trace, results, ks[n]), RightsAt(trace, results, ks[m]))
  {
    hide HandleRun, HandleStep, RightsAt, LineageAt;
    ChainLineage(trace, ops, results, ks, m, n);
    IssuedRights(trace, ops, results, ks[m]);
    IssuedRights(trace, ops, results, ks[n]);
    var l, l' := LineageAt(trace, results, ks[m]), LineageAt(trace, results, ks[n]);
    assert l'[|l| - 1] == l[|l| - 1];
    LineageShrinks(l', |l| - 1, |l'| - 1);
  }

  // The lineage of a handle starts with that of any handle it was duplicated from.
  lemma {:induction false} ChainLineage(trace: seq<Table>, ops: seq<Op>, results: seq<Result>, ks: seq<nat>, m: nat, n: nat)
    requires HandleRun(trace, ops, results) && DupChain(ops, results, ks) && m <= n < |ks|
    ensures LineageAt(trace, results, ks[m]) <= LineageAt(trace, results, ks[n])
    decreases n
  {
    hide HandleRun, HandleStep, RightsAt, LineageAt;
    if m < n {
      assert DupOf(ops, results, ks[n - 1], ks[n]);
      ChainLineage(trace, ops, results, ks, m, n - 1);
      DupLineage(trace, ops, results, ks[n - 1], ks[n]);
    }
  }

  lemma DupLineage(trace: seq<Table>, ops: seq<Op>, results: seq<Result>, k: nat, n: nat)
    requires HandleRun(trace, ops, results) && DupOf(ops, results, k, n) && Issues(ops[k], results[k]) && Issues(ops[n], results[n])
    ensures LineageAt(trace, results, n) == LineageAt(trace, results, k) + [RightsAt(trace, results, n)]
  {
    UnclosedResolves(trace, ops, results, k, n);
    assert HandleStep(trace[n], ops[n], results[n], trace[n + 1]);
  }

  // A handle's own rights end its lineage, and its lineage shrinks.
  lemma IssuedRights(trace: seq<Table>, ops: seq<Op>, results: seq<Result>, k: nat)
    requires HandleRun(trace, ops, results) && k < |ops| && Issues(ops[k], results[k])
    ensures var l := LineageAt(trace, results, k); l != [] && l[|l| - 1] == RightsAt(trace, results, k) && Shrinking(l)
  {
    hide Shrinking;
    IssuedAt(trace, ops, results, k);
    assert HandleStep(trace[k], ops[k], results[k], trace[k + 1]);
    var i := results[k].h % U32_LIMIT;
    assert SlotOk(trace[k + 1].slots[i], trace[k + 1].past[i]);
  }

  /** Along a lineage of duplicates every handle has only rights that all before it had. */
  lemma {:induction false} LineageShrinks(l: seq<bv32>, i: nat, j: nat)
    requires Shrinking(l) && i <= j < |l|
    ensures Subset(l[j], l[i])
    decreases j - i
  {
    if i < j {
      LineageShrinks(l, i, j - 1);
      SubsetTrans(l[j], l[j - 1], l[i]);
    } else {
      Reflexive(l[i]);
    }
  }

  lemma Reflexive(a: bv32)
    ensures Subset(a, a)
  {
  }
}
