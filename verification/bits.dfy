/** Allocation bitmaps and the cached count of clear bits. */
module Bits {

  function ClearBits(bits: seq<bool>): nat {
    if |bits| == 0 then 0 else (if bits[0] then 0 else 1) + ClearBits(bits[1..])
  }

  /** Setting a clear bit or clearing a set bit moves the count by one; rewriting a bit
      with its own value does not move it. */
  lemma {:induction false} ClearBitsUpdate(bits: seq<bool>, i: nat, v: bool)
    requires i < |bits|
    ensures ClearBits(bits[i := v]) == ClearBits(bits) + (if bits[i] then 1 else 0) - (if v then 1 else 0)
  {
    if i == 0 {
      assert bits[i := v][1..] == bits[1..];
    } else {
      assert bits[i := v][1..] == bits[1..][i - 1 := v];
      ClearBitsUpdate(bits[1..], i - 1, v);
    }
  }

  /** The first clear bit, or the length if there is none. */
  function FirstClear(bits: seq<bool>): (i: nat)
    ensures i <= |bits| && (i < |bits| ==> !bits[i]) && forall j :: 0 <= j < i ==> bits[j]
  {
    if |bits| == 0 || !bits[0] then 0 else 1 + FirstClear(bits[1..])
  }

  lemma FirstClearIs(bits: seq<bool>, i: nat)
    requires i < |bits| && !bits[i] && forall j :: 0 <= j < i ==> bits[j]
    ensures FirstClear(bits) == i
  {
    var f := FirstClear(bits);
    assert f >= i && f <= i;
  }

  /** The count is zero exactly when no bit is clear. */
  lemma {:induction false} ClearBitsZero(bits: seq<bool>)
    ensures ClearBits(bits) == 0 <==> forall i :: 0 <= i < |bits| ==> bits[i]
  {
    if |bits| != 0 {
      ClearBitsZero(bits[1..]);
      assert bits == [bits[0]] + bits[1..];
    }
  }

  /** The last clear bit, or the length if there is none. */
  function LastClear(bits: seq<bool>): (i: nat)
    ensures i <= |bits| && (i < |bits| ==> !bits[i]) && (forall j :: i < j < |bits| ==> bits[j])
    ensures i == |bits| ==> forall j :: 0 <= j < |bits| ==> bits[j]
  {
    LastBelow(bits, |bits|)
  }

  function LastBelow(bits: seq<bool>, n: nat): (i: nat)
    requires n <= |bits| && forall j :: n <= j < |bits| ==> bits[j]
    ensures i <= |bits| && (i < |bits| ==> !bits[i]) && (forall j :: i < j < |bits| ==> bits[j])
    ensures i == |bits| ==> forall j :: 0 <= j < |bits| ==> bits[j]
  {
    if n == 0 then |bits| else if !bits[n - 1] then n - 1 else LastBelow(bits, n - 1)
  }

  /** As long as a bit is left clear, the last clear one is the same. */
  predicate LastKept(before: seq<bool>, after: seq<bool>) {
    ClearBits(after) > 0 ==> LastClear(after) == LastClear(before)
  }

  /** First fit takes the last clear bit last. */
  lemma FirstTaken(bits: seq<bool>, i: nat)
    requires i < |bits| && !bits[i] && forall j :: 0 <= j < i ==> bits[j]
    ensures LastKept(bits, bits[i := true])
  {
    var after := bits[i := true];
    ClearBitsZero(after);
    var l := LastClear(after);
    if l < |bits| {
      assert !after[l] && l > i;
      assert forall j :: l < j < |bits| ==> bits[j] == after[j];
      var m := LastClear(bits);
      assert m >= l && m <= l;
    }
  }

  /** A single clear bit is the first and the last. */
  lemma OnlyClear(bits: seq<bool>)
    requires ClearBits(bits) == 1
    ensures FirstClear(bits) == LastClear(bits)
  {
    ClearBitsZero(bits);
    var f := FirstClear(bits);
    ClearBitsUpdate(bits, f, true);
    ClearBitsZero(bits[f := true]);
    var l := LastClear(bits);
    assert l < |bits| && bits[f := true][l];
  }

  /** Concatenation adds the counts. */
  lemma {:induction false} ClearBitsConcat(a: seq<bool>, b: seq<bool>)
    ensures ClearBits(a + b) == ClearBits(a) + ClearBits(b)
  {
    if |a| == 0 {
      assert a + b == b;
    } else {
      assert (a + b)[1..] == a[1..] + b;
      ClearBitsConcat(a[1..], b);
    }
  }

  /** A run of equal bits. */
  lemma {:induction false} ClearBitsRun(n: nat, v: bool)
    ensures ClearBits(seq(n, _ => v)) == if v then 0 else n
  {
    if n != 0 {
      assert seq(n, _ => v)[1..] == seq(n - 1, _ => v);
      ClearBitsRun(n - 1, v);
    }
  }
}
