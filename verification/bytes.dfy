/** Little-endian fields inside fixed-size byte buffers: the on-disk encoding that
    every structure of the volume is read from and written to. */
module Bytes {

  type Byte = x: int | 0 <= x < 256

  const U16_LIMIT: nat := 0x1_0000
  const U32_LIMIT: nat := 0x1_0000_0000
  const U64_LIMIT: nat := 0x1_0000_0000_0000_0000

  function Pow256(n: nat): nat {
    if n == 0 then 1 else 256 * Pow256(n - 1)
  }

  /** The `n` low bytes of `x`, least significant first. */
  function Enc(x: nat, n: nat): (s: seq<Byte>)
    ensures |s| == n
  {
    if n == 0 then [] else [x % 256] + Enc(x / 256, n - 1)
  }

  function Dec(s: seq<Byte>): nat {
    if |s| == 0 then 0 else s[0] + 256 * Dec(s[1..])
  }

  /** Decoding undoes encoding for every value that fits the field. */
  lemma {:induction false} DecEnc(x: nat, n: nat)
    requires x < Pow256(n)
    ensures Dec(Enc(x, n)) == x
  {
    if n != 0 {
      assert x / 256 < Pow256(n - 1);
      DecEnc(x / 256, n - 1);
      assert Enc(x, n)[1..] == Enc(x / 256, n - 1);
    }
  }

  /** Encoding undoes decoding: a field is determined by its bytes and conversely. */
  lemma {:induction false} EncDec(s: seq<Byte>)
    ensures Dec(s) < Pow256(|s|)
    ensures Enc(Dec(s), |s|) == s
  {
    if |s| != 0 {
      EncDec(s[1..]);
      assert Dec(s) % 256 == s[0] && Dec(s) / 256 == Dec(s[1..]);
      assert s == [s[0]] + s[1..];
    }
  }

  lemma Widths()
    ensures Pow256(1) == 256 && Pow256(2) == U16_LIMIT
    ensures Pow256(4) == U32_LIMIT && Pow256(8) == U64_LIMIT
  {
    assert Pow256(1) == 256 && Pow256(2) == 65536 && Pow256(3) == 16777216;
    assert Pow256(4) == 0x1_0000_0000 && Pow256(5) == 0x100_0000_0000;
    assert Pow256(6) == 0x1_0000_0000_0000 && Pow256(7) == 0x100_0000_0000_0000;
  }

  /** Zero bytes decode to zero. */
  lemma {:induction false} ZeroDec(s: seq<Byte>)
    requires forall k :: 0 <= k < |s| ==> s[k] == 0
    ensures Dec(s) == 0
  {
    if |s| != 0 { ZeroDec(s[1..]); }
  }

  /** The `n`-byte field at offset `off`. */
  function Field(s: seq<Byte>, off: nat, n: nat): nat
    requires off + n <= |s|
  {
    Dec(s[off..off + n])
  }

  /** `s` with `data` written at `off`. */
  function Put(s: seq<Byte>, off: nat, data: seq<Byte>): (r: seq<Byte>)
    requires off + |data| <= |s|
    ensures |r| == |s|
    ensures r[off..off + |data|] == data
    ensures forall k :: 0 <= k < |s| && !(off <= k < off + |data|) ==> r[k] == s[k]
  {
    s[..off] + data + s[off + |data|..]
  }

  lemma TakeTake(b: seq<Byte>, m: nat, k: nat)
    requires k <= m <= |b|
    ensures b[..m][..k] == b[..k] && b[..m][k..] == b[k..m]
  {
  }

  /** A field outside the written range keeps its value. */
  lemma FieldFrame(s: seq<Byte>, r: seq<Byte>, off: nat, n: nat)
    requires off + n <= |s| && off + n <= |r|
    requires forall k :: off <= k < off + n ==> s[k] == r[k]
    ensures Field(s, off, n) == Field(r, off, n)
  {
    assert s[off..off + n] == r[off..off + n];
  }

  /** A field of a byte string that holds an encoded value is that value. */
  lemma FieldIs(s: seq<Byte>, off: nat, n: nat, x: nat)
    requires off + n <= |s| && x < Pow256(n)
    requires s[off..off + n] == Enc(x, n)
    ensures Field(s, off, n) == x
  {
    DecEnc(x, n);
  }

  /** Reading back a field that was just written inside a larger record. */
  lemma FieldOfPart(s: seq<Byte>, base: nat, rec: seq<Byte>, off: nat, n: nat, x: nat)
    requires base + |rec| <= |s| && off + n <= |rec| && x < Pow256(n)
    requires s[base..base + |rec|] == rec
    requires rec[off..off + n] == Enc(x, n)
    ensures Field(s, base + off, n) == x
  {
    var a, b := s[base + off..base + off + n], rec[off..off + n];
    forall k | 0 <= k < n
      ensures a[k] == b[k]
    {
      assert a[k] == s[base..base + |rec|][off + k];
    }
    assert a == b;
    DecEnc(x, n);
  }
}
