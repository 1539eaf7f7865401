/** Page-table entries: the 64-bit format, and tables as pages of 512 encoded entries. */
module Entries {
  import opened Bytes

  const PAGE_SIZE: nat := 4096
  const ENTRIES: nat := 512
  const FRAME_LIMIT: nat := 0x100_0000_0000

  type Page = s: seq<Byte> | |s| == PAGE_SIZE witness seq(PAGE_SIZE, _ => 0)

  /** The fields of an entry: flag bits 0 to 8, the ignored bits 9 to 11, the frame number
      in bits 12 to 51, bits 52 to 62, and execute-disable. */
  datatype Entry = Entry(
    present: bool, rw: bool, user: bool, pwt: bool, pcd: bool, accessed: bool, dirty: bool, huge: bool, global: bool,
    soft: nat, frame: nat, high: nat, nx: bool)

  const NONE: Entry := Entry(false, false, false, false, false, false, false, false, false, 0, 0, 0, false)

  /** The entry of an intermediate table: present, writable, user. */
  function TableEntry(frame: nat): Entry {
    NONE.(present := true, rw := true, user := true, frame := frame)
  }

  predicate Fits(e: Entry) {
    e.soft < 8 && e.frame < FRAME_LIMIT && e.high < 2048
  }

  function Push(b: bool, x: nat): nat {
    (if b then 1 else 0) + 2 * x
  }

  function Low(x: nat): bool { x % 2 == 1 }

  /** Bits 9 to 63. */
  function Upper(soft: nat, frame: nat, high: nat, nx: bool): nat {
    soft + 8 * (frame + FRAME_LIMIT * (high + 2048 * (if nx then 1 else 0)))
  }

  /** The 64-bit word of an entry. */
  function Encode(e: Entry): nat {
    Push(e.present, Push(e.rw, Push(e.user, Push(e.pwt, Push(e.pcd, Push(e.accessed, Push(e.dirty, Push(e.huge, Push(e.global,
      Upper(e.soft, e.frame, e.high, e.nx))))))))))
  }

  function Half(x: nat): nat { x / 2 }

  function Decode(x: nat): Entry {
    var x1 := Half(x); var x2 := Half(x1); var x3 := Half(x2); var x4 := Half(x3); var x5 := Half(x4);
    var x6 := Half(x5); var x7 := Half(x6); var x8 := Half(x7); var y := Half(x8);
    Entry(Low(x), Low(x1), Low(x2), Low(x3), Low(x4), Low(x5), Low(x6), Low(x7), Low(x8),
          y % 8, y / 8 % FRAME_LIMIT, y / 8 / FRAME_LIMIT % 2048, y / 8 / FRAME_LIMIT / 2048 % 2 == 1)
  }

  lemma PushLow(b: bool, x: nat)
    ensures Low(Push(b, x)) == b && Half(Push(b, x)) == x
  {
  }

  lemma UpperPart(s: nat, f: nat, h: nat, n: bool)
    requires s < 8 && f < FRAME_LIMIT && h < 2048
    ensures var y := Upper(s, f, h, n);
            y % 8 == s && y / 8 % FRAME_LIMIT == f && y / 8 / FRAME_LIMIT % 2048 == h && (y / 8 / FRAME_LIMIT / 2048 % 2 == 1) == n &&
            y < 0x80_0000_0000_0000
  {
    var z := h + 2048 * (if n then 1 else 0);
    assert z % 2048 == h && z / 2048 == if n then 1 else 0;
    var w := f + FRAME_LIMIT * z;
    assert w % FRAME_LIMIT == f && w / FRAME_LIMIT == z;
  }

  lemma PushesLow(e: Entry, y: nat)
    ensures var x8 := Push(e.global, y); var x7 := Push(e.huge, x8); var x6 := Push(e.dirty, x7);
            var x5 := Push(e.accessed, x6); var x4 := Push(e.pcd, x5); var x3 := Push(e.pwt, x4);
            var x2 := Push(e.user, x3); var x1 := Push(e.rw, x2); var x := Push(e.present, x1);
            Low(x) == e.present && Half(x) == x1 && Low(x1) == e.rw && Half(x1) == x2 && Low(x2) == e.user && Half(x2) == x3 &&
            Low(x3) == e.pwt && Half(x3) == x4 && Low(x4) == e.pcd && Half(x4) == x5 && Low(x5) == e.accessed && Half(x5) == x6 &&
            Low(x6) == e.dirty && Half(x6) == x7 && Low(x7) == e.huge && Half(x7) == x8 && Low(x8) == e.global && Half(x8) == y
  {
    hide Push, Low, Half;
    var x8 := Push(e.global, y); var x7 := Push(e.huge, x8); var x6 := Push(e.dirty, x7);
    var x5 := Push(e.accessed, x6); var x4 := Push(e.pcd, x5); var x3 := Push(e.pwt, x4);
    var x2 := Push(e.user, x3); var x1 := Push(e.rw, x2);
    PushLow(e.global, y); PushLow(e.huge, x8); PushLow(e.dirty, x7); PushLow(e.accessed, x6);
    PushLow(e.pcd, x5); PushLow(e.pwt, x4); PushLow(e.user, x3); PushLow(e.rw, x2); PushLow(e.present, x1);
  }

  lemma PushesBound(e: Entry, y: nat)
    requires y < 0x80_0000_0000_0000
    ensures Push(e.present, Push(e.rw, Push(e.user, Push(e.pwt, Push(e.pcd, Push(e.accessed, Push(e.dirty,
              Push(e.huge, Push(e.global, y))))))))) < U64_LIMIT
  {
    hide Push;
    var x8 := Push(e.global, y); var x7 := Push(e.huge, x8); var x6 := Push(e.dirty, x7);
    var x5 := Push(e.accessed, x6); var x4 := Push(e.pcd, x5); var x3 := Push(e.pwt, x4);
    var x2 := Push(e.user, x3); var x1 := Push(e.rw, x2);
    var bound := 0x80_0000_0000_0000;
    PushBound(e.global, y, bound); PushBound(e.huge, x8, 2 * bound); PushBound(e.dirty, x7, 4 * bound);
    PushBound(e.accessed, x6, 8 * bound); PushBound(e.pcd, x5, 16 * bound); PushBound(e.pwt, x4, 32 * bound);
    PushBound(e.user, x3, 64 * bound); PushBound(e.rw, x2, 128 * bound); PushBound(e.present, x1, 256 * bound);
  }

  lemma PushBound(b: bool, x: nat, bound: nat)
    requires x < bound
    ensures Push(b, x) < 2 * bound
  {
  }

  /** Reading an entry back gives every field, and the word fits 64 bits. */
  lemma DecodeEncode(e: Entry)
    requires Fits(e)
    ensures Decode(Encode(e)) == e && Encode(e) < U64_LIMIT
  {
    hide Push, Low, Half, Upper;
    UpperPart(e.soft, e.frame, e.high, e.nx);
    PushesLow(e, Upper(e.soft, e.frame, e.high, e.nx));
    PushesBound(e, Upper(e.soft, e.frame, e.high, e.nx));
  }

  /** Entry `i` of a table page. */
  function EntryAt(p: Page, i: nat): Entry
    requires i < ENTRIES
  {
    Decode(Field(p, 8 * i, 8))
  }

  function WithEntry(p: Page, i: nat, e: Entry): Page
    requires i < ENTRIES
  {
    Put(p, 8 * i, Enc(Encode(e), 8))
  }

  /** Storing an entry is seen by reading it, and by reading no other. */
  lemma EntryStored(p: Page, i: nat, e: Entry, j: nat)
    requires i < ENTRIES && j < ENTRIES && Fits(e)
    ensures EntryAt(WithEntry(p, i, e), j) == if j == i then e else EntryAt(p, j)
  {
    hide Dec, Enc, Decode, Encode;
    var q := WithEntry(p, i, e);
    if j == i {
      DecodeEncode(e);
      Widths();
      FieldIs(q, 8 * i, 8, Encode(e));
    } else {
      FieldFrame(p, q, 8 * j, 8);
    }
  }

  function ZeroPage(): Page { seq(PAGE_SIZE, _ => 0) }

  /** A page of zero bytes is a table with no entry present. */
  lemma ZeroEntry(i: nat)
    requires i < ENTRIES
    ensures EntryAt(ZeroPage(), i) == NONE
  {
    hide Dec, Decode;
    var word := ZeroPage()[8 * i..8 * i + 8];
    ZeroDec(word);
    DecodeZero();
  }

  lemma DecodeZero()
    ensures Decode(0) == NONE
  {
  }
}
