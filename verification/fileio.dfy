/** File reads and writes by system call, down to the file system: chunked, with an offset
    that follows exactly what was delivered. */
module FileIo {
  import opened Results
  import opened Bytes
  import opened Counting
  import opened Streams
  import opened Store
  import opened Volumes
  import opened FsSpec
  import opened Nyfs
  import opened Fat16

  const IO_CHUNK: nat := 512
  const IO_MAX: nat := 0x10_0000

  /** What a read or write call returns: a byte count, or a status if nothing was moved. */
  datatype Ret = Count(n: nat) | Fail(status: Status)

  function Transferred(r: Ret): nat {
    match r case Count(n) => n case Fail(_) => 0
  }

  // The answer to a call that fails after `done` bytes.
  function Short(done: nat, status: Status): Ret {
    if done > 0 then Count(done) else Fail(status)
  }

  /** The file behind a handle. */
  datatype Backing =
    | OnNyfs(vol: Volume, ino: nat)
    | OnFat(disk: seq<Byte>, g: Geometry, start: nat, size: nat)

  /** The error of a read at `off` that wants a byte the file does not have. A NyFS file has
      all its bytes. */
  function ErrorOf(file: Backing, off: nat): Status {
    match file case OnNyfs(_, _) => Corrupted case OnFat(disk, g, start, size) => ReadError(disk, g, start, size, off)
  }

  /** The end of chunk `k` of a call for `want` bytes. */
  function ChunkEnd(want: nat, k: nat): nat { Least(IO_CHUNK * k + IO_CHUNK, want) }

  /** Chunk `k` of a read cannot be delivered: the file lacks a byte of it, or there is
      something to copy and the copy fails. */
  predicate ReadStops(data: seq<Byte>, size: nat, off: nat, want: nat, copyFails: nat -> bool, k: nat) {
    IO_CHUNK * k < want &&
    (!Readable(data, size, off + IO_CHUNK * k, ChunkEnd(want, k) - IO_CHUNK * k) || (off + IO_CHUNK * k < |data| && copyFails(k)))
  }

  /** A read that meets no obstacle is answered in full; else the first chunk that cannot be
      delivered ends it, with the count so far or, with none, the error. */
  ghost predicate ReadAnswer(file: Backing, data: seq<Byte>, size: nat, off: nat, want: nat, copyFails: nat -> bool, r: Ret) {
    if forall k :: !ReadStops(data, size, off, want, copyFails, k) then r == Count(|ReadSpec(data, off, want)|)
    else exists k ::
           ReadStops(data, size, off, want, copyFails, k) && (forall j: nat :: j < k ==> !ReadStops(data, size, off, want, copyFails, j)) &&
           r == ReadFailure(file, data, size, off, want, k)
  }

  function ReadFailure(file: Backing, data: seq<Byte>, size: nat, off: nat, want: nat, k: nat): Ret
    requires IO_CHUNK * k < want
  {
    var at := off + IO_CHUNK * k;
    Short(IO_CHUNK * k, if Readable(data, size, at, Least(want - IO_CHUNK * k, IO_CHUNK)) then InvalidArg else ErrorOf(file, at))
  }

  /** Chunk `k` of a write to a NyFS file cannot be written: its copy fails, or the file
      cannot get the blocks up to the end of the chunk. */
  ghost predicate WriteStops(v: Vol, s: State, ino: nat, off: nat, want: nat, copyFails: nat -> bool, k: nat) {
    IO_CHUNK * k < want && (copyFails(k) || !Volume.Holds(v, s, ino, off + ChunkEnd(want, k)))
  }

  /** The same for writes. Whether the blocks can be had is a matter of the volume as it was
      before the call. */
  ghost predicate WriteAnswer(v: Vol, s: State, ino: nat, off: nat, want: nat, copyFails: nat -> bool, r: Ret) {
    if forall k :: !WriteStops(v, s, ino, off, want, copyFails, k) then r == Count(want)
    else exists k ::
           WriteStops(v, s, ino, off, want, copyFails, k) && (forall j: nat :: j < k ==> !WriteStops(v, s, ino, off, want, copyFails, j)) &&
           r == Short(IO_CHUNK * k, if copyFails(k) then InvalidArg else DiskFull)
  }

  /** What has become of the room of a file after `done` of the bytes at `off` were written. */
  ghost predicate RoomAfter(r: Room, now: Room, off: nat, done: nat, bs: nat) {
    bs > 0 &&
    if done == 0 then now == r
    else Extensible(r, BlockStore.RoundUp(off + done, bs), bs) && now == ExtendedRoom(r, BlockStore.RoundUp(off + done, bs), bs)
  }

  lemma RoomNext(r: Room, now: Room, off: nat, done: nat, n: nat, bs: nat)
    requires RoomAfter(r, now, off, done, bs) && n > 0
    ensures var need := BlockStore.RoundUp(off + done + n, bs);
            (Extensible(now, need, bs) <==> Extensible(r, need, bs)) &&
            (Extensible(r, need, bs) ==> RoomAfter(r, ExtendedRoom(now, need, bs), off, done + n, bs))
  {
    hide Extensible, ExtendedRoom, BlockStore.RoundUp;
    if done > 0 {
      RoundUpMono(off + done, off + done + n, bs);
      ExtendedTwice(r, BlockStore.RoundUp(off + done, bs), BlockStore.RoundUp(off + done + n, bs), bs);
    }
  }

  lemma RoundUpMono(a: nat, b: nat, bs: nat)
    requires a <= b && bs > 0
    ensures BlockStore.RoundUp(a, bs) <= BlockStore.RoundUp(b, bs)
  {
    BlockStore.RoundUpCovers(a, bs);
    BlockStore.RoundUpCovers(b, bs);
    BlockStore.MulOrder(BlockStore.RoundUp(a, bs), BlockStore.RoundUp(b, bs) + 1, bs);
    BlockStore.MulOrder(BlockStore.RoundUp(b, bs) + 1, BlockStore.RoundUp(a, bs), bs);
    BlockStore.Distribute(BlockStore.RoundUp(b, bs), 1, bs);
  }

  /** Just these bytes were written at `off` of one file; with none, nothing changed. */
  ghost predicate Wrote(a: Fs, b: Fs, ino: nat, off: nat, bytes: seq<Byte>) {
    if bytes == [] then b == a else Stored(a, b, ino, off, bytes)
  }

  lemma WroteMore(a: Fs, m: Fs, b: Fs, ino: nat, off: nat, x: seq<Byte>, y: seq<Byte>)
    requires Wrote(a, m, ino, off, x) && y != [] && Stored(m, b, ino, off + |x|, y)
    ensures Wrote(a, b, ino, off, x + y)
  {
    if x == [] {
      assert x + y == y;
    } else {
      DataJoin(a[ino].data, m[ino].data, b[ino].data, off, x, y);
    }
  }

  /** A write, and a write where it ended, make the longer write. */
  lemma DataJoin(a: seq<Byte>, m: seq<Byte>, b: seq<Byte>, off: nat, x: seq<Byte>, y: seq<Byte>)
    requires DataWritten(a, m, off, x) && DataWritten(m, b, off + |x|, y)
    ensures DataWritten(a, b, off, x + y)
  {
    var z := b[off..off + |x| + |y|];
    forall k | 0 <= k < |z| ensures z[k] == (x + y)[k] {
      if k < |x| {
        assert m[off..off + |x|][k] == m[off + k];
      } else {
        assert b[off + |x|..off + |x| + |y|][k - |x|] == b[off + k];
      }
    }
    assert z == x + y;
  }

  datatype Origin = Origin(fs: Fs, room: Room, off: nat)

  /** An open file and the offset of its handle. */
  class OpenFile {
    const file: Backing
    var offset: nat

    constructor (file: Backing, offset: nat)
      ensures this.file == file && this.offset == offset
    {
      this.file, this.offset := file, offset;
    }

    ghost function Parts(): (parts: set<object>)
      ensures this !in parts
    {
      match file
      case OnNyfs(vol, _) => {vol, vol.st}
      case OnFat(_, _, _, _) => {}
    }

    ghost predicate Valid()
      reads Parts()
    {
      match file
      case OnNyfs(vol, ino) => vol.Valid() && ino != 0 && ino in vol.Tree()
      case OnFat(disk, g, _, _) => OnDisk(disk, g)
    }

    /** The bytes of the file, as the file system has them. */
    ghost function Data(): seq<Byte>
      reads Parts()
    {
      match file
      case OnNyfs(vol, ino) => if ino in vol.Tree() then vol.Tree()[ino].data else []
      case OnFat(disk, g, start, size) => FileBytes(disk, g, start, size)
    }

    /** Its recorded size: a broken cluster chain leaves fewer bytes. */
    ghost function Size(): nat
      reads Parts()
    {
      match file
      case OnNyfs(_, _) => |Data()|
      case OnFat(_, _, _, size) => size
    }

    /** The file layer's read: the file system reads, and only this layer moves the offset. */
    method Read(n: nat) returns (status: Status, bytes: seq<Byte>)
      requires Valid()
      modifies this`offset
      ensures ReadOutcome(Data(), Size(), old(offset), n, ErrorOf(file, old(offset)), status, bytes) && offset == old(offset) + |bytes|
      ensures Valid() && Data() == old(Data()) && Size() == old(Size())
    {
      hide OnDisk, Inv, VolInv, Abs, FileBytes, ReadSpec, ReadError;
      match file {
        case OnNyfs(vol, ino) =>
          Volume.InTree(vol.V(), ino);
          status, bytes := vol.ReadData(ino, offset, n);
        case OnFat(disk, g, start, size) =>
          status, bytes := FileRead(disk, g, start, size, offset, n);
      }
      offset := offset + |bytes|;
    }

    /** The file layer's write, at the offset. */
    method Write(bytes: seq<Byte>) returns (status: Status, written: nat)
      requires Valid()
      modifies this`offset, Parts()
      ensures file.OnFat? ==> status == ReadOnly
      ensures status == Ok ==> written == |bytes| && offset == old(offset) + |bytes|
      ensures status != Ok ==> written == 0 && offset == old(offset) && Valid()
      ensures file.OnNyfs? ==> NyfsWrite(file.vol, file.ino, old(file.vol.V()), old(file.vol.st.S()), old(offset), bytes, status)
    {
      hide OnDisk, Inv, VolInv, Abs, FileBytes, NyfsWrite;
      match file {
        case OnNyfs(vol, ino) =>
          status, written := WriteNyfs(vol, ino, offset, bytes);
        case OnFat(disk, g, start, size) =>
          status, written := ReadOnly, 0;
      }
      offset := offset + written;
    }

    static method WriteNyfs(vol: Volume, ino: nat, off: nat, bytes: seq<Byte>) returns (status: Status, written: nat)
      requires vol.Valid() && ino != 0 && ino in vol.Tree()
      modifies vol, vol.st
      ensures written == if status == Ok then |bytes| else 0
      ensures status != Ok ==> vol.Valid() && vol.Tree() == old(vol.Tree())
      ensures NyfsWrite(vol, ino, old(vol.V()), old(vol.st.S()), off, bytes, status)
    {
      hide Inv, VolInv, Abs, Volume.WriteEffect, Volume.WriteSpace, Volume.RoomAt, ExtendedRoom, BlockStore.RoundUp, Volume.Capacity, Stored;
      ghost var v := vol.V();
      Volume.InTree(v, ino);
      status, written := vol.WriteData(ino, off, bytes);
      if status == Ok && vol.Valid() { Kept(v, vol.V(), ino, off, bytes); }
    }

    // What the volume answers to a write, and what has become of it.
    static ghost predicate NyfsWrite(vol: Volume, ino: nat, v: Vol, s: State, off: nat, bytes: seq<Byte>, status: Status)
      reads vol, vol.st
    {
      (status == Ok || status == DiskFull) && Volume.WriteSpace(v, s, ino, off, |bytes|, status) &&
      (status != Ok ==> vol.Tree() == Abs(v)) &&
      (status == Ok ==>
        (bytes != [] ==> Volume.RoomAt(vol.V(), vol.st.S(), ino) == ExtendedRoom(Volume.RoomAt(v, s, ino), BlockStore.RoundUp(off + |bytes|, s.bs), s.bs)) &&
        (vol.Valid() <==> bytes != [] || off <= Volume.Capacity(v, ino)) &&
        (vol.Valid() ==> ino in vol.Tree() && Stored(Abs(v), vol.Tree(), ino, off, bytes)))
    }

    static lemma Kept(v: Vol, w: Vol, ino: nat, off: nat, bytes: seq<Byte>)
      requires Volume.WriteEffect(v, w, ino, off, bytes)
      ensures Stored(Abs(v), Abs(w), ino, off, bytes) && ino in Abs(w)
    {
      hide Abs, DataWritten;
    }

    /** Reads in pieces of any sizes return, put together, one read of the file. */
    method ReadPieces(sizes: seq<nat>) returns (status: Status, out: seq<Byte>)
      requires Valid()
      modifies this`offset
      ensures ReadOutcome(Data(), Size(), old(offset), Sum(sizes), ErrorOf(file, old(offset)), status, out)
      ensures status == Ok ==> offset == old(offset) + |out|
    {
      hide ReadSpec, Sum, Valid, Data, Size, ReadOutcome, ErrorOf;
      ghost var data, size, start, error := Data(), Size(), offset, ErrorOf(file, offset);
      status, out := Ok, [];
      var k := 0;
      DataSize();
      SumNone(sizes);
      NothingRead(data, size, offset, error);
      while k < |sizes|
        invariant Valid() && Data() == data && Size() == size
        invariant 0 <= k <= |sizes| && status == Ok && ReadOutcome(data, size, start, Sum(sizes[..k]), error, Ok, out) && offset == start + |out|
      {
        var piece;
        status, piece := Read(sizes[k]);
        SumMore(sizes, k);
        SameError(start, |out|, Sum(sizes[..k]), error, out);
        OutcomesJoin(data, size, start, Sum(sizes[..k]), sizes[k], error, out, status, piece);
        if status != Ok {
          SumGrows(sizes, k + 1);
          AnswerIs(data, size, start, Sum(sizes[..k + 1]), error, status);
          OutcomeStays(data, size, start, Sum(sizes[..k + 1]), Sum(sizes), error);
          return status, [];
        }
        out := out + piece;
        k := k + 1;
      }
      assert sizes[..k] == sizes;
    }

    /** Bytes that did not reach the user have not been read. */
    method TakeBack(n: nat)
      requires Valid() && n <= offset
      modifies this`offset
      ensures offset == old(offset) - n && Valid() && Data() == old(Data()) && Size() == old(Size())
    {
      offset := offset - n;
    }

    lemma DataSize()
      requires Valid()
      ensures |Data()| <= Size()
    {
      hide FileBytes, OnDisk, Inv, VolInv, Abs;
      if file.OnFat? { SizeBound(file.disk, file.g, file.start, file.size); }
    }

    // A read goes on with the error it would have failed with.
    lemma SameError(off: nat, got: nat, n: nat, error: Status, bytes: seq<Byte>)
      requires Valid() && error == ErrorOf(file, off) && got == |bytes| && ReadOutcome(Data(), Size(), off, n, error, Ok, bytes)
      ensures ErrorOf(file, off + got) == error && error != Ok
    {
      hide FileBytes, OnDisk, Inv, VolInv, Abs, FailStatus;
      if file.OnFat? {
        SameMissing(Data(), Size(), off, n, error, bytes);
        IsError(file.disk, file.g, file.start, file.size, off);
      }
    }

    static lemma AnswerIs(data: seq<Byte>, size: nat, off: nat, n: nat, error: Status, status: Status)
      requires ReadOutcome(data, size, off, n, error, status, []) && status != Ok
      ensures status == error
    {
    }

    /** NxRead: on every path, including a failed copy to the user, the offset has moved by
        exactly the count returned, and those bytes are what the user got. The first chunk
        that the file cannot supply or whose copy fails decides the answer. */
    method SysRead(len: nat, copyFails: nat -> bool) returns (r: Ret, delivered: seq<Byte>)
      requires Valid()
      modifies this`offset
      ensures offset == old(offset) + Transferred(r) && delivered == ReadSpec(Data(), old(offset), Transferred(r)) && |delivered| == Transferred(r)
      ensures ReadAnswer(file, Data(), Size(), old(offset), Least(len, IO_MAX), copyFails, r)
    {
      hide ReadSpec, Valid, Data, Size, Readable, ReadStops, ErrorOf, ReadAnswer, ReadFailure;
      ghost var data, size, start := Data(), Size(), offset;
      delivered := [];
      ReadNothing(data, start);
      if len == 0 {
        ReadFull(file, data, size, start, 0, copyFails, 0);
        return Count(0), [];
      }
      var want := Least(len, IO_MAX);
      DataSize();
      var call := 0;
      while |delivered| < want
        invariant Valid() && Data() == data && Size() == size
        invariant |delivered| == Least(IO_CHUNK * call, want) && offset == start + |delivered| && delivered == ReadSpec(data, start, |delivered|)
        invariant forall j: nat :: j < call ==> !ReadStops(data, size, start, want, copyFails, j)
        decreases want - |delivered|
      {
        var n := Least(want - |delivered|, IO_CHUNK);
        var status, got := Read(n);
        ErrorNotOk(file, start + |delivered|);
        if status != Ok {
          ReadStopped(file, data, size, start, want, copyFails, call, Short(|delivered|, status));
          return Short(|delivered|, status), delivered;
        }
        ShortRead(data, start, |delivered|, n, want);
        if |got| == 0 {
          ReadEnds(file, data, size, start, want, copyFails, call, |delivered|);
          return Count(|delivered|), delivered;
        }
        if copyFails(call) {
          TakeBack(|got|);
          ReadStopped(file, data, size, start, want, copyFails, call, Short(|delivered|, InvalidArg));
          return Short(|delivered|, InvalidArg), delivered;
        }
        Passed(data, size, start, want, copyFails, call);
        delivered := delivered + got;
        call := call + 1;
        if |got| < n {
          ReadEnds(file, data, size, start, want, copyFails, call - 1, |delivered|);
          return Count(|delivered|), delivered;
        }
      }
      ReadFull(file, data, size, start, want, copyFails, call);
      r := Count(|delivered|);
    }

    /** What a write call starts from: the tree, what decides whether the file can grow, and
        the offset. */
    ghost function Start(): Origin
      reads this`offset, Parts()
    {
      match file
      case OnNyfs(vol, ino) => Origin(vol.Tree(), Volume.RoomAt(vol.V(), vol.st.S(), ino), offset)
      case OnFat(_, _, _, _) => Origin(map[], Room([], []), offset)
    }

    /** Since `was`, just the bytes `done` have been written. */
    ghost predicate Since(was: Origin, done: seq<Byte>)
      reads this`offset, Parts()
    {
      offset == was.off + |done| &&
      (file.OnNyfs? ==>
        Wrote(was.fs, file.vol.Tree(), file.ino, was.off, done) &&
        RoomAfter(was.room, Volume.RoomAt(file.vol.V(), file.vol.st.S(), file.ino), was.off, |done|, file.vol.st.blockSize))
    }

    /** NxWrite to a file: on every path the offset has moved by exactly the count returned,
        and just that much of the user's bytes, in order, is in the file where the offset
        was; every other byte of it and every other file is as it was. The first chunk whose
        copy fails or whose blocks cannot be had decides the answer. */
    method SysWrite(buf: seq<Byte>, len: nat, copyFails: nat -> bool) returns (r: Ret)
      requires Valid() && len <= |buf|
      modifies this`offset, Parts()
      ensures Valid() && offset == old(offset) + Transferred(r) && Transferred(r) <= Least(len, IO_MAX)
      ensures file.OnFat? ==> r == if len == 0 then Count(0) else Fail(if copyFails(0) then InvalidArg else ReadOnly)
      ensures file.OnNyfs? ==> Wrote(old(file.vol.Tree()), file.vol.Tree(), file.ino, old(offset), buf[..Transferred(r)])
      ensures file.OnNyfs? ==> WriteAnswer(old(file.vol.V()), old(file.vol.st.S()), file.ino, old(offset), Least(len, IO_MAX), copyFails, r)
    {
      hide Valid, Abs, Wrote, Volume.RoomAt, RoomAfter, BlockStore.RoundUp, Extensible, Since, WriteStops, WriteAnswer;
      SinceStart();
      if len == 0 {
        assert buf[..0] == [];
        SinceMeans(Start(), []);
        if file.OnNyfs? { WriteFull(file.vol.V(), file.vol.st.S(), file.ino, offset, 0, copyFails, 0); }
        return Count(0);
      }
      var want := Least(len, IO_MAX);
      var done, call := 0, 0;
      assert buf[..0] == [];
      while done < want
        invariant done == Least(IO_CHUNK * call, want) && Valid() && Since(old(Start()), buf[..done]) && (file.OnFat? ==> done == 0)
        invariant file.OnNyfs? ==>
                    forall j: nat :: j < call ==> !WriteStops(old(file.vol.V()), old(file.vol.st.S()), file.ino, old(offset), want, copyFails, j)
        decreases want - done
      {
        var n := Least(want - done, IO_CHUNK);
        SinceMeans(old(Start()), buf[..done]);
        if copyFails(call) {
          if file.OnNyfs? { WriteStopped(old(file.vol.V()), old(file.vol.st.S()), file.ino, old(offset), want, copyFails, call, Short(done, InvalidArg)); }
          return Short(done, InvalidArg);
        }
        var chunk := buf[done..done + n];
        assert buf[..done] + chunk == buf[..done + n];
        var status, written := WriteChunk(chunk, buf[..done], old(Start()));
        if status != Ok {
          if file.OnNyfs? { WriteStopped(old(file.vol.V()), old(file.vol.st.S()), file.ino, old(offset), want, copyFails, call, Short(done, status)); }
          return Short(done, status);
        }
        if file.OnNyfs? { WritePassed(old(file.vol.V()), old(file.vol.st.S()), file.ino, old(offset), want, copyFails, call); }
        done, call := done + written, call + 1;
        if written < n {
          break;
        }
      }
      SinceMeans(old(Start()), buf[..done]);
      if file.OnNyfs? { WriteFull(old(file.vol.V()), old(file.vol.st.S()), file.ino, old(offset), want, copyFails, call); }
      r := Count(done);
    }

    lemma SinceStart()
      ensures file.OnNyfs? && Valid() ==> Since(Start(), [])
      ensures file.OnFat? ==> Since(Start(), [])
    {
      hide Abs, Volume.RoomAt;
    }

    lemma SinceMeans(was: Origin, done: seq<Byte>)
      requires Since(was, done)
      ensures offset == was.off + |done| && (file.OnNyfs? ==> Wrote(was.fs, file.vol.Tree(), file.ino, was.off, done))
    {
      hide Abs, Wrote, RoomAfter, Volume.RoomAt;
    }

    // One chunk of a longer write, after `done`.
    method WriteChunk(chunk: seq<Byte>, ghost done: seq<Byte>, ghost was: Origin) returns (status: Status, written: nat)
      requires Valid() && chunk != [] && Since(was, done)
      modifies this`offset, Parts()
      ensures Valid() && (file.OnFat? ==> status == ReadOnly)
      ensures status == Ok ==> written == |chunk| && Since(was, done + chunk)
      ensures status != Ok ==> offset == old(offset) && (file.OnNyfs? ==> Wrote(was.fs, file.vol.Tree(), file.ino, was.off, done))
      ensures file.OnNyfs? ==>
                var bs := file.vol.st.blockSize;
                bs > 0 && status == if Extensible(was.room, BlockStore.RoundUp(was.off + |done + chunk|, bs), bs) then Ok else DiskFull
    {
      hide OnDisk, Inv, VolInv, Abs, Wrote, Volume.RoomAt, RoomAfter, BlockStore.RoundUp, Extensible, ExtendedRoom, FileBytes, Stored;
      ghost var room := Start().room;
      if file.OnNyfs? { RoomNext(was.room, room, was.off, |done|, |chunk|, file.vol.st.blockSize); }
      status, written := Write(chunk);
      if file.OnNyfs? && status == Ok {
        WroteMore(was.fs, old(file.vol.Tree()), file.vol.Tree(), file.ino, was.off, done, chunk);
      }
    }
  }

  lemma ErrorNotOk(file: Backing, off: nat)
    ensures ErrorOf(file, off) != Ok
  {
    if file.OnFat? { IsError(file.disk, file.g, file.start, file.size, off); }
  }

  // Chunk `k` is the first to stop a read.
  lemma ReadStopped(file: Backing, data: seq<Byte>, size: nat, off: nat, want: nat, copyFails: nat -> bool, k: nat, r: Ret)
    requires forall j: nat :: j < k ==> !ReadStops(data, size, off, want, copyFails, j)
    requires IO_CHUNK * k < want
    requires var at, n := off + IO_CHUNK * k, Least(want - IO_CHUNK * k, IO_CHUNK);
             if Readable(data, size, at, n) then |ReadSpec(data, at, n)| > 0 && copyFails(k) && r == Short(IO_CHUNK * k, InvalidArg)
             else r == Short(IO_CHUNK * k, ErrorOf(file, at))
    ensures ReadAnswer(file, data, size, off, want, copyFails, r)
  {
    hide Readable, ErrorOf;
    assert ReadStops(data, size, off, want, copyFails, k);
  }

  // Chunk `k` was delivered.
  lemma Passed(data: seq<Byte>, size: nat, off: nat, want: nat, copyFails: nat -> bool, k: nat)
    requires IO_CHUNK * k < want && !copyFails(k)
    requires Readable(data, size, off + IO_CHUNK * k, Least(want - IO_CHUNK * k, IO_CHUNK))
    ensures !ReadStops(data, size, off, want, copyFails, k)
  {
    hide Readable;
  }

  // Chunk `k` came out short, so it reached the end of the file, where nothing stops a read.
  lemma ReadEnds(file: Backing, data: seq<Byte>, size: nat, off: nat, want: nat, copyFails: nat -> bool, k: nat, got: nat)
    requires forall j: nat :: j < k ==> !ReadStops(data, size, off, want, copyFails, j)
    requires |data| <= size && IO_CHUNK * k < want && got == |ReadSpec(data, off, want)|
    requires var at, n := off + IO_CHUNK * k, Least(want - IO_CHUNK * k, IO_CHUNK);
             Readable(data, size, at, n) && |ReadSpec(data, at, n)| < n && (ReadSpec(data, at, n) == [] || !copyFails(k))
    ensures ReadAnswer(file, data, size, off, want, copyFails, Count(got))
  {
    forall j: nat ensures !ReadStops(data, size, off, want, copyFails, j) { }
  }

  // All chunks were delivered.
  lemma ReadFull(file: Backing, data: seq<Byte>, size: nat, off: nat, want: nat, copyFails: nat -> bool, k: nat)
    requires forall j: nat :: j < k ==> !ReadStops(data, size, off, want, copyFails, j)
    requires IO_CHUNK * k >= want
    ensures ReadAnswer(file, data, size, off, want, copyFails, Count(|ReadSpec(data, off, want)|))
  {
    hide Readable, ReadSpec;
    forall j: nat ensures !ReadStops(data, size, off, want, copyFails, j) { }
  }

  // Chunk `k` is the first to stop a write.
  lemma WriteStopped(v: Vol, s: State, ino: nat, off: nat, want: nat, copyFails: nat -> bool, k: nat, r: Ret)
    requires forall j: nat :: j < k ==> !WriteStops(v, s, ino, off, want, copyFails, j)
    requires IO_CHUNK * k < want && (copyFails(k) || !Volume.Holds(v, s, ino, off + ChunkEnd(want, k)))
    requires r == Short(IO_CHUNK * k, if copyFails(k) then InvalidArg else DiskFull)
    ensures WriteAnswer(v, s, ino, off, want, copyFails, r)
  {
    hide Volume.Holds;
    assert WriteStops(v, s, ino, off, want, copyFails, k);
  }

  lemma WritePassed(v: Vol, s: State, ino: nat, off: nat, want: nat, copyFails: nat -> bool, k: nat)
    requires !copyFails(k) && Volume.Holds(v, s, ino, off + ChunkEnd(want, k))
    ensures !WriteStops(v, s, ino, off, want, copyFails, k)
  {
    hide Volume.Holds;
  }

  lemma WriteFull(v: Vol, s: State, ino: nat, off: nat, want: nat, copyFails: nat -> bool, k: nat)
    requires forall j: nat :: j < k ==> !WriteStops(v, s, ino, off, want, copyFails, j)
    requires IO_CHUNK * k >= want
    ensures WriteAnswer(v, s, ino, off, want, copyFails, Count(want))
  {
    hide Volume.Holds;
    forall j: nat ensures !WriteStops(v, s, ino, off, want, copyFails, j) { }
  }

  // Reading `n` more after `m` bytes: the bytes join up, and a short answer means the end.
  lemma ShortRead(data: seq<Byte>, off: nat, m: nat, n: nat, want: nat)
    requires |ReadSpec(data, off, m)| == m && 0 < n && m + n <= want
    ensures var got := ReadSpec(data, off + m, n);
            |got| <= n && ReadSpec(data, off, m) + got == ReadSpec(data, off, m + |got|) && (|got| < n ==> |ReadSpec(data, off, want)| == m + |got|)
  {
  }
}
