/** The file system operations as seen from outside: which status they answer, and how
    the tree of nodes changes when they succeed. */
module FsSpec {
  import opened Results
  import opened Bytes
  import opened DirTable
  import opened Acl
  import opened Volumes

  /** Reading a directory inode and checking access to it. */
  ghost function DirCheck(fs: Fs, count: nat, dir: nat, c: Cred, request: bv32): Status {
    if dir == 0 || dir >= count || dir !in fs then InvalidArg
    else if !fs[dir].isDir then Unsupported
    else if !Allowed(fs[dir], c, request) then Permission
    else Ok
  }

  ghost function NameCheck(fs: Fs, dir: nat, name: Name): Status
    requires dir in fs
  {
    if |name| == 0 || |name| > NAME_MAX then InvalidArg
    else if name in fs[dir].entries then Ok
    else NotFound
  }

  /** Create and mkdir: the name must be free. */
  ghost function AddCheck(fs: Fs, count: nat, dir: nat, name: Name, c: Cred): Status {
    var s := DirCheck(fs, count, dir, c, WRITE_DATA);
    if s != Ok then s else
    match NameCheck(fs, dir, name)
    case Ok => AlreadyExists
    case NotFound => Ok
    case e => e
  }

  /** Unlink: the name must be bound, and a directory must be empty. */
  ghost function RemoveCheck(fs: Fs, count: nat, dir: nat, name: Name, c: Cred): Status {
    var s := DirCheck(fs, count, dir, c, DELETE_CHILD);
    if s != Ok then s else
    var n := NameCheck(fs, dir, name);
    if n != Ok then n else
    var t := fs[dir].entries[name].ino;
    if t in fs && fs[t].isDir && fs[t].entries != map[] then Busy else Ok
  }

  /** Unlink and rmdir told apart: what is there must be of the kind expected. */
  ghost function RemoveAsCheck(fs: Fs, count: nat, dir: nat, name: Name, c: Cred, expectDir: bool): Status {
    var s := DirCheck(fs, count, dir, c, DELETE_CHILD);
    if s != Ok then s
    else if NameCheck(fs, dir, name) != Ok then NameCheck(fs, dir, name)
    else
      var t := fs[dir].entries[name].ino;
      if t in fs && fs[t].isDir != expectDir then Unsupported else RemoveCheck(fs, count, dir, name, c)
  }

  /** Rename. Only the move of a directory onto itself is refused as a cycle. */
  ghost function RenameCheck(fs: Fs, count: nat, d1: nat, n1: Name, d2: nat, n2: Name, c: Cred): Status {
    if d1 == 0 || d1 >= count || d1 !in fs then InvalidArg
    else if !fs[d1].isDir then Unsupported
    else if d2 == 0 || d2 >= count || d2 !in fs then InvalidArg
    else if !fs[d2].isDir then Unsupported
    else if !Allowed(fs[d1], c, DELETE_CHILD) then Permission
    else if !Allowed(fs[d2], c, WRITE_DATA) then Permission
    else if NameCheck(fs, d1, n1) != Ok then NameCheck(fs, d1, n1)
    else if d1 == d2 && n1 == n2 then Ok
    else if fs[d1].entries[n1].kind == KIND_DIR && fs[d1].entries[n1].ino == d2 then InvalidArg
    else match NameCheck(fs, d2, n2)
         case Ok => AlreadyExists
         case NotFound => Ok
         case e => e
  }

  ghost function FileCheck(fs: Fs, count: nat, ino: nat, c: Cred, request: bv32): Status {
    if ino == 0 || ino >= count || ino !in fs then InvalidArg
    else if !Allowed(fs[ino], c, request) then Permission
    else Ok
  }

  ghost function Bind(fs: Fs, d: nat, name: Name, e: Entry): Fs
    requires d in fs
  {
    fs[d := fs[d].(entries := fs[d].entries[name := e])]
  }

  ghost function Unbind(fs: Fs, d: nat, name: Name): Fs
    requires d in fs
  {
    fs[d := fs[d].(entries := fs[d].entries - {name})]
  }

  /** One fresh node, bound under one fresh name; nothing else changes. */
  ghost predicate Added(a: Fs, b: Fs, dir: nat, name: Name, ino: nat, node: Node) {
    dir in a && ino !in a && name !in a[dir].entries &&
    b == Bind(a, dir, name, Entry(ino, if node.isDir then KIND_DIR else KIND_FILE))[ino := node]
  }

  /** One binding gone, with the node it named; nothing else changes. */
  ghost predicate Dropped(a: Fs, b: Fs, dir: nat, name: Name) {
    dir in a && name in a[dir].entries &&
    var t := a[dir].entries[name].ino;
    t in a && t != dir && b == Unbind(a, dir, name) - {t}
  }

  /** One binding moved, still naming the same node of the same type. */
  ghost predicate Moved(a: Fs, b: Fs, d1: nat, n1: Name, d2: nat, n2: Name) {
    d1 in a && d2 in a && n1 in a[d1].entries &&
    if d1 == d2 && n1 == n2 then b == a else
    n2 !in a[d2].entries && b == Bind(Unbind(a, d1, n1), d2, n2, a[d1].entries[n1])
  }

  /** The bytes of one node after a write: data in place, old bytes elsewhere; only a gap
      between the old end and the written range is unspecified. */
  ghost predicate DataWritten(before: seq<Byte>, after: seq<Byte>, off: nat, data: seq<Byte>) {
    |after| == (if off + |data| > |before| then off + |data| else |before|) &&
    after[off..off + |data|] == data &&
    forall k :: 0 <= k < |before| && !(off <= k < off + |data|) ==> after[k] == before[k]
  }

  ghost predicate Stored(a: Fs, b: Fs, ino: nat, off: nat, data: seq<Byte>) {
    ino in a && ino in b && DataWritten(a[ino].data, b[ino].data, off, data) &&
    b == a[ino := a[ino].(data := b[ino].data)]
  }
}
