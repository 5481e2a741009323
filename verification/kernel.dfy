/** The slice of the Linux kernel interface that the duplicate finder uses:
    directory entries and their d_type, the files a path can name, an open
    `struct file` with its cursor, `kernel_read`, `snprintf` into a kmalloc'd
    buffer, and reading a NUL-terminated string back out of such a buffer.
    The kernel's own implementations are not part of this model; each is
    stated here by the effect the duplicate finder relies on. */
module Kernel {

  newtype byte = x: int | 0 <= x < 256

  datatype Option<T> = None | Some(value: T)

  function Min(a: int, b: int): int { if a <= b then a else b }

  // Error numbers of include/uapi/asm-generic/errno-base.h; the kernel
  // returns them negated.
  const ENOENT: int := 2
  const EIO: int := 5
  const ENOMEM: int := 12
  const EACCES: int := 13
  const EISDIR: int := 21

  /** The d_type values a directory entry can carry. */
  datatype DType = DT_UNKNOWN | DT_FIFO | DT_CHR | DT_DIR | DT_BLK | DT_REG | DT_LNK | DT_SOCK

  /** One entry delivered by directory iteration: its name (namelen bytes,
      no terminator) and its type. */
  datatype Entry = Entry(name: string, dtype: DType)

  /** What a path names. A regular file has its bytes and, optionally, the
      offset from which every read fails with an I/O error. `Forbidden`
      exists but may not be opened (permissions). */
  datatype Node =
    | Regular(content: seq<byte>, faultAt: Option<nat>)
    | Directory(entries: seq<Entry>)
    | Forbidden

  /** An open `struct file`: what it refers to and its cursor `f_pos`. */
  class File {
    const node: Node
    var pos: nat

    constructor (node: Node)
      ensures this.node == node && pos == 0
    {
      this.node := node;
      pos := 0;
    }
  }

  /** A `struct file *` as the C code holds it: NULL, a real pointer, or an
      error pointer that encodes a negative errno (IS_ERR / PTR_ERR). */
  datatype FileRef = Null | Ptr(file: File) | ErrPtr(errno: int)

  /** What `kernel_read` returns: the bytes it copied into the buffer (their
      count is the non-negative return value), or a negative errno. */
  datatype ReadResult = Read(bytes: seq<byte>) | ReadFailed(errno: int)

  /** `kernel_read(file, buf, count, &pos)` on a file that refers to `n`,
      cursor at `pos`: never more than `count` bytes, an empty read only at
      end of file, and an error for a faulty region or a non-regular file. */
  function ReadAt(n: Node, pos: nat, count: nat): (r: ReadResult)
    ensures r.Read? ==> n.Regular? && |r.bytes| <= count
    ensures r.Read? && pos <= |n.content| ==> pos + |r.bytes| <= |n.content|
    ensures r.Read? ==> (r.bytes == [] <==> count == 0 || pos >= |n.content|)
    ensures r.ReadFailed? ==> r.errno < 0
  {
    match n
    case Regular(c, fault) =>
      if fault.Some? && fault.value <= pos then ReadFailed(-EIO)
      else if pos >= |c| then Read([])
      else Read(c[pos..pos + Min(count, |c| - pos)])
    case Directory(_) => ReadFailed(-EISDIR)
    case Forbidden => ReadFailed(-EACCES)
  }

  /** `kernel_read`: copies what ReadAt says and advances the cursor by the
      number of bytes read. */
  method KernelRead(f: File, count: nat) returns (r: ReadResult)
    modifies f
    ensures r == ReadAt(f.node, old(f.pos), count)
    ensures f.pos == old(f.pos) + (if r.Read? then |r.bytes| else 0)
  {
    r := ReadAt(f.node, f.pos, count);
    if r.Read? {
      f.pos := f.pos + |r.bytes|;
    }
  }

  /** The string a C function sees when handed buffer `s`: everything before
      the first NUL (or the whole buffer if it holds none). */
  function CStr(s: seq<char>): (r: string)
    ensures |r| <= |s| && r == s[..|r|]
    ensures '\0' !in r
    ensures |r| < |s| ==> s[|r|] == '\0'
  {
    if s == [] || s[0] == '\0' then [] else [s[0]] + CStr(s[1..])
  }

  /** A buffer holds the C string `t` when `t` is followed by a NUL. */
  lemma {:induction false} CStrOfTerminated(b: seq<char>, t: string)
    requires '\0' !in t
    requires |t| < |b| && b[..|t|] == t && b[|t|] == '\0'
    ensures CStr(b) == t
  {
    if t != [] {
      assert b[0] == t[0];
      assert b[1..][..|t| - 1] == t[1..];
      CStrOfTerminated(b[1..], t[1..]);
    }
  }

  /** What `snprintf(buf, size, ...)` leaves in the first cells of `buf` when
      the formatted text is `s`: as much of `s` as fits in size - 1 cells,
      then a NUL. */
  ghost predicate SnprintfWrote(b: seq<char>, size: nat, s: string)
    requires 0 < size
  {
    var k := Min(|s|, size - 1);
    k < |b| && b[..k] == s[..k] && b[k] == '\0'
  }

  /** `snprintf` into a buffer of at least `size` cells; the cells after the
      terminator keep whatever they held. */
  method Snprintf(buf: array<char>, size: nat, s: string)
    requires 0 < size <= buf.Length
    modifies buf
    ensures SnprintfWrote(buf[..], size, s)
    ensures forall i :: Min(|s|, size - 1) < i < buf.Length ==> buf[i] == old(buf[i])
  {
    var k := Min(|s|, size - 1);
    forall i | 0 <= i < k {
      buf[i] := s[i];
    }
    buf[k] := '\0';
    assert buf[..][..k] == s[..k];
  }
}
