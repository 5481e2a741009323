/** The pure parts of the per-entry visitor: which directory entries are
    compared at all, and the path that is built for an entry that is. */
module Filter {
  import opened Kernel

  /** A name that starts with '.': hidden files, "." and "..". An empty
      name has its terminator at index 0, so it is not hidden. */
  function IsHidden(name: string): (h: bool)
    ensures name == "." || name == ".." ==> h
    ensures name == "" ==> !h
  {
    |name| > 0 && name[0] == '.'
  }

  /** Only regular files whose names are not hidden are compared; the
      entries "." and ".." never are. */
  function Eligible(e: Entry): (b: bool)
    ensures b ==> e.dtype == DT_REG && e.name != "." && e.name != ".."
    ensures e.dtype != DT_REG ==> !b
  {
    !IsHidden(e.name) && e.dtype == DT_REG
  }

  /** The candidate path, `dir_path "/" name`: the directory, one slash and
      the name, and a C string when both parts are. */
  function JoinPath(dir: string, name: string): (p: string)
    ensures |p| == |dir| + |name| + 1
    ensures p[..|dir|] == dir && p[|dir|] == '/' && p[|dir| + 1..] == name
    ensures '\0' !in dir && '\0' !in name ==> '\0' !in p
  {
    dir + "/" + name
  }

  /** Bytes kmalloc'd for the candidate path, strlen(dir_path) + namelen + 2:
      one more than the joined path is long. */
  function PathBufLen(dir: string, name: string): (n: nat)
    ensures n == |JoinPath(dir, name)| + 1
  {
    |dir| + |name| + 2
  }

  /** The buffer size leaves room for exactly the joined path and its
      terminator: snprintf writes all of it, and the string read back from
      the buffer is the joined path. */
  lemma PathFits(dir: string, name: string, b: seq<char>)
    requires '\0' !in dir && '\0' !in name
    requires SnprintfWrote(b, PathBufLen(dir, name), JoinPath(dir, name))
    ensures |JoinPath(dir, name)| + 1 == PathBufLen(dir, name)
    ensures CStr(b) == JoinPath(dir, name)
  {
    var s := JoinPath(dir, name);
    assert s[..|s|] == s;
    CStrOfTerminated(b, s);
  }

  /** snprintf(buf, PathBufLen(dir, name), "%s/%s", dir, name): afterwards
      the buffer holds the joined path as a C string. */
  method FormatPath(buf: array<char>, dir: string, name: string) returns (path: string)
    requires '\0' !in dir && '\0' !in name
    requires buf.Length == PathBufLen(dir, name)
    modifies buf
    ensures path == CStr(buf[..]) == JoinPath(dir, name)
  {
    Snprintf(buf, buf.Length, JoinPath(dir, name));
    path := CStr(buf[..]);
    PathFits(dir, name, buf[..]);
  }

  /** One byte fewer would lose the last character of the path. */
  lemma OneLessTruncates(dir: string, name: string, b: seq<char>)
    requires '\0' !in dir && '\0' !in name
    requires SnprintfWrote(b, PathBufLen(dir, name) - 1, JoinPath(dir, name))
    ensures CStr(b) == JoinPath(dir, name)[..|JoinPath(dir, name)| - 1] != JoinPath(dir, name)
  {
    var s := JoinPath(dir, name);
    var t := s[..|s| - 1];
    assert '\0' !in t by {
      assert forall i :: 0 <= i < |t| ==> t[i] == (if i < |dir| then dir[i] else if i == |dir| then '/' else name[i - |dir| - 1]);
    }
    CStrOfTerminated(b, t);
  }
}
