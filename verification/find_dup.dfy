/** The duplicate finder proper: the per-entry visitor find_dup_subdir and
    the module initialiser find_dup_init that opens the directory and the
    reference file, lets directory iteration call the visitor on every
    entry, and closes both handles. The module's state (the global `filep`,
    the kernel's table of open files and of kmalloc'd buffers, and the
    kernel log) is the state of one DupFinder object. */
module FindDup {
  import opened Kernel
  import opened Compare
  import opened Filter

  /** The lines the module writes with printk. */
  datatype Message =
    | Starting                                              // "Starting..."
    | DirOpenFailed                                         // "Error opening dir_path"
    | FilepOpenFailed                                       // "Error opening filep"
    | AllocFailed                                           // "Error allocating memory for compare_file_name"
    | CompareOpenFailed                                     // "Error opening compare_file"
    | DuplicateFound(reference: string, candidate: string)  // "Duplicate found: %s = %s"
    | Finished                                              // "Finished"

  /** The two module parameters and the machine the module runs on: the
      files each path names and how many bytes kmalloc will hand out. */
  datatype Config = Config(dirPath: string, filename: string, fs: map<string, Node>, kmallocLimit: nat)

  /** What filp_open(path, O_RDONLY, 0) gives: the node, or a negative errno. */
  datatype Opened = Opens(node: Node) | Refused(errno: int)

  function Lookup(fs: map<string, Node>, path: string): (o: Opened)
    ensures o.Refused? ==> o.errno < 0
    ensures o.Opens? <==> path in fs && !fs[path].Forbidden?
    ensures o.Opens? ==> o.node == fs[path]
    ensures path !in fs ==> o == Refused(-ENOENT)
    ensures path in fs && fs[path].Forbidden? ==> o == Refused(-EACCES)
  {
    if path !in fs then Refused(-ENOENT)
    else if fs[path].Forbidden? then Refused(-EACCES)
    else Opens(fs[path])
  }

  /** The entries iterate_dir delivers from an open file; a file that is not
      a directory delivers none (iterate_dir fails, and its result is not
      looked at). */
  function DirEntries(n: Node): (es: seq<Entry>)
    ensures es != [] ==> n.Directory?
    ensures n.Directory? ==> es == n.entries
  {
    if n.Directory? then n.entries else []
  }

  /** Every name directory iteration delivers from n is a C string. */
  predicate EntryNamesAreCStrings(n: Node)
  {
    forall e | e in DirEntries(n) :: '\0' !in e.name
  }

  /** How the visitor leaves an entry. */
  datatype Visit = Skipped | NoMemory | OpenFailed(errno: int) | Compared(path: string, rc: int)

  /** What find_dup_subdir does with entry e while `ref` is the reference:
      only an entry the filter rejects is skipped, a refused open carries
      the negative errno, and a comparison is made on the entry's joined
      path and answers -EIO, 0 or 1. */
  function VisitOutcome(cfg: Config, ref: Node, e: Entry): (v: Visit)
    ensures v.Skipped? <==> !Eligible(e)
    ensures v.OpenFailed? ==> v.errno < 0
    ensures v.Compared? ==> v.path == JoinPath(cfg.dirPath, e.name) && (v.rc == -EIO || v.rc == 0 || v.rc == 1)
  {
    if !Eligible(e) then Skipped
    else if PathBufLen(cfg.dirPath, e.name) > cfg.kmallocLimit then NoMemory
    else
      var path := JoinPath(cfg.dirPath, e.name);
      match Lookup(cfg.fs, path)
      case Refused(err) => OpenFailed(err)
      case Opens(n) => Compared(path, Run(ref, n, 0, 0).rc)
  }

  /** An entry the filter rejects (a hidden name, "." and ".." among them,
      or any type but DT_REG) is never allocated for, opened or compared,
      whatever the file system holds, and logs nothing. */
  lemma FilteredOut(cfg: Config, ref: Node, e: Entry)
    requires IsHidden(e.name) || e.dtype != DT_REG
    ensures VisitOutcome(cfg, ref, e) == Skipped && VisitLog(cfg, ref, e) == []
    ensures VisitOpens(cfg, e) == [] && CountEligible([e]) == 0
  {
    assert [e][..0] == [];
  }

  /** The three ways an entry that passes the filter is logged. */
  lemma LogsAllocFailure(cfg: Config, ref: Node, e: Entry)
    requires Eligible(e) && PathBufLen(cfg.dirPath, e.name) > cfg.kmallocLimit
    ensures VisitLog(cfg, ref, e) == [AllocFailed]
  {
  }

  lemma LogsOpenFailure(cfg: Config, ref: Node, e: Entry)
    requires Eligible(e) && PathBufLen(cfg.dirPath, e.name) <= cfg.kmallocLimit
    requires Lookup(cfg.fs, JoinPath(cfg.dirPath, e.name)).Refused?
    ensures VisitLog(cfg, ref, e) == [CompareOpenFailed]
  {
  }

  lemma LogsComparison(cfg: Config, ref: Node, e: Entry, n: Node, rc: int)
    requires Eligible(e) && PathBufLen(cfg.dirPath, e.name) <= cfg.kmallocLimit
    requires Lookup(cfg.fs, JoinPath(cfg.dirPath, e.name)) == Opens(n) && rc == Run(ref, n, 0, 0).rc
    ensures VisitLog(cfg, ref, e) ==
              if rc != 0 then [DuplicateFound(cfg.filename, JoinPath(cfg.dirPath, e.name))] else []
  {
  }

  /** The lines the visitor logs for entry e. Any non-zero answer of
      compare_files, -EIO included, is reported as a duplicate. It logs at
      most one line, and nothing for an entry the filter rejects. */
  function VisitLog(cfg: Config, ref: Node, e: Entry): (ms: seq<Message>)
    ensures |ms| <= 1
    ensures !Eligible(e) ==> ms == []
  {
    match VisitOutcome(cfg, ref, e)
    case Skipped => []
    case NoMemory => [AllocFailed]
    case OpenFailed(_) => [CompareOpenFailed]
    case Compared(path, rc) => if rc != 0 then [DuplicateFound(cfg.filename, path)] else []
  }

  /** The lines logged while the visitor runs over `entries` in order: at
      most one per entry. */
  function ScanLog(cfg: Config, ref: Node, entries: seq<Entry>): (ms: seq<Message>)
    ensures |ms| <= |entries|
  {
    if entries == [] then []
    else ScanLog(cfg, ref, entries[..|entries| - 1]) + VisitLog(cfg, ref, entries[|entries| - 1])
  }

  /** Entry e is reported as a duplicate at path p: it passes the filter,
      its path buffer can be allocated, p is its path, p opens, and
      compare_files answers anything but 0. */
  predicate Reports(cfg: Config, ref: Node, e: Entry, p: string)
  {
    && Eligible(e)
    && PathBufLen(cfg.dirPath, e.name) <= cfg.kmallocLimit
    && p == JoinPath(cfg.dirPath, e.name)
    && Lookup(cfg.fs, p).Opens?
    && Run(ref, Lookup(cfg.fs, p).node, 0, 0).rc != 0
  }


  /** The visitor logs "Duplicate found: r = p" for e exactly when r is the
      reference's name and e is reported at p. */
  lemma VisitReports(cfg: Config, ref: Node, e: Entry, r: string, p: string)
    ensures DuplicateFound(r, p) in VisitLog(cfg, ref, e) <==> r == cfg.filename && Reports(cfg, ref, e, p)
  {
  }

  /** Every report a scan logs comes from an entry reported at that path. */
  lemma {:induction false} ReportedOnlyIf(cfg: Config, ref: Node, entries: seq<Entry>, r: string, p: string)
    requires DuplicateFound(r, p) in ScanLog(cfg, ref, entries)
    ensures r == cfg.filename && exists i :: 0 <= i < |entries| && Reports(cfg, ref, entries[i], p)
  {
    var n := |entries| - 1;
    if DuplicateFound(r, p) in ScanLog(cfg, ref, entries[..n]) {
      ReportedOnlyIf(cfg, ref, entries[..n], r, p);
      var i :| 0 <= i < n && Reports(cfg, ref, entries[..n][i], p);
      assert entries[..n][i] == entries[i];
    } else {
      VisitReports(cfg, ref, entries[n], r, p);
    }
  }

  /** Every entry reported at a path makes the scan log that report. */
  lemma {:induction false} ReportedIf(cfg: Config, ref: Node, entries: seq<Entry>, i: nat, p: string)
    requires i < |entries| && Reports(cfg, ref, entries[i], p)
    ensures DuplicateFound(cfg.filename, p) in ScanLog(cfg, ref, entries)
  {
    var n := |entries| - 1;
    if i < n {
      assert entries[..n][i] == entries[i];
      ReportedIf(cfg, ref, entries[..n], i, p);
    } else {
      VisitReports(cfg, ref, entries[n], cfg.filename, p);
    }
  }

  /** The report condition: a scan logs "Duplicate found: r = p" exactly
      when r is the reference's name and some entry is reported at p. */
  lemma ReportedIff(cfg: Config, ref: Node, entries: seq<Entry>, r: string, p: string)
    ensures DuplicateFound(r, p) in ScanLog(cfg, ref, entries) <==>
              r == cfg.filename && exists i :: 0 <= i < |entries| && Reports(cfg, ref, entries[i], p)
  {
    if DuplicateFound(r, p) in ScanLog(cfg, ref, entries) {
      ReportedOnlyIf(cfg, ref, entries, r, p);
    }
    if r == cfg.filename && exists i :: 0 <= i < |entries| && Reports(cfg, ref, entries[i], p) {
      var i :| 0 <= i < |entries| && Reports(cfg, ref, entries[i], p);
      ReportedIf(cfg, ref, entries, i, p);
    }
  }

  /** Because compare_files rewinds the reference first, the reports do not
      depend on the order in which directory iteration delivers entries. */
  lemma ReportsIgnoreOrder(cfg: Config, ref: Node, es1: seq<Entry>, es2: seq<Entry>, p: string)
    requires forall e :: e in es1 <==> e in es2
    ensures DuplicateFound(cfg.filename, p) in ScanLog(cfg, ref, es1) <==>
            DuplicateFound(cfg.filename, p) in ScanLog(cfg, ref, es2)
  {
    ReportedIff(cfg, ref, es1, cfg.filename, p);
    ReportedIff(cfg, ref, es2, cfg.filename, p);
    if exists i :: 0 <= i < |es1| && Reports(cfg, ref, es1[i], p) {
      var i :| 0 <= i < |es1| && Reports(cfg, ref, es1[i], p);
      assert es1[i] in es2;
      var j :| 0 <= j < |es2| && es2[j] == es1[i];
    }
    if exists j :: 0 <= j < |es2| && Reports(cfg, ref, es2[j], p) {
      var j :| 0 <= j < |es2| && Reports(cfg, ref, es2[j], p);
      assert es2[j] in es1;
      var i :| 0 <= i < |es1| && es1[i] == es2[j];
    }
  }

  /** A read error counts as a match: when the reference names a directory,
      every candidate that passes the filter, fits in memory and opens is
      logged as a duplicate. */
  lemma DirectoryReferenceMatchesAll(cfg: Config, ref: Node, e: Entry)
    requires ref.Directory?
    requires Eligible(e) && PathBufLen(cfg.dirPath, e.name) <= cfg.kmallocLimit
    requires Lookup(cfg.fs, JoinPath(cfg.dirPath, e.name)).Opens?
    ensures VisitLog(cfg, ref, e) == [DuplicateFound(cfg.filename, JoinPath(cfg.dirPath, e.name))]
  {
    NonRegularFails(ref, Lookup(cfg.fs, JoinPath(cfg.dirPath, e.name)).node);
  }

  /** The paths the visitor hands to filp_open for entry e: none for an
      entry the filter rejects or whose path buffer cannot be allocated,
      the entry's joined path otherwise. */
  function VisitOpens(cfg: Config, e: Entry): seq<string>
  {
    if !Eligible(e) || PathBufLen(cfg.dirPath, e.name) > cfg.kmallocLimit then []
    else [JoinPath(cfg.dirPath, e.name)]
  }

  /** The visitor opens a path exactly when it goes on to compare or to
      report the failed open, and the path it opens is the one it compares. */
  lemma OpensOnlyWhatItCompares(cfg: Config, ref: Node, e: Entry)
    ensures VisitOpens(cfg, e) == [] <==> VisitOutcome(cfg, ref, e).Skipped? || VisitOutcome(cfg, ref, e).NoMemory?
    ensures VisitOutcome(cfg, ref, e).Compared? ==> VisitOpens(cfg, e) == [VisitOutcome(cfg, ref, e).path]
  {
  }

  /** The paths opened while the visitor runs over `entries` in order. */
  function ScanOpens(cfg: Config, entries: seq<Entry>): seq<string>
  {
    if entries == [] then []
    else ScanOpens(cfg, entries[..|entries| - 1]) + VisitOpens(cfg, entries[|entries| - 1])
  }

  /** How many of the entries pass the filter. */
  function CountEligible(entries: seq<Entry>): (k: nat)
    ensures k <= |entries|
  {
    if entries == [] then 0
    else CountEligible(entries[..|entries| - 1]) + (if Eligible(entries[|entries| - 1]) then 1 else 0)
  }

  /** The visitor logs at most one line per entry, and nothing for an entry
      the filter rejects. */
  lemma {:induction false} ScanLogLength(cfg: Config, ref: Node, entries: seq<Entry>)
    ensures |ScanLog(cfg, ref, entries)| <= CountEligible(entries)
  {
    if entries != [] {
      ScanLogLength(cfg, ref, entries[..|entries| - 1]);
    }
  }

  /** The visitor logs only per-entry lines: an allocation error, an open
      error, or a duplicate of `filename` at the entry's own path. */
  lemma VisitLogLines(cfg: Config, ref: Node, e: Entry, m: Message)
    requires m in VisitLog(cfg, ref, e)
    ensures m == AllocFailed || m == CompareOpenFailed || m == DuplicateFound(cfg.filename, JoinPath(cfg.dirPath, e.name))
  {
  }

  /** A scan logs only per-entry lines: never "Starting...", "Finished" or
      an error of find_dup_init, and every report names `filename`. */
  lemma {:induction false} ScanLogLines(cfg: Config, ref: Node, entries: seq<Entry>, m: Message)
    requires m in ScanLog(cfg, ref, entries)
    ensures m.AllocFailed? || m.CompareOpenFailed? || (m.DuplicateFound? && m.reference == cfg.filename)
  {
    var n := |entries| - 1;
    if m in ScanLog(cfg, ref, entries[..n]) {
      ScanLogLines(cfg, ref, entries[..n], m);
    } else {
      VisitLogLines(cfg, ref, entries[n], m);
    }
  }

  /** The scan of a prefix one entry longer logs what the shorter scan
      logged, then the new entry's lines. */
  lemma ScanLogSnoc(cfg: Config, ref: Node, entries: seq<Entry>, i: nat)
    requires i < |entries|
    ensures ScanLog(cfg, ref, entries[..i + 1]) == ScanLog(cfg, ref, entries[..i]) + VisitLog(cfg, ref, entries[i])
  {
    assert entries[..i + 1][..i] == entries[..i];
  }

  /** The scan of a prefix one entry longer opens the shorter scan's paths,
      then the new entry's, and allocates once more when the new entry
      passes the filter. */
  lemma ScanOpensSnoc(cfg: Config, entries: seq<Entry>, i: nat)
    requires i < |entries|
    ensures ScanOpens(cfg, entries[..i + 1]) == ScanOpens(cfg, entries[..i]) + VisitOpens(cfg, entries[i])
    ensures CountEligible(entries[..i + 1]) == CountEligible(entries[..i]) + (if Eligible(entries[i]) then 1 else 0)
  {
    assert entries[..i + 1][..i] == entries[..i];
  }

  /** C's conversion of an int to _Bool. */
  function AsBool(v: int): (b: bool)
    ensures v < 0 ==> b
    ensures v == 0 <==> !b
  {
    v != 0
  }

  /** Concatenation is associative. */
  lemma Associative<T>(a: seq<T>, b: seq<T>, c: seq<T>)
    ensures a + b + c == a + (b + c)
  {
  }

  /** An element added to a set that did not hold it and then removed
      again leaves the set as it was. */
  lemma AddedAndRemoved<T>(s: set<T>, x: T)
    requires x !in s
    ensures s + {x} - {x} == s
  {
  }

  class DupFinder {
    const cfg: Config
    /** The global `struct file *filep`: the reference file. */
    var filep: FileRef
    /** Files the module holds open. */
    var openFiles: set<File>
    /** kmalloc'd buffers not yet freed. */
    var buffers: set<array<char>>
    /** The kernel log. */
    var log: seq<Message>
    /** Every path filp_open was asked for, in order. */
    ghost var pathsOpened: seq<string>
    /** How many times kmalloc was called. */
    ghost var allocs: nat

    /** The module as loaded: no file open, nothing allocated, nothing logged. */
    constructor (cfg: Config)
      requires '\0' !in cfg.dirPath
      ensures this.cfg == cfg
      ensures filep == Null && openFiles == {} && buffers == {} && log == []
      ensures pathsOpened == [] && allocs == 0
    {
      this.cfg := cfg;
      filep := Null;
      openFiles := {};
      buffers := {};
      log := [];
      pathsOpened := [];
      allocs := 0;
    }

    /** filp_open(path, O_RDONLY, 0): a fresh open file at offset 0, or an
        error pointer. */
    method FilpOpen(path: string) returns (r: FileRef)
      modifies this`openFiles, this`pathsOpened
      ensures pathsOpened == old(pathsOpened) + [path]
      ensures Lookup(cfg.fs, path).Refused? ==>
                r == ErrPtr(Lookup(cfg.fs, path).errno) && openFiles == old(openFiles)
      ensures Lookup(cfg.fs, path).Opens? ==>
                && r.Ptr? && fresh(r.file) && r.file !in old(openFiles)
                && r.file.node == Lookup(cfg.fs, path).node && r.file.pos == 0
                && openFiles == old(openFiles) + {r.file}
    {
      pathsOpened := pathsOpened + [path];
      match Lookup(cfg.fs, path)
      case Refused(err) =>
        r := ErrPtr(err);
      case Opens(n) =>
        var f := new File(n);
        openFiles := openFiles + {f};
        r := Ptr(f);
    }

    /** filp_close(f, NULL). */
    method FilpClose(f: File)
      modifies this`openFiles
      ensures openFiles == old(openFiles) - {f}
    {
      openFiles := openFiles - {f};
    }

    /** kmalloc(size, GFP_KERNEL): NULL when the request cannot be met. */
    method Kmalloc(size: nat) returns (b: array?<char>)
      modifies this`buffers, this`allocs
      ensures allocs == old(allocs) + 1
      ensures size > cfg.kmallocLimit ==> b == null && buffers == old(buffers)
      ensures size <= cfg.kmallocLimit ==>
                b != null && fresh(b) && b !in old(buffers) && b.Length == size && buffers == old(buffers) + {b}
    {
      allocs := allocs + 1;
      if size > cfg.kmallocLimit {
        b := null;
      } else {
        b := new char[size];
        buffers := buffers + {b};
      }
    }

    /** kfree(b); kfree(NULL) does nothing. */
    method Kfree(b: array?<char>)
      modifies this`buffers
      ensures b == null ==> buffers == old(buffers)
      ensures b != null ==> buffers == old(buffers) - {b}
    {
      if b != null {
        buffers := buffers - {b};
      }
    }

    /** printk. */
    method Printk(m: Message)
      modifies this`log
      ensures log == old(log) + [m]
    {
      log := log + [m];
    }

    /** find_dup_subdir: the actor iterate_dir calls for entry e. It logs
        what VisitLog says, gives back every file and buffer it took, opens
        at most the one candidate VisitOpens names (nothing for an entry the
        filter rejects or whose path buffer is refused), allocates only for
        an entry that passes the filter, and always asks for the iteration
        to go on: its int results, -ENOMEM and PTR_ERR(...) included, are
        non-zero and become true as _Bool. */
    method FindDupSubdir(e: Entry) returns (cont: bool)
      requires '\0' !in cfg.dirPath && '\0' !in e.name
      requires filep.Ptr? && filep.file in openFiles
      modifies this, filep.file
      ensures cont
      ensures filep == old(filep) && openFiles == old(openFiles) && buffers == old(buffers)
      ensures log == old(log) + VisitLog(cfg, filep.file.node, e)
      ensures !Eligible(e) ==> unchanged(filep.file)
      ensures pathsOpened == old(pathsOpened) + VisitOpens(cfg, e)
      ensures allocs == old(allocs) + (if Eligible(e) then 1 else 0)
      ensures !Eligible(e) ==> pathsOpened == old(pathsOpened) && allocs == old(allocs)
      ensures VisitOutcome(cfg, filep.file.node, e).NoMemory? ==> pathsOpened == old(pathsOpened)
    {
      if IsHidden(e.name) || e.dtype != DT_REG {
        return AsBool(1);
      }
      var dirPathLen := |cfg.dirPath|;
      var compareFileNameLen := dirPathLen + |e.name| + 2;
      var compareFileName := Kmalloc(compareFileNameLen);
      if compareFileName == null {
        LogsAllocFailure(cfg, filep.file.node, e);
        Printk(AllocFailed);
        Kfree(compareFileName);
        return AsBool(-ENOMEM);
      }
      var path := FormatPath(compareFileName, cfg.dirPath, e.name);
      var compareFile := FilpOpen(path);
      if compareFile.ErrPtr? {
        LogsOpenFailure(cfg, filep.file.node, e);
        Printk(CompareOpenFailed);
        Kfree(compareFileName);
        AddedAndRemoved(old(buffers), compareFileName);
        return AsBool(compareFile.errno);
      }
      var rc := CompareFiles(filep.file, compareFile.file);
      LogsComparison(cfg, filep.file.node, e, compareFile.file.node, rc);
      if rc != 0 {
        Printk(DuplicateFound(cfg.filename, path));
      }
      FilpClose(compareFile.file);
      AddedAndRemoved(old(openFiles), compareFile.file);
      Kfree(compareFileName);
      AddedAndRemoved(old(buffers), compareFileName);
      return AsBool(1);
    }

    /** iterate_dir(dir, &ctx) with find_dup_subdir as the actor: the actor
        sees every entry in turn while it answers true. */
    method IterateDir(dir: File)
      requires '\0' !in cfg.dirPath && EntryNamesAreCStrings(dir.node)
      requires filep.Ptr? && filep.file in openFiles
      modifies this, filep.file
      ensures filep == old(filep) && openFiles == old(openFiles) && buffers == old(buffers)
      ensures log == old(log) + ScanLog(cfg, filep.file.node, DirEntries(dir.node))
      ensures pathsOpened == old(pathsOpened) + ScanOpens(cfg, DirEntries(dir.node))
      ensures allocs == old(allocs) + CountEligible(DirEntries(dir.node))
    {
      var entries := DirEntries(dir.node);
      ghost var ref := filep.file.node;
      var i := 0;
      while i < |entries|
        invariant 0 <= i <= |entries|
        invariant filep == old(filep) && openFiles == old(openFiles) && buffers == old(buffers)
        invariant log == old(log) + ScanLog(cfg, ref, entries[..i])
        invariant pathsOpened == old(pathsOpened) + ScanOpens(cfg, entries[..i])
        invariant allocs == old(allocs) + CountEligible(entries[..i])
      {
        var cont := FindDupSubdir(entries[i]);
        if !cont {
          break;
        }
        ScanLogSnoc(cfg, ref, entries, i);
        ScanOpensSnoc(cfg, entries, i);
        Associative(old(log), ScanLog(cfg, ref, entries[..i]), VisitLog(cfg, ref, entries[i]));
        Associative(old(pathsOpened), ScanOpens(cfg, entries[..i]), VisitOpens(cfg, entries[i]));
        i := i + 1;
      }
      assert entries[..|entries|] == entries;
    }

    /** find_dup_init. It opens the directory first and the reference
        second. If the directory does not open it returns that error and
        never opens the reference; if the reference does not open it returns
        that error with the directory still open (it is never closed) and
        `filep` holding the error pointer. Otherwise it runs the visitor over
        the directory, closes both files and returns 0; `filep` still points
        at the closed reference. The paths it opens are, in order, the
        directory, the reference and the candidates of the scan; it
        allocates once per entry that passes the filter. */
    method FindDupInit() returns (rc: int)
      requires '\0' !in cfg.dirPath
      requires Lookup(cfg.fs, cfg.dirPath).Opens? ==> EntryNamesAreCStrings(Lookup(cfg.fs, cfg.dirPath).node)
      modifies this
      ensures buffers == old(buffers)
      ensures Lookup(cfg.fs, cfg.dirPath).Refused? ==>
                && rc == Lookup(cfg.fs, cfg.dirPath).errno < 0
                && log == old(log) + [Starting] + [DirOpenFailed]
                && openFiles == old(openFiles) && filep == old(filep)
                && pathsOpened == old(pathsOpened) + [cfg.dirPath] && allocs == old(allocs)
      ensures Lookup(cfg.fs, cfg.dirPath).Opens? && Lookup(cfg.fs, cfg.filename).Refused? ==>
                && rc == Lookup(cfg.fs, cfg.filename).errno < 0
                && log == old(log) + [Starting] + [FilepOpenFailed]
                && filep == ErrPtr(rc)
                && (exists d: File :: d !in old(openFiles) && openFiles == old(openFiles) + {d}
                                      && d.node == Lookup(cfg.fs, cfg.dirPath).node)
                && pathsOpened == old(pathsOpened) + [cfg.dirPath] + [cfg.filename] && allocs == old(allocs)
      ensures Lookup(cfg.fs, cfg.dirPath).Opens? && Lookup(cfg.fs, cfg.filename).Opens? ==>
                && rc == 0
                && log == old(log) + [Starting]
                          + ScanLog(cfg, Lookup(cfg.fs, cfg.filename).node, DirEntries(Lookup(cfg.fs, cfg.dirPath).node))
                          + [Finished]
                && openFiles == old(openFiles)
                && filep.Ptr? && filep.file !in openFiles && filep.file.node == Lookup(cfg.fs, cfg.filename).node
                && pathsOpened == old(pathsOpened) + [cfg.dirPath] + [cfg.filename] + ScanOpens(cfg, DirEntries(Lookup(cfg.fs, cfg.dirPath).node))
                && allocs == old(allocs) + CountEligible(DirEntries(Lookup(cfg.fs, cfg.dirPath).node))
    {
      Printk(Starting);
      var dir := FilpOpen(cfg.dirPath);
      if dir.ErrPtr? {
        Printk(DirOpenFailed);
        return dir.errno;
      }
      var ref := FilpOpen(cfg.filename);
      filep := ref;
      if ref.ErrPtr? {
        Printk(FilepOpenFailed);
        return ref.errno;
      }
      IterateDir(dir.file);
      FilpClose(ref.file);
      AddedAndRemoved(old(openFiles) + {dir.file}, ref.file);
      FilpClose(dir.file);
      AddedAndRemoved(old(openFiles), dir.file);
      Printk(Finished);
      return 0;
    }
  }
}
