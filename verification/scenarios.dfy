/** What loading the modelled module gives on one small file system: a reference
    /ref, and a directory /d whose entries exercise every branch of the
    visitor. The contents are parameters: `h` is the reference's, and `x`
    is any other content (think "hello" and "hellx"). */
module Scenarios {
  import opened Kernel
  import opened Compare
  import opened Filter
  import opened FindDup

  /** b.txt matches, c.txt differs, .d.txt is hidden, sub is a directory,
      e.txt may not be opened. */
  const Entries: seq<Entry> := [
    Entry("b.txt", DT_REG),
    Entry("c.txt", DT_REG),
    Entry(".d.txt", DT_REG),
    Entry("sub", DT_DIR),
    Entry("e.txt", DT_REG)
  ]

  function Files(h: seq<byte>, x: seq<byte>): map<string, Node>
  {
    map[
      "/d" := Directory(Entries),
      "/ref" := Regular(h, None),
      "/d/b.txt" := Regular(h, None),
      "/d/c.txt" := Regular(x, None),
      "/d/.d.txt" := Regular(h, None),
      "/d/sub" := Directory([]),
      "/d/e.txt" := Forbidden
    ]
  }

  function Setup(h: seq<byte>, x: seq<byte>): Config
  {
    Config("/d", "/ref", Files(h, x), 4096)
  }

  lemma VisitsB(h: seq<byte>, x: seq<byte>)
    ensures VisitLog(Setup(h, x), Regular(h, None), Entries[0]) == [DuplicateFound("/ref", "/d/b.txt")]
  {
    assert JoinPath("/d", "b.txt") == "/d/b.txt";
    assert Lookup(Files(h, x), "/d/b.txt") == Opens(Regular(h, None));
    IdenticalBytes(h, None, None);
  }

  lemma VisitsC(h: seq<byte>, x: seq<byte>)
    requires h != x
    ensures VisitLog(Setup(h, x), Regular(h, None), Entries[1]) == []
  {
    assert JoinPath("/d", "c.txt") == "/d/c.txt";
    assert Lookup(Files(h, x), "/d/c.txt") == Opens(Regular(x, None));
    CompareDecidesEquality(Regular(h, None), Regular(x, None));
  }

  lemma VisitsE(h: seq<byte>, x: seq<byte>)
    ensures VisitLog(Setup(h, x), Regular(h, None), Entries[4]) == [CompareOpenFailed]
  {
    assert JoinPath("/d", "e.txt") == "/d/e.txt";
    assert Lookup(Files(h, x), "/d/e.txt") == Refused(-EACCES);
  }

  /** The scan over the first i entries of /d. */
  lemma ScanPrefix(h: seq<byte>, x: seq<byte>, i: nat)
    requires h != x && 1 <= i <= 4
    ensures ScanLog(Setup(h, x), Regular(h, None), Entries[..i]) == [DuplicateFound("/ref", "/d/b.txt")]
  {
    ScanLogSnoc(Setup(h, x), Regular(h, None), Entries, i - 1);
    if i == 1 {
      assert Entries[..0] == [];
      VisitsB(h, x);
    } else {
      ScanPrefix(h, x, i - 1);
      if i == 2 {
        VisitsC(h, x);
      }
    }
  }

  /** The scan over /d: one duplicate (b.txt) and one open failure (e.txt);
      nothing for the differing, hidden and directory entries. */
  lemma ScanOfD(h: seq<byte>, x: seq<byte>)
    requires h != x
    ensures ScanLog(Setup(h, x), Regular(h, None), Entries) == [DuplicateFound("/ref", "/d/b.txt"), CompareOpenFailed]
  {
    ScanPrefix(h, x, 4);
    VisitsE(h, x);
    ScanLogSnoc(Setup(h, x), Regular(h, None), Entries, 4);
    assert Entries[..5] == Entries;
  }

  /** /d opens as the directory and /ref as the reference. */
  lemma SetupOpens(h: seq<byte>, x: seq<byte>)
    ensures Lookup(Files(h, x), "/d") == Opens(Directory(Entries))
    ensures Lookup(Files(h, x), "/ref") == Opens(Regular(h, None))
    ensures Lookup(Files(h, x) - {"/ref"}, "/d") == Opens(Directory(Entries))
    ensures Lookup(Files(h, x) - {"/ref"}, "/ref") == Refused(-ENOENT)
    ensures Lookup(Files(h, x) - {"/d"}, "/d") == Refused(-ENOENT)
  {
  }

  /** The paths opened after the first entry of /d: b.txt. */
  lemma OpensFirst(cfg: Config)
    requires cfg.dirPath == "/d" && cfg.kmallocLimit == 4096
    ensures ScanOpens(cfg, Entries[..1]) == ["/d/b.txt"]
  {
    assert Entries[..0] == [];
    ScanOpensSnoc(cfg, Entries, 0);
    assert JoinPath("/d", "b.txt") == "/d/b.txt";
  }

  /** The paths opened after the first two entries of /d: c.txt is added. */
  lemma OpensSecond(cfg: Config)
    requires cfg.dirPath == "/d" && cfg.kmallocLimit == 4096
    ensures ScanOpens(cfg, Entries[..2]) == ["/d/b.txt", "/d/c.txt"]
  {
    OpensFirst(cfg);
    ScanOpensSnoc(cfg, Entries, 1);
    assert JoinPath("/d", "c.txt") == "/d/c.txt";
  }

  /** The hidden file and the directory add nothing. */
  lemma OpensFourth(cfg: Config)
    requires cfg.dirPath == "/d" && cfg.kmallocLimit == 4096
    ensures ScanOpens(cfg, Entries[..4]) == ["/d/b.txt", "/d/c.txt"]
  {
    OpensSecond(cfg);
    ScanOpensSnoc(cfg, Entries, 2);
    ScanOpensSnoc(cfg, Entries, 3);
  }

  /** The entries among the first i of /d that pass the filter. */
  lemma CountPrefix(i: nat)
    requires i <= 5
    ensures CountEligible(Entries[..i]) == if i == 0 then 0 else if i == 1 then 1 else if i <= 4 then 2 else 3
  {
    if i == 0 {
      assert Entries[..0] == [];
    } else {
      CountPrefix(i - 1);
      assert Entries[..i][..i - 1] == Entries[..i - 1];
    }
  }

  /** The paths the scan of /d opens: every regular, non-hidden entry,
      the forbidden one included; not the hidden file, not the directory. */
  lemma OpensOfD(cfg: Config)
    requires cfg.dirPath == "/d" && cfg.kmallocLimit == 4096
    ensures ScanOpens(cfg, Entries) == ["/d/b.txt", "/d/c.txt", "/d/e.txt"]
    ensures CountEligible(Entries) == 3
  {
    OpensFourth(cfg);
    ScanOpensSnoc(cfg, Entries, 4);
    assert JoinPath("/d", "e.txt") == "/d/e.txt";
    CountPrefix(5);
    assert Entries[..5] == Entries;
  }

  /** /d lists C-string names only. */
  lemma NamesAreCStrings()
    ensures EntryNamesAreCStrings(Directory(Entries))
  {
  }

  /** What loading the module on that file system opens and scans, in the
      terms the loader's contract uses. */
  lemma RunOfD(cfg: Config, h: seq<byte>, x: seq<byte>)
    requires cfg == Setup(h, x) && h != x
    ensures '\0' !in cfg.dirPath
    ensures Lookup(cfg.fs, cfg.dirPath) == Opens(Directory(Entries))
    ensures Lookup(cfg.fs, cfg.filename) == Opens(Regular(h, None))
    ensures EntryNamesAreCStrings(Lookup(cfg.fs, cfg.dirPath).node)
    ensures [] + [Starting] + ScanLog(cfg, Lookup(cfg.fs, cfg.filename).node, DirEntries(Lookup(cfg.fs, cfg.dirPath).node)) + [Finished]
            == [Starting, DuplicateFound("/ref", "/d/b.txt"), CompareOpenFailed, Finished]
    ensures [] + [cfg.dirPath] + [cfg.filename] + ScanOpens(cfg, DirEntries(Lookup(cfg.fs, cfg.dirPath).node))
            == ["/d", "/ref", "/d/b.txt", "/d/c.txt", "/d/e.txt"]
  {
    NamesAreCStrings();
    SetupOpens(h, x);
    ScanOfD(h, x);
    OpensOfD(cfg);
  }

  /** Loading the module on that file system: it logs the start, the
      duplicate, the failed open and the end, and returns 0. */
  method LoadWithReference(h: seq<byte>, x: seq<byte>) returns (rc: int, log: seq<Message>, ghost paths: seq<string>)
    requires h != x
    ensures rc == 0
    ensures log == [Starting, DuplicateFound("/ref", "/d/b.txt"), CompareOpenFailed, Finished]
    ensures paths == ["/d", "/ref", "/d/b.txt", "/d/c.txt", "/d/e.txt"]
  {
    var cfg := Setup(h, x);
    RunOfD(cfg, h, x);
    var m := new DupFinder(cfg);
    rc := m.FindDupInit();
    log := m.log;
    paths := m.pathsOpened;
  }

  /** Loading the module when the reference path names nothing: the open
      error is returned and nothing is compared. */
  method LoadWithoutReference(h: seq<byte>, x: seq<byte>) returns (rc: int, log: seq<Message>, ghost paths: seq<string>)
    ensures rc == -ENOENT
    ensures log == [Starting, FilepOpenFailed]
    ensures paths == ["/d", "/ref"]
  {
    var cfg := Config("/d", "/ref", Files(h, x) - {"/ref"}, 4096);
    NamesAreCStrings();
    SetupOpens(h, x);
    var m := new DupFinder(cfg);
    rc := m.FindDupInit();
    log := m.log;
    paths := m.pathsOpened;
  }

  /** Loading the module when the directory path names nothing: the open
      error is returned, and the reference is never opened. */
  method LoadWithoutDirectory(h: seq<byte>, x: seq<byte>) returns (rc: int, log: seq<Message>, ghost paths: seq<string>)
    ensures rc == -ENOENT
    ensures log == [Starting, DirOpenFailed]
    ensures paths == ["/d"]
  {
    var cfg := Config("/d", "/ref", Files(h, x) - {"/d"}, 4096);
    SetupOpens(h, x);
    var m := new DupFinder(cfg);
    rc := m.FindDupInit();
    log := m.log;
    paths := m.pathsOpened;
  }
}
