# find_dup: a verified model of the duplicate-file finder kernel module

`find_dup.c` is a Linux kernel module. When loaded with the parameters
`dir_path` and `filename`, it does the following:

1. Opens the directory `dir_path`.
2. Opens the reference file `filename` into the global `filep`.
3. Lets `iterate_dir` call `find_dup_subdir` on every entry of the directory.
4. For each entry that is not hidden and is a regular file:
   - builds the path `dir_path/name` in a kmalloc'd buffer;
   - opens that path;
   - compares it with the reference using `compare_files`, a lock-step comparison in 1024-byte chunks;
   - logs "Duplicate found" when the comparison answers non-zero;
   - closes the candidate and frees the buffer.
5. Closes both files and logs "Finished".

This project models that code in Dafny and proves what it does.

- `kernel.dfy` (module `Kernel`) models the kernel interface the module relies on:
  - bytes and `d_type` values;
  - what a path can name: a regular file with optional faulty region, a directory, or a file that may not be opened;
  - `struct file` as a class with a cursor `pos`;
  - `kernel_read`;
  - `snprintf` into a char array;
  - how a C function reads a NUL-terminated string out of a buffer.
- `compare.dfy` (module `Compare`) models `compare_files`.
  - `CompareFiles` is the imperative do-while loop over two `File` objects.
  - It is proved against `Run`, the same loop written as a function of the two files and the two cursors.
  - The lemmas say what `Run`'s answer means.
- `filter.dfy` (module `Filter`) holds the pure parts of the visitor:
  - the eligibility test;
  - the joined path;
  - the size of the path buffer;
  - the `snprintf` call that fills that buffer.
- `find_dup.dfy` (module `FindDup`) models `find_dup_subdir`, `iterate_dir` and `find_dup_init` as methods of a class `DupFinder`. The class holds the module's state:
  - the reference handle `filep`;
  - the set of open files;
  - the set of live kmalloc'd buffers;
  - the kernel log;
  - as ghost history, every path handed to `filp_open`, in order, and the number of `kmalloc` calls.

  The functions `VisitLog` and `ScanLog` say what one entry and a whole scan log, and `VisitOpens` and `ScanOpens` say which paths they open. The lemmas relate them to the report condition.
- `scenarios.dfy` (module `Scenarios`) states what loading the modelled module gives on a small file system. The directory holds a duplicate, a differing file, a hidden file, a subdirectory and a file that may not be opened. Two more cases take a reference path, and then a directory path, that names nothing.

Behaviour of the code that the model keeps as it is:

- Any non-zero answer of `compare_files` is reported as a duplicate (`find_dup.c:79`). That includes `-EIO` for a failed read, so a reference or candidate that cannot be read is logged as "Duplicate found", not as an error. A directory given as `filename` therefore "matches" every candidate that opens (`FindDup.DirectoryReferenceMatchesAll`).
- `find_dup_subdir` returns `_Bool`. Its `-ENOMEM` and `PTR_ERR(...)` results are non-zero, so they become `true`, and iteration goes on after every per-entry error. `FindDupSubdir` always returns `true`.
- `find_dup_init` opens the directory first and the reference second. It is not the other way round. When the reference fails to open, it returns with the directory still open, and that handle is never closed.
- When the scan finishes, `filep` still points at the closed reference.

## Model

| member | source | states |
|---|---|---|
| Kernel.ReadAt | find_dup.c:31-32 | A read returns at most the requested number of bytes and never runs the cursor past the end of the file. It returns an empty chunk exactly at end of file, or when zero bytes are asked for. A failed read gives a negative errno. |
| Kernel.KernelRead | find_dup.c:31-32 | `kernel_read` returns what `ReadAt` gives at the current cursor. It advances the cursor by exactly the bytes read, and not at all on error. |
| Kernel.CStr | find_dup.c:72 | The string a C function sees in a buffer is its longest NUL-free prefix. When that prefix is shorter than the buffer, a NUL follows it. |
| Kernel.CStrOfTerminated | find_dup.c:72 | A buffer that holds `t` followed by a NUL reads back as exactly `t`. |
| Kernel.Snprintf | find_dup.c:70 | `snprintf` writes as much of the text as fits in size-1 cells, then a NUL. It leaves the cells after the terminator untouched. |
| Filter.IsHidden | find_dup.c:53 | A name is hidden when it starts with a dot, so "." and ".." are hidden. The empty name is not hidden. |
| Filter.Eligible | find_dup.c:53 | An entry that passes the filter is a regular file and is neither "." nor "..". An entry of any type other than DT_REG never passes. |
| Filter.JoinPath | find_dup.c:70 | The joined path is `dir_path`, then '/', then the name, one character longer than the two parts together. It holds no NUL when neither part does. |
| Filter.PathBufLen | find_dup.c:57-61 | The path buffer's size is the joined path's length plus one, for the terminator. |
| Filter.FormatPath | find_dup.c:70 | After the `snprintf` call, the path buffer holds `dir_path + "/" + name` as a C string. |
| Filter.PathFits | find_dup.c:57-70 | A buffer of `strlen(dir_path) + namelen + 2` bytes holds the joined path plus its terminator exactly. Nothing is truncated, and the string read back is `dir_path/name`. |
| Filter.OneLessTruncates | find_dup.c:61 | With one byte fewer, the string read back loses the last character of the name, so the `+ 2` is tight. |
| Compare.Run | find_dup.c:30-46 | The loop answers -EIO, 0 or 1. Cursors only move forward, and the first stays within its file. When the answer is 1, both cursors moved by the same amount. |
| Compare.RunStep | find_dup.c:31-43 | One turn of the loop has four possible results. A failed read answers -EIO. Chunks that differ in length or bytes answer 0. Equal non-empty chunks go on to the next turn. Two empty chunks answer 1. |
| Compare.RunContinues | find_dup.c:43 | A turn whose two reads return the same non-empty chunk hands over to the turn at the advanced cursors. |
| Compare.PrefixGrows | find_dup.c:39-43 | The bytes read so far from both files stay equal from one turn to the next. This is the loop invariant of `compare_files`. |
| Compare.CompareFiles | find_dup.c:24-47 | Both cursors are rewound to 0. The return value and the final cursors are what `Run` gives from offset 0, whatever the cursors were before. On fault-free files it returns 1 when the contents are equal and 0 when they are not. |
| Compare.HealthyRunDecidesEquality | find_dup.c:30-43 | On fault-free files, from equal cursors `p`, the loop answers 1 exactly when the two remainders after `p` are equal, and 0 otherwise. |
| Compare.CompareDecidesEquality | find_dup.c:24-47 | Exact-equality soundness: on fault-free files `compare_files` answers 1 if and only if the byte sequences are equal, and 0 otherwise. |
| Compare.IdenticalBytes | find_dup.c:34-36 | For two files with the same bytes, the answer is -EIO exactly when a faulty region lies within reach of either file. Otherwise it is 1, and never 0. |
| Compare.NonRegularFails | find_dup.c:34-36 | When the first file is not a regular file, the first read fails and `compare_files` answers -EIO at once. |
| Compare.StopsAtFirstDifferingChunk | find_dup.c:39-41 | Short-circuit: on fault-free files that differ, the loop answers 0. Neither cursor passes the end of the 1024-byte chunk that holds the first differing byte. |
| FindDup.Lookup | find_dup.c:72 | `filp_open` succeeds exactly when the path names something that may be opened. Otherwise it gives a negative errno: -ENOENT for a missing path, -EACCES for a forbidden one. |
| FindDup.DirEntries | find_dup.c:107 | Only a directory yields entries, and a directory yields exactly its own entries, in order. |
| FindDup.VisitOutcome | find_dup.c:53-85 | What the visitor does with one entry. It skips the entry exactly when the filter rejects it. A failed open carries a negative errno. A comparison is made on the joined path and answers -EIO, 0 or 1. |
| FindDup.FilteredOut | find_dup.c:53-55 | An entry with a hidden name (including "." and "..") or a type other than DT_REG is skipped, whatever the file system holds. It opens no path, is not counted among the entries that allocate, and logs nothing. |
| FindDup.LogsAllocFailure | find_dup.c:64-67 | An eligible entry whose path buffer cannot be allocated logs only the allocation error. |
| FindDup.LogsOpenFailure | find_dup.c:73-76 | An eligible entry whose path does not open logs only the open error. |
| FindDup.LogsComparison | find_dup.c:79-81 | An eligible entry that opens logs "Duplicate found: filename = path" exactly when `compare_files` answers non-zero. Otherwise it logs nothing. |
| FindDup.VisitLog | find_dup.c:53-85 | The visitor logs at most one line for an entry, and none for an entry the filter rejects. |
| FindDup.VisitLogLines | find_dup.c:65-80 | The only lines the visitor logs are the allocation error, the open error, and "Duplicate found: filename = dir_path/name" for the entry's own path. |
| FindDup.OpensOnlyWhatItCompares | find_dup.c:53-83 | The visitor opens no path exactly when the entry is filtered out or its buffer is refused. When it compares, the one path it opened is the path it compares. |
| FindDup.AsBool | find_dup.c:50-86 | The visitor's `_Bool` result: every negative errno it returns (-ENOMEM, `PTR_ERR(...)`) converts to true, and only 0 converts to false. |
| FindDup.VisitReports | find_dup.c:79-81 | The visitor logs "Duplicate found: r = p" for an entry if and only if `r` is `filename` and the entry is reported at `p`. |
| FindDup.ScanLog | find_dup.c:107 | A scan logs at most one line per entry. |
| FindDup.ScanLogLines | find_dup.c:65-80 | Every line a scan logs is an allocation error, an open error, or a duplicate report that names `filename` as the reference. |
| FindDup.ReportedOnlyIf | find_dup.c:79-80 | A duplicate report "r = p" in a scan's log comes from some entry reported at `p`, and `r` is `filename`. |
| FindDup.ReportedIf | find_dup.c:79-80 | Every entry reported at `p` puts "filename = p" into the scan's log. |
| FindDup.ReportedIff | find_dup.c:50-86 | A scan logs "Duplicate found: r = p" if and only if `r` is `filename` and some entry meets all of these: it passes the filter, its buffer can be allocated, its path is `p`, `p` opens, and `compare_files` answers non-zero (-EIO included). |
| FindDup.ReportsIgnoreOrder | find_dup.c:27-28 | Because `compare_files` rewinds the shared reference, any two enumeration orders of the same entries report the same duplicates. |
| FindDup.DirectoryReferenceMatchesAll | find_dup.c:79-81 | When the reference is a directory, every eligible candidate that can be allocated for and opened is logged as a duplicate. |
| FindDup.CountEligible | find_dup.c:53-62 | The entries that pass the filter, and so reach kmalloc, are no more than the entries scanned. |
| FindDup.ScanLogLength | find_dup.c:53-81 | A scan logs at most one line per eligible entry. |
| FindDup.DupFinder.constructor | find_dup.c:22 | The module as loaded: no reference handle, no file open, no buffer allocated, an empty log, nothing opened or allocated so far. |
| FindDup.DupFinder.FilpOpen | find_dup.c:72-73 | If the open is refused, it returns the error pointer and changes nothing. Otherwise it returns a fresh file at offset 0 on the named node, and that file is added to the open files. Either way the path is recorded as opened. |
| FindDup.DupFinder.FilpClose | find_dup.c:83 | The file leaves the set of open files. |
| FindDup.DupFinder.Kmalloc | find_dup.c:62 | A request over the limit gives NULL and allocates nothing. Otherwise it gives a fresh buffer of the requested size, which becomes live. Either way the call is counted. |
| FindDup.DupFinder.Kfree | find_dup.c:66 | Freeing NULL does nothing. Freeing a buffer removes it from the live buffers. |
| FindDup.DupFinder.Printk | find_dup.c:65 | Appends one line to the kernel log. |
| FindDup.DupFinder.FindDupSubdir | find_dup.c:50-86 | Always answers `true` (continue). It appends exactly `VisitLog` for the entry to the log. It leaves the open files and the live buffers as they were, so no candidate or path buffer leaks on any path. The paths it opens are exactly `VisitOpens`: nothing for a rejected entry or a refused buffer, otherwise the one joined path. It calls kmalloc once for an entry that passes the filter and never for one the filter rejects. A filtered-out entry does not touch the reference. |
| FindDup.DupFinder.IterateDir | find_dup.c:107 | The visitor sees every entry of the directory in order. The log grows by `ScanLog` of the entries, the opened paths by `ScanOpens`, and the kmalloc calls by the number of entries that pass the filter. The open files and live buffers are as before. |
| FindDup.DupFinder.FindDupInit | find_dup.c:88-113 | If the directory does not open: its errno is returned, the log is Starting, error, and only `dir_path` was opened, so the reference is never tried. If the reference does not open: its errno is returned, `filep` holds the error pointer, exactly one more file is open, on the directory's node (the directory handle leaks), and only `dir_path` and `filename` were opened. Otherwise: 0 is returned, the log is Starting, the scan's lines, Finished, and every file opened is closed again; `filep` still points at the closed reference, a file on `filename`'s node. The opened paths are `dir_path`, `filename`, then the scan's. kmalloc is called once per entry that passes the filter, and never on the error paths. |
| Scenarios.ScanOfD | find_dup.c:50-86 | The scan of a directory holding a duplicate, a differing file, a hidden file, a subdirectory and a forbidden file logs only the duplicate and the failed open. |
| Scenarios.OpensOfD | find_dup.c:53-72 | That scan opens /d/b.txt, /d/c.txt and /d/e.txt, in that order. It opens neither the hidden file nor the subdirectory, and three entries allocate. |
| Scenarios.LoadWithReference | find_dup.c:88-113 | Loading the module on that file system returns 0. It logs Starting, the duplicate, the open error, Finished. It opens /d, /ref and the three candidates, in that order. |
| Scenarios.LoadWithoutReference | find_dup.c:99-102 | When the reference path names nothing, loading returns -ENOENT. It logs Starting and the reference open error, and reports no duplicate. Only /d and /ref are opened. |
| Scenarios.LoadWithoutDirectory | find_dup.c:94-97 | When the directory path names nothing, loading returns -ENOENT. It logs Starting and the directory open error, and opens nothing but /d. |

## Left out

- The kernel's own `filp_open`, `filp_close`, `kernel_read`, `iterate_dir`, `kmalloc`, `kfree` and `printk` are not modelled. Each is stated by the effect the module relies on.
  - The file system is a map from paths to nodes.
  - A read fails from a given offset on, or always for a non-regular file.
  - kmalloc fails exactly for requests above a configured limit.
  - The log records which message was printed, not its formatted text.
- `module_param`, `MODULE_*`, `module_init`/`module_exit` and the empty `find_dup_exit` (find_dup.c:13-20, 115-124) are declarations only. The two parameters are fields of `Config`.
- The `dir_context` ABI is not modelled: `ctx.actor`, `ctx.pos`, and the `offset` and `ino` arguments. Directory iteration is a loop over the directory's sequence of entries, and a `dir_path` that names no directory yields no entries (`iterate_dir` fails). The result of `iterate_dir` is ignored, as in the code.
- Short or interrupted reads are not modelled. A read returns everything up to the requested count that the file still holds, so the length-mismatch test (find_dup.c:39) answers 0 because of a length difference only when the files' lengths differ.
- `size_t` overflow of `strlen(dir_path) + namelen + 2` is not modelled; integers are unbounded.
- Entry names and `dir_path` are taken to be NUL-free C strings. Embedded NULs cannot occur in kernel directory entries.
- Compare.CompareFiles: requires its two files to be distinct objects. Its only caller passes `filep` and a candidate it has just opened.
- Compare.CompareFiles: the fault-free equality clause covers files with no reachable faulty region. With faults, the result is given by `Run`, and `IdenticalBytes` and `NonRegularFails` cover the cases that matter.
- FindDup.DupFinder.FindDupSubdir: leaves unspecified where the reference's cursor ends after a comparison. The next comparison rewinds it anyway, which is the point of `ReportsIgnoreOrder`.
- The number of files open at the same moment is not stated as a bound. Instead, each visit leaves the open files as it found them, and the history of opened paths shows one candidate per visit.
