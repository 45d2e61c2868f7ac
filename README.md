# dl archive extractor — a Dafny model

`dl` downloads an archive from a URL and unpacks it into a destination
directory. It picks zip or tar (gzip-compressed or raw) from the URL's
extension. It can strip leading path components from every entry name. It
materialises directories, regular files (with their stored mode), symbolic
links and hard links, and it stops at the first error.

This project models that extraction engine from `main.go`:

- **Paths** (`paths.dfy`): the Go string and path helpers the engine relies on.
  These are `strings.Split` / `strings.Join` on `/`, `filepath.Join` (without
  `Clean`), `filepath.Dir`, `filepath.Base` and `filepath.Ext` / `path.Ext`.
- **Strip** (`strip.dfy`): the component-stripping logic shared by
  `unzipFile` and `untarFile`.
- **Writer** (`writer.dfy`): `mkdir`, `writeNewFile`, `writeNewSymbolicLink` and
  `writeNewHardLink`. Each is a fixed sequence of operating-system calls that
  stops at the first fatal failure with that call's annotated error.
  - A host oracle `fails(history, op)` decides which calls fail.
  - A `windows` flag makes a failing Chmod non-fatal.
- **Archive** (`archive.dfy`): entries, tar type flags, and the per-entry
  dispatch of `unzipFile` / `untarFile` (skip, materialise or reject). It also
  holds the writer calls of one entry.
- **Extract** (`extract.dfy`): the loops of `unzip` and `untar`.
  - `Run` is a functional specification over an abstract per-entry engine.
  - The imperative methods `Unzip` and `Untar` are proved equal to it.
  - Lemmas cover archive order, the first failure, healthy hosts, and zip
    archives never producing links.
- **Download** (`download.dfy`): `download`'s format selection. It also models
  the part of `main` that derives the destination (extensions stripped in a
  loop) and the `.tmp` staging directory.
- **Scenarios** (`scenarios.dfy`): whole-archive consequences on concrete
  tar archives.

A hard link's target is the destination joined with the link name *as
stored in the archive*. Strip is not applied to it (`main.go:182`). One might
expect the target to be stripped like the entry's own name, but the code does
not do that, and the model follows the code.
`Scenarios.HardLinkTargetNotStripped` shows the consequence. Take strip 1 and
`proj/b -> proj/a`: the link asks for `out/b` -> `out/proj/a`, not `out/a`,
where the target was written. The scenario runs in a fresh staging directory, where
nothing exists at `out/proj/a`. So `os.Link` fails, and extraction stops after
writing `out/a`. It reports the hard-link error for `out/b`.

Two host models appear in the scenarios:
- `Healthy`: no call fails.
- `FreshStaging`: an idealised empty staging directory. The only failure
  modelled is a hard link to a target no earlier call created. Conflicts
  between entries (EEXIST, ENOTDIR, EISDIR) are not modelled.

## Model

| member | source | states |
|---|---|---|
| Paths.Split | main.go:105 | `strings.Split(s, "/")` yields at least one piece, and no piece contains `/` |
| Paths.JoinSplit | main.go:105-109 | joining the pieces of a split gives back the original string |
| Paths.SplitJoin | main.go:109 | splitting a join of slash-free pieces gives back the pieces |
| Paths.SplitNoSlash | main.go:105 | a name without `/` splits into itself alone |
| Paths.SplitAfterPiece | main.go:105 | `a + "/" + b` with slash-free `a` splits into `a` followed by the pieces of `b` |
| Paths.JoinTailIsSuffix | main.go:109 | the join of any tail of the pieces is a suffix of the join of all of them |
| Paths.Join | main.go:109 | `strings.Join(parts, "/")`; its properties are JoinSplit, SplitJoin and JoinTailIsSuffix |
| Paths.EndsWith | main.go:120 | `strings.HasSuffix`; used to state the suffix properties of StripName, Base and Ext |
| Paths.JoinPath | main.go:121 | `filepath.Join(dir, name)` is `name` when `dir` is empty and `dir` when `name` is empty; otherwise it is `dir`, a `/`, then `name` |
| Paths.JoinPathPieces | main.go:176-182 | the pieces of a joined path are the directory's pieces followed by the name's pieces |
| Paths.SplitConcat | main.go:176-182 | splitting `a + "/" + b` gives the pieces of `a` followed by the pieces of `b` |
| Paths.Dir | main.go:189 | `filepath.Dir` is `.` for a path without `/` and `/` for a path whose only `/` is the leading one; otherwise it is the non-empty proper prefix before the path's last `/` |
| Paths.SplitLastEmpty | main.go:105 | the last piece is empty exactly when the string is empty or ends in `/` |
| Paths.LastSlash | main.go:189 | the index found holds `/` and no later index does, or it is -1 when the path has no `/` |
| Paths.TrimTrailingSlashes | main.go:37 | the result is a prefix of the path that does not end in `/`, everything removed is `/`, and it is empty only for an all-slash path |
| Paths.Base | main.go:37 | `filepath.Base` is `.` for the empty path and `/` for an all-slash path; otherwise it is the slash-free last element of the path with its trailing slashes removed, preceded by a `/` or the start |
| Paths.IsExtension | main.go:38 | what `filepath.Ext` returns: a suffix of the path that is empty or starts with its only `.` and has no `/`, and is empty exactly when the path's last element has no `.` |
| Paths.Ext | main.go:38 | the extension satisfies IsExtension; for a slash-free name it is empty exactly when the name has no `.` |
| Strip.StripName | main.go:103-114 | strip <= 0 keeps the name (only the empty name is skipped); a kept name is non-empty and a suffix of the original; with strip > 0 the kept name's pieces are exactly the original pieces after the first `strip` ones |
| Strip.SkipWhen | main.go:104-113 | with strip > 0 an entry is skipped exactly when it has at most `strip` pieces, or exactly one more piece and its name ends in `/` |
| Strip.StripAdditive | main.go:104-110 | stripping `a + b` components equals stripping `a`, then `b` from what is left |
| Strip.StripLeadingDirectory | main.go:104-113 | strip 1 removes exactly a slash-free leading directory and its `/`, and skips the entry when nothing follows it |
| Strip.ExampleNested | main.go:103-114 | `a/b/c.txt` becomes `b/c.txt` with strip 1 and stays whole with strip 0 |
| Strip.ExampleNestedTooDeep | main.go:106-107 | `a/b/c.txt` is skipped with strip 3 |
| Strip.SingleSegmentSkipped | main.go:106-107 | a name with no `/` is skipped with strip 1 |
| Strip.ExampleEmptyRemainder | main.go:112-113 | `proj/` with strip 1 and the empty name with strip 0 are skipped |
| Writer.MkdirSteps | main.go:240-246 | `mkdir` is one MkdirAll of the directory, whose error names the directory |
| Writer.WriteNewFileSteps | main.go:188-210 | `writeNewFile` is four calls: MkdirAll of the parent directory, then calls on the file itself; every error names the file |
| Writer.WriteNewSymbolicLinkSteps | main.go:212-224 | MkdirAll of the parent directory, then a symlink at the path to the target as given; every error names the path |
| Writer.WriteNewHardLinkSteps | main.go:226-238 | MkdirAll of the parent directory, then a hard link at the path to the target as given; every error names the path |
| Writer.NoFatalPrefix | main.go:188-246 | every prefix of a fatal-free call sequence is fatal-free |
| Writer.RunSteps | main.go:188-246 | a writer succeeds exactly when it issued all its calls and none failed fatally; otherwise it stopped at the first fatal call with that step's error, having issued exactly the calls up to and including it |
| Writer.StepsCons | main.go:188-246 | a writer's first call either aborts it with that step's error or is followed by the rest of the writer |
| Writer.MkdirOutcome | main.go:240-246 | `mkdir` issues MkdirAll and fails with the directory error exactly when that call fails |
| Writer.WriteNewFileOutcome | main.go:188-210 | `writeNewFile` returns the error of the first failing call among MkdirAll, Create, Chmod (unless on Windows) and Copy, right after it; otherwise it issues all four and succeeds |
| Writer.SymbolicLinkOutcome | main.go:212-224 | a failing MkdirAll returns the directory error; otherwise the symlink is attempted, and its failure returns the symlink error |
| Writer.HardLinkOutcome | main.go:226-238 | a failing MkdirAll returns the directory error; otherwise the hard link is attempted, and its failure returns the hard-link error |
| Writer.FailureOneStepBack | main.go:188-246 | a first fatal failure in the rest of a writer, after a non-fatal first call, is a first fatal failure of the whole writer one step later |
| Writer.Reached | main.go:188-238 | a call is issued only after every earlier call of the writer was issued without a fatal failure |
| Writer.ModeSetBeforeContent | main.go:194-205 | if `writeNewFile` copies content, it first issued MkdirAll, Create and Chmod in that order, and the Chmod did not abort it |
| Writer.FourthAfterThird | main.go:189-205 | in a four-call writer the last call implies that the first three were issued and the third was not fatal |
| Writer.ThirdNotFatal | main.go:200-203 | of three fatal-free calls, the third is not fatal after the first two |
| Writer.ChmodFailureFatalUnlessWindows | main.go:200-203 | when only the Chmod fails, `writeNewFile` succeeds exactly on Windows; elsewhere it fails with the file-mode error after MkdirAll, Create and Chmod, and content is never copied |
| Archive.ZipDecide | main.go:102-130 | a zip entry is skipped exactly when stripping skips it; it is never rejected and never a link; it is a directory exactly when the stripped name ends in `/`, and otherwise a file with the stored mode; its path is the destination joined with the stripped name |
| Archive.TarDecide | main.go:156-185 | skipped exactly when stripping skips it; rejected with an error naming the stripped name and flag exactly when the flag is not accepted; otherwise a directory iff TypeDir, a file with the header's mode iff the flag is Reg, RegA, Char, Block or Fifo, a symlink to the verbatim link name iff TypeSymlink, or a hard link to the destination joined with the unstripped link name iff TypeLink |
| Archive.EntrySteps | main.go:124-130 | an accepted zip file first opens the member, and that open's error names the stripped name; then its writer runs; every other entry runs only its writer |
| Archive.ProcessEntry | main.go:102-185 | a skipped entry issues no call and succeeds; a rejected entry issues no call and fails with its error; any entry only appends calls to the log |
| Archive.AcceptedEntryOutcome | main.go:120-182 | an accepted entry succeeds exactly when it issued all its calls and none failed fatally; otherwise it stopped right after its first fatal call, with that call's error |
| Archive.ZipEntryCalls | main.go:120-130 | an accepted zip file whose open fails stops right after the open, with the open error; if the open succeeds, `writeNewFile` runs after it; a zip directory runs `mkdir` alone |
| Extract.Run | main.go:93-97 | a run that ends without error has completed exactly the actions planned for every entry, in order |
| Extract.RunAppend | main.go:93-97 | running `xs + ys` is running `xs` and then, only if it did not fail, running `ys` from the calls `xs` left |
| Extract.FirstFailure | main.go:93-97 | a failed run has a first failing entry: everything before it succeeded with its planned actions, and the run's result is that entry's error and calls, with nothing processed after it |
| Extract.HealthySteps | main.go:188-246 | on a host where no call fails, every writer issues all its calls and succeeds |
| Extract.HealthyEntry | main.go:102-185 | on a healthy host an entry that is not rejected issues all its calls and succeeds |
| Extract.RunWithoutFailures | main.go:93-97 | when every entry succeeds whatever came before, the run succeeds with all planned actions and all calls in order |
| Extract.HealthyRun | main.go:140-151 | on a healthy host an archive with no rejected entry extracts without error, completing every planned action and issuing every planned call |
| Extract.PlannedWithoutLinks | main.go:93-97 | when no entry contributes a link, the plan holds only directories and files |
| Extract.ZipYieldsNoLinks | main.go:120-130 | every action a zip archive plans is a directory or a regular file |
| Extract.ContinueStep | main.go:140-151 | one loop turn: process the next entry, then stop with its error or carry on with its actions added |
| Extract.Unzip | main.go:88-100 | the loop returns the not-a-zip error for a malformed archive, and otherwise exactly the run over the members in order |
| Extract.Untar | main.go:134-153 | the loop returns exactly the run over the headers in order, and reports a stream read error only when no entry failed before it |
| Download.ExtAppend | main.go:75 | appending a character other than `/` and `.` extends a non-empty extension and keeps an empty one empty |
| Download.ZipExtension | main.go:75 | `path.Ext(url) == ".zip"` exactly when the URL ends in `.zip` |
| Download.SelectFormat | main.go:75-83 | the zip extractor is chosen exactly when the URL ends in `.zip`; everything else is treated as tar |
| Download.FormatExamples | main.go:75-83 | `.zip` is unzipped; `.tgz`, `.tar.gz`, no extension and upper-case `.ZIP` are untarred |
| Download.Download | main.go:66-84 | the response body is extracted by the extractor the URL selects, with the given destination and strip count |
| Download.StemUnique | main.go:36-43 | a name has exactly one stem, so the default destination is determined by the URL |
| Download.StemExamples | main.go:36-43 | `foo.tar.gz` gives `foo`, `v1.2.3.zip` gives `v1`, `release` stays `release`, and `.` gives the empty name |
| Download.DefaultDestination | main.go:36-43 | removing the last extension until none is left yields the URL's base name up to its first `.` |
| Download.Destinations | main.go:35-44 | the destination is the flag when it is given and the default otherwise; the staging directory is the destination plus `.tmp` |
| Download.Fetch | main.go:35-51 | the archive is extracted into the staging directory of the chosen destination |
| Scenarios.NoEntryFails | main.go:93-97 | a run in which no entry can fail ends without error |
| Scenarios.HaltsAtSecond | main.go:93-97 | when the second entry fails, the run keeps the first entry's action and reports the second entry's error |
| Scenarios.Accepted | main.go:174-182 | on a healthy host an accepted tar entry never fails and contributes exactly its action |
| Scenarios.Skipped | main.go:157-168 | on a healthy host a skipped tar entry never fails and contributes nothing |
| Scenarios.DirectoryFileAndLinkDecisions | main.go:174-180 | with strip 0, `dir/`, `dir/file.txt` and `dir/link` become a directory, a file and a symlink under `out` |
| Scenarios.DirectoryFileAndLink | main.go:134-185 | a tar holding a directory, a file and a symlink creates exactly those three, in order, without error |
| Scenarios.WrapperDirectoryNames | main.go:157-168 | with strip 1, `proj-1.0/` is skipped and `proj-1.0/a.txt` becomes `a.txt` |
| Scenarios.WrapperDirectoryStripped | main.go:134-185 | with strip 1 a source tarball's wrapper directory disappears and its file lands directly under `out` |
| Scenarios.UnknownTypeFlagDecisions | main.go:183-184 | a volume header (flag `V`) is rejected with an error naming it and its flag |
| Scenarios.UnknownTypeFlagHalts | main.go:140-151 | an unaccepted flag stops the run: the entry before it is written, its error is returned, and the entry after it is never processed |
| Scenarios.HardLinkNames | main.go:157-168 | with strip 1, `proj/a` and `proj/b` become `a` and `b` |
| Scenarios.HardLinkDecisions | main.go:181-182 | the link's own name is stripped, but its target is the destination joined with the unstripped link name |
| Scenarios.OnlyLinksFail | main.go:226-238 | in the idealised staging directory every call other than a hard link succeeds |
| Scenarios.MissingTargetFails | main.go:232-234 | in a fresh staging directory a hard link to a target that no earlier call created fails |
| Scenarios.FileOnFreshStaging | main.go:188-210 | in the idealised staging directory, where conflicts with earlier entries are not modelled, `writeNewFile` issues its four calls and succeeds |
| Scenarios.LinkOnFreshStaging | main.go:226-238 | in a fresh staging directory `writeNewHardLink` to a missing target fails with the hard-link error after MkdirAll and Link |
| Scenarios.HardLinkFileWritten | main.go:174-178 | with strip 1 in a fresh staging directory, `proj/a` is written to `out/a` |
| Scenarios.HardLinkFails | main.go:181-182 | after that, the link `proj/b` to the unstripped `out/proj/a` fails |
| Scenarios.HardLinkTargetNotStripped | main.go:134-185 | with strip 1 in a fresh staging directory, `proj/a` then `proj/b -> proj/a` writes `out/a`, then tries to link `out/b` to `out/proj/a`; the link fails, so the run reports the hard-link error, with `out/a` as its only action |

## Left out

- The HTTP request, the status check and `ioutil.ReadAll` of the body (`main.go:67-79`). `Download` receives the body already decoded, as a zip archive and as a tar stream, and HTTP errors are not modelled.
- Zip, tar and gzip decoding. A zip archive is its list of members or "not a zip". A tar stream is its decoded headers plus how it ends (EOF or a read error). The gzip-or-raw fallback, the normalisation of TypeRegA and of PAX/GNU headers, and `FileInfo().Mode()` are decoder behaviour, taken as given.
- File contents. `io.Copy` is one call that succeeds or fails. What the filesystem ends up holding is not modelled: `Action` records what was materialised, and the log records the calls issued.
- The real filesystem. Whether a call fails is a host oracle that sees all earlier calls. Hard links whose target does not exist yet, insufficient permissions and similar conditions are oracle failures. The error text carried by the OS is dropped; `Error` keeps the annotation and the path.
- `FreshStaging`: the staging-directory host of the scenarios only makes a hard link to a target that was never created fail. A link or symlink onto an existing path (EEXIST, main.go:218, 232), a `MkdirAll` below an earlier file (ENOTDIR, main.go:189) and a `Create` over an earlier directory (EISDIR, main.go:194) succeed there. `OnlyLinksFail` and `FileOnFreshStaging` are about that idealised host.
- `filepath.Clean`. `JoinPath` and `Dir` do not collapse `//`, `.` or `..` and do not drop a trailing `/`, so `mkdir` of a zip directory entry `dir/` is issued for `out/dir/`, not `out/dir`. No claim is made that paths stay inside the destination (the source does not check this either).
- `filepath.ToSlash` is the identity, as on POSIX. Windows path separators are not modelled; only the Windows rule for Chmod is.
- Flag parsing, the argument-count check, verbose printing, `os.Exit`, `defer Close`, and the final `os.Rename` of the staging directory (`main.go:25-33`, `46-63`). `Fetch` stops before the rename.
