/**
 * Archive entries and the per-entry decision of `unzipFile` and `untarFile`:
 * strip the name, then choose what to materialise beneath the destination,
 * and the writer calls that materialise it.
 */
module Archive {
  import opened Wrappers
  import opened Paths
  import opened Strip
  import opened Writer

  // Type flags of archive/tar, as bytes.
  const TypeReg: Byte := 48      // '0'
  const TypeRegA: Byte := 0      // '\x00'
  const TypeLink: Byte := 49     // '1'
  const TypeSymlink: Byte := 50  // '2'
  const TypeChar: Byte := 51     // '3'
  const TypeBlock: Byte := 52    // '4'
  const TypeDir: Byte := 53      // '5'
  const TypeFifo: Byte := 54     // '6'

  /** The flags whose entries are written as regular files. */
  predicate IsFileFlag(flag: Byte)
  {
    flag == TypeReg || flag == TypeRegA || flag == TypeChar || flag == TypeBlock || flag == TypeFifo
  }

  /** Every flag `untarFile` accepts. */
  predicate IsAcceptedFlag(flag: Byte)
  {
    IsFileFlag(flag) || flag == TypeDir || flag == TypeSymlink || flag == TypeLink
  }

  /** A zip member as the central directory lists it: its stored name and file mode. */
  datatype ZipFile = ZipFile(name: string, mode: FileMode)

  /** A decoded tar header: name, type flag, file mode and link name. */
  datatype TarHeader = TarHeader(name: string, typeflag: Byte, mode: FileMode, linkname: string)

  datatype Entry = Zip(file: ZipFile) | Tar(header: TarHeader)

  /** The destination root and the strip count of one extraction run. */
  datatype Config = Config(destination: string, strip: int)

  /** What an accepted entry materialises, at `path` beneath the destination. */
  datatype Action =
    | Mkdir(path: string)
    | WriteFile(path: string, mode: FileMode)
    | Symlink(path: string, target: string)
    | HardLink(path: string, target: string)

  /** The per-entry decision: skip it, materialise it under its stripped `name`, or fail. */
  datatype Decision = Skip | Do(name: string, action: Action) | Reject(error: Error)

  /**
   * `unzipFile`'s dispatch. A zip entry is skipped exactly when stripping
   * skips it; it is never rejected and never becomes a link; it is a
   * directory exactly when its stripped name ends in '/', and otherwise a
   * file written with the entry's stored mode, at the stripped name beneath
   * the destination.
   */
  function ZipDecide(c: Config, f: ZipFile): (d: Decision)
    ensures d.Skip? <==> StripName(f.name, c.strip).None?
    ensures !d.Reject?
    ensures d.Do? ==>
      && d.name == StripName(f.name, c.strip).value
      && d.action.path == JoinPath(c.destination, d.name)
      && (d.action.Mkdir? || d.action.WriteFile?)
      && (d.action.Mkdir? <==> EndsWith(d.name, "/"))
      && (d.action.WriteFile? ==> d.action.mode == f.mode)
  {
    match StripName(f.name, c.strip)
    case None => Skip
    case Some(name) =>
      var path := JoinPath(c.destination, name);
      if EndsWith(name, "/") then Do(name, Mkdir(path)) else Do(name, WriteFile(path, f.mode))
  }

  /**
   * `untarFile`'s dispatch, total over the type flags. An entry that
   * stripping skips is skipped whatever its flag; otherwise an unaccepted flag
   * is rejected with an error naming the stripped name and the flag, and an
   * accepted one is materialised at the stripped name beneath the
   * destination: a directory for TypeDir, a file with the header's mode for
   * the file flags, a symbolic link whose target is the link name verbatim,
   * or a hard link whose target is the destination joined with the link name
   * as it stands in the archive, not stripped.
   */
  function TarDecide(c: Config, h: TarHeader): (d: Decision)
    ensures d.Skip? <==> StripName(h.name, c.strip).None?
    ensures d.Reject? <==> StripName(h.name, c.strip).Some? && !IsAcceptedFlag(h.typeflag)
    ensures d.Reject? ==> d.error == UnknownTypeFlag(StripName(h.name, c.strip).value, h.typeflag)
    ensures d.Do? ==>
      && d.name == StripName(h.name, c.strip).value
      && d.action.path == JoinPath(c.destination, d.name)
      && (d.action.Mkdir? <==> h.typeflag == TypeDir)
      && (d.action.WriteFile? <==> IsFileFlag(h.typeflag))
      && (d.action.Symlink? <==> h.typeflag == TypeSymlink)
      && (d.action.HardLink? <==> h.typeflag == TypeLink)
      && (d.action.WriteFile? ==> d.action.mode == h.mode)
      && (d.action.Symlink? ==> d.action.target == h.linkname)
      && (d.action.HardLink? ==> d.action.target == JoinPath(c.destination, h.linkname))
  {
    match StripName(h.name, c.strip)
    case None => Skip
    case Some(name) =>
      var path := JoinPath(c.destination, name);
      if h.typeflag == TypeDir then Do(name, Mkdir(path))
      else if IsFileFlag(h.typeflag) then Do(name, WriteFile(path, h.mode))
      else if h.typeflag == TypeSymlink then Do(name, Symlink(path, h.linkname))
      else if h.typeflag == TypeLink then Do(name, HardLink(path, JoinPath(c.destination, h.linkname)))
      else Reject(UnknownTypeFlag(name, h.typeflag))
  }

  function Decide(c: Config, e: Entry): Decision
  {
    match e
    case Zip(f) => ZipDecide(c, f)
    case Tar(h) => TarDecide(c, h)
  }

  /** The writer that materialises each action. */
  function ActionSteps(a: Action): seq<Step>
  {
    match a
    case Mkdir(p) => MkdirSteps(p)
    case WriteFile(p, m) => WriteNewFileSteps(p, m)
    case Symlink(p, t) => WriteNewSymbolicLinkSteps(p, t)
    case HardLink(p, t) => WriteNewHardLinkSteps(p, t)
  }

  /**
   * The calls for an accepted entry: a zip file is first opened (zf.Open),
   * failing with an error naming the stripped name, and then written.
   */
  function EntrySteps(e: Entry, name: string, a: Action): (s: seq<Step>)
    ensures var opens := e.Zip? && a.WriteFile?;
      && |s| == |ActionSteps(a)| + (if opens then 1 else 0)
      && s[|s| - |ActionSteps(a)|..] == ActionSteps(a)
      && (opens ==> s[0] == Step(ZipOpen(e.file.name), OpenCompressedFile(name)))
  {
    var open := if e.Zip? && a.WriteFile? then [Step(ZipOpen(e.file.name), OpenCompressedFile(name))] else [];
    open + ActionSteps(a)
  }

  /**
   * One entry of the extraction loop. A skipped entry issues no call and
   * succeeds; a rejected one issues no call and fails with its error. An
   * accepted one runs its writer's calls after `log` (see RunSteps and
   * AcceptedEntryOutcome for what that yields).
   */
  function ProcessEntry(h: Host, c: Config, log: seq<Op>, e: Entry): (o: Outcome)
    ensures Decide(c, e).Skip? ==> o == Outcome(log, None)
    ensures Decide(c, e).Reject? ==> o == Outcome(log, Some(Decide(c, e).error))
    ensures log <= o.log
  {
    var d := Decide(c, e);
    if d.Skip? then Outcome(log, None)
    else if d.Reject? then Outcome(log, Some(d.error))
    else
      var steps := EntrySteps(e, d.name, d.action);
      var o := RunSteps(h, log, steps);
      assert o.log[..|log|] == log;
      o
  }

  /**
   * An accepted entry succeeds exactly when it issued all of its calls and
   * none failed fatally; otherwise it stopped at its first fatal call, having
   * issued the calls up to and including that one, with that call's error.
   */
  lemma AcceptedEntryOutcome(h: Host, c: Config, log: seq<Op>, e: Entry, name: string, a: Action)
    requires Decide(c, e) == Do(name, a)
    ensures WriterOutcome(h, log, EntrySteps(e, name, a), ProcessEntry(h, c, log, e))
  {
    AcceptedEntry(h, c, log, e, name, a);
  }

  /** An accepted entry is its writer's calls run after `log`. */
  lemma AcceptedEntry(h: Host, c: Config, log: seq<Op>, e: Entry, name: string, a: Action)
    requires Decide(c, e) == Do(name, a)
    ensures ProcessEntry(h, c, log, e) == RunSteps(h, log, EntrySteps(e, name, a))
  {
  }

  /**
   * A zip member that becomes a file is opened first: if opening it fails
   * the entry stops there with the open error naming the stripped name, and
   * otherwise `writeNewFile` runs after the open. A zip directory runs
   * `mkdir` alone and opens nothing.
   */
  lemma ZipEntryCalls(h: Host, c: Config, log: seq<Op>, f: ZipFile)
    requires ZipDecide(c, f).Do?
    ensures var d, o, open := ZipDecide(c, f), ProcessEntry(h, c, log, Zip(f)), ZipOpen(f.name);
      && (d.action.WriteFile? && Fatal(h, log, open) ==>
            o == Outcome(log + [open], Some(OpenCompressedFile(d.name))))
      && (d.action.WriteFile? && !Fatal(h, log, open) ==>
            o == RunSteps(h, log + [open], WriteNewFileSteps(d.action.path, d.action.mode)))
      && (d.action.Mkdir? ==> o == RunSteps(h, log, MkdirSteps(d.action.path)))
  {
    var d := ZipDecide(c, f);
    if d.action.WriteFile? {
      var s := EntrySteps(Zip(f), d.name, d.action);
      assert s == [s[0]] + WriteNewFileSteps(d.action.path, d.action.mode);
      StepsCons(h, log, s[0], WriteNewFileSteps(d.action.path, d.action.mode));
    }
    AcceptedEntry(h, c, log, Zip(f), d.name, d.action);
  }
}
