/**
 * The entry writers `mkdir`, `writeNewFile`, `writeNewSymbolicLink` and
 * `writeNewHardLink`. Each is a fixed sequence of operating-system calls that
 * stops at the first call that fails, returning that call's annotated error.
 * Whether a call fails is decided by the host, which sees every call issued
 * before it; a failing Chmod is not fatal on Windows.
 */
module Writer {
  import opened Wrappers
  import opened Paths

  type Byte = b: int | 0 <= b < 256

  /** os.FileMode, a 32-bit unsigned word. */
  type FileMode = m: int | 0 <= m < 0x1_0000_0000

  /** The calls into the operating system (and the zip member reader) that extraction issues. */
  datatype Op =
    | OsMkdirAll(path: string)               // os.MkdirAll(path, 0755)
    | OsCreate(path: string)                 // os.Create(path)
    | OsChmod(path: string, mode: FileMode)  // out.Chmod(mode)
    | OsCopy(path: string)                   // io.Copy of the entry's content into path
    | OsSymlink(target: string, path: string)
    | OsLink(target: string, path: string)
    | ZipOpen(entry: string)                 // zf.Open() on the raw zip member

  /** The errors extraction can return, each annotated with the path or entry it is about. */
  datatype Error =
    | NotAZipArchive                         // zip.NewReader failed
    | TarReadError                           // tr.Next() failed
    | UnknownTypeFlag(name: string, flag: Byte)
    | OpenCompressedFile(name: string)
    | MakingDirectory(path: string)
    | MakingDirectoryForFile(path: string)
    | CreatingNewFile(path: string)
    | ChangingFileMode(path: string)
    | WritingFile(path: string)
    | MakingSymbolicLink(path: string)
    | MakingHardLink(path: string)
  {
    /** The path a writer's error is annotated with; the other errors name none. */
    function PathOf(): Option<string>
    {
      if NotAZipArchive? || TarReadError? || UnknownTypeFlag? || OpenCompressedFile? then None
      else Some(path)
    }
  }

  /**
   * The machine extraction runs on: `fails(history, op)` says whether `op`
   * fails after the calls in `history`; `windows` is runtime.GOOS == "windows".
   */
  datatype Host = Host(fails: (seq<Op>, Op) -> bool, windows: bool)

  /** A failure that aborts the writer: every failure except a Chmod on Windows. */
  predicate Fatal(h: Host, history: seq<Op>, op: Op)
  {
    h.fails(history, op) && !(op.OsChmod? && h.windows)
  }

  /** None of the calls `ops`, issued in order after `history`, fails fatally. */
  predicate NoFatal(h: Host, history: seq<Op>, ops: seq<Op>)
    decreases |ops|
  {
    ops == [] || (!Fatal(h, history, ops[0]) && NoFatal(h, history + [ops[0]], ops[1..]))
  }

  /** Every prefix of a fatal-free sequence of calls is fatal-free. */
  lemma {:induction false} NoFatalPrefix(h: Host, history: seq<Op>, ops: seq<Op>, n: nat)
    requires n <= |ops| && NoFatal(h, history, ops)
    ensures NoFatal(h, history, ops[..n])
    decreases n
  {
    if n > 0 {
      NoFatalPrefix(h, history + [ops[0]], ops[1..], n - 1);
      assert ops[..n][0] == ops[0] && ops[..n][1..] == ops[1..][..n - 1];
    }
  }

  /** One call of a writer together with the error returned when it fails. */
  datatype Step = Step(op: Op, onFailure: Error)

  /** The calls issued so far and the error that ended the writer, if any. */
  datatype Outcome = Outcome(log: seq<Op>, err: Option<Error>)

  /** The calls of `steps`, in order. */
  function Ops(steps: seq<Step>): seq<Op>
  {
    seq(|steps|, i requires 0 <= i < |steps| => steps[i].op)
  }

  /**
   * Issue the calls of `steps` in order after `log`, stopping at the first
   * fatal failure. The writer succeeds exactly when it issued every planned
   * call and none failed fatally. When it fails at step `k`, it issued steps
   * 0..k and no more, steps before `k` did not fail fatally, step `k` did,
   * and the error is step `k`'s.
   */
  function RunSteps(h: Host, log: seq<Op>, steps: seq<Step>): (o: Outcome)
    ensures WriterOutcome(h, log, steps, o)
    decreases |steps|
  {
    if steps == [] then Outcome(log, None)
    else
      var op := steps[0].op;
      var next := log + [op];
      assert Ops(steps) == [op] + Ops(steps[1..]);
      if Fatal(h, log, op) then
        assert Ops(steps)[..1] == [op] && log + Ops(steps)[..0] == log;
        Outcome(next, Some(steps[0].onFailure))
      else
        var o := RunSteps(h, next, steps[1..]);
        if o.err.Some? then
          FailureOneStepBack(h, log, steps, o.log);
          o
        else o
  }

  /**
   * A failure at step `k` of `steps[1..]` after `log + [steps[0].op]` is a
   * failure at step `k + 1` of `steps` after `log`, provided step 0 did not
   * fail fatally.
   */
  lemma FailureOneStepBack(h: Host, log: seq<Op>, steps: seq<Step>, trace: seq<Op>)
    requires steps != [] && !Fatal(h, log, steps[0].op)
    requires var next := log + [steps[0].op];
      var k := |trace| - |next| - 1;
      && 0 <= k < |steps| - 1
      && trace == next + Ops(steps[1..])[..k + 1]
      && NoFatal(h, next, Ops(steps[1..])[..k])
      && Fatal(h, next + Ops(steps[1..])[..k], steps[1..][k].op)
    ensures var k := |trace| - |log| - 1;
      && 0 <= k < |steps|
      && trace == log + Ops(steps)[..k + 1]
      && NoFatal(h, log, Ops(steps)[..k])
      && Fatal(h, log + Ops(steps)[..k], steps[k].op)
  {
    var op := steps[0].op;
    var next := log + [op];
    var k := |trace| - |next| - 1;
    var all := Ops(steps);
    var rest := Ops(steps[1..]);
    assert all == [op] + rest;
    assert all[..k + 2] == [op] + rest[..k + 1];
    assert all[..k + 1] == [op] + rest[..k];
    assert all[..k + 1][0] == op && all[..k + 1][1..] == rest[..k];
    assert log + all[..k + 1] == next + rest[..k];
    assert log + all[..k + 2] == next + rest[..k + 1];
    assert NoFatal(h, log, all[..k + 1]);
    assert steps[1..][k] == steps[k + 1];
  }

  /** `mkdir`: create the directory and its missing parents; a failure names the directory. */
  function MkdirSteps(dirPath: string): (s: seq<Step>)
    ensures |s| == 1 && s[0].op == OsMkdirAll(dirPath) && s[0].onFailure.PathOf() == Some(dirPath)
  {
    [Step(OsMkdirAll(dirPath), MakingDirectory(dirPath))]
  }

  /**
   * `writeNewFile`: parent directory, create, set the mode, then copy the
   * content. Every call is about `fpath` or its parent directory, and every
   * error names `fpath`.
   */
  function WriteNewFileSteps(fpath: string, mode: FileMode): (s: seq<Step>)
    ensures |s| == 4 && s[0].op == OsMkdirAll(Dir(fpath))
    ensures forall k :: 0 < k < |s| ==> !s[k].op.ZipOpen? && s[k].op.path == fpath
    ensures forall k :: 0 <= k < |s| ==> s[k].onFailure.PathOf() == Some(fpath)
  {
    [ Step(OsMkdirAll(Dir(fpath)), MakingDirectoryForFile(fpath)),
      Step(OsCreate(fpath), CreatingNewFile(fpath)),
      Step(OsChmod(fpath, mode), ChangingFileMode(fpath)),
      Step(OsCopy(fpath), WritingFile(fpath)) ]
  }

  /** `writeNewSymbolicLink`: parent directory, then the link to `target` as given. */
  function WriteNewSymbolicLinkSteps(fpath: string, target: string): (s: seq<Step>)
    ensures |s| == 2 && s[0].op == OsMkdirAll(Dir(fpath))
    ensures s[1].op.OsSymlink? && s[1].op.path == fpath && s[1].op.target == target
    ensures forall k :: 0 <= k < |s| ==> s[k].onFailure.PathOf() == Some(fpath)
  {
    [ Step(OsMkdirAll(Dir(fpath)), MakingDirectoryForFile(fpath)),
      Step(OsSymlink(target, fpath), MakingSymbolicLink(fpath)) ]
  }

  /** `writeNewHardLink`: parent directory, then the hard link to `target`. */
  function WriteNewHardLinkSteps(fpath: string, target: string): (s: seq<Step>)
    ensures |s| == 2 && s[0].op == OsMkdirAll(Dir(fpath))
    ensures s[1].op.OsLink? && s[1].op.path == fpath && s[1].op.target == target
    ensures forall k :: 0 <= k < |s| ==> s[k].onFailure.PathOf() == Some(fpath)
  {
    [ Step(OsMkdirAll(Dir(fpath)), MakingDirectoryForFile(fpath)),
      Step(OsLink(target, fpath), MakingHardLink(fpath)) ]
  }

  /**
   * `o` is a correct result of the writer `steps` after `log`: success
   * exactly when every call was issued and none failed fatally, and
   * otherwise a stop right after the first fatal call with that step's error.
   */
  predicate WriterOutcome(h: Host, log: seq<Op>, steps: seq<Step>, o: Outcome)
  {
    && (o.err.None? <==> o.log == log + Ops(steps) && NoFatal(h, log, Ops(steps)))
    && (o.err.Some? ==>
          var k := |o.log| - |log| - 1;
          && 0 <= k < |steps|
          && o.log == log + Ops(steps)[..k + 1]
          && NoFatal(h, log, Ops(steps)[..k])
          && Fatal(h, log + Ops(steps)[..k], steps[k].op)
          && o.err == Some(steps[k].onFailure))
  }

  /** Running a writer one call at a time: the first call either aborts it or is followed by the rest. */
  lemma StepsCons(h: Host, log: seq<Op>, s: Step, rest: seq<Step>)
    ensures RunSteps(h, log, [s] + rest) ==
      if Fatal(h, log, s.op) then Outcome(log + [s.op], Some(s.onFailure))
      else RunSteps(h, log + [s.op], rest)
  {
    assert ([s] + rest)[0] == s && ([s] + rest)[1..] == rest;
  }

  /** `mkdir` issues MkdirAll and fails with the directory error exactly when that call fails. */
  lemma MkdirOutcome(h: Host, log: seq<Op>, dirPath: string)
    ensures var mk := OsMkdirAll(dirPath);
      RunSteps(h, log, MkdirSteps(dirPath)) ==
        Outcome(log + [mk], if Fatal(h, log, mk) then Some(MakingDirectory(dirPath)) else None)
  {
    StepsCons(h, log, MkdirSteps(dirPath)[0], []);
    assert MkdirSteps(dirPath) == [MkdirSteps(dirPath)[0]] + [];
  }

  /**
   * `writeNewFile` checks each call in turn: a failing MkdirAll, Create,
   * Chmod (unless on Windows) or Copy returns that call's error right after
   * it, and when none fails all four calls are issued and it succeeds.
   */
  lemma WriteNewFileOutcome(h: Host, log: seq<Op>, fpath: string, mode: FileMode)
    ensures
      var mk, cr, ch, cp := OsMkdirAll(Dir(fpath)), OsCreate(fpath), OsChmod(fpath, mode), OsCopy(fpath);
      var l1 := log + [mk];
      var l2 := l1 + [cr];
      var l3 := l2 + [ch];
      var l4 := l3 + [cp];
      RunSteps(h, log, WriteNewFileSteps(fpath, mode)) ==
        if Fatal(h, log, mk) then Outcome(l1, Some(MakingDirectoryForFile(fpath)))
        else if Fatal(h, l1, cr) then Outcome(l2, Some(CreatingNewFile(fpath)))
        else if Fatal(h, l2, ch) then Outcome(l3, Some(ChangingFileMode(fpath)))
        else Outcome(l4, if Fatal(h, l3, cp) then Some(WritingFile(fpath)) else None)
  {
    var s := WriteNewFileSteps(fpath, mode);
    var l1 := log + [s[0].op];
    var l2 := l1 + [s[1].op];
    var l3 := l2 + [s[2].op];
    assert s == [s[0]] + s[1..];
    assert s[1..] == [s[1]] + s[2..];
    assert s[2..] == [s[2]] + s[3..];
    assert s[3..] == [s[3]] + [];
    StepsCons(h, log, s[0], s[1..]);
    StepsCons(h, l1, s[1], s[2..]);
    StepsCons(h, l2, s[2], s[3..]);
    StepsCons(h, l3, s[3], []);
  }

  /**
   * `writeNewSymbolicLink`: a failing MkdirAll returns the directory error;
   * otherwise the link is attempted and its failure returns the link error.
   */
  lemma SymbolicLinkOutcome(h: Host, log: seq<Op>, fpath: string, target: string)
    ensures var mk, ln := OsMkdirAll(Dir(fpath)), OsSymlink(target, fpath);
      RunSteps(h, log, WriteNewSymbolicLinkSteps(fpath, target)) ==
        if Fatal(h, log, mk) then Outcome(log + [mk], Some(MakingDirectoryForFile(fpath)))
        else Outcome(log + [mk, ln], if Fatal(h, log + [mk], ln) then Some(MakingSymbolicLink(fpath)) else None)
  {
    var s := WriteNewSymbolicLinkSteps(fpath, target);
    assert s == [s[0]] + [s[1]];
    assert log + [s[0].op] + [s[1].op] == log + [s[0].op, s[1].op];
    StepsCons(h, log, s[0], [s[1]]);
    StepsCons(h, log + [s[0].op], s[1], []);
  }

  /**
   * `writeNewHardLink`: a failing MkdirAll returns the directory error;
   * otherwise the link is attempted and its failure returns the link error.
   */
  lemma HardLinkOutcome(h: Host, log: seq<Op>, fpath: string, target: string)
    ensures var mk, ln := OsMkdirAll(Dir(fpath)), OsLink(target, fpath);
      RunSteps(h, log, WriteNewHardLinkSteps(fpath, target)) ==
        if Fatal(h, log, mk) then Outcome(log + [mk], Some(MakingDirectoryForFile(fpath)))
        else Outcome(log + [mk, ln], if Fatal(h, log + [mk], ln) then Some(MakingHardLink(fpath)) else None)
  {
    var s := WriteNewHardLinkSteps(fpath, target);
    assert s == [s[0]] + [s[1]];
    assert log + [s[0].op] + [s[1].op] == log + [s[0].op, s[1].op];
    StepsCons(h, log, s[0], [s[1]]);
    StepsCons(h, log + [s[0].op], s[1], []);
  }

  /**
   * A call is issued only after every earlier call of the writer was issued
   * and none of them failed fatally.
   */
  lemma Reached(h: Host, log: seq<Op>, steps: seq<Step>, j: nat)
    requires j < |RunSteps(h, log, steps).log| - |log|
    ensures var o := RunSteps(h, log, steps);
      && j < |steps|
      && o.log[..|log| + j + 1] == log + Ops(steps)[..j + 1]
      && NoFatal(h, log, Ops(steps)[..j])
  {
    var o := RunSteps(h, log, steps);
    var ops := Ops(steps);
    assert |ops| == |steps|;
    if o.err.None? {
      assert o.log == log + ops;
      assert o.log[..|log| + j + 1] == log + ops[..j + 1];
      NoFatalPrefix(h, log, ops, j);
    } else {
      var k := |o.log| - |log| - 1;
      assert o.log == log + ops[..k + 1];
      assert o.log[..|log| + j + 1] == log + ops[..j + 1];
      assert NoFatal(h, log, ops[..k]);
      NoFatalPrefix(h, log, ops[..k], j);
      assert ops[..k][..j] == ops[..j];
    }
  }

  /**
   * The mode is set before any content is written: whenever writeNewFile
   * copies content, it had first created the file and then issued the Chmod,
   * and that Chmod did not abort it.
   */
  lemma ModeSetBeforeContent(h: Host, log: seq<Op>, fpath: string, mode: FileMode)
    ensures var o := RunSteps(h, log, WriteNewFileSteps(fpath, mode));
      var created := log + [OsMkdirAll(Dir(fpath)), OsCreate(fpath)];
      OsCopy(fpath) in o.log[|log|..] ==>
        && o.log[..|log| + 3] == created + [OsChmod(fpath, mode)]
        && !Fatal(h, created, OsChmod(fpath, mode))
  {
    var steps := WriteNewFileSteps(fpath, mode);
    if OsCopy(fpath) in RunSteps(h, log, steps).log[|log|..] {
      FourthAfterThird(h, log, steps);
    }
  }

  /**
   * In a four-call writer whose last call differs from the others, the last
   * call is issued only after the first three, the third not failing fatally.
   */
  lemma FourthAfterThird(h: Host, log: seq<Op>, steps: seq<Step>)
    requires |steps| == 4
    requires forall i :: 0 <= i < 3 ==> steps[i].op != steps[3].op
    requires steps[3].op in RunSteps(h, log, steps).log[|log|..]
    ensures var o := RunSteps(h, log, steps);
      && o.log[..|log| + 3] == log + [steps[0].op, steps[1].op] + [steps[2].op]
      && !Fatal(h, log + [steps[0].op, steps[1].op], steps[2].op)
  {
    var o := RunSteps(h, log, steps);
    var ops := Ops(steps);
    var j :| 0 <= j < |o.log| - |log| && o.log[|log|..][j] == steps[3].op;
    Reached(h, log, steps, j);
    assert o.log[|log| + j] == ops[j];
    assert j == 3;
    assert ops[..3] == [steps[0].op, steps[1].op, steps[2].op];
    ThirdNotFatal(h, log, steps[0].op, steps[1].op, steps[2].op);
    Reached(h, log, steps, 2);
    assert log + [steps[0].op, steps[1].op] + [steps[2].op] == log + ops[..3];
    assert o.log[..|log| + 3] == log + ops[..3];
  }

  /** The third of three fatal-free calls was not fatal after the first two. */
  lemma ThirdNotFatal(h: Host, history: seq<Op>, first: Op, second: Op, third: Op)
    requires NoFatal(h, history, [first, second, third])
    ensures !Fatal(h, history + [first, second], third)
  {
    assert [first, second, third][1..] == [second, third];
    assert NoFatal(h, history + [first], [second, third]);
    assert [second, third][1..] == [third];
    assert NoFatal(h, history + [first] + [second], [third]);
    assert history + [first] + [second] == history + [first, second];
  }

  /**
   * When the Chmod is the only call that fails, writeNewFile succeeds exactly
   * on Windows; elsewhere it stops with a mode error before copying content.
   */
  lemma ChmodFailureFatalUnlessWindows(h: Host, log: seq<Op>, fpath: string, mode: FileMode)
    requires forall history, op :: h.fails(history, op) <==> op == OsChmod(fpath, mode)
    ensures var o := RunSteps(h, log, WriteNewFileSteps(fpath, mode));
      && (o.err.None? <==> h.windows)
      && (!h.windows ==>
            o.err == Some(ChangingFileMode(fpath)) &&
            o.log == log + [OsMkdirAll(Dir(fpath)), OsCreate(fpath), OsChmod(fpath, mode)])
  {
    var steps := WriteNewFileSteps(fpath, mode);
    var l1 := log + [OsMkdirAll(Dir(fpath))];
    var l2 := l1 + [OsCreate(fpath)];
    var l3 := l2 + [OsChmod(fpath, mode)];
    assert h.fails(l2, OsChmod(fpath, mode));
    assert !h.fails(log, OsMkdirAll(Dir(fpath))) && !h.fails(l1, OsCreate(fpath));
    assert !h.fails(l3, OsCopy(fpath));
    assert steps[1..][1..][1..][1..] == [];
  }
}
