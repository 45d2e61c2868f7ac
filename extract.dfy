/**
 * The extraction loops `unzip` and `untar`: entries are processed one at a
 * time in archive order, and the first error ends the run. `Run` is the
 * specification both loops are proved against.
 */
module Extract {
  import opened Wrappers
  import opened Writer
  import opened Archive

  /** What a run did: the actions it completed, every call it issued, and the error that ended it. */
  datatype Report = Report(actions: seq<Action>, log: seq<Op>, err: Option<Error>)

  /**
   * The per-entry work of a loop: how an entry is processed after the calls
   * in a log, and the actions it contributes when that succeeds.
   */
  datatype Engine = Engine(process: (seq<Op>, Entry) -> Outcome, contributes: Entry -> seq<Action>)

  /** The action an entry contributes when it succeeds: none for a skipped entry. */
  function Performed(c: Config, e: Entry): seq<Action>
  {
    match Decide(c, e)
    case Do(_, a) => [a]
    case _ => []
  }

  /** The engine of `unzipFile` / `untarFile` on host `h` with run parameters `c`. */
  function Extractor(h: Host, c: Config): Engine
  {
    Engine((log: seq<Op>, e: Entry) => ProcessEntry(h, c, log, e), (e: Entry) => Performed(c, e))
  }

  /** The per-entry actions of `entries`, concatenated in archive order. */
  function Planned(x: Engine, entries: seq<Entry>): seq<Action>
    decreases |entries|
  {
    if entries == [] then [] else x.contributes(entries[0]) + Planned(x, entries[1..])
  }

  /**
   * Process `entries` in order after the calls in `log`, stopping at the
   * first entry that fails; the failing entry contributes no action. A run
   * that ends without an error has completed exactly the planned actions.
   */
  function Run(x: Engine, log: seq<Op>, entries: seq<Entry>): (r: Report)
    ensures r.err.None? ==> r.actions == Planned(x, entries)
    decreases |entries|
  {
    if entries == [] then Report([], log, None)
    else
      var o := x.process(log, entries[0]);
      if o.err.Some? then Report([], o.log, o.err)
      else
        var rest := Run(x, o.log, entries[1..]);
        Report(x.contributes(entries[0]) + rest.actions, rest.log, rest.err)
  }

  /** Carry on with `entries` after the partial run `r`, unless it already failed. */
  function Continue(x: Engine, r: Report, entries: seq<Entry>): Report
  {
    if r.err.Some? then r
    else
      var rest := Run(x, r.log, entries);
      Report(r.actions + rest.actions, rest.log, rest.err)
  }

  /**
   * Archive order: running `xs + ys` is running `xs` and then, only if that
   * did not fail, running `ys` from where `xs` left off. Once `xs` fails,
   * nothing in `ys` is processed.
   */
  lemma {:induction false} RunAppend(x: Engine, log: seq<Op>, xs: seq<Entry>, ys: seq<Entry>)
    ensures Run(x, log, xs + ys) == Continue(x, Run(x, log, xs), ys)
    decreases |xs|
  {
    if xs == [] {
      assert xs + ys == ys;
    } else {
      assert (xs + ys)[0] == xs[0] && (xs + ys)[1..] == xs[1..] + ys;
      var o := x.process(log, xs[0]);
      if o.err.None? {
        RunAppend(x, o.log, xs[1..], ys);
        var first := x.contributes(xs[0]);
        var r := Run(x, o.log, xs[1..]);
        if r.err.None? {
          var s := Run(x, r.log, ys);
          assert first + (r.actions + s.actions) == (first + r.actions) + s.actions;
        }
      }
    }
  }

  /**
   * Entry `k` is the first to fail: the entries before it succeeded with
   * their planned actions, entry `k` failed, and the whole run's result is
   * theirs followed by entry `k`'s error and calls.
   */
  ghost predicate FailsFirstAt(x: Engine, log: seq<Op>, entries: seq<Entry>, k: nat)
    requires k < |entries|
  {
    var before := Run(x, log, entries[..k]);
    var o := x.process(before.log, entries[k]);
    && before.err.None?
    && before.actions == Planned(x, entries[..k])
    && o.err.Some?
    && Run(x, log, entries) == Report(before.actions, o.log, o.err)
  }

  /**
   * If a run fails, some entry is the first to fail, and everything after
   * it is left unprocessed.
   */
  lemma {:induction false} FirstFailure(x: Engine, log: seq<Op>, entries: seq<Entry>)
    requires Run(x, log, entries).err.Some?
    ensures exists k :: 0 <= k < |entries| && FailsFirstAt(x, log, entries, k)
    decreases |entries|
  {
    var o := x.process(log, entries[0]);
    if o.err.Some? {
      assert entries[..0] == [];
      assert FailsFirstAt(x, log, entries, 0);
    } else {
      var tail := entries[1..];
      FirstFailure(x, o.log, tail);
      var k :| 0 <= k < |tail| && FailsFirstAt(x, o.log, tail, k);
      assert entries[..k + 1][0] == entries[0] && entries[..k + 1][1..] == tail[..k];
      assert entries[k + 1] == tail[k];
      assert FailsFirstAt(x, log, entries, k + 1);
    }
  }

  /** A host on which no call fails. */
  ghost predicate Healthy(h: Host)
  {
    forall history, op :: !h.fails(history, op)
  }

  /** The calls an entry's writer issues in full. */
  function Calls(c: Config, e: Entry): seq<Op>
  {
    match Decide(c, e)
    case Do(name, a) => Ops(EntrySteps(e, name, a))
    case _ => []
  }

  /** The calls of all `entries`, in archive order. */
  function AllCalls(calls: Entry -> seq<Op>, entries: seq<Entry>): seq<Op>
    decreases |entries|
  {
    if entries == [] then [] else calls(entries[0]) + AllCalls(calls, entries[1..])
  }

  /** On a healthy host every writer issues all its calls and succeeds. */
  lemma {:induction false} HealthySteps(h: Host, log: seq<Op>, steps: seq<Step>)
    requires Healthy(h)
    ensures RunSteps(h, log, steps) == Outcome(log + Ops(steps), None)
    decreases |steps|
  {
    if steps != [] {
      HealthySteps(h, log + [steps[0].op], steps[1..]);
      assert Ops(steps) == [steps[0].op] + Ops(steps[1..]);
    }
  }

  /** On a healthy host an entry that is not rejected issues all its calls and succeeds. */
  lemma HealthyEntry(h: Host, c: Config, log: seq<Op>, e: Entry)
    requires Healthy(h)
    requires !Decide(c, e).Reject?
    ensures ProcessEntry(h, c, log, e) == Outcome(log + Calls(c, e), None)
  {
    match Decide(c, e) {
      case Do(name, a) =>
        HealthySteps(h, log, EntrySteps(e, name, a));
      case Skip =>
    }
  }

  /**
   * When every entry succeeds, issuing its own calls whatever came before,
   * the run succeeds with the planned actions and all the calls in order.
   */
  lemma {:induction false} RunWithoutFailures(x: Engine, calls: Entry -> seq<Op>, log: seq<Op>, entries: seq<Entry>)
    requires forall l: seq<Op>, k :: 0 <= k < |entries| ==>
      x.process(l, entries[k]) == Outcome(l + calls(entries[k]), None)
    ensures Run(x, log, entries) == Report(Planned(x, entries), log + AllCalls(calls, entries), None)
    decreases |entries|
  {
    if entries != [] {
      var next := log + calls(entries[0]);
      assert x.process(log, entries[0]) == Outcome(next, None);
      forall l: seq<Op>, k | 0 <= k < |entries[1..]|
        ensures x.process(l, entries[1..][k]) == Outcome(l + calls(entries[1..][k]), None)
      {
        assert entries[1..][k] == entries[k + 1];
      }
      RunWithoutFailures(x, calls, next, entries[1..]);
      assert next + AllCalls(calls, entries[1..]) == log + AllCalls(calls, entries);
    }
  }

  /**
   * On a healthy host, an archive with no rejected entry extracts without an
   * error, completing every planned action and issuing every planned call.
   */
  lemma HealthyRun(h: Host, c: Config, log: seq<Op>, entries: seq<Entry>)
    requires Healthy(h)
    requires forall k :: 0 <= k < |entries| ==> !Decide(c, entries[k]).Reject?
    ensures Run(Extractor(h, c), log, entries) ==
      Report(Planned(Extractor(h, c), entries), log + AllCalls((e: Entry) => Calls(c, e), entries), None)
  {
    var x := Extractor(h, c);
    var calls := (e: Entry) => Calls(c, e);
    forall l: seq<Op>, k | 0 <= k < |entries|
      ensures x.process(l, entries[k]) == Outcome(l + calls(entries[k]), None)
    {
      HealthyEntry(h, c, l, entries[k]);
    }
    RunWithoutFailures(x, calls, log, entries);
  }

  /** When no entry contributes a link, no run plans one. */
  lemma {:induction false} PlannedWithoutLinks(x: Engine, entries: seq<Entry>)
    requires forall k, j :: 0 <= k < |entries| && 0 <= j < |x.contributes(entries[k])| ==>
      x.contributes(entries[k])[j].Mkdir? || x.contributes(entries[k])[j].WriteFile?
    ensures forall j :: 0 <= j < |Planned(x, entries)| ==>
      Planned(x, entries)[j].Mkdir? || Planned(x, entries)[j].WriteFile?
    decreases |entries|
  {
    if entries != [] {
      forall k, j | 0 <= k < |entries[1..]| && 0 <= j < |x.contributes(entries[1..][k])|
        ensures x.contributes(entries[1..][k])[j].Mkdir? || x.contributes(entries[1..][k])[j].WriteFile?
      {
        assert entries[1..][k] == entries[k + 1];
      }
      PlannedWithoutLinks(x, entries[1..]);
      var first := x.contributes(entries[0]);
      var rest := Planned(x, entries[1..]);
      var all: seq<Action> := first + rest;
      forall j | 0 <= j < |all| ensures all[j].Mkdir? || all[j].WriteFile? {
        if j >= |first| {
          assert all[j] == rest[j - |first|];
        } else {
          assert all[j] == first[j];
        }
      }
    }
  }

  /** Zip archives never yield a link: every planned action is a directory or a file. */
  lemma ZipYieldsNoLinks(h: Host, c: Config, files: seq<ZipFile>)
    ensures var planned := Planned(Extractor(h, c), ZipEntries(files));
      forall j :: 0 <= j < |planned| ==> planned[j].Mkdir? || planned[j].WriteFile?
  {
    var x := Extractor(h, c);
    var entries := ZipEntries(files);
    forall k, j | 0 <= k < |entries| && 0 <= j < |x.contributes(entries[k])|
      ensures x.contributes(entries[k])[j].Mkdir? || x.contributes(entries[k])[j].WriteFile?
    {
      assert x.contributes(entries[k]) == Performed(c, Zip(files[k]));
    }
    PlannedWithoutLinks(x, entries);
  }

  /** A zip archive as `zip.NewReader` sees it: its members in central-directory order, or not a zip. */
  datatype ZipArchive = ZipArchive(files: seq<ZipFile>) | NotZip

  /** How a tar stream ends after its headers: at io.EOF, or with a read error. */
  datatype StreamEnd = AtEOF | ReadFailure

  /** A tar stream as `tar.NewReader` (over the gzip reader or the raw body) decodes it. */
  datatype TarStream = TarStream(headers: seq<TarHeader>, end: StreamEnd)

  function ZipEntries(files: seq<ZipFile>): (es: seq<Entry>)
    ensures |es| == |files|
    ensures forall k :: 0 <= k < |files| ==> es[k] == Zip(files[k])
  {
    seq(|files|, k requires 0 <= k < |files| => Zip(files[k]))
  }

  function TarEntries(headers: seq<TarHeader>): (es: seq<Entry>)
    ensures |es| == |headers|
    ensures forall k :: 0 <= k < |headers| ==> es[k] == Tar(headers[k])
  {
    seq(|headers|, k requires 0 <= k < |headers| => Tar(headers[k]))
  }

  /** What `unzip` does: nothing but an error for a malformed archive, else a run over its members. */
  function UnzipSpec(h: Host, c: Config, archive: ZipArchive): Report
  {
    match archive
    case NotZip => Report([], [], Some(NotAZipArchive))
    case ZipArchive(files) => Run(Extractor(h, c), [], ZipEntries(files))
  }

  /** What `untar` does: a run over the headers, then the read error if the stream ends in one. */
  function UntarSpec(h: Host, c: Config, stream: TarStream): Report
  {
    var r := Run(Extractor(h, c), [], TarEntries(stream.headers));
    if r.err.None? && stream.end == ReadFailure then r.(err := Some(TarReadError)) else r
  }

  /** The result of `tr.Next()` at position `i` of the stream. */
  datatype Next = Header(header: TarHeader) | EOF | ReadError

  function NextHeader(stream: TarStream, i: nat): (n: Next)
    ensures i < |stream.headers| ==> n == Header(stream.headers[i])
  {
    if i < |stream.headers| then Header(stream.headers[i])
    else if stream.end == AtEOF then EOF
    else ReadError
  }

  /** One turn of an extraction loop: process the next entry, then carry on or stop. */
  lemma ContinueStep(x: Engine, actions: seq<Action>, log: seq<Op>, entries: seq<Entry>)
    requires entries != []
    ensures Continue(x, Report(actions, log, None), entries) ==
      var o := x.process(log, entries[0]);
      if o.err.Some? then Report(actions, o.log, o.err)
      else Continue(x, Report(actions + x.contributes(entries[0]), o.log, None), entries[1..])
  {
    var o := x.process(log, entries[0]);
    if o.err.None? {
      var rest := Run(x, o.log, entries[1..]);
      assert actions + (x.contributes(entries[0]) + rest.actions) == (actions + x.contributes(entries[0])) + rest.actions;
    }
  }

  /** `unzip`: walk the members in order, stopping at the first error. */
  method Unzip(h: Host, c: Config, archive: ZipArchive) returns (r: Report)
    ensures r == UnzipSpec(h, c, archive)
  {
    if archive.NotZip? {
      return Report([], [], Some(NotAZipArchive));
    }
    var files := archive.files;
    var x := Extractor(h, c);
    ghost var entries := ZipEntries(files);
    var actions: seq<Action> := [];
    var log: seq<Op> := [];
    var i := 0;
    while i < |files|
      invariant 0 <= i <= |files|
      invariant Run(x, [], entries) == Continue(x, Report(actions, log, None), entries[i..])
    {
      assert entries[i..][0] == Zip(files[i]) && entries[i..][1..] == entries[i + 1..];
      ContinueStep(x, actions, log, entries[i..]);
      var o := x.process(log, Zip(files[i]));
      if o.err.Some? {
        return Report(actions, o.log, o.err);
      }
      actions := actions + x.contributes(Zip(files[i]));
      log := o.log;
      i := i + 1;
    }
    assert entries[i..] == [];
    r := Report(actions, log, None);
  }

  /** `untar`: read headers until EOF, stopping at the first read or entry error. */
  method Untar(h: Host, c: Config, stream: TarStream) returns (r: Report)
    ensures r == UntarSpec(h, c, stream)
  {
    var x := Extractor(h, c);
    ghost var entries := TarEntries(stream.headers);
    var actions: seq<Action> := [];
    var log: seq<Op> := [];
    var i := 0;
    while true
      invariant 0 <= i <= |stream.headers|
      invariant Run(x, [], entries) == Continue(x, Report(actions, log, None), entries[i..])
      decreases |stream.headers| - i
    {
      var next := NextHeader(stream, i);
      if next.EOF? {
        break;
      } else if next.ReadError? {
        assert entries[i..] == [];
        return Report(actions, log, Some(TarReadError));
      }
      assert entries[i..][0] == Tar(next.header) && entries[i..][1..] == entries[i + 1..];
      ContinueStep(x, actions, log, entries[i..]);
      var o := x.process(log, Tar(next.header));
      if o.err.Some? {
        return Report(actions, o.log, o.err);
      }
      actions := actions + x.contributes(Tar(next.header));
      log := o.log;
      i := i + 1;
    }
    assert entries[i..] == [];
    r := Report(actions, log, None);
  }
}
