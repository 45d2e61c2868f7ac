/**
 * Whole-archive scenarios: what extraction plans and reports for small
 * concrete tar archives. Each scenario is split into the names the strip
 * logic leaves, the paths they are joined to, the decisions that follow and
 * the run over the archive, so that every step is checked on its own.
 */
module Scenarios {
  import opened Wrappers
  import opened Paths
  import opened Strip
  import opened Writer
  import opened Archive
  import opened Extract

  /** The plan of a two-entry archive is the two entries' contributions, in order. */
  lemma PlannedTwo(x: Engine, e0: Entry, e1: Entry)
    ensures Planned(x, [e0, e1]) == x.contributes(e0) + x.contributes(e1)
  {
    assert [e0, e1][1..] == [e1];
    assert [e1][1..] == [];
    assert Planned(x, [e1]) == x.contributes(e1) + Planned(x, []);
    assert x.contributes(e1) + [] == x.contributes(e1);
  }

  /** The plan of a three-entry archive is the three entries' contributions, in order. */
  lemma PlannedThree(x: Engine, e0: Entry, e1: Entry, e2: Entry)
    ensures Planned(x, [e0, e1, e2]) == x.contributes(e0) + x.contributes(e1) + x.contributes(e2)
  {
    assert [e0, e1, e2][1..] == [e1, e2];
    PlannedTwo(x, e1, e2);
  }

  /** A run in which no entry can fail ends without an error. */
  lemma {:induction false} NoEntryFails(x: Engine, log: seq<Op>, entries: seq<Entry>)
    requires forall l, k :: 0 <= k < |entries| ==> x.process(l, entries[k]).err == None
    ensures Run(x, log, entries).err == None
    decreases |entries|
  {
    if entries != [] {
      forall l, k | 0 <= k < |entries[1..]| ensures x.process(l, entries[1..][k]).err == None {
        assert entries[1..][k] == entries[k + 1];
      }
      NoEntryFails(x, x.process(log, entries[0]).log, entries[1..]);
    }
  }

  /**
   * A run whose first entry succeeds and whose second fails stops there: it
   * keeps the first entry's contribution and reports the second's failure.
   */
  lemma HaltsAtSecond(x: Engine, log: seq<Op>, e0: Entry, e1: Entry, rest: seq<Entry>)
    requires x.process(log, e0).err == None
    requires x.process(x.process(log, e0).log, e1).err.Some?
    ensures var o := x.process(x.process(log, e0).log, e1);
      Run(x, log, [e0, e1] + rest) == Report(x.contributes(e0), o.log, o.err)
  {
    var es := [e0, e1] + rest;
    assert es[0] == e0;
    assert es[1..] == [e1] + rest;
    assert ([e1] + rest)[0] == e1;
    assert Run(x, x.process(log, e0).log, [e1] + rest).actions == [];
    assert x.contributes(e0) + [] == x.contributes(e0);
  }

  /**
   * A run over two tar entries whose first succeeds and whose second fails
   * reports the first entry's action and the second's failure.
   */
  lemma TarHaltsAtSecond(x: Engine, f: TarHeader, l: TarHeader, written: seq<Op>, log: seq<Op>, a: Action, err: Error)
    requires x.process([], Tar(f)) == Outcome(written, None)
    requires x.contributes(Tar(f)) == [a]
    requires x.process(written, Tar(l)) == Outcome(log, Some(err))
    ensures Run(x, [], TarEntries([f, l])) == Report([a], log, Some(err))
  {
    assert TarEntries([f, l]) == [Tar(f), Tar(l)] + [];
    HaltsAtSecond(x, [], Tar(f), Tar(l), []);
  }

  /** On a healthy host an accepted tar entry never fails and contributes exactly its action. */
  lemma Accepted(h: Host, c: Config, hd: TarHeader, name: string, a: Action)
    requires Healthy(h)
    requires TarDecide(c, hd) == Do(name, a)
    ensures forall log :: Extractor(h, c).process(log, Tar(hd)).err == None
    ensures Extractor(h, c).contributes(Tar(hd)) == [a]
  {
    forall log ensures Extractor(h, c).process(log, Tar(hd)).err == None {
      HealthyEntry(h, c, log, Tar(hd));
    }
    assert Extractor(h, c).contributes(Tar(hd)) == Performed(c, Tar(hd));
  }

  /** On a healthy host a skipped tar entry never fails and contributes nothing. */
  lemma Skipped(h: Host, c: Config, hd: TarHeader)
    requires Healthy(h)
    requires TarDecide(c, hd) == Skip
    ensures forall log :: Extractor(h, c).process(log, Tar(hd)).err == None
    ensures Extractor(h, c).contributes(Tar(hd)) == []
  {
    forall log ensures Extractor(h, c).process(log, Tar(hd)).err == None {
      HealthyEntry(h, c, log, Tar(hd));
    }
    assert Extractor(h, c).contributes(Tar(hd)) == Performed(c, Tar(hd));
  }

  /** An accepted entry runs its writer and contributes its action, whatever the host. */
  lemma Runs(h: Host, c: Config, log: seq<Op>, e: Entry, name: string, a: Action)
    requires Decide(c, e) == Do(name, a)
    ensures Extractor(h, c).process(log, e) == RunSteps(h, log, EntrySteps(e, name, a))
    ensures Extractor(h, c).contributes(e) == [a]
  {
    AcceptedEntry(h, c, log, e, name, a);
  }

  /** A rejected entry fails at once with its error and contributes nothing, whatever the host. */
  lemma Rejects(h: Host, c: Config, log: seq<Op>, e: Entry, err: Error)
    requires Decide(c, e) == Reject(err)
    ensures Extractor(h, c).process(log, e) == Outcome(log, Some(err))
    ensures Extractor(h, c).contributes(e) == []
  {
  }

  // ---------------------------------------------------------------------
  // A directory, a file in it and a symbolic link beside the file.

  lemma DirectoryFileAndLinkPaths()
    ensures JoinPath("out", "dir/") == "out/dir/"
    ensures JoinPath("out", "dir/file.txt") == "out/dir/file.txt"
    ensures JoinPath("out", "dir/link") == "out/dir/link"
  {
  }

  /** With strip 0 every name is kept as stored, and each flag picks its writer. */
  lemma DirectoryFileAndLinkDecisions()
    ensures TarDecide(Config("out", 0), TarHeader("dir/", TypeDir, 0x1ED, "")) == Do("dir/", Mkdir("out/dir/"))
    ensures TarDecide(Config("out", 0), TarHeader("dir/file.txt", TypeReg, 0x1A4, "")) ==
      Do("dir/file.txt", WriteFile("out/dir/file.txt", 0x1A4))
    ensures TarDecide(Config("out", 0), TarHeader("dir/link", TypeSymlink, 0x1FF, "file.txt")) ==
      Do("dir/link", Symlink("out/dir/link", "file.txt"))
  {
    DirectoryFileAndLinkPaths();
  }

  lemma DirectoryFileAndLinkEntries(h: Host)
    requires Healthy(h)
    ensures var x := Extractor(h, Config("out", 0));
      && (forall log :: x.process(log, Tar(TarHeader("dir/", TypeDir, 0x1ED, ""))).err == None)
      && (forall log :: x.process(log, Tar(TarHeader("dir/file.txt", TypeReg, 0x1A4, ""))).err == None)
      && (forall log :: x.process(log, Tar(TarHeader("dir/link", TypeSymlink, 0x1FF, "file.txt"))).err == None)
      && x.contributes(Tar(TarHeader("dir/", TypeDir, 0x1ED, ""))) == [Mkdir("out/dir/")]
      && x.contributes(Tar(TarHeader("dir/file.txt", TypeReg, 0x1A4, ""))) == [WriteFile("out/dir/file.txt", 0x1A4)]
      && x.contributes(Tar(TarHeader("dir/link", TypeSymlink, 0x1FF, "file.txt"))) == [Symlink("out/dir/link", "file.txt")]
  {
    var c := Config("out", 0);
    DirectoryFileAndLinkDecisions();
    Accepted(h, c, TarHeader("dir/", TypeDir, 0x1ED, ""), "dir/", Mkdir("out/dir/"));
    Accepted(h, c, TarHeader("dir/file.txt", TypeReg, 0x1A4, ""), "dir/file.txt", WriteFile("out/dir/file.txt", 0x1A4));
    Accepted(h, c, TarHeader("dir/link", TypeSymlink, 0x1FF, "file.txt"), "dir/link", Symlink("out/dir/link", "file.txt"));
  }

  /**
   * A tar archive holding `dir/`, `dir/file.txt` (mode 0644) and the symbolic
   * link `dir/link -> file.txt`, extracted with strip 0 into `out` on a
   * healthy host, creates exactly those three objects, in that order; the
   * link target is kept as stored.
   */
  lemma DirectoryFileAndLink(h: Host)
    requires Healthy(h)
    ensures var stream := TarStream([
        TarHeader("dir/", TypeDir, 0x1ED, ""),
        TarHeader("dir/file.txt", TypeReg, 0x1A4, ""),
        TarHeader("dir/link", TypeSymlink, 0x1FF, "file.txt")], AtEOF);
      var r := UntarSpec(h, Config("out", 0), stream);
      && r.err == None
      && r.actions == [Mkdir("out/dir/"), WriteFile("out/dir/file.txt", 0x1A4), Symlink("out/dir/link", "file.txt")]
  {
    var d := TarHeader("dir/", TypeDir, 0x1ED, "");
    var f := TarHeader("dir/file.txt", TypeReg, 0x1A4, "");
    var l := TarHeader("dir/link", TypeSymlink, 0x1FF, "file.txt");
    var x := Extractor(h, Config("out", 0));
    var es := [Tar(d), Tar(f), Tar(l)];
    assert TarEntries([d, f, l]) == es;
    DirectoryFileAndLinkEntries(h);
    forall lg, k | 0 <= k < |es| ensures x.process(lg, es[k]).err == None {
      assert es[k] == Tar(d) || es[k] == Tar(f) || es[k] == Tar(l);
    }
    NoEntryFails(x, [], es);
    PlannedThree(x, Tar(d), Tar(f), Tar(l));
    var r := Run(x, [], es);
    assert r.actions == [Mkdir("out/dir/"), WriteFile("out/dir/file.txt", 0x1A4), Symlink("out/dir/link", "file.txt")];
    assert UntarSpec(h, Config("out", 0), TarStream([d, f, l], AtEOF)) == r;
  }

  // ---------------------------------------------------------------------
  // The wrapper directory of a source tarball.

  lemma WrapperDirectoryNames()
    ensures StripName("proj-1.0/", 1) == None
    ensures StripName("proj-1.0/a.txt", 1) == Some("a.txt")
  {
    assert "proj-1.0/" == "proj-1.0" + "/" + "";
    assert "proj-1.0/a.txt" == "proj-1.0" + "/" + "a.txt";
    StripLeadingDirectory("proj-1.0", "");
    StripLeadingDirectory("proj-1.0", "a.txt");
  }

  lemma WrapperDirectoryPaths()
    ensures JoinPath("out", "a.txt") == "out/a.txt"
  {
  }

  lemma WrapperDirectoryDecisions()
    ensures TarDecide(Config("out", 1), TarHeader("proj-1.0/", TypeDir, 0x1ED, "")) == Skip
    ensures TarDecide(Config("out", 1), TarHeader("proj-1.0/a.txt", TypeReg, 0x1A4, "")) ==
      Do("a.txt", WriteFile("out/a.txt", 0x1A4))
  {
    WrapperDirectoryNames();
    WrapperDirectoryPaths();
  }

  lemma WrapperDirectoryEntries(h: Host)
    requires Healthy(h)
    ensures var x := Extractor(h, Config("out", 1));
      && (forall log :: x.process(log, Tar(TarHeader("proj-1.0/", TypeDir, 0x1ED, ""))).err == None)
      && (forall log :: x.process(log, Tar(TarHeader("proj-1.0/a.txt", TypeReg, 0x1A4, ""))).err == None)
      && x.contributes(Tar(TarHeader("proj-1.0/", TypeDir, 0x1ED, ""))) == []
      && x.contributes(Tar(TarHeader("proj-1.0/a.txt", TypeReg, 0x1A4, ""))) == [WriteFile("out/a.txt", 0x1A4)]
  {
    var c := Config("out", 1);
    WrapperDirectoryDecisions();
    Skipped(h, c, TarHeader("proj-1.0/", TypeDir, 0x1ED, ""));
    Accepted(h, c, TarHeader("proj-1.0/a.txt", TypeReg, 0x1A4, ""), "a.txt", WriteFile("out/a.txt", 0x1A4));
  }

  /**
   * The wrapper directory of a source tarball disappears with strip 1:
   * `proj-1.0/` is skipped and `proj-1.0/a.txt` becomes `out/a.txt`.
   */
  lemma WrapperDirectoryStripped(h: Host)
    requires Healthy(h)
    ensures var stream := TarStream([
        TarHeader("proj-1.0/", TypeDir, 0x1ED, ""),
        TarHeader("proj-1.0/a.txt", TypeReg, 0x1A4, "")], AtEOF);
      var r := UntarSpec(h, Config("out", 1), stream);
      r.err == None && r.actions == [WriteFile("out/a.txt", 0x1A4)]
  {
    var d := TarHeader("proj-1.0/", TypeDir, 0x1ED, "");
    var f := TarHeader("proj-1.0/a.txt", TypeReg, 0x1A4, "");
    var x := Extractor(h, Config("out", 1));
    var es := [Tar(d), Tar(f)];
    assert TarEntries([d, f]) == es;
    WrapperDirectoryEntries(h);
    forall lg, k | 0 <= k < |es| ensures x.process(lg, es[k]).err == None {
      assert es[k] == Tar(d) || es[k] == Tar(f);
    }
    NoEntryFails(x, [], es);
    PlannedTwo(x, Tar(d), Tar(f));
    var r := Run(x, [], es);
    assert r.actions == [WriteFile("out/a.txt", 0x1A4)];
    assert UntarSpec(h, Config("out", 1), TarStream([d, f], AtEOF)) == r;
  }

  // ---------------------------------------------------------------------
  // An entry with a type flag the extractor does not accept.

  lemma UnknownTypeFlagDecisions()
    ensures TarDecide(Config("out", 0), TarHeader("a.txt", TypeReg, 0x1A4, "")) == Do("a.txt", WriteFile("out/a.txt", 0x1A4))
    ensures TarDecide(Config("out", 0), TarHeader("volume", 86, 0, "")) == Reject(UnknownTypeFlag("volume", 86))
  {
    assert JoinPath("out", "a.txt") == "out/a.txt";
  }

  lemma UnknownTypeFlagEntries(h: Host)
    requires Healthy(h)
    ensures var x := Extractor(h, Config("out", 0));
      var calls := Ops(WriteNewFileSteps("out/a.txt", 0x1A4));
      && x.process([], Tar(TarHeader("a.txt", TypeReg, 0x1A4, ""))) == Outcome(calls, None)
      && x.process(calls, Tar(TarHeader("volume", 86, 0, ""))) == Outcome(calls, Some(UnknownTypeFlag("volume", 86)))
      && x.contributes(Tar(TarHeader("a.txt", TypeReg, 0x1A4, ""))) == [WriteFile("out/a.txt", 0x1A4)]
  {
    var c := Config("out", 0);
    var a := Tar(TarHeader("a.txt", TypeReg, 0x1A4, ""));
    var steps := WriteNewFileSteps("out/a.txt", 0x1A4);
    UnknownTypeFlagDecisions();
    Runs(h, c, [], a, "a.txt", WriteFile("out/a.txt", 0x1A4));
    assert EntrySteps(a, "a.txt", WriteFile("out/a.txt", 0x1A4)) == steps;
    HealthySteps(h, [], steps);
    assert [] + Ops(steps) == Ops(steps);
    Rejects(h, c, Ops(steps), Tar(TarHeader("volume", 86, 0, "")), UnknownTypeFlag("volume", 86));
  }

  /**
   * An entry with an unaccepted type flag ('V', a volume header) stops the
   * run with an error naming it: the entry before it is extracted and the
   * one after it is never processed.
   */
  lemma UnknownTypeFlagHalts(h: Host)
    requires Healthy(h)
    ensures var stream := TarStream([
        TarHeader("a.txt", TypeReg, 0x1A4, ""),
        TarHeader("volume", 86, 0, ""),
        TarHeader("b.txt", TypeReg, 0x1A4, "")], AtEOF);
      var r := UntarSpec(h, Config("out", 0), stream);
      && r.err == Some(UnknownTypeFlag("volume", 86))
      && r.actions == [WriteFile("out/a.txt", 0x1A4)]
      && r.log == Ops(WriteNewFileSteps("out/a.txt", 0x1A4))
  {
    var a := TarHeader("a.txt", TypeReg, 0x1A4, "");
    var v := TarHeader("volume", 86, 0, "");
    var b := TarHeader("b.txt", TypeReg, 0x1A4, "");
    var x := Extractor(h, Config("out", 0));
    assert TarEntries([a, v, b]) == [Tar(a), Tar(v)] + [Tar(b)];
    UnknownTypeFlagEntries(h);
    HaltsAtSecond(x, [], Tar(a), Tar(v), [Tar(b)]);
  }

  // ---------------------------------------------------------------------
  // A hard link under a stripped directory.

  lemma HardLinkNames()
    ensures StripName("proj/a", 1) == Some("a")
    ensures StripName("proj/b", 1) == Some("b")
  {
    assert "proj/a" == "proj" + "/" + "a";
    assert "proj/b" == "proj" + "/" + "b";
    StripLeadingDirectory("proj", "a");
    StripLeadingDirectory("proj", "b");
  }

  lemma HardLinkPaths()
    ensures JoinPath("out", "a") == "out/a"
    ensures JoinPath("out", "b") == "out/b"
    ensures JoinPath("out", "proj/a") == "out/proj/a"
  {
  }

  /** The link's own name is stripped; its target is joined to the destination unstripped. */
  lemma HardLinkDecisions()
    ensures TarDecide(Config("out", 1), TarHeader("proj/a", TypeReg, 0x1A4, "")) == Do("a", WriteFile("out/a", 0x1A4))
    ensures TarDecide(Config("out", 1), TarHeader("proj/b", TypeLink, 0x1A4, "proj/a")) ==
      Do("b", HardLink("out/b", "out/proj/a"))
  {
    HardLinkNames();
    HardLinkPaths();
  }

  /** Both writers create their entry under `out`. */
  lemma HardLinkParents()
    ensures Dir("out/a") == "out" && Dir("out/b") == "out"
  {
  }

  /** `op` brings `path` into existence: it creates a file there or links `path` to something. */
  predicate Creates(op: Op, path: string)
  {
    (op.OsCreate? || op.OsSymlink? || op.OsLink?) && op.path == path
  }

  /** Some call of `history` brought `path` into existence. */
  predicate CreatedBefore(history: seq<Op>, path: string)
    decreases |history|
  {
    history != [] && (Creates(history[|history| - 1], path) || CreatedBefore(history[..|history| - 1], path))
  }

  /**
   * An idealised empty staging directory. The only failure it has is a hard
   * link whose target no earlier call created, since os.Link needs an
   * existing target. Conflicts between entries (a link or file onto an
   * existing path, a directory under a file, a file over a directory) are
   * not modelled: those calls succeed here.
   */
  ghost predicate FreshStaging(h: Host)
  {
    forall history, op :: h.fails(history, op) <==> op.OsLink? && !CreatedBefore(history, op.target)
  }

  /** One more call creates `path` exactly when it is a creation of `path`. */
  lemma CreatedAfter(history: seq<Op>, op: Op, path: string)
    ensures CreatedBefore(history + [op], path) <==> Creates(op, path) || CreatedBefore(history, path)
  {
    assert (history + [op])[..|history|] == history;
  }

  /** In the idealised staging directory only hard links can fail. */
  lemma OnlyLinksFail(h: Host, history: seq<Op>, op: Op)
    requires FreshStaging(h) && !op.OsLink?
    ensures !Fatal(h, history, op)
  {
  }

  /** In a fresh staging directory a hard link to a target no earlier call created fails. */
  lemma MissingTargetFails(h: Host, history: seq<Op>, target: string, path: string)
    requires FreshStaging(h) && !CreatedBefore(history, target)
    ensures Fatal(h, history, OsLink(target, path))
  {
  }

  /**
   * In the idealised staging directory `writeNewFile` issues all four calls
   * and succeeds, since conflicts with earlier entries are not modelled.
   */
  lemma FileOnFreshStaging(h: Host, log: seq<Op>, fpath: string, mode: FileMode)
    requires FreshStaging(h)
    ensures RunSteps(h, log, WriteNewFileSteps(fpath, mode)) ==
      Outcome(log + [OsMkdirAll(Dir(fpath)), OsCreate(fpath), OsChmod(fpath, mode), OsCopy(fpath)], None)
  {
    var mk, cr, ch, cp := OsMkdirAll(Dir(fpath)), OsCreate(fpath), OsChmod(fpath, mode), OsCopy(fpath);
    OnlyLinksFail(h, log, mk);
    OnlyLinksFail(h, log + [mk], cr);
    OnlyLinksFail(h, log + [mk] + [cr], ch);
    OnlyLinksFail(h, log + [mk] + [cr] + [ch], cp);
    WriteNewFileOutcome(h, log, fpath, mode);
    assert log + [mk] + [cr] + [ch] + [cp] == log + [mk, cr, ch, cp];
  }

  /**
   * In a fresh staging directory `writeNewHardLink` to a target no earlier
   * call created fails after creating the parent directory.
   */
  lemma LinkOnFreshStaging(h: Host, log: seq<Op>, fpath: string, target: string)
    requires FreshStaging(h)
    requires !CreatedBefore(log, target)
    ensures RunSteps(h, log, WriteNewHardLinkSteps(fpath, target)) ==
      Outcome(log + [OsMkdirAll(Dir(fpath)), OsLink(target, fpath)], Some(MakingHardLink(fpath)))
  {
    var before := log + [OsMkdirAll(Dir(fpath))];
    CreatedAfter(log, OsMkdirAll(Dir(fpath)), target);
    OnlyLinksFail(h, log, OsMkdirAll(Dir(fpath)));
    MissingTargetFails(h, before, target, fpath);
    HardLinkOutcome(h, log, fpath, target);
  }

  /** On a fresh staging directory an accepted regular file is written and contributes its action. */
  lemma FileEntryOnFreshStaging(h: Host, c: Config, log: seq<Op>, hd: TarHeader, name: string, fpath: string, mode: FileMode)
    requires FreshStaging(h)
    requires TarDecide(c, hd) == Do(name, WriteFile(fpath, mode))
    ensures Extractor(h, c).process(log, Tar(hd)) ==
      Outcome(log + [OsMkdirAll(Dir(fpath)), OsCreate(fpath), OsChmod(fpath, mode), OsCopy(fpath)], None)
    ensures Extractor(h, c).contributes(Tar(hd)) == [WriteFile(fpath, mode)]
  {
    Runs(h, c, log, Tar(hd), name, WriteFile(fpath, mode));
    assert EntrySteps(Tar(hd), name, WriteFile(fpath, mode)) == WriteNewFileSteps(fpath, mode);
    FileOnFreshStaging(h, log, fpath, mode);
  }

  /** On a fresh staging directory an accepted hard link to a target not yet created fails. */
  lemma LinkEntryOnFreshStaging(h: Host, c: Config, log: seq<Op>, hd: TarHeader, name: string, fpath: string, target: string)
    requires FreshStaging(h) && !CreatedBefore(log, target)
    requires TarDecide(c, hd) == Do(name, HardLink(fpath, target))
    ensures Extractor(h, c).process(log, Tar(hd)) ==
      Outcome(log + [OsMkdirAll(Dir(fpath)), OsLink(target, fpath)], Some(MakingHardLink(fpath)))
  {
    Runs(h, c, log, Tar(hd), name, HardLink(fpath, target));
    assert EntrySteps(Tar(hd), name, HardLink(fpath, target)) == WriteNewHardLinkSteps(fpath, target);
    LinkOnFreshStaging(h, log, fpath, target);
  }

  /** Writing `out/a` creates nothing at `out/proj/a`. */
  lemma NothingAtUnstrippedTarget()
    ensures !CreatedBefore([OsMkdirAll("out"), OsCreate("out/a"), OsChmod("out/a", 0x1A4), OsCopy("out/a")], "out/proj/a")
  {
    var written := [OsMkdirAll("out"), OsCreate("out/a"), OsChmod("out/a", 0x1A4), OsCopy("out/a")];
    assert |"out/a"| != |"out/proj/a"|;
    CreatedAfter([], written[0], "out/proj/a");
    CreatedAfter(written[..1], written[1], "out/proj/a");
    CreatedAfter(written[..2], written[2], "out/proj/a");
    CreatedAfter(written[..3], written[3], "out/proj/a");
    assert written[..1] == [] + [written[0]];
    assert written[..2] == written[..1] + [written[1]];
    assert written[..3] == written[..2] + [written[2]];
    assert written == written[..3] + [written[3]];
  }

  /** On a fresh staging directory the regular file `proj/a` is written to `out/a`. */
  lemma HardLinkFileWritten(h: Host)
    requires FreshStaging(h)
    ensures var x := Extractor(h, Config("out", 1));
      var f := Tar(TarHeader("proj/a", TypeReg, 0x1A4, ""));
      && x.process([], f) == Outcome([OsMkdirAll("out"), OsCreate("out/a"), OsChmod("out/a", 0x1A4), OsCopy("out/a")], None)
      && x.contributes(f) == [WriteFile("out/a", 0x1A4)]
  {
    HardLinkDecisions();
    HardLinkParents();
    FileEntryOnFreshStaging(h, Config("out", 1), [], TarHeader("proj/a", TypeReg, 0x1A4, ""), "a", "out/a", 0x1A4);
    assert [] + [OsMkdirAll("out"), OsCreate("out/a"), OsChmod("out/a", 0x1A4), OsCopy("out/a")] ==
      [OsMkdirAll("out"), OsCreate("out/a"), OsChmod("out/a", 0x1A4), OsCopy("out/a")];
  }

  /** After `out/a` is written, the link `proj/b` to the unstripped `out/proj/a` fails. */
  lemma HardLinkFails(h: Host)
    requires FreshStaging(h)
    ensures var x := Extractor(h, Config("out", 1));
      var l := Tar(TarHeader("proj/b", TypeLink, 0x1A4, "proj/a"));
      var written := [OsMkdirAll("out"), OsCreate("out/a"), OsChmod("out/a", 0x1A4), OsCopy("out/a")];
      x.process(written, l) ==
        Outcome(written + [OsMkdirAll("out"), OsLink("out/proj/a", "out/b")], Some(MakingHardLink("out/b")))
  {
    var written := [OsMkdirAll("out"), OsCreate("out/a"), OsChmod("out/a", 0x1A4), OsCopy("out/a")];
    HardLinkDecisions();
    HardLinkParents();
    NothingAtUnstrippedTarget();
    LinkEntryOnFreshStaging(h, Config("out", 1), written, TarHeader("proj/b", TypeLink, 0x1A4, "proj/a"),
      "b", "out/b", "out/proj/a");
  }

  /**
   * A hard link's target is the destination joined with the link name as
   * stored: with strip 1, `proj/b` linking to `proj/a` asks for `out/b`
   * linked to `out/proj/a`, not to `out/a` where the target was written.
   * In a fresh staging directory nothing is at `out/proj/a`, so extraction
   * writes `out/a` and then fails with the hard-link error for `out/b`.
   */
  lemma HardLinkTargetNotStripped(h: Host)
    requires FreshStaging(h)
    ensures var stream := TarStream([
        TarHeader("proj/a", TypeReg, 0x1A4, ""),
        TarHeader("proj/b", TypeLink, 0x1A4, "proj/a")], AtEOF);
      var r := UntarSpec(h, Config("out", 1), stream);
      && r.err == Some(MakingHardLink("out/b"))
      && r.actions == [WriteFile("out/a", 0x1A4)]
      && r.log == [OsMkdirAll("out"), OsCreate("out/a"), OsChmod("out/a", 0x1A4), OsCopy("out/a"),
                   OsMkdirAll("out"), OsLink("out/proj/a", "out/b")]
  {
    var written := [OsMkdirAll("out"), OsCreate("out/a"), OsChmod("out/a", 0x1A4), OsCopy("out/a")];
    HardLinkFileWritten(h);
    HardLinkFails(h);
    assert written + [OsMkdirAll("out"), OsLink("out/proj/a", "out/b")] ==
      [OsMkdirAll("out"), OsCreate("out/a"), OsChmod("out/a", 0x1A4), OsCopy("out/a"),
       OsMkdirAll("out"), OsLink("out/proj/a", "out/b")];
    TarHaltsAtSecond(Extractor(h, Config("out", 1)), TarHeader("proj/a", TypeReg, 0x1A4, ""),
      TarHeader("proj/b", TypeLink, 0x1A4, "proj/a"), written,
      written + [OsMkdirAll("out"), OsLink("out/proj/a", "out/b")], WriteFile("out/a", 0x1A4), MakingHardLink("out/b"));
  }
}
