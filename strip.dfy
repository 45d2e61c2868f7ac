/**
 * Path stripping, the rule shared by `unzipFile` and `untarFile`: drop the
 * first `strip` '/'-separated segments of an entry name, or skip the entry.
 */
module Strip {
  import opened Wrappers
  import opened Paths

  /**
   * The destination-relative name of an entry called `name`, or None when the
   * entry is skipped: it has no more than `strip` segments, or nothing is left
   * of it. A `strip` of zero or less leaves the name alone.
   */
  function StripName(name: string, strip: int): (r: Option<string>)
    ensures strip <= 0 ==> r == (if name == "" then None else Some(name))
    ensures r.Some? ==> r.value != "" && EndsWith(name, r.value)
    ensures r.Some? && strip > 0 ==> |Split(name)| > strip && Split(r.value) == Split(name)[strip..]
  {
    var parts := Split(name);
    if strip > 0 && |parts| <= strip then None
    else
      var n := if strip > 0 then Join(parts[strip..]) else name;
      if n == "" then None
      else
        assert strip > 0 ==> EndsWith(name, n) && Split(n) == parts[strip..] by {
          if strip > 0 {
            JoinSplit(name);
            JoinTailIsSuffix(parts, strip);
            SplitJoin(parts[strip..]);
          }
        }
        Some(n)
  }

  /**
   * With a positive `strip`, an entry is skipped exactly when it has at most
   * `strip` segments, or exactly one more and that last one is empty (the
   * name ends in '/', as the wrapper directory `proj/` does with strip 1).
   */
  lemma SkipWhen(name: string, strip: int)
    requires strip > 0
    ensures StripName(name, strip).None? <==>
      |Split(name)| <= strip || (|Split(name)| == strip + 1 && EndsWith(name, "/"))
  {
    var parts := Split(name);
    if |parts| > strip {
      SplitLastEmpty(name);
      if Join(parts[strip..]) == "" {
        JoinEmpty(parts[strip..]);
        assert parts[|parts| - 1] == parts[strip..][|parts| - 1 - strip];
      }
      if |parts| == strip + 1 {
        assert parts[strip..] == [parts[strip]];
        assert name != [] ==> (EndsWith(name, "/") <==> name[|name| - 1] == '/');
        assert name == [] ==> |parts| == 1;
      }
    }
  }

  /**
   * Stripping `a` segments and then `b` more is the same as stripping
   * `a + b` at once, skips included.
   */
  lemma StripAdditive(name: string, a: nat, b: nat)
    ensures StripName(name, a + b) ==
      match StripName(name, a)
      case None => None
      case Some(m) => StripName(m, b)
  {
    var parts := Split(name);
    if a > 0 && b > 0 {
      match StripName(name, a)
      case None =>
        if |parts| > a {
          JoinEmpty(parts[a..]);
        }
      case Some(m) =>
        assert Split(m) == parts[a..];
        if |parts| > a + b {
          assert parts[a..][b..] == parts[a + b..];
        }
    } else if a == 0 && b > 0 {
      if name == "" {
        assert Split(name) == [""];
      }
    }
  }

  /** Stripping one component removes exactly the leading directory and its slash. */
  lemma StripLeadingDirectory(dir: string, rest: string)
    requires '/' !in dir
    ensures StripName(dir + "/" + rest, 1) == if rest == "" then None else Some(rest)
  {
    SplitAfterPiece(dir, rest);
    JoinSplit(rest);
    assert Split(dir + "/" + rest)[1..] == Split(rest);
  }

  /** `a/b/c.txt` loses its first segment with strip 1 and is kept whole with strip 0. */
  lemma ExampleNested()
    ensures StripName("a/b/c.txt", 1) == Some("b/c.txt")
    ensures StripName("a/b/c.txt", 0) == Some("a/b/c.txt")
  {
    assert "a/b/c.txt" == "a" + "/" + "b/c.txt";
    StripLeadingDirectory("a", "b/c.txt");
  }

  /** `a/b/c.txt` has three segments, so strip 3 leaves nothing of it. */
  lemma ExampleNestedTooDeep()
    ensures StripName("a/b/c.txt", 3) == None
  {
    assert "a/b/c.txt" == "a" + "/" + "b/c.txt";
    StripLeadingDirectory("a", "b/c.txt");
    assert "b/c.txt" == "b" + "/" + "c.txt";
    StripLeadingDirectory("b", "c.txt");
    SingleSegmentSkipped("c.txt");
    StripAdditive("b/c.txt", 1, 1);
    StripAdditive("a/b/c.txt", 1, 2);
  }

  /** A single-segment name is skipped with strip 1. */
  lemma SingleSegmentSkipped(name: string)
    requires '/' !in name
    ensures StripName(name, 1) == None
  {
    SplitNoSlash(name);
  }

  /** The wrapper directory `proj/` leaves nothing with strip 1, and the empty name leaves nothing with strip 0. */
  lemma ExampleEmptyRemainder()
    ensures StripName("proj/", 1) == None
    ensures StripName("", 0) == None
  {
    SplitNoSlash("");
    assert "proj/" == "proj" + "/" + "";
    SplitAfterPiece("proj", "");
    assert Split("proj/")[1..] == [""];
  }
}
