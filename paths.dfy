/**
 * The string and path helpers of Go's standard library that the extractor
 * calls (strings.Split, strings.Join, strings.HasSuffix, filepath.Join,
 * filepath.Dir, filepath.Base, filepath.Ext / path.Ext), as they behave on a
 * POSIX system where the path separator is '/'.
 */
module Paths {

  /**
   * `suffix` is a suffix of `s` (strings.HasSuffix): `s` is some string
   * followed by `suffix`.
   */
  predicate EndsWith(s: string, suffix: string)
  {
    |suffix| <= |s| && s[|s| - |suffix|..] == suffix
  }

  /**
   * strings.Split(s, "/"): the maximal slash-free pieces between separators.
   * There is always at least one piece; the empty string gives [""].
   */
  function Split(s: string): (parts: seq<string>)
    ensures |parts| >= 1
    ensures forall k :: 0 <= k < |parts| ==> '/' !in parts[k]
    decreases |s|
  {
    if s == [] then [""]
    else
      var rest := Split(s[1..]);
      if s[0] == '/' then [""] + rest
      else [[s[0]] + rest[0]] + rest[1..]
  }

  /** strings.Join(parts, "/"). */
  function Join(parts: seq<string>): string
  {
    if |parts| == 0 then ""
    else if |parts| == 1 then parts[0]
    else parts[0] + "/" + Join(parts[1..])
  }

  /** Joining what Split produced gives the original string back. */
  lemma {:induction false} JoinSplit(s: string)
    ensures Join(Split(s)) == s
    decreases |s|
  {
    if s != [] {
      var rest := Split(s[1..]);
      JoinSplit(s[1..]);
      if s[0] == '/' {
        assert Split(s) == [""] + rest;
        assert Join([""] + rest) == "" + "/" + Join(rest);
      } else if |rest| == 1 {
        assert Split(s) == [[s[0]] + rest[0]];
        assert Join(rest) == rest[0];
      } else {
        var parts := [[s[0]] + rest[0]] + rest[1..];
        assert Split(s) == parts;
        assert parts[1..] == rest[1..];
        assert Join(rest) == rest[0] + "/" + Join(rest[1..]);
        assert Join(parts) == [s[0]] + rest[0] + "/" + Join(rest[1..]);
      }
    }
  }

  /** A slash-free string is a single piece. */
  lemma {:induction false} SplitNoSlash(a: string)
    requires '/' !in a
    ensures Split(a) == [a]
    decreases |a|
  {
    if a != [] {
      assert '/' !in a[1..] by {
        forall k | 0 <= k < |a[1..]| ensures a[1..][k] != '/' { assert a[1..][k] == a[k + 1]; }
      }
      SplitNoSlash(a[1..]);
      assert [a[0]] + a[1..] == a;
    }
  }

  /** Splitting `a/b` with a slash-free `a` yields `a` followed by the pieces of `b`. */
  lemma {:induction false} SplitAfterPiece(a: string, b: string)
    requires '/' !in a
    ensures Split(a + "/" + b) == [a] + Split(b)
    decreases |a|
  {
    var s := a + "/" + b;
    if a == [] {
      assert s[0] == '/' && s[1..] == b;
    } else {
      assert '/' !in a[1..] by {
        forall k | 0 <= k < |a[1..]| ensures a[1..][k] != '/' { assert a[1..][k] == a[k + 1]; }
      }
      SplitAfterPiece(a[1..], b);
      assert s[1..] == a[1..] + "/" + b;
      assert s[0] == a[0] && s[0] != '/';
      assert [a[0]] + a[1..] == a;
    }
  }

  /** Splitting a join of slash-free pieces gives the pieces back. */
  lemma {:induction false} SplitJoin(parts: seq<string>)
    requires |parts| >= 1
    requires forall k :: 0 <= k < |parts| ==> '/' !in parts[k]
    ensures Split(Join(parts)) == parts
    decreases |parts|
  {
    if |parts| == 1 {
      SplitNoSlash(parts[0]);
    } else {
      SplitJoin(parts[1..]);
      SplitAfterPiece(parts[0], Join(parts[1..]));
      assert [parts[0]] + parts[1..] == parts;
    }
  }

  /** A join of at least one piece is empty only when it is the single empty piece. */
  lemma JoinEmpty(parts: seq<string>)
    requires |parts| >= 1 && Join(parts) == ""
    ensures parts == [""]
  {
  }

  /** The join of a tail of the pieces is a suffix of the join of all of them. */
  lemma {:induction false} JoinTailIsSuffix(parts: seq<string>, k: nat)
    requires k < |parts|
    ensures EndsWith(Join(parts), Join(parts[k..]))
    decreases k
  {
    if k > 0 {
      JoinTailIsSuffix(parts[1..], k - 1);
      assert parts[1..][k - 1..] == parts[k..];
      var whole := Join(parts);
      var tail := Join(parts[1..]);
      assert whole == parts[0] + "/" + tail;
      assert whole[|whole| - |tail|..] == tail;
    }
  }

  /** The last piece of Split(s) is empty exactly when `s` is empty or ends in '/'. */
  lemma {:induction false} SplitLastEmpty(s: string)
    ensures var parts := Split(s);
      parts[|parts| - 1] == "" <==> s == [] || s[|s| - 1] == '/'
    decreases |s|
  {
    if s != [] {
      SplitLastEmpty(s[1..]);
      var rest := Split(s[1..]);
      if s[0] != '/' && |rest| == 1 {
        assert Split(s) == [[s[0]] + rest[0]];
        if |s| > 1 {
          assert s[1..][|s[1..]| - 1] == s[|s| - 1];
        }
      } else if |s| > 1 {
        assert s[1..][|s[1..]| - 1] == s[|s| - 1];
      }
    }
  }

  /**
   * filepath.Join(dir, name) on POSIX, without the lexical clean-up that
   * filepath.Clean applies afterwards: an empty operand is dropped.
   */
  function JoinPath(dir: string, name: string): (r: string)
    ensures dir == "" ==> r == name
    ensures name == "" ==> r == dir
    ensures dir != "" && name != "" ==> dir < r && r[|dir|] == '/' && r[|dir| + 1..] == name
  {
    if dir == "" then name
    else if name == "" then dir
    else dir + "/" + name
  }

  /** The elements of a joined path are those of `dir` followed by those of `name`. */
  lemma JoinPathPieces(dir: string, name: string)
    requires dir != "" && name != ""
    ensures Split(JoinPath(dir, name)) == Split(dir) + Split(name)
  {
    SplitConcat(dir, name);
  }

  /** The pieces of `a/b` are the pieces of `a` followed by those of `b`. */
  lemma {:induction false} SplitConcat(a: string, b: string)
    ensures Split(a + "/" + b) == Split(a) + Split(b)
    decreases |a|
  {
    var s := a + "/" + b;
    if a == [] {
      assert s[0] == '/' && s[1..] == b;
    } else {
      assert s[1..] == a[1..] + "/" + b;
      SplitConcat(a[1..], b);
      var ra, rb := Split(a[1..]), Split(b);
      var r := Split(s[1..]);
      assert r == ra + rb;
      if a[0] == '/' {
        assert Split(s) == [""] + r;
        assert Split(a) == [""] + ra;
        assert [""] + (ra + rb) == ([""] + ra) + rb;
      } else {
        assert Split(s) == [[a[0]] + r[0]] + r[1..];
        assert Split(a) == [[a[0]] + ra[0]] + ra[1..];
        MergeFirstPiece([a[0]], ra, rb);
      }
    }
  }

  /** Prefixing the first piece of `ra + rb` only touches `ra`'s first piece. */
  lemma MergeFirstPiece(x: string, ra: seq<string>, rb: seq<string>)
    requires |ra| >= 1
    ensures [x + (ra + rb)[0]] + (ra + rb)[1..] == ([x + ra[0]] + ra[1..]) + rb
  {
    assert (ra + rb)[1..] == ra[1..] + rb;
  }

  /** Index of the last '/' in `p`, or -1 when there is none. */
  function LastSlash(p: string): (i: int)
    ensures -1 <= i < |p|
    ensures i >= 0 ==> p[i] == '/'
    ensures forall j :: i < j < |p| ==> p[j] != '/'
    decreases |p|
  {
    if p == [] then -1
    else if p[|p| - 1] == '/' then |p| - 1
    else LastSlash(p[..|p| - 1])
  }

  /**
   * filepath.Dir(p) without filepath.Clean: everything before the last '/',
   * "/" when that separator is the first character, "." when there is none.
   */
  function Dir(p: string): (d: string)
    ensures '/' !in p ==> d == "."
    ensures '/' in p && p[0] == '/' && '/' !in p[1..] ==> d == "/"
    ensures '/' in p && !(p[0] == '/' && '/' !in p[1..]) ==>
      && d != [] && d < p && p[|d|] == '/' && '/' !in p[|d| + 1..]
  {
    var i := LastSlash(p);
    if i < 0 then "." else if i == 0 then "/" else p[..i]
  }

  /** `p` with every trailing '/' removed. */
  function TrimTrailingSlashes(p: string): (t: string)
    ensures t <= p
    ensures t == [] || t[|t| - 1] != '/'
    ensures forall j :: |t| <= j < |p| ==> p[j] == '/'
    ensures t == [] ==> forall j :: 0 <= j < |p| ==> p[j] == '/'
    decreases |p|
  {
    if p != [] && p[|p| - 1] == '/' then TrimTrailingSlashes(p[..|p| - 1]) else p
  }

  /**
   * filepath.Base(p): the last element after trailing slashes are removed;
   * "." for the empty path and "/" for a path made only of slashes.
   */
  function Base(p: string): (b: string)
    ensures b != []
    ensures b == "/" || '/' !in b
    ensures p == [] ==> b == "."
    ensures p != [] && TrimTrailingSlashes(p) == [] ==> b == "/"
    ensures p != [] && TrimTrailingSlashes(p) != [] ==>
      var t := TrimTrailingSlashes(p);
      && EndsWith(t, b) && '/' !in b
      && (|b| == |t| || t[|t| - |b| - 1] == '/')
  {
    if p == [] then "."
    else
      var t := TrimTrailingSlashes(p);
      if t == [] then "/" else t[LastSlash(t) + 1..]
  }

  /**
   * `e` is the extension of `p`: the suffix from the last '.' of the final
   * '/'-separated element, or "" exactly when that element has no '.'.
   */
  predicate IsExtension(p: string, e: string)
  {
    && EndsWith(p, e)
    && (e != [] ==> e[0] == '.' && '/' !in e && '.' !in e[1..])
    && (e == [] <==> '.' !in p[LastSlash(p) + 1..])
  }

  /**
   * filepath.Ext(p) (equal to path.Ext(p) on POSIX), scanning back from the
   * end of `p` to the first '.' or '/'.
   */
  function Ext(p: string): (e: string)
    ensures IsExtension(p, e)
    ensures '/' !in p ==> (e == [] <==> '.' !in p)
    decreases |p|
  {
    if p == [] || p[|p| - 1] == '/' then ""
    else if p[|p| - 1] == '.' then ExtAtDot(p); "."
    else
      var e := Ext(p[..|p| - 1]);
      ExtPastChar(p, e);
      if e == "" then "" else e + [p[|p| - 1]]
  }

  /** The scan stops at a final '.': the extension is ".". */
  lemma ExtAtDot(p: string)
    requires p != [] && p[|p| - 1] == '.'
    ensures IsExtension(p, ".")
  {
    var n, i := |p|, LastSlash(p);
    assert i != n - 1 by { assert i >= 0 ==> p[i] == '/'; }
    var last := p[i + 1..];
    assert last[|last| - 1] == p[n - 1] == '.';
    assert p[n - 1..] == [p[n - 1]];
  }

  /**
   * The scan passes a final character other than '/' and '.': the
   * extension found before it, extended by that character when non-empty.
   */
  lemma ExtPastChar(p: string, e: string)
    requires p != [] && p[|p| - 1] != '/' && p[|p| - 1] != '.'
    requires IsExtension(p[..|p| - 1], e)
    ensures IsExtension(p, if e == "" then "" else e + [p[|p| - 1]])
  {
    var q, c := p[..|p| - 1], p[|p| - 1];
    var i := LastSlash(p);
    assert i == LastSlash(q);
    var last, lastq := p[i + 1..], q[i + 1..];
    DropThenLast(p, i + 1);
    assert last == lastq + [c];
    if e == "" {
      assert '.' !in lastq;
      NotInAppend('.', lastq, c);
    } else {
      ExtGrows(q, c, e);
      assert p == q + [c];
    }
  }

  /** A character is in `s + [c]` only if it is in `s` or is `c`. */
  lemma NotInAppend(x: char, s: string, c: char)
    requires x !in s && x != c
    ensures x !in s + [c]
  {
    assert forall k :: 0 <= k < |s + [c]| ==> (s + [c])[k] == if k < |s| then s[k] else c;
  }

  /** A non-empty extension of `q` with `c` appended is an extension of `q + [c]`. */
  lemma ExtGrows(q: string, c: char, e: string)
    requires c != '/' && c != '.' && e != []
    requires EndsWith(q, e) && e[0] == '.' && '/' !in e && '.' !in e[1..]
    ensures EndsWith(q + [c], e + [c]) && (e + [c])[0] == '.'
    ensures '/' !in e + [c] && '.' !in (e + [c])[1..]
  {
    var p, e' := q + [c], e + [c];
    assert p[|p| - |e'|..] == q[|q| - |e|..] + [c];
    assert e'[1..] == e[1..] + [c];
    NotInAppend('/', e, c);
    NotInAppend('.', e[1..], c);
  }

  /** Dropping a prefix commutes with splitting off the last character. */
  lemma DropThenLast(p: string, k: nat)
    requires k < |p|
    ensures p[k..] == p[..|p| - 1][k..] + [p[|p| - 1]]
  {
  }
}
