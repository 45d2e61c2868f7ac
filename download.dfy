/**
 * `download` and the part of `main` that derives the destination: choose
 * the extractor from the URL's extension, and name the destination after
 * the URL's base name with every extension removed, staging into `.tmp`.
 */
module Download {
  import opened Paths
  import opened Archive
  import opened Extract
  import opened Writer

  datatype Format = ZipFormat | TarFormat

  /** Appending a character other than '/' and '.' extends a non-empty extension. */
  lemma ExtAppend(p: string, ch: char)
    requires ch != '/' && ch != '.'
    ensures Ext(p + [ch]) == if Ext(p) == "" then "" else Ext(p) + [ch]
  {
    assert (p + [ch])[..|p|] == p;
  }

  /** path.Ext(url) == ".zip" exactly when the URL ends in ".zip". */
  lemma ZipExtension(url: string)
    ensures Ext(url) == ".zip" <==> EndsWith(url, ".zip")
  {
    if EndsWith(url, ".zip") {
      var q := url[..|url| - 4];
      assert url == q + "." + "z" + "i" + "p";
      assert (q + ".")[|q + "."| - 1] == '.';
      ExtAppend(q + ".", 'z');
      ExtAppend(q + "." + "z", 'i');
      ExtAppend(q + "." + "z" + "i", 'p');
    }
  }

  /**
   * `download`'s branch: a URL whose extension is exactly ".zip" is unzipped;
   * everything else, ".tgz", ".gz" and no extension included, is untarred.
   */
  function SelectFormat(url: string): (f: Format)
    ensures f == ZipFormat <==> EndsWith(url, ".zip")
  {
    ZipExtension(url);
    if Ext(url) == ".zip" then ZipFormat else TarFormat
  }

  /** The selection for a few common archive names. */
  lemma FormatExamples()
    ensures SelectFormat("https://example.com/v1.zip") == ZipFormat
    ensures SelectFormat("https://example.com/v1.tgz") == TarFormat
    ensures SelectFormat("https://example.com/v1.tar.gz") == TarFormat
    ensures SelectFormat("https://example.com/release") == TarFormat
    ensures SelectFormat("https://example.com/v1.ZIP") == TarFormat
  {
    assert "https://example.com/v1.zip"[22..] == ".zip";
    assert "https://example.com/v1.tgz"[22..] != ".zip";
    assert "https://example.com/v1.tar.gz"[25..] != ".zip";
    assert "https://example.com/release"[23..] != ".zip";
    assert "https://example.com/v1.ZIP"[22..] != ".zip";
  }

  /**
   * `download` after the response arrived: the body as the zip reader sees
   * it (`archive`) or as the gzip-or-raw tar reader sees it (`stream`) is
   * extracted into `destination` by the extractor the URL selects.
   */
  method Download(h: Host, url: string, destination: string, strip: int, archive: ZipArchive, stream: TarStream)
    returns (r: Report)
    ensures SelectFormat(url) == ZipFormat ==> r == UnzipSpec(h, Config(destination, strip), archive)
    ensures SelectFormat(url) == TarFormat ==> r == UntarSpec(h, Config(destination, strip), stream)
  {
    if SelectFormat(url) == ZipFormat {
      r := Unzip(h, Config(destination, strip), archive);
    } else {
      r := Untar(h, Config(destination, strip), stream);
    }
  }

  /** `stem` is `s` up to (not including) its first '.', or all of `s` when it has none. */
  predicate IsStem(stem: string, s: string)
  {
    stem <= s && '.' !in stem && (stem == s || s[|stem|] == '.')
  }

  /** A string has one stem. */
  lemma StemUnique(a: string, b: string, s: string)
    requires IsStem(a, s) && IsStem(b, s)
    ensures a == b
  {
    assert forall i :: 0 <= i < |a| ==> s[i] != '.' by {
      forall i | 0 <= i < |a| ensures s[i] != '.' { assert s[i] == a[i]; }
    }
    assert forall i :: 0 <= i < |b| ==> s[i] != '.' by {
      forall i | 0 <= i < |b| ensures s[i] != '.' { assert s[i] == b[i]; }
    }
    assert |a| == |b|;
  }

  /** The stems of a few names: every extension goes, and a dotless name stays. */
  lemma StemExamples()
    ensures IsStem("foo", "foo.tar.gz")
    ensures IsStem("v1", "v1.2.3.zip")
    ensures IsStem("release", "release")
    ensures IsStem("", ".")
  {
    assert "foo.tar.gz"[..3] == "foo";
    assert "v1.2.3.zip"[..2] == "v1";
  }

  /**
   * The default destination of `main`: the URL's base name with the last
   * extension removed again and again until none is left, which is the base
   * name up to its first '.'.
   */
  method DefaultDestination(url: string) returns (dst: string)
    ensures IsStem(dst, Base(url))
  {
    var base := Base(url);
    ghost var whole := base;
    var ext := Ext(base);
    while ext != ""
      invariant base <= whole
      invariant base == whole || whole[|base|] == '.'
      invariant '/' !in base || base == "/"
      invariant ext == Ext(base)
      decreases |base|
    {
      assert base[|base| - |ext|..] == ext;
      base := base[..|base| - |ext|];
      ext := Ext(base);
    }
    dst := base;
  }

  /**
   * `main`'s destinations: the -destination flag when it is given, otherwise
   * the default above; extraction is staged in the destination plus ".tmp".
   */
  method Destinations(destination: string, url: string) returns (dst: string, tmp: string)
    ensures destination != "" ==> dst == destination
    ensures destination == "" ==> IsStem(dst, Base(url))
    ensures tmp == dst + ".tmp"
  {
    dst := destination;
    if dst == "" {
      dst := DefaultDestination(url);
    }
    tmp := dst + ".tmp";
  }

  /**
   * `main` up to the rename: derive the destinations, then download and
   * extract into the staging directory.
   */
  method Fetch(h: Host, destination: string, url: string, strip: int, archive: ZipArchive, stream: TarStream)
    returns (dst: string, tmp: string, r: Report)
    ensures destination != "" ==> dst == destination
    ensures destination == "" ==> IsStem(dst, Base(url))
    ensures tmp == dst + ".tmp"
    ensures SelectFormat(url) == ZipFormat ==> r == UnzipSpec(h, Config(tmp, strip), archive)
    ensures SelectFormat(url) == TarFormat ==> r == UntarSpec(h, Config(tmp, strip), stream)
  {
    dst, tmp := Destinations(destination, url);
    r := Download(h, url, tmp, strip, archive, stream);
  }
}
