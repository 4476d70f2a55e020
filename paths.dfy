/**
 * The output directory for extracted media: `./` followed by the document's
 * path without its last extension when the directory option is left at its
 * default `.`, and the option's value otherwise. The extension is removed as
 * POSIX `os.path.splitext` removes it.
 */
module Paths {

  /** `s.rfind(c)`: the last position of `c` in `s`, or -1. */
  function RFind(s: string, c: char): (r: int)
    ensures -1 <= r < |s|
    ensures r >= 0 ==> s[r] == c
    ensures forall i :: r < i < |s| ==> s[i] != c
    decreases |s|
  {
    if s == [] then -1
    else if s[|s| - 1] == c then |s| - 1
    else RFind(s[..|s| - 1], c)
  }

  /** The last occurrence is where `c` stands with no `c` after it. */
  lemma RFindAt(s: string, c: char, k: int)
    requires -1 <= k < |s|
    requires k >= 0 ==> s[k] == c
    requires forall i :: k < i < |s| ==> s[i] != c
    ensures RFind(s, c) == k
  {
  }

  /** Some character strictly between `lo` and `hi` is not a dot. */
  predicate HasNonDotBetween(p: string, lo: int, hi: int)
    requires -1 <= lo && hi <= |p|
  {
    exists i :: lo < i < hi && p[i] != '.'
  }

  /**
   * `os.path.splitext(p)`: the last dot of the last path component starts the
   * extension, unless only dots precede it in that component (a name such as
   * `.profile` has no extension).
   */
  function SplitExt(p: string): (r: (string, string))
    ensures r.0 + r.1 == p
    ensures r.1 == [] || (r.1[0] == '.' && forall i :: 1 <= i < |r.1| ==> r.1[i] != '.' && r.1[i] != '/')
  {
    var sep := RFind(p, '/');
    var dot := RFind(p, '.');
    if dot > sep && HasNonDotBetween(p, sep, dot) then (p[..dot], p[dot..]) else (p, "")
  }

  /** The last path component of `base` has a character other than a dot. */
  predicate HasStem(base: string)
  {
    HasNonDotBetween(base, RFind(base, '/'), |base|)
  }

  lemma RFindAppend(s: string, t: string, c: char)
    requires c !in t
    ensures RFind(s + t, c) == RFind(s, c)
    decreases |t|
  {
    if t != [] {
      assert (s + t)[..|s + t| - 1] == s + t[..|t| - 1];
      RFindAppend(s, t[..|t| - 1], c);
    } else {
      assert s + t == s;
    }
  }

  /**
   * Splitting undoes appending an extension: `base + "." + e` splits into
   * `base` and `"." + e` when `e` has no dot or slash and the last component
   * of `base` is not made of dots only.
   */
  lemma SplitExtOfJoin(base: string, e: string)
    requires '.' !in e && '/' !in e
    requires HasStem(base)
    ensures SplitExt(base + "." + e) == (base, "." + e)
  {
    var p := base + "." + e;
    assert p == base + ("." + e);
    RFindAppend(base, "." + e, '/');
    RFindAppend(base + ".", e, '.');
    assert RFind(base + ".", '.') == |base|;
    var sep := RFind(base, '/');
    var i :| sep < i < |base| && base[i] != '.';
    assert p[i] == base[i];
  }

  /** The directory `getMedia` extracts into. */
  function MediaDir(mediaDir: string, filename: string): (r: string)
    ensures mediaDir != "." ==> r == mediaDir
    ensures mediaDir == "." ==> |r| >= 2 && r[..2] == "./" && r[2..] + SplitExt(filename).1 == filename
  {
    if mediaDir == "." then "./" + SplitExt(filename).0 else mediaDir
  }

  /** With the default option, a document `base.ext` gets the directory `./base`. */
  lemma MediaDirDerived(base: string, e: string)
    requires '.' !in e && '/' !in e
    requires HasStem(base)
    ensures MediaDir(".", base + "." + e) == "./" + base
  {
    SplitExtOfJoin(base, e);
  }

  /** An explicit directory is used as given, whatever the document. */
  lemma MediaDirExplicit(mediaDir: string, filename: string, other: string)
    requires mediaDir != "."
    ensures MediaDir(mediaDir, filename) == MediaDir(mediaDir, other) == mediaDir
  {
  }

  /** Examples: a document in a directory, a dotfile, a name with two extensions. */
  lemma SplitExtExamples()
    ensures SplitExt("docs/report.docx") == ("docs/report", ".docx")
    ensures SplitExt("a.tar.gz") == ("a.tar", ".gz")
    ensures SplitExt(".docx") == (".docx", "")
    ensures SplitExt("dir.d/file") == ("dir.d/file", "")
  {
    assert "docs/report.docx" == "docs/report" + "." + "docx";
    RFindAt("docs/report", '/', 4);
    assert "docs/report"[5] != '.';
    SplitExtOfJoin("docs/report", "docx");
    assert "a.tar.gz" == "a.tar" + "." + "gz";
    RFindAt("a.tar", '/', -1);
    assert "a.tar"[0] != '.';
    SplitExtOfJoin("a.tar", "gz");
    RFindAt(".docx", '/', -1);
    RFindAt(".docx", '.', 0);
    RFindAt("dir.d/file", '/', 5);
    RFindAt("dir.d/file", '.', 3);
  }
}
