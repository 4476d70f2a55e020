/**
 * The two file-name patterns of the utility, both compiled with `re.I` and
 * applied with `re.match` (anchored at the start only):
 *   media entries   `word/media/([A-Z]|[0-9])*\.(jpeg|gif|png)`
 *   directory scan  `([A-Z]|[0-9])*\.docx`
 * Each is a literal prefix, a run of zero or more letters or digits, a dot and
 * one of a list of extensions; anything may follow the extension.
 */
module Patterns {
  import opened Text

  datatype NamePattern = NamePattern(prefix: string, extensions: seq<string>)

  const MEDIA_PATTERN := NamePattern("word/media/", ["jpeg", "gif", "png"])

  const DOCX_PATTERN := NamePattern("", ["docx"])

  /** The end of the longest run of letters and digits in `s` starting at `i`. */
  function StemEnd(s: string, i: nat): (j: nat)
    requires i <= |s|
    ensures i <= j <= |s|
    ensures forall k :: i <= k < j ==> IsAlnum(s[k])
    ensures j == |s| || !IsAlnum(s[j])
    decreases |s| - i
  {
    if i < |s| && IsAlnum(s[i]) then StemEnd(s, i + 1) else i
  }

  /** Some alternative of the extension group matches at the start of `rest`. */
  predicate StartsWithExtension(extensions: seq<string>, rest: string)
  {
    exists e :: e in extensions && CiPrefix(e, rest)
  }

  /**
   * Whether `re.match(pattern, s)` succeeds. Since the dot is not in the
   * stem's character class, the only place the dot can stand is where the
   * longest run of letters and digits ends, so no backtracking is needed.
   */
  predicate Matches(p: NamePattern, s: string)
    ensures Matches(p, s) ==> CiPrefix(p.prefix, s) && |p.prefix| < |s|
  {
    CiPrefix(p.prefix, s) &&
    var k := StemEnd(s, |p.prefix|);
    k < |s| && s[k] == '.' && StartsWithExtension(p.extensions, s[k + 1..])
  }

  /** The regular expression read literally: the stem ends at `k`, the dot is
    * at `k`, an extension follows. */
  ghost predicate MatchesWithDotAt(p: NamePattern, s: string, k: int)
  {
    && CiPrefix(p.prefix, s)
    && |p.prefix| <= k < |s|
    && (forall i :: |p.prefix| <= i < k ==> IsAlnum(s[i]))
    && s[k] == '.'
    && StartsWithExtension(p.extensions, s[k + 1..])
  }

  /** `re.match` succeeds when some split of `s` fits the expression. */
  ghost predicate RegexMatches(p: NamePattern, s: string)
  {
    exists k :: MatchesWithDotAt(p, s, k)
  }

  /** The greedy matcher accepts exactly the names the regular expression accepts. */
  lemma MatchesIffRegexMatches(p: NamePattern, s: string)
    ensures Matches(p, s) <==> RegexMatches(p, s)
  {
    if Matches(p, s) {
      assert MatchesWithDotAt(p, s, StemEnd(s, |p.prefix|));
    }
    if RegexMatches(p, s) {
      var k :| MatchesWithDotAt(p, s, k);
      assert StemEnd(s, |p.prefix|) == k;
    }
  }

  /** The longest run is the same in two names equal up to case. */
  lemma {:induction false} StemEndIgnoresCase(s: string, t: string, i: nat)
    requires |s| == |t| && i <= |s|
    requires forall k :: 0 <= k < |s| ==> SameIgnoringCase(s[k], t[k])
    ensures StemEnd(s, i) == StemEnd(t, i)
    decreases |s| - i
  {
    if i < |s| {
      SameIgnoringCaseKeepsClass(s[i], t[i]);
      if IsAlnum(s[i]) {
        StemEndIgnoresCase(s, t, i + 1);
      }
    }
  }

  lemma CiPrefixIgnoresCase(e: string, s: string, t: string)
    requires |s| == |t|
    requires forall k :: 0 <= k < |s| ==> SameIgnoringCase(s[k], t[k])
    ensures CiPrefix(e, s) <==> CiPrefix(e, t)
  {
  }

  /** Under `re.I` the whole pattern, prefix and extension included, ignores case. */
  lemma MatchesIgnoresCase(p: NamePattern, s: string, t: string)
    requires |s| == |t|
    requires forall k :: 0 <= k < |s| ==> SameIgnoringCase(s[k], t[k])
    ensures Matches(p, s) <==> Matches(p, t)
  {
    CiPrefixIgnoresCase(p.prefix, s, t);
    if |p.prefix| <= |s| {
      var k := StemEnd(s, |p.prefix|);
      StemEndIgnoresCase(s, t, |p.prefix|);
      if k < |s| {
        SameIgnoringCaseKeepsClass(s[k], t[k]);
        forall e | e in p.extensions
          ensures CiPrefix(e, s[k + 1..]) <==> CiPrefix(e, t[k + 1..])
        {
          CiPrefixIgnoresCase(e, s[k + 1..], t[k + 1..]);
        }
      }
    }
  }

  /** `re.match` is not anchored at the end: whatever follows a match is accepted. */
  lemma MatchesIgnoresSuffix(p: NamePattern, s: string, tail: string)
    requires Matches(p, s)
    ensures Matches(p, s + tail)
  {
    MatchesIffRegexMatches(p, s);
    var k :| MatchesWithDotAt(p, s, k);
    var e :| e in p.extensions && CiPrefix(e, s[k + 1..]);
    assert CiPrefix(e, (s + tail)[k + 1..]);
    assert MatchesWithDotAt(p, s + tail, k);
    MatchesIffRegexMatches(p, s + tail);
  }

  /** The stem may be empty: the prefix, a dot and an extension form a match. */
  lemma EmptyStemMatches(p: NamePattern, e: string)
    requires e in p.extensions
    ensures Matches(p, p.prefix + "." + e)
  {
    var s := p.prefix + "." + e;
    assert CiPrefix(e, s[|p.prefix| + 1..]);
    assert MatchesWithDotAt(p, s, |p.prefix|);
    MatchesIffRegexMatches(p, s);
  }

  /**
   * After the prefix, the first character that is not a letter or digit must
   * be the dot: a name with `_`, `-`, a space or any other such character in
   * its stem is rejected.
   */
  lemma StemStopsAtFirstOther(p: NamePattern, s: string, j: nat)
    requires |p.prefix| <= j < |s|
    requires forall i :: |p.prefix| <= i < j ==> IsAlnum(s[i])
    requires !IsAlnum(s[j]) && s[j] != '.'
    ensures !Matches(p, s)
  {
    assert StemEnd(s, |p.prefix|) == j;
  }

  /**
   * A name laid out as the pattern's prefix (in any case), a stem of letters
   * and digits, a dot and a remainder matches exactly when the remainder
   * starts with one of the extensions.
   */
  lemma MatchesSplit(p: NamePattern, pre: string, stem: string, rest: string)
    requires |pre| == |p.prefix| && CiPrefix(p.prefix, pre)
    requires forall i :: 0 <= i < |stem| ==> IsAlnum(stem[i])
    ensures Matches(p, pre + stem + "." + rest) <==> StartsWithExtension(p.extensions, rest)
  {
    var s := pre + stem + "." + rest;
    var k := |pre| + |stem|;
    assert s[k] == '.' && s[k + 1..] == rest;
    assert forall i :: |p.prefix| <= i < k ==> s[i] == stem[i - |pre|];
    assert StemEnd(s, |p.prefix|) == k;
  }

  /** A media entry whose stem is letters and digits, in any case. */
  lemma MediaExampleUpperCase()
    ensures Matches(MEDIA_PATTERN, "WORD/Media/IMAGE1.JPEG")
  {
    assert CiPrefix("jpeg", "JPEG");
    assert CiPrefix(MEDIA_PATTERN.prefix, "WORD/Media/");
    MatchesSplit(MEDIA_PATTERN, "WORD/Media/", "IMAGE1", "JPEG");
    assert "WORD/Media/IMAGE1.JPEG" == "WORD/Media/" + "IMAGE1" + "." + "JPEG";
  }

  /** The stem may be empty. */
  lemma MediaExampleEmptyStem()
    ensures Matches(MEDIA_PATTERN, "word/media/.gif")
  {
    EmptyStemMatches(MEDIA_PATTERN, "gif");
    assert "word/media/.gif" == MEDIA_PATTERN.prefix + "." + "gif";
  }

  /** Characters after the extension do not matter. */
  lemma MediaExampleTrailing()
    ensures Matches(MEDIA_PATTERN, "word/media/image1.pngx")
  {
    assert CiPrefix("png", "pngx");
    MatchesSplit(MEDIA_PATTERN, "word/media/", "image1", "pngx");
    assert "word/media/image1.pngx" == "word/media/" + "image1" + "." + "pngx";
  }

  /** An underscore in the stem stops the match. */
  lemma MediaExampleUnderscore()
    ensures !Matches(MEDIA_PATTERN, "word/media/image_1.png")
  {
    StemStopsAtFirstOther(MEDIA_PATTERN, "word/media/image_1.png", 16);
  }

  /** `.jpg` is not one of the extensions. */
  lemma MediaExampleJpg()
    ensures !Matches(MEDIA_PATTERN, "word/media/image1.jpg")
  {
    assert !SameIgnoringCase("gif"[0], "jpg"[0]) && !SameIgnoringCase("png"[0], "jpg"[0]);
    assert !CiPrefix("jpeg", "jpg") && !CiPrefix("gif", "jpg") && !CiPrefix("png", "jpg");
    MatchesSplit(MEDIA_PATTERN, "word/media/", "image1", "jpg");
    assert "word/media/image1.jpg" == "word/media/" + "image1" + "." + "jpg";
  }

  /** A name with a trailing suffix after `.docx` is scanned. */
  lemma DocxExampleBackup()
    ensures Matches(DOCX_PATTERN, "a.docx.bak")
  {
    assert CiPrefix("docx", "docx.bak");
    MatchesSplit(DOCX_PATTERN, "", "a", "docx.bak");
    assert "a.docx.bak" == "" + "a" + "." + "docx.bak";
  }

  /** A space in the name stops the match. */
  lemma DocxExampleSpace()
    ensures !Matches(DOCX_PATTERN, "my file.docx")
  {
    StemStopsAtFirstOther(DOCX_PATTERN, "my file.docx", 2);
  }

  /** Other extensions are not scanned. */
  lemma DocxExampleText()
    ensures !Matches(DOCX_PATTERN, "b.txt")
  {
    assert !SameIgnoringCase("docx"[0], "txt"[0]);
    MatchesSplit(DOCX_PATTERN, "", "b", "txt");
    assert "b.txt" == "" + "b" + "." + "txt";
  }
}
