/**
 * Characters and strings as the utility's regular expressions and its
 * `str.title` call see them, restricted to ASCII: outside 'A'..'Z' and
 * 'a'..'z' no character has a case.
 */
module Text {

  predicate IsUpperLetter(c: char) { 'A' <= c <= 'Z' }

  predicate IsLowerLetter(c: char) { 'a' <= c <= 'z' }

  /** A cased character in the sense of `str.title` (ASCII only). */
  predicate IsLetter(c: char) { IsUpperLetter(c) || IsLowerLetter(c) }

  predicate IsDigit(c: char) { '0' <= c <= '9' }

  /**
   * The class `([A-Z]|[0-9])` under `re.I`: an ASCII letter of either case or
   * a decimal digit.
   */
  predicate IsAlnum(c: char) { IsLetter(c) || IsDigit(c) }

  function Lower(c: char): (r: char)
    ensures IsUpperLetter(c) ==> IsLowerLetter(r) && r as int == c as int + 32
    ensures !IsUpperLetter(c) ==> r == c
  {
    if IsUpperLetter(c) then (c as int + 32) as char else c
  }

  function Upper(c: char): (r: char)
    ensures IsLowerLetter(c) ==> IsUpperLetter(r) && r as int == c as int - 32
    ensures !IsLowerLetter(c) ==> r == c
  {
    if IsLowerLetter(c) then (c as int - 32) as char else c
  }

  /** Two characters are equal under `re.I`. */
  predicate SameIgnoringCase(a: char, b: char) { Lower(a) == Lower(b) }

  /** Case folding keeps the character class a pattern cares about. */
  lemma SameIgnoringCaseKeepsClass(a: char, b: char)
    requires SameIgnoringCase(a, b)
    ensures IsAlnum(a) <==> IsAlnum(b)
    ensures IsLetter(a) <==> IsLetter(b)
    ensures a == '.' <==> b == '.'
  {
  }

  /** `p` is a prefix of `s` when letters are compared without case. */
  predicate CiPrefix(p: string, s: string)
  {
    |p| <= |s| && forall i :: 0 <= i < |p| ==> SameIgnoringCase(p[i], s[i])
  }

  /** The title-cased form of `s`, given whether the character before it was cased. */
  function TitleFrom(s: string, afterCased: bool): (r: string)
    ensures |r| == |s|
    decreases |s|
  {
    if s == [] then []
    else [if afterCased then Lower(s[0]) else Upper(s[0])] + TitleFrom(s[1..], IsLetter(s[0]))
  }

  /** `str.title` on ASCII text: each letter that starts a run of letters is
    * upper-cased and every other letter lower-cased. */
  function Title(s: string): (r: string)
    ensures |r| == |s|
  {
    TitleFrom(s, false)
  }

  /** What `TitleFrom` puts at position `i`. */
  lemma {:induction false} TitleFromAt(s: string, afterCased: bool, i: nat)
    requires i < |s|
    ensures TitleFrom(s, afterCased)[i] ==
      if (if i == 0 then afterCased else IsLetter(s[i - 1])) then Lower(s[i]) else Upper(s[i])
  {
    if i > 0 {
      TitleFromAt(s[1..], IsLetter(s[0]), i - 1);
      assert TitleFrom(s, afterCased)[i] == TitleFrom(s[1..], IsLetter(s[0]))[i - 1];
    }
  }

  /** Position by position, the key printed for a metadata entry: a letter is
    * upper-case exactly when it does not follow another letter. */
  lemma TitleAt(s: string, i: nat)
    requires i < |s|
    ensures Title(s)[i] == if i > 0 && IsLetter(s[i - 1]) then Lower(s[i]) else Upper(s[i])
  {
    TitleFromAt(s, false, i);
  }

  /** Title-casing changes only the case of letters. */
  lemma TitleKeepsLettersIgnoringCase(s: string)
    ensures forall i :: 0 <= i < |s| ==> SameIgnoringCase(Title(s)[i], s[i])
  {
    forall i | 0 <= i < |s|
      ensures SameIgnoringCase(Title(s)[i], s[i])
    {
      TitleAt(s, i);
    }
  }

  /** Title-casing a title-cased key changes nothing. */
  lemma TitleIdempotent(s: string)
    ensures Title(Title(s)) == Title(s)
  {
    var t := Title(s);
    forall i | 0 <= i < |s|
      ensures Title(t)[i] == t[i]
    {
      TitleAt(s, i);
      TitleAt(t, i);
      if i > 0 {
        TitleAt(s, i - 1);
      }
    }
  }
}
