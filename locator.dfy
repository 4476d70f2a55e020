/**
 * Selecting names by pattern: the media entries of an archive
 * (`hasMediaData`) and the documents of a directory listing
 * (`recursiveSearch`).
 */
module Locator {
  import opened Patterns

  /** The names of `names` that match `p`, in their original order. */
  function Select(p: NamePattern, names: seq<string>): (r: seq<string>)
    ensures |r| <= |names|
    ensures forall k :: 0 <= k < |r| ==> Matches(p, r[k])
    decreases |names|
  {
    if names == [] then []
    else
      var init := Select(p, names[..|names| - 1]);
      if Matches(p, names[|names| - 1]) then init + [names[|names| - 1]] else init
  }

  /**
   * `hasMediaData`: walks the archive's entry names and appends each one
   * that the media pattern accepts.
   */
  method HasMediaData(names: seq<string>) returns (media: seq<string>)
    ensures media == Select(MEDIA_PATTERN, names)
    ensures forall x :: x in media <==> x in names && Matches(MEDIA_PATTERN, x)
  {
    media := [];
    for i := 0 to |names|
      invariant media == Select(MEDIA_PATTERN, names[..i])
    {
      assert names[..i + 1][..i] == names[..i];
      if Matches(MEDIA_PATTERN, names[i]) {
        media := media + [names[i]];
      }
    }
    assert names[..|names|] == names;
    SelectMembers(MEDIA_PATTERN, names);
  }

  /** A name is selected exactly when it is listed and matches. */
  lemma {:induction false} SelectMembers(p: NamePattern, names: seq<string>)
    ensures forall x :: x in Select(p, names) <==> x in names && Matches(p, x)
    decreases |names|
  {
    if names != [] {
      var init := names[..|names| - 1];
      SelectMembers(p, init);
      assert names == init + [names[|names| - 1]];
    }
  }

  /** Each name is kept as often as it is listed if it matches, and dropped otherwise. */
  lemma {:induction false} SelectCounts(p: NamePattern, names: seq<string>, x: string)
    ensures multiset(Select(p, names))[x] == if Matches(p, x) then multiset(names)[x] else 0
    decreases |names|
  {
    if names != [] {
      var init := names[..|names| - 1];
      SelectCounts(p, init, x);
      assert names == init + [names[|names| - 1]];
    }
  }

  /** The positions in `names` of the names that match `p`, in increasing order. */
  function MatchPositions(p: NamePattern, names: seq<string>): (r: seq<nat>)
    decreases |names|
  {
    if names == [] then []
    else
      var init := MatchPositions(p, names[..|names| - 1]);
      if Matches(p, names[|names| - 1]) then init + [|names| - 1] else init
  }

  /**
   * Order is kept: the selection is `names` read at the positions of the
   * matching names, those positions increase, and a position is among them
   * exactly when the name there matches.
   */
  lemma {:induction false} SelectKeepsOrder(p: NamePattern, names: seq<string>)
    ensures |MatchPositions(p, names)| == |Select(p, names)|
    ensures forall j :: 0 <= j < |Select(p, names)| ==>
      MatchPositions(p, names)[j] < |names| && Select(p, names)[j] == names[MatchPositions(p, names)[j]]
    ensures forall j, k :: 0 <= j < k < |MatchPositions(p, names)| ==>
      MatchPositions(p, names)[j] < MatchPositions(p, names)[k]
    ensures forall i :: 0 <= i < |names| ==> (i in MatchPositions(p, names) <==> Matches(p, names[i]))
    decreases |names|
  {
    if names != [] {
      var init := names[..|names| - 1];
      SelectKeepsOrder(p, init);
      forall i | 0 <= i < |init|
        ensures names[i] == init[i]
      {
      }
    }
  }

  /** The path `recursiveSearch` hands on for a listed name. */
  function Child(item: string, name: string): string
  {
    item + "/" + name
  }

  /** The documents `recursiveSearch` processes, in listing order. */
  function DocxTargets(item: string, listing: seq<string>): seq<string>
  {
    var names := Select(DOCX_PATTERN, listing);
    seq(|names|, j requires 0 <= j < |names| => Child(item, names[j]))
  }

  /**
   * The documents of a directory listing: `item/name` for exactly the names
   * the `.docx` pattern accepts, taken at the increasing positions where
   * those names are listed.
   */
  lemma DocxTargetsListed(item: string, listing: seq<string>)
    ensures var r := DocxTargets(item, listing);
      var pos := MatchPositions(DOCX_PATTERN, listing);
      && |r| == |pos|
      && (forall j :: 0 <= j < |r| ==> pos[j] < |listing| && r[j] == Child(item, listing[pos[j]]))
      && (forall j, k :: 0 <= j < k < |pos| ==> pos[j] < pos[k])
    ensures forall n :: n in listing && Matches(DOCX_PATTERN, n) ==> Child(item, n) in DocxTargets(item, listing)
    ensures forall x :: x in DocxTargets(item, listing) ==>
      exists n :: n in listing && Matches(DOCX_PATTERN, n) && x == Child(item, n)
  {
    var names := Select(DOCX_PATTERN, listing);
    var r := DocxTargets(item, listing);
    SelectKeepsOrder(DOCX_PATTERN, listing);
    SelectMembers(DOCX_PATTERN, listing);
    forall n | n in listing && Matches(DOCX_PATTERN, n)
      ensures Child(item, n) in r
    {
      var j :| 0 <= j < |names| && names[j] == n;
      assert r[j] == Child(item, n);
    }
    forall x | x in r
      ensures exists n :: n in listing && Matches(DOCX_PATTERN, n) && x == Child(item, n)
    {
      var j :| 0 <= j < |r| && r[j] == x;
      assert names[j] in names;
    }
  }
}
