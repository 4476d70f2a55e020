/**
 * Flattening a parsed metadata document (`docProps/core.xml`,
 * `docProps/app.xml`) into a dictionary from element local name to text.
 * The XML parser itself is not modelled: the input is the document's
 * elements in document order, each with its qualified tag and its text
 * (`None` when the element has no text).
 */
module Metadata {
  import opened Wrappers

  datatype Element = Element(tag: string, text: Option<string>)

  /** The first position at or after `from` where `s` holds `c`, if any. */
  function IndexOf(s: string, c: char, from: nat): (r: Option<nat>)
    requires from <= |s|
    ensures r.Some? ==> from <= r.value < |s| && s[r.value] == c
    ensures r.Some? ==> forall i :: from <= i < r.value ==> s[i] != c
    ensures r.None? ==> forall i :: from <= i < |s| ==> s[i] != c
    decreases |s| - from
  {
    if from == |s| then None
    else if s[from] == c then Some(from)
    else IndexOf(s, c, from + 1)
  }

  /**
   * `QName(tag).localname`: a tag `{uri}name` in Clark notation loses the
   * namespace up to the first `}`; any other tag is its own local name.
   */
  function LocalName(tag: string): (r: string)
    ensures |r| <= |tag|
  {
    if |tag| > 0 && tag[0] == '{' then
      match IndexOf(tag, '}', 1)
      case Some(close) => tag[close + 1..]
      case None => tag
    else tag
  }

  /**
   * A local name is a suffix of the tag; when it is shorter, the tag opens
   * with `{` and the local name starts right after the tag's first `}`.
   */
  lemma LocalNameIsSuffix(tag: string)
    ensures var r := LocalName(tag);
      && r == tag[|tag| - |r|..]
      && (r != tag ==>
            && tag[0] == '{'
            && tag[|tag| - |r| - 1] == '}'
            && '}' !in tag[1..|tag| - |r| - 1])
  {
  }

  /** A namespace-qualified tag yields the name after the namespace. */
  lemma LocalNameOfQualified(uri: string, name: string)
    requires '}' !in uri
    ensures LocalName("{" + uri + "}" + name) == name
  {
    var tag := "{" + uri + "}" + name;
    assert forall i :: 1 <= i < |uri| + 1 ==> tag[i] == uri[i - 1];
    assert tag[|uri| + 1] == '}';
    assert tag[|uri| + 2..] == name;
  }

  /** An unqualified tag is unchanged. */
  lemma LocalNameOfUnqualified(tag: string)
    requires tag == [] || tag[0] != '{'
    ensures LocalName(tag) == tag
  {
  }

  /** Element `e` supplies a value for key `k`. */
  predicate Supplies(e: Element, k: string)
  {
    e.text.Some? && LocalName(e.tag) == k
  }

  /** The dictionary built from `elements`, read left to right. */
  function Flatten(elements: seq<Element>): (r: map<string, string>)
    ensures |r| <= |elements|
    decreases |elements|
  {
    if elements == [] then map[]
    else
      var found := Flatten(elements[..|elements| - 1]);
      var e := elements[|elements| - 1];
      if e.text.Some? then found[LocalName(e.tag) := e.text.value] else found
  }

  /**
   * `parseXML`: for each element in document order, records its text under
   * its local name when it has text.
   */
  method ParseXml(elements: seq<Element>) returns (found: map<string, string>)
    ensures found == Flatten(elements)
    ensures forall k :: k in found <==> exists i :: 0 <= i < |elements| && Supplies(elements[i], k)
  {
    found := map[];
    for i := 0 to |elements|
      invariant found == Flatten(elements[..i])
    {
      assert elements[..i + 1][..i] == elements[..i];
      var e := elements[i];
      var tagName := LocalName(e.tag);
      if e.text.Some? {
        found := found[tagName := e.text.value];
      }
    }
    assert elements[..|elements|] == elements;
    FlattenKeys(elements);
  }

  /** The keys are the local names of the elements that have text. */
  lemma {:induction false} FlattenKeys(elements: seq<Element>)
    ensures forall k :: k in Flatten(elements) <==> exists i :: 0 <= i < |elements| && Supplies(elements[i], k)
    decreases |elements|
  {
    if elements != [] {
      var init := elements[..|elements| - 1];
      FlattenKeys(init);
      forall k | k in Flatten(elements)
        ensures exists i :: 0 <= i < |elements| && Supplies(elements[i], k)
      {
        if !Supplies(elements[|elements| - 1], k) {
          assert k in Flatten(init);
          var i :| 0 <= i < |init| && Supplies(init[i], k);
          assert elements[i] == init[i];
        }
      }
      forall k, i | 0 <= i < |elements| && Supplies(elements[i], k)
        ensures k in Flatten(elements)
      {
        if i < |init| {
          assert init[i] == elements[i];
        }
      }
    }
  }

  /** Each key holds the text of the last element that supplies it. */
  lemma {:induction false} FlattenLastWins(elements: seq<Element>, k: string, i: nat)
    requires i < |elements| && Supplies(elements[i], k)
    requires forall j :: i < j < |elements| ==> !Supplies(elements[j], k)
    ensures k in Flatten(elements) && Flatten(elements)[k] == elements[i].text.value
    decreases |elements|
  {
    var init := elements[..|elements| - 1];
    if i < |init| {
      assert !Supplies(elements[|elements| - 1], k);
      FlattenLastWins(init, k, i);
    }
  }

  /** An element without text leaves the dictionary as it was. */
  lemma FlattenSkipsNoText(elements: seq<Element>, tag: string)
    ensures Flatten(elements + [Element(tag, None)]) == Flatten(elements)
  {
    assert (elements + [Element(tag, None)])[..|elements|] == elements;
  }

  /** An element with text overwrites any earlier entry for its local name. */
  lemma FlattenOverwrites(elements: seq<Element>, tag: string, text: string)
    ensures Flatten(elements + [Element(tag, Some(text))]) == Flatten(elements)[LocalName(tag) := text]
  {
    assert (elements + [Element(tag, Some(text))])[..|elements|] == elements;
  }
}
