/**
 * The XML tree the weather library navigates, and the REXML lookups it
 * uses on it: `elements[name]`, `elements["name[@key='value']"]`,
 * `attributes[key]`, `add_attribute`, `text`, and the XPath matches
 * `//parent/child` and `//name`.
 */
module Xml {
  import opened Wrappers

  /** An element: tag name, attributes, child elements in document order, and its text (nil when it has none). */
  datatype Element = Element(name: string, attrs: map<string, string>, children: seq<Element>, text: Option<string>)

  /** A parsed document. Its root is replaced in place when the document is changed. */
  class Document {
    var root: Element

    constructor (root: Element)
      ensures this.root == root
    {
      this.root := root;
    }
  }

  /** Parsing (`REXML::Document.new`) and serialising (`doc.to_s`), supplied from outside; `parse` gives None when the text has no root element. */
  datatype Codec = Codec(parse: string -> Option<Element>, serialize: Element -> string)

  /** Serialising a tree and parsing the text back gives the same tree. */
  ghost predicate RoundTrips(codec: Codec)
  {
    forall e :: codec.parse(codec.serialize(e)) == Some(e)
  }

  /** `e.attributes[key]`. */
  function Attr(e: Element, key: string): (r: Option<string>)
    ensures r.Some? <==> key in e.attrs
    ensures r.Some? ==> r.value == e.attrs[key]
  {
    if key in e.attrs then Some(e.attrs[key]) else None
  }

  /** `e.add_attribute(key, value)`: REXML deletes the attribute when the value is nil. */
  function SetAttr(e: Element, key: string, value: Option<string>): (r: Element)
    ensures Attr(r, key) == value
    ensures forall k :: k != key ==> Attr(r, k) == Attr(e, k)
    ensures r.name == e.name && r.children == e.children && r.text == e.text
  {
    var attrs := if value.Some? then e.attrs[key := value.value] else e.attrs - {key};
    Element(e.name, attrs, e.children, e.text)
  }

  /** Whether `e` is matched by the XPath step `name` or `name[@key='value']`. */
  predicate Matches(e: Element, name: string, filter: Option<(string, string)>)
  {
    e.name == name && (filter.None? || Attr(e, filter.value.0) == Some(filter.value.1))
  }

  /** REXML `elements[step]`: the first child the step matches, nil when there is none. */
  function Find(kids: seq<Element>, name: string, filter: Option<(string, string)>): (r: Option<Element>)
    ensures r.None? <==> forall i :: 0 <= i < |kids| ==> !Matches(kids[i], name, filter)
    ensures r.Some? ==> exists i :: 0 <= i < |kids| && kids[i] == r.value && Matches(kids[i], name, filter)
                                    && forall j :: 0 <= j < i ==> !Matches(kids[j], name, filter)
  {
    if kids == [] then None
    else if Matches(kids[0], name, filter) then Some(kids[0])
    else
      var r := Find(kids[1..], name, filter);
      assert forall i :: 0 < i < |kids| ==> kids[i] == kids[1..][i - 1];
      r
  }

  /** `e.elements[name]`. */
  function Child(e: Element, name: string): Option<Element>
  {
    Find(e.children, name, None)
  }

  /** `e.elements[name].text`, or the NoMethodError raised when there is no such child. */
  function ChildText(e: Element, name: string): (r: Result<Option<string>>)
    ensures r.Err? <==> Child(e, name).None?
    ensures r.Err? ==> r.error == NilReceiver
    ensures r.Ok? ==> r.value == Child(e, name).value.text
  {
    match Child(e, name)
    case None => Err(NilReceiver)
    case Some(c) => Ok(c.text)
  }

  /** XPath `//parent/child` on the tree rooted at `e`: every element named `child` whose parent is named `parent`, in document order. */
  function PathMatches(e: Element, parent: string, child: string): seq<Element>
    decreases e, 1
  {
    MatchesIn(e.name == parent, e.children, parent, child)
  }

  function MatchesIn(underParent: bool, kids: seq<Element>, parent: string, child: string): seq<Element>
    decreases kids, 0
  {
    if kids == [] then []
    else (if underParent && kids[0].name == child then [kids[0]] else [])
         + PathMatches(kids[0], parent, child) + MatchesIn(underParent, kids[1..], parent, child)
  }

  /** XPath `//name` on the tree rooted at `e`: every element so named, the root included, in document order. */
  function Named(e: Element, name: string): seq<Element>
    decreases e, 1
  {
    (if e.name == name then [e] else []) + NamedIn(e.children, name)
  }

  function NamedIn(kids: seq<Element>, name: string): seq<Element>
    decreases kids, 0
  {
    if kids == [] then [] else Named(kids[0], name) + NamedIn(kids[1..], name)
  }

  /** Every element that `//name` yields carries that name. */
  lemma {:induction false} NamedAreNamed(e: Element, name: string)
    ensures forall x :: x in Named(e, name) ==> x.name == name
    decreases e, 1
  {
    NamedInAreNamed(e.children, name);
  }

  lemma {:induction false} NamedInAreNamed(kids: seq<Element>, name: string)
    ensures forall x :: x in NamedIn(kids, name) ==> x.name == name
    decreases kids, 0
  {
    if kids != [] {
      NamedAreNamed(kids[0], name);
      NamedInAreNamed(kids[1..], name);
    }
  }

  /** Every element that `//parent/child` yields is named `child`. */
  lemma {:induction false} PathMatchesAreNamed(e: Element, parent: string, child: string)
    ensures forall x :: x in PathMatches(e, parent, child) ==> x.name == child
    decreases e, 1
  {
    MatchesInAreNamed(e.name == parent, e.children, parent, child);
  }

  lemma {:induction false} MatchesInAreNamed(underParent: bool, kids: seq<Element>, parent: string, child: string)
    ensures forall x :: x in MatchesIn(underParent, kids, parent, child) ==> x.name == child
    decreases kids, 0
  {
    if kids != [] {
      PathMatchesAreNamed(kids[0], parent, child);
      MatchesInAreNamed(underParent, kids[1..], parent, child);
    }
  }
}
