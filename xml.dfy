/** A parsed XML document as the library walks it: the root element's
    attributes and the flat sequence of its child elements, each with a local
    name, optional text and attributes. Parsing and serialisation are not modelled. */
module Xml {
  import opened Basics

  datatype Element = Element(name: string, text: Option<string>, attrs: map<string, string>)

  datatype Document = Document(attrs: map<string, string>, children: seq<Element>)

  /** The `entry` elements of a feed, each given as a document whose root is the entry. */
  type Feed = seq<Document>

  /** `ele.attributes[key]`: nil when absent. */
  function Attr(e: Element, key: string): Option<string> {
    if key in e.attrs then Some(e.attrs[key]) else None
  }

  /** `doc.root.attributes[key]`. */
  function RootAttr(d: Document, key: string): Option<string> {
    if key in d.attrs then Some(d.attrs[key]) else None
  }

  /** `ele.attributes[key] = v`; assigning nil deletes the attribute. */
  function SetAttr(e: Element, key: string, v: Option<string>): (r: Element)
    ensures Attr(r, key) == v
    ensures r.name == e.name && r.text == e.text
    ensures forall k :: k != key ==> Attr(r, k) == Attr(e, k)
  {
    match v
    case Some(s) => e.(attrs := e.attrs[key := s])
    case None => e.(attrs := e.attrs - {key})
  }

  /** `ele.text = v`; assigning nil removes the text. */
  function SetText(e: Element, v: Option<string>): Element {
    e.(text := v)
  }

  /** Whether some element of `es` has the local name `n`. */
  predicate HasName(es: seq<Element>, n: string) {
    exists i :: 0 <= i < |es| && es[i].name == n
  }

  lemma HasNameSnoc(init: seq<Element>, e: Element, n: string)
    ensures HasName(init + [e], n) <==> HasName(init, n) || e.name == n
  {
    HasNameLast(init + [e], n);
    assert (init + [e])[..|init|] == init;
  }

  lemma HasNameLast(es: seq<Element>, n: string)
    requires es != []
    ensures HasName(es, n) <==> HasName(es[..|es| - 1], n) || es[|es| - 1].name == n
  {
    var init := es[..|es| - 1];
    if HasName(es, n) && es[|es| - 1].name != n {
      var i :| 0 <= i < |es| && es[i].name == n;
      assert init[i].name == n;
    }
    if HasName(init, n) {
      var i :| 0 <= i < |init| && init[i].name == n;
      assert es[i].name == n;
    }
  }

  lemma HasNameConcat(a: seq<Element>, b: seq<Element>, n: string)
    ensures HasName(a + b, n) <==> HasName(a, n) || HasName(b, n)
  {
    if HasName(a + b, n) {
      var i :| 0 <= i < |a + b| && (a + b)[i].name == n;
      if i >= |a| { assert b[i - |a|].name == n; }
    }
    if HasName(a, n) {
      var i :| 0 <= i < |a| && a[i].name == n;
      assert (a + b)[i].name == n;
    }
    if HasName(b, n) {
      var i :| 0 <= i < |b| && b[i].name == n;
      assert (a + b)[|a| + i].name == n;
    }
  }

  /** The three namespace declarations added to every feed entry before it is loaded. */
  const NAMESPACES: map<string, string> := map[
    "xmlns:gCal" := "http://schemas.google.com/gCal/2005",
    "xmlns:gd" := "http://schemas.google.com/g/2005",
    "xmlns" := "http://www.w3.org/2005/Atom"]

  function WithNamespaces(entry: Document): (r: Document)
    ensures r.children == entry.children
    ensures forall k :: k in NAMESPACES ==> RootAttr(r, k) == Some(NAMESPACES[k])
    ensures forall k :: k !in NAMESPACES ==> RootAttr(r, k) == RootAttr(entry, k)
  {
    entry.(attrs := entry.attrs + NAMESPACES)
  }
}

/** The transport boundary: the requests the library issues and the responses it reads. */
module Http {
  import opened Basics
  import opened Xml

  datatype Verb = GET | POST | PUT | DELETE

  datatype Body = NoBody | XmlBody(doc: Document) | FormBody(text: string)

  /** One request: verb, target (nil when the library passes a nil locator), body and
      headers (a header whose value is nil is sent as the library passes it). */
  datatype Request = Request(verb: Verb, url: Option<string>, body: Body, headers: map<string, Option<string>>)

  const ATOM_XML := "application/atom+xml"

  const ATOM_HEADERS: map<string, Option<string>> := map["Content-Type" := Some(ATOM_XML)]

  function Get(url: Option<string>): Request { Request(GET, url, NoBody, map[]) }

  /** The remote side of every GET: the entries of the feed a locator answers with,
      or None when the transport hands back no response to read a body from. */
  type Server = Option<string> -> Option<Feed>

  /** The authentication reply: whether it is `Net::HTTPOK`, and its body. */
  datatype AuthResponse = AuthResponse(isOk: bool, body: string)
}
