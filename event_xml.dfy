/** The fields of an event (lib/gcal4ruby/event.rb) as a value, and the two
    mappings between those fields and an entry document: `to_xml`, which
    rewrites the elements of the event's template, and `load`, which reads
    the fields back from an entry. */
module EventXml {
  import opened Basics
  import opened Text
  import opened Instants
  import opened Xml

  const OPAQUE: string := "http://schemas.google.com/g/2005#event.opaque"
  const CONFIRMED: string := "http://schemas.google.com/g/2005#event.confirmed"

  /** The instance variables of an event, except its calendar and recurrence. */
  datatype EventFields = EventFields(
    title: Option<string>, content: Option<string>, location: Option<string>,
    transparency: Option<string>, status: Option<string>, id: Option<string>,
    start: Option<Instant>, end: Option<Instant>,
    editFeed: Option<string>, etag: Option<string>, existing: bool, xml: Document)

  /** An event as `initialize` leaves it: opaque, confirmed, not existing, with
      the event template as its entry and every other field nil. */
  function NewEvent(template: Document): EventFields {
    EventFields(None, None, None, Some(OPAQUE), Some(CONFIRMED), None, None, None, None, None, false, template)
  }

  /** An event after a successful `delete`: no longer existing, with title,
      content, id, start, end, transparency, status and place cleared; the edit
      feed, etag and entry are kept. */
  function Deleted(f: EventFields): EventFields {
    f.(existing := false, title := None, content := None, id := None, start := None, end := None,
       transparency := None, status := None, location := None)
  }

  /** `Time.parse` of an attribute value: nil is a `TypeError`, text that is not
      a timestamp an `ArgumentError`. */
  function ParseTime(a: Option<string>): (r: Result<Instant>)
    ensures r.Ok? ==> a.Some? && XmlSchema(r.value) == a.value
  {
    match a
    case None => Raised(TypeError("can't convert nil into String"))
    case Some(s) =>
      match ParseXmlSchema(s)
      case None => Raised(ArgumentError("no time information in " + s))
      case Some(t) => XmlSchemaCanonical(s, t); Ok(t)
  }

  lemma ParseTimeOf(t: Instant)
    requires ValidInstant(t)
    ensures ParseTime(Some(XmlSchema(t))) == Ok(t)
  {
    XmlSchemaRoundTrip(t);
  }

  // ----------------------------------------------------------------- to_xml

  /** What one template element becomes: the elements kept in its place and the
      elements appended at the end of the entry. */
  datatype Pieces = Pieces(kept: seq<Element>, added: seq<Element>)

  /** One step of `to_xml`. `rec` is None without a recurrence, otherwise the
      outcome of the recurrence's `to_s`. With a recurrence, a `when` element is
      deleted and a `recurrence` element holding the rule is appended. */
  function WriteStep(f: EventFields, rec: Option<Result<string>>, e: Element): Result<Pieces> {
    if e.name == "id" then Ok(Pieces([SetText(e, f.id)], []))
    else if e.name == "title" then Ok(Pieces([SetText(e, f.title)], []))
    else if e.name == "content" then Ok(Pieces([SetText(e, f.content)], []))
    else if e.name == "when" then
      match rec
      case None =>
        if f.start.None? || f.end.None? then Raised(NoMethodError("xmlschema"))
        else
          var e1 := SetAttr(e, "startTime", Some(XmlSchema(f.start.value)));
          Ok(Pieces([SetAttr(e1, "endTime", Some(XmlSchema(f.end.value)))], []))
      case Some(Raised(err)) => Raised(err)
      case Some(Ok(text)) => Ok(Pieces([], [Element("recurrence", Some(text), map[])]))
    else if e.name == "eventStatus" then Ok(Pieces([SetAttr(e, "value", f.status)], []))
    else if e.name == "transparency" then Ok(Pieces([SetAttr(e, "value", f.transparency)], []))
    else if e.name == "where" then Ok(Pieces([SetAttr(e, "valueString", f.location)], []))
    else Ok(Pieces([e], []))
  }

  /** The `recurrence` element `to_xml` appends for the rule's text. */
  predicate IsRuleOf(rec: Option<Result<string>>, e: Element) {
    e.name == "recurrence" && e.attrs == map[] && e.text.Some? && rec == Some(Ok(e.text.value))
  }

  /** Elements that are all the `recurrence` element holding the rule's text. */
  predicate OnlyRule(rec: Option<Result<string>>, xs: seq<Element>) {
    forall i :: 0 <= i < |xs| ==> IsRuleOf(rec, xs[i])
  }

  lemma OnlyRuleConcat(rec: Option<Result<string>>, a: seq<Element>, b: seq<Element>)
    requires OnlyRule(rec, a) && OnlyRule(rec, b)
    ensures OnlyRule(rec, a + b)
  {
    forall i | 0 <= i < |a + b| ensures IsRuleOf(rec, (a + b)[i]) {
      if i < |a| { assert (a + b)[i] == a[i]; } else { assert (a + b)[i] == b[i - |a|]; }
    }
  }

  /** One step keeps only conforming elements and appends only the rule. */
  lemma WriteStepConforms(f: EventFields, rec: Option<Result<string>>, e: Element)
    requires WriteStep(f, rec, e).Ok?
    ensures var q := WriteStep(f, rec, e).value;
      && (forall i :: 0 <= i < |q.kept| ==> Conforms(f, q.kept[i]))
      && OnlyRule(rec, q.added)
  {
  }

  /** `to_xml` over the first elements of the template, left to right. */
  function WriteAll(f: EventFields, rec: Option<Result<string>>, es: seq<Element>): Result<Pieces>
    decreases |es|
  {
    if es == [] then Ok(Pieces([], [])) else
    match WriteAll(f, rec, es[..|es| - 1])
    case Raised(err) => Raised(err)
    case Ok(p) =>
      match WriteStep(f, rec, es[|es| - 1])
      case Raised(err) => Raised(err)
      case Ok(q) => Ok(Pieces(p.kept + q.kept, p.added + q.added))
  }

  /** `to_xml`: the event's template (`@xml`) with its elements rewritten. */
  function ToXml(f: EventFields, rec: Option<Result<string>>): Result<Document> {
    match WriteAll(f, rec, f.xml.children)
    case Raised(err) => Raised(err)
    case Ok(p) => Ok(Document(f.xml.attrs, p.kept + p.added))
  }

  /** Once writing has raised, the elements after the failing one are not visited. */
  lemma {:induction false} WriteAllStops(f: EventFields, rec: Option<Result<string>>, es: seq<Element>, n: nat)
    requires n <= |es| && WriteAll(f, rec, es[..n]).Raised?
    ensures WriteAll(f, rec, es) == WriteAll(f, rec, es[..n])
    decreases |es|
  {
    if n < |es| {
      var init := es[..|es| - 1];
      assert init[..n] == es[..n];
      WriteAllStops(f, rec, init, n);
    } else {
      assert es[..n] == es;
    }
  }

  /** What a written element says about the fields it was written from. */
  predicate Conforms(f: EventFields, e: Element) {
    && (e.name == "id" ==> e.text == f.id)
    && (e.name == "title" ==> e.text == f.title)
    && (e.name == "content" ==> e.text == f.content)
    && (e.name == "eventStatus" ==> Attr(e, "value") == f.status)
    && (e.name == "transparency" ==> Attr(e, "value") == f.transparency)
    && (e.name == "where" ==> Attr(e, "valueString") == f.location)
    && (e.name == "when" ==>
          (f.start.Some? && f.end.Some?
           && Attr(e, "startTime") == Some(XmlSchema(f.start.value))
           && Attr(e, "endTime") == Some(XmlSchema(f.end.value))))
  }

  /** The recurrence (or the start and end it excludes) decides whether writing
      fails: only at a `when` element, when a time is missing or `to_s` raises. */
  lemma {:induction false} WriteAllFails(f: EventFields, rec: Option<Result<string>>, es: seq<Element>)
    ensures WriteAll(f, rec, es).Raised? <==>
      HasName(es, "when") && (match rec
                              case None => f.start.None? || f.end.None?
                              case Some(r) => r.Raised?)
    decreases |es|
  {
    if es != [] {
      WriteAllFails(f, rec, es[..|es| - 1]);
      HasNameLast(es, "when");
    }
  }

  /** Every element `to_xml` keeps conforms to the fields, and every element it
      appends is a `recurrence` element holding the rule's text. */
  lemma {:induction false} WriteAllConforms(f: EventFields, rec: Option<Result<string>>, es: seq<Element>)
    requires WriteAll(f, rec, es).Ok?
    ensures var p := WriteAll(f, rec, es).value;
      && (forall i :: 0 <= i < |p.kept| ==> Conforms(f, p.kept[i]))
      && OnlyRule(rec, p.added)
    decreases |es|
  {
    if es == [] {
      assert WriteAll(f, rec, es).value == Pieces([], []);
    } else {
      var init, e := es[..|es| - 1], es[|es| - 1];
      WriteAllConforms(f, rec, init);
      var p := WriteAll(f, rec, init).value;
      var q := WriteStep(f, rec, e).value;
      var r := WriteAll(f, rec, es).value;
      assert r == Pieces(p.kept + q.kept, p.added + q.added);
      WriteStepConforms(f, rec, e);
      forall i | 0 <= i < |r.kept| ensures Conforms(f, r.kept[i]) {
        if i >= |p.kept| {
          assert r.kept[i] == q.kept[i - |p.kept|];
        } else {
          assert r.kept[i] == p.kept[i];
        }
      }
      OnlyRuleConcat(rec, p.added, q.added);
    }
  }

  /** No element name other than `when` disappears from the template. */
  lemma {:induction false} WriteAllKeepsNames(f: EventFields, rec: Option<Result<string>>, es: seq<Element>, n: string)
    requires WriteAll(f, rec, es).Ok?
    requires n != "when" && HasName(es, n)
    ensures HasName(WriteAll(f, rec, es).value.kept, n)
    decreases |es|
  {
    var init, e := es[..|es| - 1], es[|es| - 1];
    var p := WriteAll(f, rec, init).value;
    var q := WriteStep(f, rec, e).value;
    var r := WriteAll(f, rec, es).value;
    assert r.kept == p.kept + q.kept;
    HasNameLast(es, n);
    if HasName(init, n) {
      WriteAllKeepsNames(f, rec, init, n);
      var i :| 0 <= i < |p.kept| && p.kept[i].name == n;
      assert r.kept[i].name == n;
    } else {
      assert q.kept[0].name == n;
      assert r.kept[|p.kept|].name == n;
    }
  }

  /** Without a recurrence the template's elements stay in place one for one and
      nothing is appended. */
  lemma {:induction false} WriteAllInPlace(f: EventFields, es: seq<Element>)
    requires WriteAll(f, None, es).Ok?
    ensures var p := WriteAll(f, None, es).value;
      p.added == [] && |p.kept| == |es| && forall i :: 0 <= i < |es| ==> p.kept[i].name == es[i].name
    decreases |es|
  {
    if es != [] {
      WriteAllInPlace(f, es[..|es| - 1]);
    }
  }

  /** With a recurrence no `when` element is left, and a template with a `when`
      element gains a `recurrence` element. */
  lemma {:induction false} WriteAllReplacesWhen(f: EventFields, rec: Option<Result<string>>, es: seq<Element>)
    requires rec.Some? && WriteAll(f, rec, es).Ok?
    ensures var p := WriteAll(f, rec, es).value;
      !HasName(p.kept, "when") && (HasName(es, "when") ==> p.added != [])
    decreases |es|
  {
    if es != [] {
      var init, e := es[..|es| - 1], es[|es| - 1];
      WriteAllReplacesWhen(f, rec, init);
      var p := WriteAll(f, rec, init).value;
      var q := WriteStep(f, rec, e).value;
      var r := WriteAll(f, rec, es).value;
      assert r.kept == p.kept + q.kept;
      assert !HasName(q.kept, "when");
      HasNameConcat(p.kept, q.kept, "when");
      HasNameLast(es, "when");
    }
  }

  // ------------------------------------------------------------------- load

  /** One step of `load`. `@id, @edit_feed = ele.text` assigns the text to the
      id and nil to the edit feed. A `when` element whose start parses but whose
      end does not leaves the new start in place. */
  function LoadStep(g: EventFields, e: Element): Partial<EventFields> {
    if e.name == "id" then Partial(g.(id := e.text, editFeed := None), None)
    else if e.name == "title" then Partial(g.(title := e.text), None)
    else if e.name == "content" then Partial(g.(content := e.text), None)
    else if e.name == "transparency" then Partial(g.(transparency := Attr(e, "value")), None)
    else if e.name == "eventStatus" then Partial(g.(status := Attr(e, "value")), None)
    else if e.name == "when" then
      match ParseTime(Attr(e, "startTime"))
      case Raised(err) => Partial(g, Some(err))
      case Ok(s) =>
        match ParseTime(Attr(e, "endTime"))
        case Raised(err) => Partial(g.(start := Some(s)), Some(err))
        case Ok(t) => Partial(g.(start := Some(s), end := Some(t)), None)
    else if e.name == "where" then Partial(g.(location := Attr(e, "valueString")), None)
    else if e.name == "link" && Attr(e, "rel") == Some("edit") then Partial(g.(editFeed := Attr(e, "href")), None)
    else Partial(g, None)
  }

  /** `load` over the first elements of an entry; an exception stops the walk
      and keeps what was assigned before it. */
  function LoadAll(g: EventFields, es: seq<Element>): Partial<EventFields> {
    Walk(LoadStep, g, es)
  }

  /** `load(text)`: remembers the entry, marks the event as existing, takes the
      `etag` of the root, then reads every element. */
  function Load(g: EventFields, doc: Document): Partial<EventFields> {
    LoadAll(g.(xml := doc, existing := true, etag := RootAttr(doc, "etag")), doc.children)
  }

  /** One entry of an event feed loaded into a new event: the namespace
      declarations are added to the entry before it is read. */
  function LoadEntry(template: Document, entry: Document): Partial<EventFields> {
    Load(NewEvent(template), WithNamespaces(entry))
  }

  /** Loading the first entries of a feed, one new event each, in feed order; the
      first entry whose load raises ends the walk with that exception. */
  function LoadFeed(template: Document, feed: Feed): Result<seq<EventFields>>
    decreases |feed|
  {
    if feed == [] then Ok([]) else
    match LoadFeed(template, feed[..|feed| - 1])
    case Raised(err) => Raised(err)
    case Ok(fs) =>
      var p := LoadEntry(template, feed[|feed| - 1]);
      if p.error.Some? then Raised(p.error.value) else Ok(fs + [p.value])
  }

  lemma {:induction false} LoadFeedStops(template: Document, feed: Feed, n: nat)
    requires n <= |feed| && LoadFeed(template, feed[..n]).Raised?
    ensures LoadFeed(template, feed) == LoadFeed(template, feed[..n])
    decreases |feed|
  {
    if n < |feed| {
      var init := feed[..|feed| - 1];
      assert init[..n] == feed[..n];
      LoadFeedStops(template, init, n);
    } else {
      assert feed[..n] == feed;
    }
  }

  /** A feed loads without exception exactly when every entry does, and then it
      yields one event per entry, in feed order. */
  lemma {:induction false} LoadFeedOk(template: Document, feed: Feed)
    ensures LoadFeed(template, feed).Ok? <==> forall i :: 0 <= i < |feed| ==> LoadEntry(template, feed[i]).error.None?
    ensures LoadFeed(template, feed).Ok? ==>
      |LoadFeed(template, feed).value| == |feed|
      && forall i :: 0 <= i < |feed| ==> LoadFeed(template, feed).value[i] == LoadEntry(template, feed[i]).value
    decreases |feed|
  {
    if feed != [] {
      var init := feed[..|feed| - 1];
      LoadFeedOk(template, init);
      assert forall i :: 0 <= i < |init| ==> init[i] == feed[i];
    }
  }

  /** An element that decides the edit feed: `id` clears it, an edit link sets it. */
  predicate SetsFeed(e: Element) {
    e.name == "id" || (e.name == "link" && Attr(e, "rel") == Some("edit"))
  }

  function FeedFrom(e: Element): Option<string> {
    if e.name == "id" then None else Attr(e, "href")
  }

  /** The edit feed after a complete `load` comes from the last `id` element or
      edit link: nil if that is the `id`, the link's `href` otherwise. */
  lemma {:induction false} EditFeedFromLast(g: EventFields, es: seq<Element>, j: nat)
    requires j < |es| && SetsFeed(es[j])
    requires forall k :: j < k < |es| ==> !SetsFeed(es[k])
    requires LoadAll(g, es).error.None?
    ensures LoadAll(g, es).value.editFeed == FeedFrom(es[j])
    decreases |es|
  {
    var init := es[..|es| - 1];
    var p := LoadAll(g, init);
    assert p.error.None?;
    if j < |es| - 1 {
      EditFeedFromLast(g, init, j);
    }
  }

  /** With no `id` element and no edit link, `load` leaves the edit feed alone. */
  lemma {:induction false} EditFeedKept(g: EventFields, es: seq<Element>)
    requires forall k :: 0 <= k < |es| ==> !SetsFeed(es[k])
    ensures LoadAll(g, es).value.editFeed == g.editFeed
    decreases |es|
  {
    if es != [] {
      EditFeedKept(g, es[..|es| - 1]);
    }
  }

  /** The order matters: an edit link before the `id` is forgotten. */
  lemma EditFeedOrder(g: EventFields, id: string, href: string)
    ensures var link := Element("link", None, map["rel" := "edit", "href" := href]);
            var idElement := Element("id", Some(id), map[]);
      && LoadAll(g, [idElement, link]).value.editFeed == Some(href)
      && LoadAll(g, [link, idElement]).value.editFeed == None
  {
    var link := Element("link", None, map["rel" := "edit", "href" := href]);
    var idElement := Element("id", Some(id), map[]);
    assert Attr(link, "rel") == Some("edit") && Attr(link, "href") == Some(href);
    assert [idElement, link][..1] == [idElement] && [link, idElement][..1] == [link];
    assert [idElement][..0] == [] && [link][..0] == [];
    assert LoadAll(g, []) == Partial(g, None);
    assert LoadAll(g, [idElement]) == LoadStep(g, idElement);
    assert LoadAll(g, [link]) == LoadStep(g, link);
    assert LoadAll(g, [idElement, link]) == LoadStep(LoadStep(g, idElement).value, link);
    assert LoadAll(g, [link, idElement]) == LoadStep(LoadStep(g, link).value, idElement);
  }

  /** `load` never changes the entry it remembers or the existence flag after
      setting them. */
  lemma {:induction false} LoadAllFrame(g: EventFields, es: seq<Element>)
    ensures LoadAll(g, es).value.xml == g.xml && LoadAll(g, es).value.existing == g.existing
    decreases |es|
  {
    if es != [] {
      LoadAllFrame(g, es[..|es| - 1]);
    }
  }

  /** The fields restored by the elements named so far. */
  predicate Restored(h: EventFields, f: EventFields, es: seq<Element>) {
    && (HasName(es, "id") ==> h.id == f.id)
    && (HasName(es, "title") ==> h.title == f.title)
    && (HasName(es, "content") ==> h.content == f.content)
    && (HasName(es, "eventStatus") ==> h.status == f.status)
    && (HasName(es, "transparency") ==> h.transparency == f.transparency)
    && (HasName(es, "where") ==> h.location == f.location)
    && (HasName(es, "when") ==> h.start == f.start && h.end == f.end)
  }

  lemma LoadStepConforming(h: EventFields, f: EventFields, init: seq<Element>, e: Element)
    requires f.start.Some? ==> ValidInstant(f.start.value)
    requires f.end.Some? ==> ValidInstant(f.end.value)
    requires Conforms(f, e) && Restored(h, f, init)
    ensures LoadStep(h, e).error.None?
    ensures Restored(LoadStep(h, e).value, f, init + [e])
  {
    if e.name == "when" {
      ParseTimeOf(f.start.value);
      ParseTimeOf(f.end.value);
    }
    var es := init + [e];
    assert es[..|es| - 1] == init;
    HasNameLast(es, "id");
    HasNameLast(es, "title");
    HasNameLast(es, "content");
    HasNameLast(es, "eventStatus");
    HasNameLast(es, "transparency");
    HasNameLast(es, "where");
    HasNameLast(es, "when");
  }

  /** Loading elements that conform to some fields restores those fields whose
      elements are present, without raising (the times written are valid). */
  lemma {:induction false} LoadConforming(g: EventFields, f: EventFields, es: seq<Element>)
    requires f.start.Some? ==> ValidInstant(f.start.value)
    requires f.end.Some? ==> ValidInstant(f.end.value)
    requires forall i :: 0 <= i < |es| ==> Conforms(f, es[i])
    ensures LoadAll(g, es).error.None?
    ensures Restored(LoadAll(g, es).value, f, es)
    decreases |es|
  {
    if es != [] {
      var init, e := es[..|es| - 1], es[|es| - 1];
      LoadConforming(g, f, init);
      LoadStepConforming(LoadAll(g, init).value, f, init, e);
      assert init + [e] == es;
    }
  }

  /** What `to_xml` produces: elements that all conform to the fields, every
      element name of the template except `when`, the `when` element exactly
      when there is no recurrence, and the template's root attributes. */
  lemma ToXmlShape(f: EventFields, rec: Option<Result<string>>)
    requires ToXml(f, rec).Ok?
    ensures var doc := ToXml(f, rec).value;
      && doc.attrs == f.xml.attrs
      && (forall i :: 0 <= i < |doc.children| ==> Conforms(f, doc.children[i]))
      && (forall n :: n != "when" && HasName(f.xml.children, n) ==> HasName(doc.children, n))
      && (rec.None? && HasName(f.xml.children, "when") ==> HasName(doc.children, "when"))
      && (rec.Some? ==> !HasName(doc.children, "when"))
  {
    var es := f.xml.children;
    WriteAllConforms(f, rec, es);
    var p := WriteAll(f, rec, es).value;
    var out := p.kept + p.added;
    forall i | 0 <= i < |out| ensures Conforms(f, out[i]) {
      if i >= |p.kept| {
        assert out[i] == p.added[i - |p.kept|];
      } else {
        assert out[i] == p.kept[i];
      }
    }
    forall n | n != "when" && HasName(es, n) ensures HasName(out, n) {
      WriteAllKeepsNames(f, rec, es, n);
      HasNameConcat(p.kept, p.added, n);
    }
    if rec.None? && HasName(es, "when") {
      WriteAllInPlace(f, es);
      var i :| 0 <= i < |es| && es[i].name == "when";
      assert out[i].name == "when";
    }
    if rec.Some? {
      WriteAllFails(f, rec, es);
      WriteAllReplacesWhen(f, rec, es);
      HasNameConcat(p.kept, p.added, "when");
      assert !HasName(p.added, "when");
    }
  }

  /** Writing an event and loading the result gives back its id, title, content,
      status, transparency and place for each of those elements the template
      has, and its start and end when there is no recurrence; a recurrence
      leaves no `when` element, so start and end are then not written at all. */
  lemma RoundTrip(f: EventFields, rec: Option<Result<string>>, g: EventFields)
    requires ToXml(f, rec).Ok?
    requires f.start.Some? ==> ValidInstant(f.start.value)
    requires f.end.Some? ==> ValidInstant(f.end.value)
    ensures var doc := ToXml(f, rec).value;
            var h := Load(g, doc);
      && h.error.None?
      && h.value.existing && h.value.xml == doc
      && (HasName(f.xml.children, "id") ==> h.value.id == f.id)
      && (HasName(f.xml.children, "title") ==> h.value.title == f.title)
      && (HasName(f.xml.children, "content") ==> h.value.content == f.content)
      && (HasName(f.xml.children, "eventStatus") ==> h.value.status == f.status)
      && (HasName(f.xml.children, "transparency") ==> h.value.transparency == f.transparency)
      && (HasName(f.xml.children, "where") ==> h.value.location == f.location)
      && (rec.None? && HasName(f.xml.children, "when") ==> h.value.start == f.start && h.value.end == f.end)
      && (rec.Some? ==> !HasName(doc.children, "when"))
  {
    var doc := ToXml(f, rec).value;
    ToXmlShape(f, rec);
    var g1 := g.(xml := doc, existing := true, etag := RootAttr(doc, "etag"));
    LoadConforming(g1, f, doc.children);
    LoadAllFrame(g1, doc.children);
    assert HasName(f.xml.children, "id") ==> HasName(doc.children, "id");
    assert HasName(f.xml.children, "title") ==> HasName(doc.children, "title");
    assert HasName(f.xml.children, "content") ==> HasName(doc.children, "content");
    assert HasName(f.xml.children, "eventStatus") ==> HasName(doc.children, "eventStatus");
    assert HasName(f.xml.children, "transparency") ==> HasName(doc.children, "transparency");
    assert HasName(f.xml.children, "where") ==> HasName(doc.children, "where");
  }
}
