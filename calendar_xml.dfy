/** The fields of a calendar (lib/gcal4ruby/calendar.rb) as a value, the
    two mappings between those fields and a calendar entry (`to_xml` and the
    element walk of `load`), the scan of the access-control feed that decides
    whether the calendar is public, and the match `Calendar.find` applies. */
module CalendarXml {
  import opened Basics
  import opened Text
  import opened Xml
  import opened Http

  /** Where new calendars are posted and existing ones deleted. */
  const CALENDAR_FEED: string := "http://www.google.com/calendar/feeds/default/owncalendars/full"
  const FEEDS: string := "http://www.google.com/calendar/feeds/"
  /** The part of an entry's `id` that `load` removes to obtain the calendar id. */
  const ID_PREFIX: string := "http://www.google.com/calendar/feeds/default/calendars/"
  /** The role `public=` grants to everyone when making a calendar public. */
  const READ_ROLE: string := "http://schemas.google.com/gCal/2005#read"
  const DEFAULT_TIMEZONE: string := "America/Los_Angeles"
  const DEFAULT_COLOR: string := "#2952A3"

  /** The instance variables of a calendar, except its service. */
  datatype CalendarFields = CalendarFields(
    title: Option<string>, summary: Option<string>, id: Option<string>, hidden: bool,
    timezone: Option<string>, color: Option<string>, location: Option<string>,
    selected: Option<bool>, public: bool, existing: bool,
    eventFeed: Option<string>, editFeed: Option<string>, xml: Document)

  /** A calendar as `initialize` leaves it: empty title, summary and place, not
      public, hidden or existing, the default timezone and color, the calendar
      template as its entry, and nil id, selected flag and feeds. */
  function NewCalendar(template: Document): CalendarFields {
    CalendarFields(Some(""), Some(""), None, false, Some(DEFAULT_TIMEZONE), Some(DEFAULT_COLOR), Some(""),
                   None, false, false, None, None, template)
  }

  /** A calendar after a successful `delete`: no longer existing, public or
      hidden, with title, summary, id, timezone, color and place cleared. */
  function Deleted(f: CalendarFields): CalendarFields {
    f.(existing := false, title := None, summary := None, public := false, id := None, hidden := false,
       timezone := None, color := None, location := None)
  }

  /** The role value `public=` writes: read access, or none. */
  function Permissions(p: bool): string { if p then READ_ROLE else "none" }

  /** The ACL template with the `value` of every `role` element set. */
  function AclRequest(template: Document, permissions: string): Document {
    Document(template.attrs, seq(|template.children|, i requires 0 <= i < |template.children| =>
      if template.children[i].name == "role" then SetAttr(template.children[i], "value", Some(permissions))
      else template.children[i]))
  }

  /** The calendar's event feed, `http://www.google.com/calendar/feeds/<id>/private/full`
      (a nil id interpolates as the empty string). */
  function EventFeedOf(id: Option<string>): string { FEEDS + id.GetOr("") + "/private/full" }

  /** Where `load` reads the access-control list. */
  function AclFeedOf(id: Option<string>): string { FEEDS + id.GetOr("") + "/acl/full/" }

  /** Where `public=` writes the default rule. */
  function AclRuleOf(id: Option<string>): string { FEEDS + id.GetOr("") + "/acl/full/default" }

  /** A boolean stored as an attribute value (`true.to_s`, `false.to_s`). */
  function BoolText(b: bool): string { if b then "true" else "false" }

  // ----------------------------------------------------------------- to_xml

  /** One element of `to_xml`: title and summary as text; timezone, hidden,
      color and selected as the `value` attribute (nil removes it). */
  function WriteStep(f: CalendarFields, e: Element): Element {
    if e.name == "title" then SetText(e, f.title)
    else if e.name == "summary" then SetText(e, f.summary)
    else if e.name == "timezone" then SetAttr(e, "value", f.timezone)
    else if e.name == "hidden" then SetAttr(e, "value", Some(BoolText(f.hidden)))
    else if e.name == "color" then SetAttr(e, "value", f.color)
    else if e.name == "selected" then
      SetAttr(e, "value", match f.selected case None => None case Some(b) => Some(BoolText(b)))
    else e
  }

  /** `to_xml`: the calendar's template (`@xml`) with its elements rewritten in place. */
  function ToXml(f: CalendarFields): Document {
    Document(f.xml.attrs, seq(|f.xml.children|, i requires 0 <= i < |f.xml.children| => WriteStep(f, f.xml.children[i])))
  }

  // ------------------------------------------------------------------- load

  /** One element of `load`. The `id` text loses every occurrence of the feed
      prefix (nil text has no `gsub`); hidden and selected become whether the
      `value` attribute is exactly "true". */
  function LoadStep(g: CalendarFields, e: Element): Partial<CalendarFields> {
    if e.name == "id" then
      match e.text
      case None => Partial(g, Some(NoMethodError("gsub")))
      case Some(t) => Partial(g.(id := Some(RemoveAll(t, ID_PREFIX))), None)
    else if e.name == "title" then Partial(g.(title := e.text), None)
    else if e.name == "summary" then Partial(g.(summary := e.text), None)
    else if e.name == "color" then Partial(g.(color := Attr(e, "value")), None)
    else if e.name == "hidden" then Partial(g.(hidden := Attr(e, "value") == Some("true")), None)
    else if e.name == "timezone" then Partial(g.(timezone := Attr(e, "value")), None)
    else if e.name == "selected" then Partial(g.(selected := Some(Attr(e, "value") == Some("true"))), None)
    else if e.name == "link" && Attr(e, "rel") == Some("edit") then Partial(g.(editFeed := Attr(e, "href")), None)
    else Partial(g, None)
  }

  function LoadAll(g: CalendarFields, es: seq<Element>): Partial<CalendarFields> {
    Walk(LoadStep, g, es)
  }

  // -------------------------------------------------------------- ACL scan

  /** A `role` element immediately preceded by a `scope` element of type `default`. */
  predicate Qualifies(es: seq<Element>, i: nat)
    requires i < |es|
  {
    es[i].name == "role" && i > 0 && es[i - 1].name == "scope" && Attr(es[i - 1], "type") == Some("default")
  }

  /** One element of an ACL entry. A `role` with no element before it fails on
      `previous_element.name`; a qualifying role with no `value` fails on `match`. */
  function AclStep(pub: bool, es: seq<Element>, i: nat): Result<bool>
    requires i < |es|
  {
    if es[i].name != "role" then Ok(pub)
    else if i == 0 then Raised(NoMethodError("name"))
    else if es[i - 1].name != "scope" || Attr(es[i - 1], "type") != Some("default") then Ok(pub)
    else
      match Attr(es[i], "value")
      case None => Raised(NoMethodError("match"))
      case Some(v) => Ok(Contains(v, "#read"))
  }

  /** The scan of the first `n` elements of one entry. */
  function AclEntry(pub: bool, es: seq<Element>, n: nat): Partial<bool>
    requires n <= |es|
    decreases n
  {
    if n == 0 then Partial(pub, None) else
    var p := AclEntry(pub, es, n - 1);
    if p.error.Some? then p else
    match AclStep(p.value, es, n - 1)
    case Raised(err) => Partial(p.value, Some(err))
    case Ok(b) => Partial(b, None)
  }

  /** The scan of the first `n` entries of the feed. */
  function AclFeed(pub: bool, entries: seq<Document>, n: nat): Partial<bool>
    requires n <= |entries|
    decreases n
  {
    if n == 0 then Partial(pub, None) else
    var p := AclFeed(pub, entries, n - 1);
    if p.error.Some? then p else
    AclEntry(p.value, entries[n - 1].children, |entries[n - 1].children|)
  }

  lemma {:induction false} AclEntryStops(pub: bool, es: seq<Element>, n: nat, m: nat)
    requires n <= m <= |es| && AclEntry(pub, es, n).error.Some?
    ensures AclEntry(pub, es, m) == AclEntry(pub, es, n)
    decreases m
  {
    if n < m {
      AclEntryStops(pub, es, n, m - 1);
    }
  }

  lemma {:induction false} AclFeedStops(pub: bool, entries: seq<Document>, n: nat, m: nat)
    requires n <= m <= |entries| && AclFeed(pub, entries, n).error.Some?
    ensures AclFeed(pub, entries, m) == AclFeed(pub, entries, n)
    decreases m
  {
    if n < m {
      AclFeedStops(pub, entries, n, m - 1);
    }
  }

  /** The value a qualifying role sets: whether it grants `#read`. */
  function Grants(e: Element): bool {
    Attr(e, "value").Some? && Contains(Attr(e, "value").value, "#read")
  }

  /** Without a qualifying role the scan leaves `public` alone. */
  lemma {:induction false} AclEntryNone(pub: bool, es: seq<Element>, n: nat)
    requires n <= |es|
    requires forall k :: 0 <= k < n ==> !Qualifies(es, k)
    ensures AclEntry(pub, es, n).value == pub
    decreases n
  {
    if n > 0 {
      AclEntryNone(pub, es, n - 1);
      assert !Qualifies(es, n - 1);
    }
  }

  /** After a complete scan of an entry, `public` is what its last qualifying role grants. */
  lemma {:induction false} AclEntryLast(pub: bool, es: seq<Element>, n: nat, j: nat)
    requires j < n <= |es|
    requires Qualifies(es, j)
    requires forall k :: j < k < n ==> !Qualifies(es, k)
    requires AclEntry(pub, es, n).error.None?
    ensures AclEntry(pub, es, n).value == Grants(es[j])
    decreases n
  {
    var p := AclEntry(pub, es, n - 1);
    assert p.error.None?;
    if j < n - 1 {
      AclEntryLast(pub, es, n - 1, j);
      assert !Qualifies(es, n - 1);
    }
  }

  /** Whether the element at `j` of entry `k` is a qualifying role. */
  predicate QualifiesAt(entries: seq<Document>, k: int, j: int) {
    0 <= k < |entries| && 0 <= j < |entries[k].children| && Qualifies(entries[k].children, j)
  }

  /** A feed without a qualifying role leaves `public` alone. */
  lemma {:induction false} AclFeedNone(pub: bool, entries: seq<Document>, n: nat)
    requires n <= |entries|
    requires forall k, j :: k < n ==> !QualifiesAt(entries, k, j)
    ensures AclFeed(pub, entries, n).value == pub
    decreases n
  {
    if n > 0 {
      AclFeedNone(pub, entries, n - 1);
      var es := entries[n - 1].children;
      forall j | 0 <= j < |es| ensures !Qualifies(es, j) {
        assert !QualifiesAt(entries, n - 1, j);
      }
      AclEntryNone(AclFeed(pub, entries, n - 1).value, es, |es|);
    }
  }

  /** After a complete scan of the feed, `public` is what the last qualifying
      role of the feed grants (in entry order, then element order). */
  lemma {:induction false} AclFeedLast(pub: bool, entries: seq<Document>, n: nat, k: nat, j: nat)
    requires k < n <= |entries|
    requires QualifiesAt(entries, k, j)
    requires forall k', j' :: (k < k' < n || (k' == k && j < j')) ==> !QualifiesAt(entries, k', j')
    requires AclFeed(pub, entries, n).error.None?
    ensures AclFeed(pub, entries, n).value == Grants(entries[k].children[j])
    decreases n
  {
    var p := AclFeed(pub, entries, n - 1);
    assert p.error.None?;
    var es := entries[n - 1].children;
    if k < n - 1 {
      AclFeedLast(pub, entries, n - 1, k, j);
      forall j' | 0 <= j' < |es| ensures !Qualifies(es, j') {
        assert !QualifiesAt(entries, n - 1, j');
      }
      AclEntryNone(p.value, es, |es|);
    } else {
      forall j' | j < j' < |es| ensures !Qualifies(es, j') {
        assert !QualifiesAt(entries, k, j');
      }
      AclEntryLast(p.value, es, |es|, j);
    }
  }

  /** `load(text)`: marks the calendar as existing, remembers the entry, reads
      its elements, derives the event feed, then reads `public` from the ACL
      feed the server answers with (no response has no `read_body`). An
      exception keeps what was assigned before it. */
  function Load(g: CalendarFields, doc: Document, server: Server): Partial<CalendarFields> {
    var p := LoadAll(g.(existing := true, xml := doc), doc.children);
    if p.error.Some? then p else
    var h := p.value.(eventFeed := Some(EventFeedOf(p.value.id)));
    match server(Some(AclFeedOf(p.value.id)))
    case None => Partial(h, Some(NoMethodError("read_body")))
    case Some(feed) =>
      var a := AclFeed(h.public, feed, |feed|);
      Partial(h.(public := a.value), a.error)
  }

  /** An `id` element holding the feed locator of a calendar yields the bare id. */
  lemma IdFromLocator(x: string, g: CalendarFields, attrs: map<string, string>)
    requires !Contains(x, ID_PREFIX)
    ensures LoadStep(g, Element("id", Some(ID_PREFIX + x), attrs)) == Partial(g.(id := Some(x)), None)
  {
    RemoveAllLeading(ID_PREFIX, x);
    RemoveAllAbsent(x, ID_PREFIX);
  }

  /** `load` never changes the entry it remembers or the existence flag after
      setting them. */
  lemma {:induction false} LoadAllFrame(g: CalendarFields, es: seq<Element>)
    ensures LoadAll(g, es).value.xml == g.xml && LoadAll(g, es).value.existing == g.existing
    ensures LoadAll(g, es).value.public == g.public
    decreases |es|
  {
    if es != [] {
      LoadAllFrame(g, es[..|es| - 1]);
    }
  }

  /** A complete load marks the calendar as existing, points its event feed
      at its id, and makes it public exactly as the last qualifying role of the
      ACL feed grants (unchanged without one). */
  lemma LoadOutcome(g: CalendarFields, doc: Document, server: Server)
    requires Load(g, doc, server).error.None?
    ensures var h := Load(g, doc, server).value;
      && h.existing && h.xml == doc
      && h.eventFeed == Some(EventFeedOf(h.id))
      && server(Some(AclFeedOf(h.id))).Some?
      && var feed := server(Some(AclFeedOf(h.id))).value;
         && ((forall k, j :: k < |feed| ==> !QualifiesAt(feed, k, j)) ==> h.public == g.public)
         && (forall k, j :: k < |feed| && QualifiesAt(feed, k, j)
               && (forall k', j' :: (k < k' < |feed| || (k' == k && j < j')) ==> !QualifiesAt(feed, k', j'))
               ==> h.public == Grants(feed[k].children[j]))
  {
    var g1 := g.(existing := true, xml := doc);
    LoadAllFrame(g1, doc.children);
    var p := LoadAll(g1, doc.children);
    var feed := server(Some(AclFeedOf(p.value.id)));
    assert feed.Some?;
    if forall k, j :: k < |feed.value| ==> !QualifiesAt(feed.value, k, j) {
      AclFeedNone(g.public, feed.value, |feed.value|);
    }
    forall k, j | k < |feed.value| && QualifiesAt(feed.value, k, j)
        && (forall k', j' :: (k < k' < |feed.value| || (k' == k && j < j')) ==> !QualifiesAt(feed.value, k', j'))
      ensures Load(g, doc, server).value.public == Grants(feed.value[k].children[j])
    {
      AclFeedLast(g.public, feed.value, |feed.value|, k, j);
    }
  }

  // ------------------------------------------------------------- round trip

  /** What a written element says about the fields it was written from. */
  predicate Conforms(f: CalendarFields, e: Element) {
    && (e.name == "title" ==> e.text == f.title)
    && (e.name == "summary" ==> e.text == f.summary)
    && (e.name == "timezone" ==> Attr(e, "value") == f.timezone)
    && (e.name == "color" ==> Attr(e, "value") == f.color)
    && (e.name == "hidden" ==> Attr(e, "value") == Some(BoolText(f.hidden)))
    && (e.name == "selected" && f.selected.Some? ==> Attr(e, "value") == Some(BoolText(f.selected.value)))
    && (e.name == "id" ==> e.text.Some?)
  }

  /** The fields restored by the elements named so far. */
  predicate Restored(h: CalendarFields, f: CalendarFields, es: seq<Element>) {
    && (HasName(es, "title") ==> h.title == f.title)
    && (HasName(es, "summary") ==> h.summary == f.summary)
    && (HasName(es, "timezone") ==> h.timezone == f.timezone)
    && (HasName(es, "color") ==> h.color == f.color)
    && (HasName(es, "hidden") ==> h.hidden == f.hidden)
    && (HasName(es, "selected") && f.selected.Some? ==> h.selected == f.selected)
  }

  lemma LoadStepConforming(h: CalendarFields, f: CalendarFields, init: seq<Element>, e: Element)
    requires Conforms(f, e) && Restored(h, f, init)
    ensures LoadStep(h, e).error.None?
    ensures Restored(LoadStep(h, e).value, f, init + [e])
  {
    HasNameSnoc(init, e, "title");
    HasNameSnoc(init, e, "summary");
    HasNameSnoc(init, e, "timezone");
    HasNameSnoc(init, e, "color");
    HasNameSnoc(init, e, "hidden");
    HasNameSnoc(init, e, "selected");
    var h' := LoadStep(h, e).value;
    if e.name == "id" {
      assert h' == h.(id := h'.id);
    } else if e.name in {"title", "summary", "color", "hidden", "timezone", "selected"} {
    } else if e.name == "link" {
      assert h' == h.(editFeed := h'.editFeed);
    } else {
      assert h' == h;
    }
  }

  lemma {:induction false} LoadConforming(g: CalendarFields, f: CalendarFields, es: seq<Element>)
    requires forall i :: 0 <= i < |es| ==> Conforms(f, es[i])
    ensures LoadAll(g, es).error.None?
    ensures Restored(LoadAll(g, es).value, f, es)
    decreases |es|
  {
    if es != [] {
      var init, e := es[..|es| - 1], es[|es| - 1];
      LoadConforming(g, f, init);
      LoadStepConforming(LoadAll(g, init).value, f, init, e);
      assert init + [e] == es;
    }
  }

  /** `to_xml` keeps every element in place and writes each conforming to the fields. */
  lemma ToXmlShape(f: CalendarFields)
    requires forall i :: 0 <= i < |f.xml.children| && f.xml.children[i].name == "id" ==> f.xml.children[i].text.Some?
    ensures var out := ToXml(f).children;
      && |out| == |f.xml.children|
      && (forall i :: 0 <= i < |out| ==> out[i].name == f.xml.children[i].name && Conforms(f, out[i]))
  {
  }

  /** Writing a calendar and loading the result gives back its title, summary,
      timezone, color and hidden flag for each of those elements the template
      has, and its selected flag when it has one; the place is neither written
      nor read. The template's `id` elements must carry text, since `to_xml`
      leaves them as they are and `load` cannot strip a nil id. */
  lemma RoundTrip(f: CalendarFields, g: CalendarFields, server: Server)
    requires forall i :: 0 <= i < |f.xml.children| && f.xml.children[i].name == "id" ==> f.xml.children[i].text.Some?
    ensures var h := Load(g, ToXml(f), server).value;
      && (HasName(f.xml.children, "title") ==> h.title == f.title)
      && (HasName(f.xml.children, "summary") ==> h.summary == f.summary)
      && (HasName(f.xml.children, "timezone") ==> h.timezone == f.timezone)
      && (HasName(f.xml.children, "color") ==> h.color == f.color)
      && (HasName(f.xml.children, "hidden") ==> h.hidden == f.hidden)
      && (HasName(f.xml.children, "selected") && f.selected.Some? ==> h.selected == f.selected)
      && h.location == g.location
  {
    var doc := ToXml(f);
    ToXmlShape(f);
    LoadConforming(g.(existing := true, xml := doc), f, doc.children);
    LocationUntouched(g.(existing := true, xml := doc), doc.children);
    forall n | HasName(f.xml.children, n) ensures HasName(doc.children, n) {
      var i :| 0 <= i < |f.xml.children| && f.xml.children[i].name == n;
      assert doc.children[i].name == n;
    }
  }

  lemma {:induction false} LocationUntouched(g: CalendarFields, es: seq<Element>)
    ensures LoadAll(g, es).value.location == g.location
    decreases |es|
  {
    if es != [] {
      LocationUntouched(g, es[..|es| - 1]);
    }
  }

  // ------------------------------------------------------------------- find

  /** `Calendar.find`'s test: the lower-cased term occurs in the lower-cased
      title, summary or id, nil counting as the empty string. */
  predicate Matches(term: string, c: CalendarFields) {
    var t := Downcase(term);
    Contains(Downcase(c.title.GetOr("")), t) || Contains(Downcase(c.summary.GetOr("")), t)
    || Contains(Downcase(c.id.GetOr("")), t)
  }

  /** Matching ignores the case of the term. */
  lemma MatchesIgnoresCase(term: string, term2: string, c: CalendarFields)
    requires Downcase(term) == Downcase(term2)
    ensures Matches(term, c) <==> Matches(term2, c)
  {
  }

  /** Every calendar matches the empty term. */
  lemma MatchesEmpty(c: CalendarFields)
    ensures Matches("", c)
  {
    assert Downcase("") == "";
    assert StartsWith(Downcase(c.title.GetOr("")), "");
  }

  /** `:all` keeps the matching calendars in service order. */
  function Matching(term: string, fs: seq<CalendarFields>): seq<CalendarFields>
    decreases |fs|
  {
    if fs == [] then [] else
    var m := Matching(term, fs[..|fs| - 1]);
    if Matches(term, fs[|fs| - 1]) then m + [fs[|fs| - 1]] else m
  }

  /** `idx` lists, in increasing order, the positions of `fs` that `Matching`
      keeps: its k-th calendar is `fs[idx[k]]`, and a position is listed iff
      the calendar there matches. */
  ghost predicate SelectedAt(term: string, fs: seq<CalendarFields>, idx: seq<nat>) {
    var m := Matching(term, fs);
    |idx| == |m|
    && (forall k :: 0 <= k < |idx| ==> idx[k] < |fs| && m[k] == fs[idx[k]])
    && (forall k, l :: 0 <= k < l < |idx| ==> idx[k] < idx[l])
    && (forall i :: 0 <= i < |fs| ==> (i in idx <==> Matches(term, fs[i])))
  }

  /** Appending a calendar extends the selected positions by its own when it matches. */
  lemma SelectedSnoc(term: string, fs: seq<CalendarFields>, idx: seq<nat>)
    requires fs != [] && SelectedAt(term, fs[..|fs| - 1], idx)
    ensures SelectedAt(term, fs, if Matches(term, fs[|fs| - 1]) then idx + [|fs| - 1] else idx)
  {
    var init, n := fs[..|fs| - 1], |fs| - 1;
    var m := Matching(term, init);
    assert forall i :: 0 <= i < |init| ==> init[i] == fs[i];
    if Matches(term, fs[n]) {
      var idx' := idx + [n];
      assert Matching(term, fs) == m + [fs[n]];
      assert forall i :: 0 <= i < |fs| ==> (i in idx' <==> i in idx || i == n);
    } else {
      assert Matching(term, fs) == m;
    }
  }

  /** Selected positions make `Matching` hold the matching calendars and no other. */
  lemma SelectedMembers(term: string, fs: seq<CalendarFields>, idx: seq<nat>)
    requires SelectedAt(term, fs, idx)
    ensures forall c :: c in Matching(term, fs) ==> c in fs && Matches(term, c)
    ensures forall i :: 0 <= i < |fs| && Matches(term, fs[i]) ==> fs[i] in Matching(term, fs)
  {
    var m := Matching(term, fs);
    forall c | c in m ensures c in fs && Matches(term, c) {
      var k :| 0 <= k < |m| && m[k] == c;
      assert idx[k] in idx;
    }
    forall i | 0 <= i < |fs| && Matches(term, fs[i]) ensures fs[i] in m {
      var k :| 0 <= k < |idx| && idx[k] == i;
      assert m[k] == fs[i];
    }
  }

  /** `:all` returns exactly the matching calendars, each once, in service
      order: it is the subsequence of `fs` at the matching positions. */
  lemma {:induction false} MatchingFilters(term: string, fs: seq<CalendarFields>)
    ensures forall c :: c in Matching(term, fs) ==> c in fs && Matches(term, c)
    ensures forall i :: 0 <= i < |fs| && Matches(term, fs[i]) ==> fs[i] in Matching(term, fs)
    ensures exists idx: seq<nat> :: SelectedAt(term, fs, idx)
    decreases |fs|
  {
    var idx: seq<nat>;
    if fs == [] {
      idx := [];
    } else {
      MatchingFilters(term, fs[..|fs| - 1]);
      var idx0: seq<nat> :| SelectedAt(term, fs[..|fs| - 1], idx0);
      SelectedSnoc(term, fs, idx0);
      idx := if Matches(term, fs[|fs| - 1]) then idx0 + [|fs| - 1] else idx0;
    }
    assert SelectedAt(term, fs, idx);
    SelectedMembers(term, fs, idx);
  }

  /** The position of the calendar `:first` returns: the first that matches. */
  function FirstMatch(term: string, fs: seq<CalendarFields>): (r: Option<nat>)
    ensures r.Some? ==> r.value < |fs|
    decreases |fs|
  {
    if fs == [] then None else
    match FirstMatch(term, fs[..|fs| - 1])
    case Some(i) => Some(i)
    case None => if Matches(term, fs[|fs| - 1]) then Some(|fs| - 1) else None
  }

  /** `:first` finds the first matching calendar, and finds none only when none matches. */
  lemma {:induction false} FirstMatchIsFirst(term: string, fs: seq<CalendarFields>)
    ensures FirstMatch(term, fs).Some? ==>
      var i := FirstMatch(term, fs).value;
      i < |fs| && Matches(term, fs[i]) && forall j :: 0 <= j < i ==> !Matches(term, fs[j])
    ensures FirstMatch(term, fs).None? <==> forall j :: 0 <= j < |fs| ==> !Matches(term, fs[j])
    decreases |fs|
  {
    if fs != [] {
      var init := fs[..|fs| - 1];
      FirstMatchIsFirst(term, init);
      assert forall i :: 0 <= i < |init| ==> init[i] == fs[i];
    }
  }

  lemma {:induction false} FirstMatchStops(term: string, fs: seq<CalendarFields>, n: nat)
    requires n <= |fs| && FirstMatch(term, fs[..n]).Some?
    ensures FirstMatch(term, fs) == FirstMatch(term, fs[..n])
    decreases |fs|
  {
    if n < |fs| {
      var init := fs[..|fs| - 1];
      assert init[..n] == fs[..n];
      FirstMatchStops(term, init, n);
    } else {
      assert fs[..n] == fs;
    }
  }

  // ------------------------------------------------------- calendar feeds

  /** One entry of the calendar list loaded into a new calendar. */
  function LoadEntry(template: Document, entry: Document, server: Server): Partial<CalendarFields> {
    Load(NewCalendar(template), WithNamespaces(entry), server)
  }

  /** Loading the first entries of the calendar list, in feed order. */
  function LoadFeed(template: Document, feed: Feed, server: Server): Result<seq<CalendarFields>>
    decreases |feed|
  {
    if feed == [] then Ok([]) else
    match LoadFeed(template, feed[..|feed| - 1], server)
    case Raised(err) => Raised(err)
    case Ok(fs) =>
      var p := LoadEntry(template, feed[|feed| - 1], server);
      if p.error.Some? then Raised(p.error.value) else Ok(fs + [p.value])
  }

  lemma {:induction false} LoadFeedStops(template: Document, feed: Feed, server: Server, n: nat)
    requires n <= |feed| && LoadFeed(template, feed[..n], server).Raised?
    ensures LoadFeed(template, feed, server) == LoadFeed(template, feed[..n], server)
    decreases |feed|
  {
    if n < |feed| {
      var init := feed[..|feed| - 1];
      assert init[..n] == feed[..n];
      LoadFeedStops(template, init, server, n);
    } else {
      assert feed[..n] == feed;
    }
  }

  /** The calendar list loads without exception exactly when every entry does,
      and then yields one calendar per entry, in feed order. */
  lemma {:induction false} LoadFeedOk(template: Document, feed: Feed, server: Server)
    ensures LoadFeed(template, feed, server).Ok? <==>
      forall i :: 0 <= i < |feed| ==> LoadEntry(template, feed[i], server).error.None?
    ensures LoadFeed(template, feed, server).Ok? ==>
      |LoadFeed(template, feed, server).value| == |feed|
      && forall i :: 0 <= i < |feed| ==> LoadFeed(template, feed, server).value[i] == LoadEntry(template, feed[i], server).value
    decreases |feed|
  {
    if feed != [] {
      var init := feed[..|feed| - 1];
      LoadFeedOk(template, init, server);
      assert forall i :: 0 <= i < |init| ==> init[i] == feed[i];
    }
  }
}
