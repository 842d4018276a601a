/** The four classes of GCal4Ruby as objects with mutable state:
    `Recurrence` (lib/gcal4ruby/recurrence.rb), `Event` (lib/gcal4ruby/event.rb),
    `Calendar` (lib/gcal4ruby/calendar.rb) and `Service`
    (lib/gcal4ruby/service.rb). Each method is proved against the value
    functions of RecurrenceRule, EventXml, CalendarXml and Session. The
    transport is a ghost log of the requests the service issues: whether a
    write succeeds is a parameter, and what a GET answers comes from a
    `Server` function. */
module GCal4Ruby {
  import opened Basics
  import opened Text
  import opened Instants
  import opened Xml
  import opened Http
  import RecurrenceRule
  import EventXml
  import CalendarXml
  import Session

  /** The constants the library takes from its base file: where to authenticate,
      where the calendar list lives, and the three entry templates. */
  datatype BaseConstants = BaseConstants(
    authUrl: string, calendarListFeed: string,
    calendarXml: Document, eventXml: Document, aclXml: Document)

  /** What `Event.find` returns: every event (`:all`), the first event or nil
      (`:first`), or false (any other scope). */
  datatype EventsFound = EventList(events: seq<Event>) | FirstEvent(event: Event?) | NoEvents

  /** What `Calendar.find` returns: the first match, or a list. */
  datatype CalendarsFound = OneCalendar(calendar: Calendar) | CalendarList(calendars: seq<Calendar>)

  /** The events hold the given fields, in order, and belong to `calendar`. */
  ghost predicate EventsHold(calendar: Calendar, evs: seq<Event>, fs: seq<EventXml.EventFields>)
    reads evs
  {
    |evs| == |fs|
    && forall i :: 0 <= i < |evs| ==> evs[i].calendar == calendar && evs[i].recurrence == null && evs[i].Fields() == fs[i]
  }

  /** The fields of each calendar, in order. */
  ghost function FieldsOf(cals: seq<Calendar>): (fs: seq<CalendarXml.CalendarFields>)
    reads cals
    ensures |fs| == |cals| && forall i :: 0 <= i < |cals| ==> fs[i] == cals[i].Fields()
  {
    if cals == [] then [] else FieldsOf(cals[..|cals| - 1]) + [cals[|cals| - 1].Fields()]
  }

  /** The calendars hold the given fields, in order, and belong to `service`. */
  ghost predicate CalendarsHold(service: Service, cals: seq<Calendar>, fs: seq<CalendarXml.CalendarFields>)
    reads cals
  {
    |cals| == |fs| && forall i :: 0 <= i < |cals| ==> cals[i].service == service && cals[i].Fields() == fs[i]
  }

  // ============================================================ Recurrence

  class Recurrence {
    var start: Option<Instant>
    var end: Option<Instant>
    var event: Event?
    var dayOfWeek: Option<seq<string>>
    var repeatUntil: Option<Date>
    var frequency: Option<string>
    var allDay: bool

    function Fields(): RecurrenceRule.Rule
      reads this
    {
      RecurrenceRule.Rule(start, end, dayOfWeek, repeatUntil, frequency, allDay)
    }

    constructor ()
      ensures Fields() == RecurrenceRule.NEW_RULE && event == null
    {
      start := None;
      end := None;
      event := null;
      dayOfWeek := None;
      repeatUntil := None;
      frequency := None;
      allDay := false;
    }

    /** `to_s`: the output built line by line; equal to the rendering of the rule. */
    method ToText() returns (r: Result<string>)
      ensures r == RecurrenceRule.Render(Fields())
    {
      ghost var rule := Fields();
      var output := "";
      if start.None? {
        return Raised(NoMethodError(if allDay then "utc" else "complete"));
      }
      output := output + ("DTSTART;" + RecurrenceRule.Stamp(start.value, allDay) + "\n");
      assert output == RecurrenceRule.TimeLine("DTSTART;", start, allDay).value;
      if end.None? {
        return Raised(NoMethodError(if allDay then "utc" else "complete"));
      }
      output := output + ("DTEND;" + RecurrenceRule.Stamp(end.value, allDay) + "\n");
      output := output + "RRULE:";
      if frequency.Some? {
        output := output + ("FREQ=" + Upcase(frequency.value));
      } else {
        assert output + RecurrenceRule.Freq(rule) == output;
      }
      if dayOfWeek.Some? {
        if frequency.None? {
          return Raised(NoMethodError("downcase"));
        }
      }
      if dayOfWeek.Some? && RecurrenceRule.IsWeekly(frequency.value) {
        output := output + (";BYDAY=" + Join(dayOfWeek.value, ","));
      } else {
        assert output + RecurrenceRule.ByDayText(rule) == output;
      }
      if repeatUntil.Some? {
        output := output + (";UNTIL=" + DateStamp(repeatUntil.value));
      } else {
        assert output + RecurrenceRule.Until(rule) == output;
      }
      output := output + "\n";
      r := Ok(output);
    }

    /** `start=`: only a time is stored. */
    method SetStart(s: Value) returns (o: Outcome)
      modifies this
      ensures o.Pass? <==> s.TimeValue?
      ensures o.Pass? ==> Fields() == old(Fields()).(start := Some(s.time))
      ensures o.Fail? ==> o.error == RecurrenceValueError("Start must be a date or a time") && Fields() == old(Fields())
      ensures event == old(event)
    {
      if !s.TimeValue? {
        return Fail(RecurrenceValueError("Start must be a date or a time"));
      }
      start := Some(s.time);
      o := Pass;
    }

    /** `end=`: only a time is stored. */
    method SetEnd(s: Value) returns (o: Outcome)
      modifies this
      ensures o.Pass? <==> s.TimeValue?
      ensures o.Pass? ==> Fields() == old(Fields()).(end := Some(s.time))
      ensures o.Fail? ==> o.error == RecurrenceValueError("End must be a date or a time") && Fields() == old(Fields())
      ensures event == old(event)
    {
      if !s.TimeValue? {
        return Fail(RecurrenceValueError("End must be a date or a time"));
      }
      end := Some(s.time);
      o := Pass;
    }

    /** `event=`: only an event is stored (nil is refused). */
    method SetEvent(e: Event?) returns (o: Outcome)
      modifies this
      ensures o.Pass? <==> e != null
      ensures o.Pass? ==> event == e
      ensures o.Fail? ==> o.error == RecurrenceValueError("Event must be an event") && event == old(event)
      ensures Fields() == old(Fields())
    {
      if e == null {
        return Fail(RecurrenceValueError("Event must be an event"));
      }
      event := e;
      o := Pass;
    }

    /** `repeat_until=`: only a date is stored. */
    method SetRepeatUntil(r: Value) returns (o: Outcome)
      modifies this
      ensures o.Pass? <==> r.DateValue?
      ensures o.Pass? ==> Fields() == old(Fields()).(repeatUntil := Some(r.date))
      ensures o.Fail? ==> o.error == RecurrenceValueError("Repeat_until must be a date") && Fields() == old(Fields())
      ensures event == old(event)
    {
      if !r.DateValue? {
        return Fail(RecurrenceValueError("Repeat_until must be a date"));
      }
      repeatUntil := Some(r.date);
      o := Pass;
    }

    /** The search of `frequency=`: whether `f` equals one of the seven names, ignoring case. */
    static method FrequencyAccepted(f: string) returns (ok: bool)
      ensures ok <==> RecurrenceRule.IsFrequency(f)
    {
      var x := RecurrenceRule.FREQUENCIES;
      var error := true;
      var i := 0;
      while i < |x|
        invariant 0 <= i <= |x|
        invariant forall j :: 0 <= j < i ==> Downcase(x[j]) != Downcase(f)
      {
        if Downcase(x[i]) == Downcase(f) {
          error := false;
          break;
        }
        i := i + 1;
      }
      ok := !error;
    }

    /** `frequency=`: a string naming one of the seven frequencies, in any case,
        is stored exactly as given; anything else raises and changes nothing. */
    method SetFrequency(f: Value) returns (o: Outcome)
      modifies this
      ensures o.Pass? <==> f.StringValue? && RecurrenceRule.IsFrequency(f.str)
      ensures o.Pass? ==> Fields() == old(Fields()).(frequency := Some(f.str))
      ensures !f.StringValue? ==> o == Fail(NoMethodError("downcase"))
      ensures f.StringValue? && !RecurrenceRule.IsFrequency(f.str) ==>
        o == Fail(RecurrenceValueError(RecurrenceRule.FREQUENCY_MESSAGE))
      ensures o.Fail? ==> Fields() == old(Fields())
      ensures event == old(event)
    {
      if !f.StringValue? {
        return Fail(NoMethodError("downcase"));
      }
      var ok := FrequencyAccepted(f.str);
      if !ok {
        return Fail(RecurrenceValueError("Frequency must be one of " + Join(RecurrenceRule.FREQUENCIES, " ")));
      }
      frequency := Some(f.str);
      o := Pass;
    }

    /** The check of `day_of_week=`: whether every code has length two. */
    static method DayCodesAccepted(d: seq<string>) returns (ok: bool)
      ensures ok <==> RecurrenceRule.AreDayCodes(d)
    {
      var error := false;
      for i := 0 to |d|
        invariant error <==> exists j :: 0 <= j < i && |d[j]| != 2
      {
        if |d[i]| != 2 {
          error := true;
        }
      }
      ok := !error;
    }

    /** `day_of_week=`: an array of two-letter codes (the empty one too) is
        stored; anything else raises and changes nothing. */
    method SetDayOfWeek(d: Value) returns (o: Outcome)
      modifies this
      ensures o.Pass? <==> d.ListValue? && RecurrenceRule.AreDayCodes(d.items)
      ensures o.Pass? ==> Fields() == old(Fields()).(dayOfWeek := Some(d.items))
      ensures o.Fail? ==> o.error == RecurrenceValueError("Day of week must be an array of two letter day names")
                          && Fields() == old(Fields())
      ensures event == old(event)
    {
      var ok := false;
      if d.ListValue? {
        ok := DayCodesAccepted(d.items);
      }
      if !ok {
        return Fail(RecurrenceValueError("Day of week must be an array of two letter day names"));
      }
      dayOfWeek := Some(d.items);
      o := Pass;
    }
  }

  // ================================================================= Event

  class Event {
    var title: Option<string>
    var content: Option<string>
    var location: Option<string>
    var transparency: Option<string>
    var status: Option<string>
    var id: Option<string>
    var start: Option<Instant>
    var end: Option<Instant>
    var editFeed: Option<string>
    var etag: Option<string>
    var existing: bool
    var xml: Document
    const calendar: Calendar
    var recurrence: Recurrence?

    function Fields(): EventXml.EventFields
      reads this
    {
      EventXml.EventFields(title, content, location, transparency, status, id, start, end, editFeed, etag, existing, xml)
    }

    /** The outcome of the recurrence's `to_s`, or None without a recurrence. */
    function RuleText(): Option<Result<string>>
      reads this, recurrence
    {
      if recurrence == null then None else Some(RecurrenceRule.Render(recurrence.Fields()))
    }

    constructor (calendar: Calendar)
      ensures Fields() == EventXml.NewEvent(calendar.service.base.eventXml)
      ensures this.calendar == calendar && recurrence == null
    {
      xml := calendar.service.base.eventXml;
      this.calendar := calendar;
      title := None;
      content := None;
      start := None;
      end := None;
      location := None;
      transparency := Some(EventXml.OPAQUE);
      status := Some(EventXml.CONFIRMED);
      id := None;
      editFeed := None;
      etag := None;
      existing := false;
      recurrence := null;
    }

    /** `recurrence=`: ties the rule to this event, then stores it; nil has no `event=`. */
    method SetRecurrence(r: Recurrence?) returns (o: Outcome)
      modifies this, r
      ensures o.Pass? <==> r != null
      ensures o.Pass? ==> recurrence == r && r.event == this && r.Fields() == old(r.Fields())
      ensures o.Fail? ==> o.error == NoMethodError("event=") && recurrence == old(recurrence)
      ensures Fields() == old(Fields())
    {
      if r == null {
        return Fail(NoMethodError("event="));
      }
      o := r.SetEvent(this);
      recurrence := r;
    }

    /** `start=`: a string is parsed, a time stored as is, anything else raises. */
    method SetStart(v: Value) returns (o: Outcome)
      modifies this
      ensures o.Pass? <==> v.TimeValue? || (v.StringValue? && EventXml.ParseTime(Some(v.str)).Ok?)
      ensures v.TimeValue? ==> Fields() == old(Fields()).(start := Some(v.time))
      ensures v.StringValue? && o.Pass? ==>
        Fields() == old(Fields()).(start := start) && start.Some? && XmlSchema(start.value) == v.str
      ensures v.StringValue? && o.Fail? ==> o.error == EventXml.ParseTime(Some(v.str)).error
      ensures !v.TimeValue? && !v.StringValue? ==> o == Fail(RuntimeError("Start Time must be either Time or String"))
      ensures o.Fail? ==> Fields() == old(Fields())
      ensures recurrence == old(recurrence)
    {
      if v.StringValue? {
        var t := EventXml.ParseTime(Some(v.str));
        if t.Raised? {
          return Fail(t.error);
        }
        start := Some(t.value);
      } else if v.TimeValue? {
        start := Some(v.time);
      } else {
        return Fail(RuntimeError("Start Time must be either Time or String"));
      }
      o := Pass;
    }

    /** `end=`: a string is parsed, a time stored as is, anything else raises. */
    method SetEnd(v: Value) returns (o: Outcome)
      modifies this
      ensures o.Pass? <==> v.TimeValue? || (v.StringValue? && EventXml.ParseTime(Some(v.str)).Ok?)
      ensures v.TimeValue? ==> Fields() == old(Fields()).(end := Some(v.time))
      ensures v.StringValue? && o.Pass? ==>
        Fields() == old(Fields()).(end := end) && end.Some? && XmlSchema(end.value) == v.str
      ensures v.StringValue? && o.Fail? ==> o.error == EventXml.ParseTime(Some(v.str)).error
      ensures !v.TimeValue? && !v.StringValue? ==> o == Fail(RuntimeError("End Time must be either Time or String"))
      ensures o.Fail? ==> Fields() == old(Fields())
      ensures recurrence == old(recurrence)
    {
      if v.StringValue? {
        var t := EventXml.ParseTime(Some(v.str));
        if t.Raised? {
          return Fail(t.error);
        }
        end := Some(t.value);
      } else if v.TimeValue? {
        end := Some(v.time);
      } else {
        return Fail(RuntimeError("End Time must be either Time or String"));
      }
      o := Pass;
    }

    /** `delete`: only an existing event sends a DELETE (with `If-Match` set to its
        etag); the fields are cleared only when the service reports success `ok`. */
    method Delete(ok: bool) returns (b: bool)
      modifies this, calendar.service
      ensures b <==> old(existing) && ok
      ensures Fields() == if b then EventXml.Deleted(old(Fields())) else old(Fields())
      ensures calendar.service.log == old(calendar.service.log) +
        (if old(existing) then [Request(DELETE, old(editFeed), NoBody, map["If-Match" := old(etag)])] else [])
      ensures calendar.service.authToken == old(calendar.service.authToken) && calendar.service.account == old(calendar.service.account)
      ensures recurrence == old(recurrence)
    {
      if !existing {
        return false;
      }
      calendar.service.Record(Request(DELETE, editFeed, NoBody, map["If-Match" := etag]));
      if !ok {
        return false;
      }
      Clear();
      b := true;
    }

    /** What a successful `delete` does to the event's fields. */
    method Clear()
      modifies this
      ensures Fields() == EventXml.Deleted(old(Fields()))
      ensures recurrence == old(recurrence)
    {
      existing := false;
      title := None;
      content := None;
      id := None;
      start := None;
      end := None;
      transparency := None;
      status := None;
      location := None;
    }

    /** `to_xml`: walks the template's elements, keeping each rewritten element in
        its place and appending the recurrence; equal to the value-level rewrite. */
    method ToXml() returns (r: Result<Document>)
      ensures r == EventXml.ToXml(Fields(), RuleText())
    {
      var es := xml.children;
      var kept: seq<Element> := [];
      var added: seq<Element> := [];
      var i := 0;
      while i < |es|
        invariant 0 <= i <= |es|
        invariant EventXml.WriteAll(Fields(), RuleText(), es[..i]) == Ok(EventXml.Pieces(kept, added))
      {
        assert es[..i + 1][..i] == es[..i];
        var e := es[i];
        var q: EventXml.Pieces;
        if e.name == "id" {
          q := EventXml.Pieces([SetText(e, id)], []);
        } else if e.name == "title" {
          q := EventXml.Pieces([SetText(e, title)], []);
        } else if e.name == "content" {
          q := EventXml.Pieces([SetText(e, content)], []);
        } else if e.name == "when" {
          if recurrence == null {
            if start.None? || end.None? {
              EventXml.WriteAllStops(Fields(), RuleText(), es, i + 1);
              return Raised(NoMethodError("xmlschema"));
            }
            var e1 := SetAttr(e, "startTime", Some(XmlSchema(start.value)));
            q := EventXml.Pieces([SetAttr(e1, "endTime", Some(XmlSchema(end.value)))], []);
          } else {
            var text := recurrence.ToText();
            if text.Raised? {
              EventXml.WriteAllStops(Fields(), RuleText(), es, i + 1);
              return Raised(text.error);
            }
            q := EventXml.Pieces([], [Element("recurrence", Some(text.value), map[])]);
          }
        } else if e.name == "eventStatus" {
          q := EventXml.Pieces([SetAttr(e, "value", status)], []);
        } else if e.name == "transparency" {
          q := EventXml.Pieces([SetAttr(e, "value", transparency)], []);
        } else if e.name == "where" {
          q := EventXml.Pieces([SetAttr(e, "valueString", location)], []);
        } else {
          q := EventXml.Pieces([e], []);
        }
        assert EventXml.WriteStep(Fields(), RuleText(), e) == Ok(q);
        kept, added := kept + q.kept, added + q.added;
        i := i + 1;
      }
      assert es[..i] == es;
      r := Ok(Document(xml.attrs, kept + added));
    }

    /** One element of `load`: the field its name selects is assigned. */
    method LoadElement(e: Element) returns (err: Option<Error>)
      modifies this
      ensures Fields() == EventXml.LoadStep(old(Fields()), e).value
      ensures err == EventXml.LoadStep(old(Fields()), e).error
      ensures recurrence == old(recurrence)
    {
      err := None;
      if e.name == "id" {
        id, editFeed := e.text, None;
      } else if e.name == "title" {
        title := e.text;
      } else if e.name == "content" {
        content := e.text;
      } else if e.name == "transparency" {
        transparency := Attr(e, "value");
      } else if e.name == "eventStatus" {
        status := Attr(e, "value");
      } else if e.name == "when" {
        err := LoadWhen(e);
      } else if e.name == "where" {
        location := Attr(e, "valueString");
      } else if e.name == "link" {
        if Attr(e, "rel") == Some("edit") {
          editFeed := Attr(e, "href");
        }
      }
    }

    /** A `when` element of `load`: the start is parsed and assigned, then the
        end; a start that parses is kept even when the end does not. */
    method LoadWhen(e: Element) returns (err: Option<Error>)
      requires e.name == "when"
      modifies this
      ensures Fields() == EventXml.LoadStep(old(Fields()), e).value
      ensures err == EventXml.LoadStep(old(Fields()), e).error
      ensures recurrence == old(recurrence)
    {
      var s := EventXml.ParseTime(Attr(e, "startTime"));
      if s.Raised? {
        return Some(s.error);
      }
      start := Some(s.value);
      var t := EventXml.ParseTime(Attr(e, "endTime"));
      if t.Raised? {
        return Some(t.error);
      }
      end := Some(t.value);
      err := None;
    }

    /** `load`: remembers the entry, marks the event as existing, takes the etag,
        then assigns the fields element by element. An exception stops the walk
        and leaves what was assigned before it. */
    method Load(doc: Document) returns (err: Option<Error>)
      modifies this
      ensures Fields() == EventXml.Load(old(Fields()), doc).value
      ensures err == EventXml.Load(old(Fields()), doc).error
      ensures recurrence == old(recurrence)
    {
      xml := doc;
      existing := true;
      etag := RootAttr(doc, "etag");
      ghost var g0 := Fields();
      assert g0 == old(Fields()).(xml := doc, existing := true, etag := RootAttr(doc, "etag"));
      var es := doc.children;
      var i := 0;
      while i < |es|
        invariant 0 <= i <= |es|
        invariant EventXml.LoadAll(g0, es[..i]) == Partial(Fields(), None)
        invariant recurrence == old(recurrence)
      {
        assert es[..i + 1][..i] == es[..i];
        ghost var before := Fields();
        err := LoadElement(es[i]);
        assert EventXml.LoadAll(g0, es[..i + 1]) == EventXml.LoadStep(before, es[i]);
        if err.Some? {
          WalkStops(EventXml.LoadStep, g0, es, i + 1);
          return;
        }
        i := i + 1;
      }
      assert es[..i] == es;
      err := None;
    }

    /** `Event.new(calendar)` followed by `load` of one feed entry. */
    static method FromEntry(calendar: Calendar, entry: Document) returns (event: Event, err: Option<Error>)
      ensures fresh(event) && event.calendar == calendar && event.recurrence == null
      ensures event.Fields() == EventXml.LoadEntry(calendar.service.base.eventXml, entry).value
      ensures err == EventXml.LoadEntry(calendar.service.base.eventXml, entry).error
    {
      event := new Event(calendar);
      err := event.Load(WithNamespaces(entry));
    }

    /** The loop `Event.find` and `Calendar#events` share: each feed entry in
        turn becomes a new event of `calendar`, loaded from the entry. */
    static method LoadFeed(calendar: Calendar, feed: Feed) returns (r: Result<seq<Event>>)
      ensures match EventXml.LoadFeed(calendar.service.base.eventXml, feed)
        case Raised(e) => r == Raised(e)
        case Ok(fs) => r.Ok? && EventsHold(calendar, r.value, fs) && forall i :: 0 <= i < |r.value| ==> fresh(r.value[i])
    {
      ghost var template := calendar.service.base.eventXml;
      var ret: seq<Event> := [];
      var i := 0;
      while i < |feed|
        invariant 0 <= i <= |feed|
        invariant EventXml.LoadFeed(template, feed[..i]).Ok?
        invariant EventsHold(calendar, ret, EventXml.LoadFeed(template, feed[..i]).value)
        invariant forall j :: 0 <= j < |ret| ==> fresh(ret[j])
      {
        assert feed[..i + 1][..i] == feed[..i];
        var event, err := FromEntry(calendar, feed[i]);
        if err.Some? {
          EventXml.LoadFeedStops(template, feed, i + 1);
          return Raised(err.value);
        }
        ret := ret + [event];
        i := i + 1;
      }
      assert feed[..i] == feed;
      r := Ok(ret);
    }

    /** `save`: the entry is written first (which may raise before any request);
        an existing event is PUT to its edit feed with `If-Match`, a new one is
        POSTed to its calendar's event feed and the reply is loaded into it. */
    method Save(response: Option<Document>) returns (r: Result<bool>)
      modifies this, calendar.service
      ensures recurrence == old(recurrence)
      ensures calendar.service.authToken == old(calendar.service.authToken) && calendar.service.account == old(calendar.service.account)
      ensures match old(EventXml.ToXml(Fields(), RuleText()))
        case Raised(e) =>
          r == Raised(e) && Fields() == old(Fields()) && calendar.service.log == old(calendar.service.log)
        case Ok(d) =>
          if old(existing) then
            r == Ok(true) && Fields() == old(Fields())
            && calendar.service.log == old(calendar.service.log) +
               [Request(PUT, old(editFeed), XmlBody(d), ATOM_HEADERS["If-Match" := old(etag)])]
          else
            calendar.service.log == old(calendar.service.log) + [Request(POST, calendar.eventFeed, XmlBody(d), ATOM_HEADERS)]
            && match response
               case None => r == Raised(NoMethodError("read_body")) && Fields() == old(Fields())
               case Some(reply) =>
                 var h := EventXml.Load(old(Fields()), reply);
                 Fields() == h.value && r == (if h.error.Some? then Raised(h.error.value) else Ok(true))
    {
      var doc := ToXml();
      if doc.Raised? {
        return Raised(doc.error);
      }
      if existing {
        calendar.service.Record(Request(PUT, editFeed, XmlBody(doc.value), ATOM_HEADERS["If-Match" := etag]));
        return Ok(true);
      }
      calendar.service.Record(Request(POST, calendar.eventFeed, XmlBody(doc.value), ATOM_HEADERS));
      if response.None? {
        return Raised(NoMethodError("read_body"));
      }
      var err := Load(response.value);
      if err.Some? {
        return Raised(err.value);
      }
      r := Ok(true);
    }

    /** `Event.find`: GETs the calendar's feed filtered by `term` and loads each
        entry into a new event of that calendar, then selects by scope. */
    static method Find(calendar: Calendar, term: string, scope: Scope, server: Server) returns (r: Result<EventsFound>)
      modifies calendar.service
      ensures var url := Some(CalendarXml.FEEDS + calendar.id.GetOr("") + "/private/full?q=" + term);
        && calendar.service.log == old(calendar.service.log) + [Get(url)]
        && calendar.service.authToken == old(calendar.service.authToken) && calendar.service.account == old(calendar.service.account)
        && match server(url)
           case None => r == Raised(NoMethodError("read_body"))
           case Some(feed) =>
             var q := EventXml.LoadFeed(calendar.service.base.eventXml, feed);
             match q
             case Raised(e) => r == Raised(e)
             case Ok(fs) =>
               r.Ok? &&
               match r.value
               case EventList(evs) =>
                 scope == AllScope && EventsHold(calendar, evs, fs) && forall i :: 0 <= i < |evs| ==> fresh(evs[i])
               case FirstEvent(ev) =>
                 scope == FirstScope && (ev == null <==> fs == [])
                 && (ev != null ==> fresh(ev) && EventsHold(calendar, [ev], fs[..1]))
               case NoEvents => scope != AllScope && scope != FirstScope
    {
      var url := Some(CalendarXml.FEEDS + calendar.id.GetOr("") + "/private/full?q=" + term);
      calendar.service.Record(Get(url));
      var events := server(url);
      if events.None? {
        return Raised(NoMethodError("read_body"));
      }
      var loaded := LoadFeed(calendar, events.value);
      if loaded.Raised? {
        return Raised(loaded.error);
      }
      var ret := loaded.value;
      if scope == AllScope {
        return Ok(EventList(ret));
      } else if scope == FirstScope {
        if ret == [] {
          return Ok(FirstEvent(null));
        }
        return Ok(FirstEvent(ret[0]));
      }
      r := Ok(NoEvents);
    }
  }

  // ============================================================== Calendar

  class Calendar {
    const service: Service
    var title: Option<string>
    var summary: Option<string>
    var id: Option<string>
    var hidden: bool
    var timezone: Option<string>
    var color: Option<string>
    var location: Option<string>
    var selected: Option<bool>
    var public: bool
    var existing: bool
    var eventFeed: Option<string>
    var editFeed: Option<string>
    var xml: Document

    function Fields(): CalendarXml.CalendarFields
      reads this
    {
      CalendarXml.CalendarFields(title, summary, id, hidden, timezone, color, location, selected, public, existing,
                                 eventFeed, editFeed, xml)
    }

    constructor (service: Service)
      ensures Fields() == CalendarXml.NewCalendar(service.base.calendarXml) && this.service == service
    {
      xml := service.base.calendarXml;
      this.service := service;
      existing := false;
      title := Some("");
      summary := Some("");
      public := false;
      id := None;
      hidden := false;
      timezone := Some(CalendarXml.DEFAULT_TIMEZONE);
      color := Some(CalendarXml.DEFAULT_COLOR);
      location := Some("");
      selected := None;
      eventFeed := None;
      editFeed := None;
    }

    /** `Calendar.new`: anything but a service (here nil) raises `InvalidService`. */
    static method New(service: Service?) returns (r: Result<Calendar>)
      ensures r.Raised? <==> service == null
      ensures r.Raised? ==> r.error == InvalidService
      ensures r.Ok? ==> fresh(r.value) && r.value.service == service
                        && r.value.Fields() == CalendarXml.NewCalendar(service.base.calendarXml)
    {
      if service == null {
        return Raised(InvalidService);
      }
      var c := new Calendar(service);
      r := Ok(c);
    }

    /** `events`: GETs the event feed and loads each entry into a new event. */
    method Events(server: Server) returns (r: Result<seq<Event>>)
      modifies service
      ensures service.log == old(service.log) + [Get(eventFeed)]
      ensures service.authToken == old(service.authToken) && service.account == old(service.account)
      ensures match server(eventFeed)
        case None => r == Raised(NoMethodError("body"))
        case Some(feed) =>
          match EventXml.LoadFeed(service.base.eventXml, feed)
          case Raised(e) => r == Raised(e)
          case Ok(fs) => r.Ok? && EventsHold(this, r.value, fs) && forall i :: 0 <= i < |r.value| ==> fresh(r.value[i])
    {
      service.Record(Get(eventFeed));
      var ret := server(eventFeed);
      if ret.None? {
        return Raised(NoMethodError("body"));
      }
      r := Event.LoadFeed(this, ret.value);
    }

    /** `public=`: PUTs the ACL template with every role set to read or none;
        `public` follows the argument only when the service reports success. */
    method SetPublic(p: bool, ok: bool) returns (b: bool)
      modifies this, service
      ensures b == ok
      ensures service.log == old(service.log) + [Request(PUT, Some(CalendarXml.AclRuleOf(old(id))),
        XmlBody(CalendarXml.AclRequest(service.base.aclXml, CalendarXml.Permissions(p))), ATOM_HEADERS)]
      ensures service.authToken == old(service.authToken) && service.account == old(service.account)
      ensures Fields() == if ok then old(Fields()).(public := p) else old(Fields())
    {
      var permissions := if p then CalendarXml.READ_ROLE else "none";
      var path := CalendarXml.FEEDS + id.GetOr("") + "/acl/full/default";
      var template := service.base.aclXml;
      var es := template.children;
      var out: seq<Element> := [];
      for i := 0 to |es|
        invariant |out| == i
        invariant forall j :: 0 <= j < i ==> out[j] == CalendarXml.AclRequest(template, permissions).children[j]
      {
        if es[i].name == "role" {
          out := out + [SetAttr(es[i], "value", Some(permissions))];
        } else {
          out := out + [es[i]];
        }
      }
      var request := Document(template.attrs, out);
      assert request == CalendarXml.AclRequest(template, permissions);
      service.Record(Request(PUT, Some(path), XmlBody(request), ATOM_HEADERS));
      if ok {
        public := p;
        return true;
      }
      b := false;
    }

    /** `delete`: only an existing calendar sends a DELETE to the own-calendars
        feed; a nil id fails building the locator before any request. */
    method Delete(ok: bool) returns (r: Result<bool>)
      modifies this, service
      ensures !old(existing) ==> r == Ok(false) && Fields() == old(Fields()) && service.log == old(service.log)
      ensures old(existing) && old(id).None? ==>
        r == Raised(TypeError("can't convert nil into String")) && Fields() == old(Fields())
        && service.log == old(service.log)
      ensures old(existing) && old(id).Some? ==>
        r == Ok(ok)
        && service.log == old(service.log) + [Request(DELETE, Some(CalendarXml.CALENDAR_FEED + "/" + old(id).value), NoBody, map[])]
        && Fields() == if ok then CalendarXml.Deleted(old(Fields())) else old(Fields())
      ensures service.authToken == old(service.authToken) && service.account == old(service.account)
    {
      if !existing {
        return Ok(false);
      }
      if id.None? {
        return Raised(TypeError("can't convert nil into String"));
      }
      service.Record(Request(DELETE, Some(CalendarXml.CALENDAR_FEED + "/" + id.value), NoBody, map[]));
      if !ok {
        return Ok(false);
      }
      Clear();
      r := Ok(true);
    }

    /** What a successful `delete` does to the calendar's fields. */
    method Clear()
      modifies this
      ensures Fields() == CalendarXml.Deleted(old(Fields()))
    {
      existing := false;
      title := None;
      summary := None;
      public := false;
      id := None;
      hidden := false;
      timezone := None;
      color := None;
      location := None;
    }

    /** `to_xml`: rewrites the template's elements in place; equal to the value-level rewrite. */
    method ToXml() returns (d: Document)
      ensures d == CalendarXml.ToXml(Fields())
    {
      var es := xml.children;
      var out: seq<Element> := [];
      for i := 0 to |es|
        invariant |out| == i
        invariant forall j :: 0 <= j < i ==> out[j] == CalendarXml.WriteStep(Fields(), es[j])
      {
        var e := es[i];
        if e.name == "title" {
          e := SetText(e, title);
        } else if e.name == "summary" {
          e := SetText(e, summary);
        } else if e.name == "timezone" {
          e := SetAttr(e, "value", timezone);
        } else if e.name == "hidden" {
          e := SetAttr(e, "value", Some(if hidden then "true" else "false"));
        } else if e.name == "color" {
          e := SetAttr(e, "value", color);
        } else if e.name == "selected" {
          e := SetAttr(e, "value", if selected.None? then None else Some(if selected.value then "true" else "false"));
        }
        out := out + [e];
      }
      d := Document(xml.attrs, out);
    }

    /** One element of `load`: the field its name selects is assigned; an `id`
        without text has no `gsub`. */
    method LoadElement(e: Element) returns (err: Option<Error>)
      modifies this
      ensures Fields() == CalendarXml.LoadStep(old(Fields()), e).value
      ensures err == CalendarXml.LoadStep(old(Fields()), e).error
    {
      err := None;
      if e.name == "id" {
        if e.text.None? {
          return Some(NoMethodError("gsub"));
        }
        id := Some(RemoveAll(e.text.value, CalendarXml.ID_PREFIX));
      } else if e.name == "title" {
        title := e.text;
      } else if e.name == "summary" {
        summary := e.text;
      } else if e.name == "color" {
        color := Attr(e, "value");
      } else if e.name == "hidden" {
        hidden := Attr(e, "value") == Some("true");
      } else if e.name == "timezone" {
        timezone := Attr(e, "value");
      } else if e.name == "selected" {
        selected := Some(Attr(e, "value") == Some("true"));
      } else if e.name == "link" {
        if Attr(e, "rel") == Some("edit") {
          editFeed := Attr(e, "href");
        }
      }
    }

    /** `load`: marks the calendar as existing, assigns the fields element by
        element, derives the event feed, then GETs the ACL feed and scans it for
        the default-scope role. An exception leaves what was assigned before it. */
    method Load(doc: Document, server: Server) returns (err: Option<Error>)
      modifies this, service
      ensures Fields() == CalendarXml.Load(old(Fields()), doc, server).value
      ensures err == CalendarXml.Load(old(Fields()), doc, server).error
      ensures var p := CalendarXml.LoadAll(old(Fields()).(existing := true, xml := doc), doc.children);
        service.log == old(service.log) + (if p.error.None? then [Get(Some(CalendarXml.AclFeedOf(p.value.id)))] else [])
      ensures err.None? ==> |service.log| == |old(service.log)| + 1
      ensures service.authToken == old(service.authToken) && service.account == old(service.account)
    {
      existing := true;
      xml := doc;
      ghost var g0 := Fields();
      var es := doc.children;
      var i := 0;
      while i < |es|
        invariant 0 <= i <= |es|
        invariant CalendarXml.LoadAll(g0, es[..i]) == Partial(Fields(), None)
        invariant service.log == old(service.log)
        invariant service.authToken == old(service.authToken) && service.account == old(service.account)
      {
        assert es[..i + 1][..i] == es[..i];
        err := LoadElement(es[i]);
        if err.Some? {
          WalkStops(CalendarXml.LoadStep, g0, es, i + 1);
          return;
        }
        i := i + 1;
      }
      assert es[..i] == es;
      eventFeed := Some(CalendarXml.FEEDS + id.GetOr("") + "/private/full");
      var aclUrl := Some(CalendarXml.FEEDS + id.GetOr("") + "/acl/full/");
      service.Record(Get(aclUrl));
      var ret := server(aclUrl);
      if ret.None? {
        return Some(NoMethodError("read_body"));
      }
      var feed := ret.value;
      err := ScanAcl(feed);
    }

    /** The ACL scan of `load`: every entry of the feed in turn. */
    method ScanAcl(feed: Feed) returns (err: Option<Error>)
      modifies this
      ensures Fields() == old(Fields()).(public := CalendarXml.AclFeed(old(public), feed, |feed|).value)
      ensures err == CalendarXml.AclFeed(old(public), feed, |feed|).error
    {
      var k := 0;
      while k < |feed|
        invariant 0 <= k <= |feed|
        invariant CalendarXml.AclFeed(old(public), feed, k) == Partial(public, None)
        invariant Fields() == old(Fields()).(public := public)
      {
        err := ScanAclEntry(feed[k].children);
        if err.Some? {
          CalendarXml.AclFeedStops(old(public), feed, k + 1, |feed|);
          return;
        }
        k := k + 1;
      }
      err := None;
    }

    /** The elements of one ACL entry: a `role` right after a `scope` of type
        `default` sets `public` to whether its value names read access. */
    method ScanAclEntry(es: seq<Element>) returns (err: Option<Error>)
      modifies this
      ensures Fields() == old(Fields()).(public := CalendarXml.AclEntry(old(public), es, |es|).value)
      ensures err == CalendarXml.AclEntry(old(public), es, |es|).error
    {
      var j := 0;
      while j < |es|
        invariant 0 <= j <= |es|
        invariant CalendarXml.AclEntry(old(public), es, j) == Partial(public, None)
        invariant Fields() == old(Fields()).(public := public)
      {
        var e := es[j];
        if e.name == "role" {
          if j == 0 {
            CalendarXml.AclEntryStops(old(public), es, j + 1, |es|);
            return Some(NoMethodError("name"));
          }
          var prev := es[j - 1];
          if prev.name == "scope" && Attr(prev, "type") == Some("default") {
            var v := Attr(e, "value");
            if v.None? {
              CalendarXml.AclEntryStops(old(public), es, j + 1, |es|);
              return Some(NoMethodError("match"));
            }
            if Contains(v.value, "#read") {
              public := true;
            } else {
              public := false;
            }
          }
        }
        j := j + 1;
      }
      err := None;
    }

    /** `save`: an existing calendar is PUT to its edit feed; a new one is POSTed
        to the own-calendars feed and the reply is loaded into it. */
    method Save(response: Option<Document>, server: Server) returns (r: Result<bool>)
      modifies this, service
      ensures service.authToken == old(service.authToken) && service.account == old(service.account)
      ensures var d := CalendarXml.ToXml(old(Fields()));
        if old(existing) then
          r == Ok(true) && Fields() == old(Fields())
          && service.log == old(service.log) + [Request(PUT, old(editFeed), XmlBody(d), ATOM_HEADERS)]
        else
          old(service.log) + [Request(POST, Some(CalendarXml.CALENDAR_FEED), XmlBody(d), ATOM_HEADERS)] <= service.log
          && match response
             case None => r == Raised(NoMethodError("read_body")) && Fields() == old(Fields())
             case Some(reply) =>
               var h := CalendarXml.Load(old(Fields()), reply, server);
               Fields() == h.value && r == (if h.error.Some? then Raised(h.error.value) else Ok(true))
      ensures !old(existing) && r.Ok? ==> |service.log| == |old(service.log)| + 2
    {
      var doc := ToXml();
      if existing {
        service.Record(Request(PUT, editFeed, XmlBody(doc), ATOM_HEADERS));
        return Ok(true);
      }
      service.Record(Request(POST, Some(CalendarXml.CALENDAR_FEED), XmlBody(doc), ATOM_HEADERS));
      ghost var posted := service.log;
      if response.None? {
        return Raised(NoMethodError("read_body"));
      }
      var err := Load(response.value, server);
      assert posted <= service.log;
      if err.Some? {
        return Raised(err.value);
      }
      r := Ok(true);
    }

    /** `Calendar.find`: loads the service's calendars, then keeps those whose
        title, summary or id contains the term, ignoring case; `:first` returns
        the first of them, `:all` all of them, and no match or another scope an
        empty list. */
    static method Find(service: Service, term: string, scope: Scope, server: Server) returns (r: Result<CalendarsFound>)
      modifies service
      ensures old(service.authToken).None? ==> r == Raised(NotAuthenticated) && service.log == old(service.log)
      ensures old(service.authToken).Some? ==> old(service.log) + [Get(Some(service.base.calendarListFeed))] <= service.log
      ensures service.authToken == old(service.authToken) && service.account == old(service.account)
      ensures old(service.authToken).Some? ==>
        match server(Some(service.base.calendarListFeed))
        case None => r == Raised(NoMethodError("body"))
        case Some(feed) =>
          match CalendarXml.LoadFeed(service.base.calendarXml, feed, server)
          case Raised(e) => r == Raised(e)
          case Ok(_) => r.Ok?
      ensures r.Ok? ==>
        var feed := server(Some(service.base.calendarListFeed));
        feed.Some? && CalendarXml.LoadFeed(service.base.calendarXml, feed.value, server).Ok? &&
        var fs := CalendarXml.LoadFeed(service.base.calendarXml, feed.value, server).value;
        match r.value
        case OneCalendar(c) =>
          scope == FirstScope && CalendarXml.FirstMatch(term, fs).Some?
          && fresh(c) && c.service == service && c.Fields() == fs[CalendarXml.FirstMatch(term, fs).value]
        case CalendarList(cs) =>
          (scope == FirstScope ==> CalendarXml.FirstMatch(term, fs).None? && cs == [])
          && (scope == AllScope ==> CalendarsHold(service, cs, CalendarXml.Matching(term, fs))
                                    && forall i :: 0 <= i < |cs| ==> fresh(cs[i]))
          && (scope != FirstScope && scope != AllScope ==> cs == [])
    {
      var cals := service.Calendars(server);
      if cals.Raised? {
        return Raised(cals.error);
      }
      ghost var fs := CalendarXml.LoadFeed(service.base.calendarXml, server(Some(service.base.calendarListFeed)).value, server).value;
      var found := Pick(service, cals.value, term, scope, fs);
      r := Ok(found);
    }

    /** The selection of `Calendar.find` over calendars that hold the fields
        `fs`: what it returns is drawn from `cals` and holds the chosen fields. */
    static method Pick(service: Service, cals: seq<Calendar>, term: string, scope: Scope,
                       ghost fs: seq<CalendarXml.CalendarFields>) returns (found: CalendarsFound)
      requires CalendarsHold(service, cals, fs)
      ensures match found
        case OneCalendar(c) =>
          scope == FirstScope && CalendarXml.FirstMatch(term, fs).Some?
          && c in cals && c.service == service && c.Fields() == fs[CalendarXml.FirstMatch(term, fs).value]
        case CalendarList(cs) =>
          (scope == FirstScope ==> CalendarXml.FirstMatch(term, fs).None? && cs == [])
          && (scope == AllScope ==> CalendarsHold(service, cs, CalendarXml.Matching(term, fs))
                                    && forall i :: 0 <= i < |cs| ==> cs[i] in cals)
          && (scope != FirstScope && scope != AllScope ==> cs == [])
    {
      assert FieldsOf(cals) == fs;
      found := Select(cals, term, scope);
      if found.CalendarList? && scope == AllScope {
        var cs := found.calendars;
        forall i | 0 <= i < |cs|
          ensures cs[i].service == service && cs[i].Fields() == CalendarXml.Matching(term, fs)[i]
        {
          var j :| 0 <= j < |cals| && cals[j] == cs[i];
        }
      }
    }

    /** The selection loop of `Calendar.find`: the lower-cased term is searched
        for in each calendar's lower-cased title, summary and id (nil read as
        ""); `:first` returns the first match, `:all` collects every match in
        order, and otherwise the result stays an empty list. */
    static method Select(cals: seq<Calendar>, term: string, scope: Scope) returns (found: CalendarsFound)
      ensures match found
        case OneCalendar(c) =>
          scope == FirstScope && CalendarXml.FirstMatch(term, FieldsOf(cals)).Some?
          && c == cals[CalendarXml.FirstMatch(term, FieldsOf(cals)).value]
        case CalendarList(cs) =>
          (scope == FirstScope ==> CalendarXml.FirstMatch(term, FieldsOf(cals)).None? && cs == [])
          && (scope == AllScope ==> FieldsOf(cs) == CalendarXml.Matching(term, FieldsOf(cals))
                                    && forall i :: 0 <= i < |cs| ==> cs[i] in cals)
          && (scope != FirstScope && scope != AllScope ==> cs == [])
    {
      var t := Downcase(term);
      ghost var fs := FieldsOf(cals);
      var ret: seq<Calendar> := [];
      var i := 0;
      while i < |cals|
        invariant 0 <= i <= |cals|
        invariant scope == AllScope ==> FieldsOf(ret) == CalendarXml.Matching(term, fs[..i])
        invariant forall j :: 0 <= j < |ret| ==> ret[j] in cals
        invariant scope != AllScope ==> ret == []
        invariant scope == FirstScope ==> CalendarXml.FirstMatch(term, fs[..i]).None?
      {
        assert fs[..i + 1][..i] == fs[..i];
        var cal := cals[i];
        var title := cal.title.GetOr("");
        var summary := cal.summary.GetOr("");
        var id := cal.id.GetOr("");
        if Contains(Downcase(title), t) || Contains(Downcase(summary), t) || Contains(Downcase(id), t) {
          assert CalendarXml.Matches(term, fs[i]);
          if scope == FirstScope {
            assert fs[..i + 1][i] == fs[i];
            assert CalendarXml.FirstMatch(term, fs[..i + 1]) == Some(i);
            CalendarXml.FirstMatchStops(term, fs, i + 1);
            return OneCalendar(cal);
          } else if scope == AllScope {
            assert (ret + [cal])[..|ret|] == ret;
            ret := ret + [cal];
          }
        } else {
          assert !CalendarXml.Matches(term, fs[i]);
        }
        i := i + 1;
      }
      assert fs[..i] == fs;
      found := CalendarList(ret);
    }
  }

  // =============================================================== Service

  class Service {
    const base: BaseConstants
    var authToken: Option<string>
    var account: Option<string>
    /** Every request issued through this service, oldest first. */
    ghost var log: seq<Request>

    constructor (base: BaseConstants)
      ensures this.base == base && authToken == None && account == None && log == []
    {
      this.base := base;
      authToken := None;
      account := None;
      log := [];
    }

    /** Issuing a request: it is appended to the log and nothing else changes. */
    ghost method Record(q: Request)
      modifies this
      ensures log == old(log) + [q]
      ensures authToken == old(authToken) && account == old(account)
    {
      log := log + [q];
    }

    /** `authenticate`: POSTs the credentials; an OK reply yields the token and
        the account, anything else raises `AuthenticationFailed` and keeps the
        session as it was. */
    method Authenticate(username: string, password: string, reply: AuthResponse) returns (r: Result<bool>)
      modifies this
      ensures log == old(log) + [Request(POST, Some(base.authUrl), FormBody(Session.AuthBody(username, password)), map[])]
      ensures !reply.isOk ==> r == Raised(AuthenticationFailed)
      ensures reply.isOk && Session.ExtractToken(reply.body).Raised? ==> r == Raised(Session.ExtractToken(reply.body).error)
      ensures r.Ok? <==> reply.isOk && Session.ExtractToken(reply.body).Ok?
      ensures r.Ok? ==> r.value && authToken == Some(Session.ExtractToken(reply.body).value) && account == Some(username)
      ensures r.Raised? ==> authToken == old(authToken) && account == old(account)
    {
      Record(Request(POST, Some(base.authUrl), FormBody("Email=" + username + "&Passwd=" + password + "&source=GCal4Ruby&service=cl"), map[]));
      if !reply.isOk {
        return Raised(AuthenticationFailed);
      }
      var token := Session.ExtractToken(reply.body);
      if token.Raised? {
        return Raised(token.error);
      }
      authToken := Some(token.value);
      account := Some(username);
      r := Ok(true);
    }

    /** One entry of the calendar list loaded into a new calendar of this service. */
    method LoadCalendar(entry: Document, server: Server) returns (cal: Calendar, err: Option<Error>)
      modifies this
      ensures fresh(cal) && cal.service == this
      ensures var p := CalendarXml.LoadEntry(base.calendarXml, entry, server);
        err == p.error && cal.Fields() == p.value
      ensures old(log) <= log && (err.None? ==> |log| == |old(log)| + 1)
      ensures authToken == old(authToken) && account == old(account)
    {
      cal := new Calendar(this);
      err := cal.Load(WithNamespaces(entry), server);
    }

    /** `calendars`: without a token, raises before any request; otherwise GETs
        the calendar list and loads each entry into a new calendar, in feed order. */
    method Calendars(server: Server) returns (r: Result<seq<Calendar>>)
      modifies this
      ensures old(authToken).None? ==> r == Raised(NotAuthenticated) && log == old(log)
      ensures old(authToken).Some? ==> old(log) + [Get(Some(base.calendarListFeed))] <= log
      ensures r.Ok? ==> |log| == |old(log)| + 1 + |r.value|
      ensures authToken == old(authToken) && account == old(account)
      ensures old(authToken).Some? ==>
        match server(Some(base.calendarListFeed))
        case None => r == Raised(NoMethodError("body"))
        case Some(feed) =>
          match CalendarXml.LoadFeed(base.calendarXml, feed, server)
          case Raised(e) => r == Raised(e)
          case Ok(fs) => r.Ok? && CalendarsHold(this, r.value, fs) && forall i :: 0 <= i < |r.value| ==> fresh(r.value[i])
    {
      if authToken.None? {
        return Raised(NotAuthenticated);
      }
      var url := Some(base.calendarListFeed);
      Record(Get(url));
      ghost var listed := log;
      var ret := server(url);
      if ret.None? {
        return Raised(NoMethodError("body"));
      }
      var feed := ret.value;
      var cals: seq<Calendar> := [];
      var i := 0;
      while i < |feed|
        invariant 0 <= i <= |feed|
        invariant CalendarXml.LoadFeed(base.calendarXml, feed[..i], server).Ok?
        invariant CalendarsHold(this, cals, CalendarXml.LoadFeed(base.calendarXml, feed[..i], server).value)
        invariant forall j :: 0 <= j < |cals| ==> fresh(cals[j])
        invariant listed <= log && |log| == |listed| + |cals|
        invariant authToken == old(authToken) && account == old(account)
      {
        assert feed[..i + 1][..i] == feed[..i];
        var cal, err := LoadCalendar(feed[i], server);
        if err.Some? {
          CalendarXml.LoadFeedStops(base.calendarXml, feed, server, i + 1);
          return Raised(err.value);
        }
        cals := cals + [cal];
        i := i + 1;
      }
      assert feed[..i] == feed;
      r := Ok(cals);
    }
  }
}
