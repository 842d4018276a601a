# gcal4ruby in Dafny

A model of the core of gcal4ruby, a Ruby client for the Google Calendar
data API, with proofs about it. The model covers four classes:

- `Recurrence` keeps a recurrence rule (start, end, frequency, day list,
  repeat-until date, all-day flag). It renders the rule as the iCalendar
  `DTSTART` / `DTEND` / `RRULE` block.
- `Event` is an Atom entry of a calendar's event feed. It is read from XML
  with `load`, written with `to_xml`, and sent with `save` and `delete`. It
  is found with `Event.find`.
- `Calendar` is an entry of the user's own-calendars feed. It has the same
  life cycle as an event. It also has an access-control scan that decides
  whether the calendar is public, and `public=`, which rewrites that rule.
- `Service` authenticates a user (ClientLogin) and lists the user's
  calendars.

## Layout

- `basics.dfy` (`Basics`): `Option`, `Result` (`Ok` or `Raised(error)`),
  `Outcome`, `Partial`, the library's errors and the Ruby errors its code
  raises, and `Scope`. `Partial` is the state an object is left in when a
  loop raises half-way; `Walk` is such a loop over a sequence of items.
- `text.dfy` (`Text`): the Ruby string operations used. These are
  `downcase`, `upcase`, `gsub` of a fixed string, `strip`, splitting into
  lines (`String#to_a`), `join` and `split`, plus zero-padded decimal
  numbers.
- `instants.dfy` (`Instants`): UTC instants and dates. It covers
  `Time#xmlschema`, `Time#complete` (`%Y%m%dT%H%M%S`) and `%Y%m%d`, with
  parsers that read each form back.
- `xml.dfy` (`Xml`, `Http`): entries as a root with attributes and a list of
  child elements, and the requests the library sends.
- `recurrence_rule.dfy` (`RecurrenceRule`): the rule as a value, its
  rendering, and a reader for the rendered block.
- `event_xml.dfy` (`EventXml`) and `calendar_xml.dfy` (`CalendarXml`): the
  fields of an event or calendar as a value, with `to_xml`, `load` and the
  feed loops as functions.
- `session.dfy` (`Session`): the authentication form body, and the token
  taken from the reply.
- `gcal4ruby.dfy` (`GCal4Ruby`): the four classes. Their fields are updated
  in place, and each method is proved equal to the value functions above.
  The service keeps a ghost `log` of every request it issues. Whether a
  write succeeds is a parameter of the method. What a GET returns comes
  from a `Server` function from URL to feed.

Ruby's dynamic arguments are the `Value` union (time, date, string, list,
nil). A call on nil, or a method a string lacks, is modelled as the
`NoMethodError` or `TypeError` that Ruby raises.

Points of behaviour worth stating, each as the code has it:

- `frequency=` stores the name as given (lib/gcal4ruby/recurrence.rb:91);
  only `to_s` upper-cases it (lib/gcal4ruby/recurrence.rb:35).
- `delete` marks an event or calendar as no longer existing
  (lib/gcal4ruby/event.rb:157, lib/gcal4ruby/calendar.rb:83), so a later
  `save` POSTs it again (lib/gcal4ruby/event.rb:189-192,
  lib/gcal4ruby/calendar.rb:102-105).
- `Event.find` with `:first` returns `ret[0]`, which is nil when nothing
  matches (lib/gcal4ruby/event.rb:286-287).
- `delete` passes no `Content-Type` header (lib/gcal4ruby/event.rb:156,
  lib/gcal4ruby/calendar.rb:82).

## Model

| member | source | states |
|---|---|---|
| GCal4Ruby.Recurrence.constructor | lib/gcal4ruby/recurrence.rb:11-19 | every field nil, `all_day` false, no event |
| GCal4Ruby.Recurrence.ToText | lib/gcal4ruby/recurrence.rb:21-45 | the text built step by step equals `Render` of the rule's fields, including which call raises |
| GCal4Ruby.Recurrence.SetStart | lib/gcal4ruby/recurrence.rb:47-53 | stores the start iff given a time; otherwise raises the start message and changes nothing |
| GCal4Ruby.Recurrence.SetEnd | lib/gcal4ruby/recurrence.rb:55-61 | stores the end iff given a time; otherwise raises the end message and changes nothing |
| GCal4Ruby.Recurrence.SetEvent | lib/gcal4ruby/recurrence.rb:63-69 | stores the event iff one is given; nil raises and leaves it |
| GCal4Ruby.Recurrence.SetRepeatUntil | lib/gcal4ruby/recurrence.rb:71-77 | stores the date iff given a date; otherwise raises and changes nothing |
| GCal4Ruby.Recurrence.FrequencyAccepted | lib/gcal4ruby/recurrence.rb:80-87 | the search loop finds a match iff the name equals one of the seven frequencies, ignoring case |
| GCal4Ruby.Recurrence.SetFrequency | lib/gcal4ruby/recurrence.rb:79-93 | stores the string as given iff it names a frequency; a bad name raises the message listing all seven; a non-string has no `downcase` |
| GCal4Ruby.Recurrence.DayCodesAccepted | lib/gcal4ruby/recurrence.rb:96-105 | the loop accepts iff every code has length two |
| GCal4Ruby.Recurrence.SetDayOfWeek | lib/gcal4ruby/recurrence.rb:95-111 | stores the list iff it is an array of two-letter codes; otherwise raises and changes nothing |
| RecurrenceRule.RenderFails | lib/gcal4ruby/recurrence.rb:21-45 | rendering raises exactly when start or end is nil, or days are set without a frequency |
| RecurrenceRule.CanonicalFrequency | lib/gcal4ruby/recurrence.rb:35 | an accepted frequency, upper-cased, is one of the seven canonical names |
| RecurrenceRule.StampRoundTrip | lib/gcal4ruby/recurrence.rb:23-32 | a `DTSTART`/`DTEND` value is one line and reads back as the date (all-day) or the date-time |
| RecurrenceRule.DaysRoundTrip | lib/gcal4ruby/recurrence.rb:38 | the comma-joined day list splits back into the same list |
| RecurrenceRule.RRuleBodyJoined | lib/gcal4ruby/recurrence.rb:33-44 | the `RRULE:` text is the frequency, `BYDAY` and `UNTIL` parts joined by `;` |
| RecurrenceRule.RRuleBodyReadsBack | lib/gcal4ruby/recurrence.rb:33-44 | the `RRULE:` text of a well-formed rule parses back to its frequency, weekly days and until date |
| RecurrenceRule.RenderShape | lib/gcal4ruby/recurrence.rb:21-45 | with both times set, the output is exactly the three lines `DTSTART;…`, `DTEND;…`, `RRULE:…` |
| RecurrenceRule.RenderReadsBack | lib/gcal4ruby/recurrence.rb:21-45 | a well-formed rule renders, and the rendered block decodes back to the rule's meaning |
| RecurrenceRule.ByDayGuardAsWritten | lib/gcal4ruby/recurrence.rb:37-39 | as written, any day list makes `to_s` raise `NoMethodError` for `downcase=`, whatever the frequency; with the corrected guard a weekly rule renders |
| RecurrenceRule.ExampleRendering | lib/gcal4ruby/recurrence.rb:21-45 | an example weekly rule renders to its three expected lines with the corrected guard; as written it raises `downcase=` |
| Instants.XmlSchemaRoundTrip | lib/gcal4ruby/event.rb:216-217 | parsing the `xmlschema` text of a valid instant gives the instant back |
| Instants.XmlSchemaCanonical | lib/gcal4ruby/event.rb:251-252 | text the parser accepts is exactly the `xmlschema` text of the instant it returns |
| Instants.CompactRoundTrip | lib/gcal4ruby/recurrence.rb:2-4 | `complete` output reads back as the instant |
| Instants.DateStampRoundTrip | lib/gcal4ruby/recurrence.rb:41 | the `%Y%m%d` stamp of a valid date reads back as the date |
| Instants.StampsOnOneLine | lib/gcal4ruby/recurrence.rb:24-41 | neither compact stamp contains a line feed |
| Xml.SetAttr | lib/gcal4ruby/event.rb:216 | setting an attribute gives it the new value and keeps the name, text and every other attribute |
| Xml.WithNamespaces | lib/gcal4ruby/event.rb:277-279 | the entry gains the three namespace declarations and keeps its elements |
| EventXml.ParseTime | lib/gcal4ruby/event.rb:136 | a parsed time is the one whose `xmlschema` text was given; nil and other text raise |
| EventXml.ParseTimeOf | lib/gcal4ruby/event.rb:251-252 | the `xmlschema` text of a valid instant parses to that instant |
| EventXml.WriteStepConforms | lib/gcal4ruby/event.rb:207-228 | each written element carries the field its name selects; the only added element is the recurrence text |
| EventXml.WriteAllFails | lib/gcal4ruby/event.rb:214-221 | writing raises iff there is a `when` element and either a time is missing (no recurrence) or `to_s` raises |
| EventXml.WriteAllConforms | lib/gcal4ruby/event.rb:206-229 | every kept element conforms to the fields, and every added element is the rule's text |
| EventXml.WriteAllKeepsNames | lib/gcal4ruby/event.rb:206-229 | every element name other than `when` survives writing |
| EventXml.WriteAllInPlace | lib/gcal4ruby/event.rb:206-229 | without a recurrence, the elements are rewritten in place, one for one, with the same names |
| EventXml.WriteAllReplacesWhen | lib/gcal4ruby/event.rb:218-220 | with a recurrence, no `when` is kept and a `recurrence` element is added in its place |
| EventXml.WriteAllStops | lib/gcal4ruby/event.rb:206-229 | after an element raises, later elements are not visited |
| EventXml.LoadFeedStops | lib/gcal4ruby/event.rb:276-283 | the first entry whose `load` raises ends the feed loop |
| EventXml.LoadFeedOk | lib/gcal4ruby/event.rb:276-283 | the feed loads iff every entry loads, and then it yields one event per entry, in order |
| EventXml.EditFeedFromLast | lib/gcal4ruby/event.rb:240-258 | the edit feed comes from the last `id` (which clears it) or edit link |
| EventXml.EditFeedKept | lib/gcal4ruby/event.rb:240-258 | without an `id` or edit link, the edit feed is unchanged |
| EventXml.EditFeedOrder | lib/gcal4ruby/event.rb:241 | an `id` after the edit link erases the edit feed; before it, the link's `href` survives |
| EventXml.LoadAllFrame | lib/gcal4ruby/event.rb:234-237 | the element walk never changes the remembered entry or the existence flag |
| EventXml.LoadStepConforming | lib/gcal4ruby/event.rb:239-259 | loading a conforming element does not raise and restores the field it names |
| EventXml.LoadConforming | lib/gcal4ruby/event.rb:238-260 | loading conforming elements does not raise and restores every named field |
| EventXml.ToXmlShape | lib/gcal4ruby/event.rb:204-231 | the written entry keeps the root attributes, conforms to the fields, keeps every non-`when` element name, and replaces `when` exactly when there is a recurrence |
| EventXml.RoundTrip | lib/gcal4ruby/event.rb:204-261 | loading what `to_xml` wrote succeeds and gives back id, title, content, status, transparency and place, each for those of these elements the template has; without a recurrence and with a `when` element in the template, start and end come back too; with a recurrence the written entry has no `when` |
| GCal4Ruby.Event.constructor | lib/gcal4ruby/event.rb:175-186 | the event template, opaque and confirmed, every other field nil, not existing, no recurrence |
| GCal4Ruby.Event.SetRecurrence | lib/gcal4ruby/event.rb:122-125 | links the rule back to the event and stores it; nil has no `event=` |
| GCal4Ruby.Event.SetStart | lib/gcal4ruby/event.rb:134-142 | a time is stored, a string is parsed (its `xmlschema` text is the string), anything else raises; failure changes nothing |
| GCal4Ruby.Event.SetEnd | lib/gcal4ruby/event.rb:144-152 | as `start=`, for the end |
| GCal4Ruby.Event.Delete | lib/gcal4ruby/event.rb:154-173 | only an existing event sends a DELETE with `If-Match` set to its etag; it returns true and clears the fields only on success |
| GCal4Ruby.Event.Clear | lib/gcal4ruby/event.rb:157-165 | clears existence, title, content, id, times, transparency, status and place |
| GCal4Ruby.Event.ToXml | lib/gcal4ruby/event.rb:204-231 | the element loop produces exactly the value-level `to_xml` of the fields and the recurrence text |
| GCal4Ruby.Event.LoadElement | lib/gcal4ruby/event.rb:239-259 | one element assigns the field its name selects, as the value-level step does |
| GCal4Ruby.Event.LoadWhen | lib/gcal4ruby/event.rb:250-252 | parses and assigns the start, then the end; a start that parsed is kept when the end raises |
| GCal4Ruby.Event.Load | lib/gcal4ruby/event.rb:233-261 | remembers the entry and etag, marks the event existing, and leaves the fields the value-level `load` gives, partial on an exception |
| GCal4Ruby.Event.FromEntry | lib/gcal4ruby/event.rb:276-282 | a new event of the calendar, loaded from the entry with its namespaces |
| GCal4Ruby.Event.LoadFeed | lib/gcal4ruby/event.rb:276-283 | one new event per entry, in feed order, holding the loaded fields; the first exception is raised |
| GCal4Ruby.Event.Save | lib/gcal4ruby/event.rb:188-202 | writes first (may raise before sending); an existing event is PUT with `If-Match`; a new one is POSTed to the event feed and the reply loaded |
| GCal4Ruby.Event.Find | lib/gcal4ruby/event.rb:273-290 | GETs the feed queried by the term, loads each entry, and returns all, the first or nil, or false for another scope |
| CalendarXml.IdFromLocator | lib/gcal4ruby/calendar.rb:173 | an `id` holding the feed locator of a calendar yields the bare id |
| Basics.WalkStops | lib/gcal4ruby/calendar.rb:170-191 | after an element raises during `load`, later elements change nothing; `EventXml.LoadAll` (lib/gcal4ruby/event.rb:238-260) and `CalendarXml.LoadAll` are both this walk |
| CalendarXml.AclEntryStops | lib/gcal4ruby/calendar.rb:199-209 | an exception in an ACL entry ends the scan of that entry |
| CalendarXml.AclFeedStops | lib/gcal4ruby/calendar.rb:198-210 | an exception in an ACL entry ends the scan of the feed |
| CalendarXml.AclEntryNone | lib/gcal4ruby/calendar.rb:199-209 | an entry without a default-scope role leaves `public` as it was |
| CalendarXml.AclEntryLast | lib/gcal4ruby/calendar.rb:199-209 | within an entry, the last default-scope role decides `public`: true iff its value contains `#read` |
| CalendarXml.AclFeedNone | lib/gcal4ruby/calendar.rb:198-210 | a feed without a default-scope role leaves `public` as it was |
| CalendarXml.AclFeedLast | lib/gcal4ruby/calendar.rb:198-210 | across the feed, the last default-scope role decides `public` |
| CalendarXml.LoadAllFrame | lib/gcal4ruby/calendar.rb:167-168 | the element walk never changes the remembered entry, existence or `public` |
| CalendarXml.LoadOutcome | lib/gcal4ruby/calendar.rb:166-212 | a complete load marks the calendar existing, points the event feed at its id, and takes `public` from the last default-scope role of the ACL feed (unchanged without one) |
| CalendarXml.LoadStepConforming | lib/gcal4ruby/calendar.rb:171-190 | loading a conforming element does not raise and restores the field it names |
| CalendarXml.LoadConforming | lib/gcal4ruby/calendar.rb:170-191 | loading conforming elements does not raise and restores every named field |
| CalendarXml.RoundTrip | lib/gcal4ruby/calendar.rb:145-191 | loading what `to_xml` wrote gives back title, summary, timezone, color and hidden, each for those of these elements the template has; `selected` only when it is set, since a nil one is removed and comes back `false`; the place is neither written nor read |
| CalendarXml.LocationUntouched | lib/gcal4ruby/calendar.rb:170-191 | `load` never changes the place |
| CalendarXml.MatchesEmpty | lib/gcal4ruby/calendar.rb:125 | the empty term matches every calendar |
| CalendarXml.MatchingFilters | lib/gcal4ruby/calendar.rb:121-133 | the `:all` result holds exactly the calendars that match: it is the subsequence of the list at the matching positions, each once and in service order |
| CalendarXml.FirstMatchIsFirst | lib/gcal4ruby/calendar.rb:121-131 | the `:first` result is a match with no match before it; there is none iff no calendar matches |
| CalendarXml.FirstMatchStops | lib/gcal4ruby/calendar.rb:126-127 | a match found in a prefix is the first match of the whole list |
| CalendarXml.LoadFeedStops | lib/gcal4ruby/service.rb:49-56 | the first entry whose `load` raises ends the calendar list loop |
| CalendarXml.LoadFeedOk | lib/gcal4ruby/service.rb:49-56 | the list loads iff every entry loads, and then it yields one calendar per entry, in order |
| GCal4Ruby.Calendar.constructor | lib/gcal4ruby/calendar.rb:62-78 | the calendar template, empty title, summary and place, default timezone and color, not public, hidden or existing |
| GCal4Ruby.Calendar.New | lib/gcal4ruby/calendar.rb:64-66 | anything but a service raises `InvalidService` |
| GCal4Ruby.Calendar.Events | lib/gcal4ruby/calendar.rb:22-35 | GETs the event feed and returns one new event per entry, in order |
| GCal4Ruby.Calendar.SetPublic | lib/gcal4ruby/calendar.rb:37-60 | PUTs the ACL template with every role set to read or none; `public` follows the argument only on success |
| GCal4Ruby.Calendar.Delete | lib/gcal4ruby/calendar.rb:80-99 | only an existing calendar sends a DELETE; a nil id raises before sending; the fields are cleared only on success |
| GCal4Ruby.Calendar.Clear | lib/gcal4ruby/calendar.rb:83-91 | clears existence, `public`, `hidden`, title, summary, id, timezone, color and place |
| GCal4Ruby.Calendar.ToXml | lib/gcal4ruby/calendar.rb:145-164 | the element loop produces exactly the value-level `to_xml` of the fields |
| GCal4Ruby.Calendar.LoadElement | lib/gcal4ruby/calendar.rb:171-190 | one element assigns the field its name selects; an `id` without text raises |
| GCal4Ruby.Calendar.Load | lib/gcal4ruby/calendar.rb:166-212 | the fields the value-level `load` gives, including the ACL scan, and exactly one GET of the ACL feed when the walk completes |
| GCal4Ruby.Calendar.ScanAcl | lib/gcal4ruby/calendar.rb:198-210 | the entry loop sets only `public`, as the value-level scan does |
| GCal4Ruby.Calendar.ScanAclEntry | lib/gcal4ruby/calendar.rb:199-209 | the element loop of one entry sets only `public`, as the value-level scan does |
| GCal4Ruby.Calendar.Save | lib/gcal4ruby/calendar.rb:101-115 | an existing calendar is PUT to its edit feed; a new one is POSTed to the own-calendars feed and the reply loaded, and a successful creation sends exactly two requests (the POST and the ACL GET) |
| GCal4Ruby.Calendar.Find | lib/gcal4ruby/calendar.rb:117-134 | without a token raises `NotAuthenticated`; with one, a missing list or a failing entry raises that error, and a list that loads always succeeds; then `:first` gives the first match, `:all` every match in order, otherwise an empty list; the token and account are kept, no request is sent without a token, and with one the list GET is logged first |
| GCal4Ruby.Calendar.Pick | lib/gcal4ruby/calendar.rb:121-133 | over calendars holding the loaded fields: `:first` gives a calendar of the list holding the first match, `:all` calendars of the list holding exactly the matches in order, otherwise an empty list |
| GCal4Ruby.Calendar.Select | lib/gcal4ruby/calendar.rb:118-133 | the selection loop agrees with `FirstMatch` and `Matching` on the calendars' fields |
| Session.AuthBodyFields | lib/gcal4ruby/service.rb:31 | for credentials without `&`, the form body splits into exactly the email, password, source and service fields |
| Session.ExtractToken | lib/gcal4ruby/service.rb:33 | raises iff the reply has fewer than three lines; a token has no blank space at either end |
| Session.StripTrims | lib/gcal4ruby/service.rb:33 | `strip` leaves text with no blank space at either end |
| Session.TokenOfReply | lib/gcal4ruby/service.rb:33 | a token on the third line as `Auth=<token>` is read back exactly |
| GCal4Ruby.Service.Authenticate | lib/gcal4ruby/service.rb:29-39 | POSTs the credentials; an OK reply sets the token and the account; anything else raises and keeps the session |
| GCal4Ruby.Service.LoadCalendar | lib/gcal4ruby/service.rb:49-53 | a new calendar of this service holding the entry as the value-level load reads it, with its error; a completed load logs exactly one request |
| GCal4Ruby.Service.Calendars | lib/gcal4ruby/service.rb:43-58 | without a token, raises before any request; otherwise GETs the list and returns one new calendar per entry, in order; on success exactly one request per calendar follows the list GET (its ACL GET) |

## Findings

| source | as written | input that shows it | evidently intended | confidence | as-written member | corrected member |
|---|---|---|---|---|---|---|
| lib/gcal4ruby/recurrence.rb:37 | `@frequency.downcase = 'weekly'` calls the writer `downcase=`, which neither strings nor nil have, so any rule with a day list raises `NoMethodError` and `BYDAY` is never written | the weekly rule from 2024-01-01 09:00 to 10:00 on `MO`, `WE` until 2024-06-01 (`RecurrenceRule.EXAMPLE`) | `==`: write `;BYDAY=` when the frequency is weekly | high; not executed | RecurrenceRule.RenderAsWritten, RecurrenceRule.ByDayGuardAsWritten, RecurrenceRule.ExampleRendering | RecurrenceRule.Render, RecurrenceRule.RenderReadsBack |

The classes use the corrected rendering (`Recurrence.ToText` equals
`RecurrenceRule.Render`).

## Left out

- The HTTP transport (`send_get`, `send_post`, `send_put`, `send_delete`), the base class and its constants are not part of this model. Requests are recorded in the service's ghost log. Whether a write succeeds, and what a GET returns, are parameters. The constants (`AUTH_URL`, `CALENDAR_LIST_FEED`, the three templates) are the `BaseConstants` value the service holds.
- The bearer token is not attached to requests; that is done by the transport.
- REXML parsing and serialisation are not modelled. Entries are values, not text. So the `<?xml …?>` prefix added before `load`, and the reading of reply bodies, are not represented. A reply is given as an already parsed document, or `None` for a reply without a body.
- EventXml.ParseTime: `Time.parse` is modelled only for the `xmlschema` form (`YYYY-MM-DDTHH:MM:SSZ`); any other text raises `ArgumentError`. Ruby also accepts other forms that calendar feeds carry, such as a zone offset with fractional seconds (`2008-04-17T15:00:00.000-07:00`) or an all-day date (`2008-04-17`). On such feeds the model's `GCal4Ruby.Event.Load`, `GCal4Ruby.Event.LoadWhen`, `GCal4Ruby.Event.LoadFeed`, `GCal4Ruby.Event.Find` and `GCal4Ruby.Calendar.Events` raise `ArgumentError` where Ruby loads the events. Likewise `GCal4Ruby.Event.SetStart` and `GCal4Ruby.Event.SetEnd` refuse a string such as `2024-01-01 09:00`, which Ruby's `Time.parse` accepts. Times are UTC instants, with no zones or leap seconds.
- Instants.ValidDate bounds the day by 31 for every month, so dates such as 31 February count as valid; calendar month lengths and leap years are not modelled.
- CGI.escape of the search term in `Event.find` is left out: the term is put into the query URL as given.
- GCal4Ruby.Calendar.Select: `match` takes the lower-cased term as a regular expression; the model searches for it as a plain substring.
- The `service` of a calendar and the `calendar` of an event are fixed at construction; the `service=` and `calendar=` writers are left out.
- The plain `attr_accessor` writers (`title=`, `content=`, `all_day=` and the like) only store a value and are left out.
- `Event#copy`, `Event#reload`, `Calendar#reload` and `to_iframe` are left out. They are not in the modelled core.
- The `Recurrence` class defined a second time in lib/gcal4ruby/event.rb:3-107 is not part of this model.
- The `Content-Length` header of `public=` is left out: it depends on the serialised text.
- Debug output (`puts` when the service is in debug mode) is left out.
- GCal4Ruby.Event.Save: the `EventSaveFailed` branch cannot happen, since `load` returns the array built by `map`, which is always truthy; so it has no error path.
- GCal4Ruby.Calendar.Save: the `CalendarSaveFailed` branch cannot happen, since `load` returns true or raises; so it has no error path.
- Ruby integers and strings have no width limit, and none is modelled.
