/** The recurrence rule of lib/gcal4ruby/recurrence.rb as a value: what its
    setters accept, the three-line iCalendar block `to_s` renders (RFC 5545,
    section 3.8.5.3 for RRULE and section 3.3.10 for its grammar), and a reader
    of that block that recovers what was rendered. */
module RecurrenceRule {
  import opened Basics
  import opened Text
  import opened Instants

  const FREQUENCIES: seq<string> := ["SECONDLY", "MINUTELY", "HOURLY", "DAILY", "WEEKLY", "MONTHLY", "YEARLY"]

  /** The message `frequency=` raises with. */
  const FREQUENCY_MESSAGE: string := "Frequency must be one of " + Join(FREQUENCIES, " ")

  /** `frequency=` accepts a string equal to one of the seven names, ignoring case. */
  predicate IsFrequency(f: string) {
    exists i :: 0 <= i < |FREQUENCIES| && Downcase(FREQUENCIES[i]) == Downcase(f)
  }

  /** `day_of_week=` accepts an array whose every element has length two (none at all included). */
  predicate AreDayCodes(codes: seq<string>) {
    forall i :: 0 <= i < |codes| ==> |codes[i]| == 2
  }

  /** The fields of a rule. */
  datatype Rule = Rule(start: Option<Instant>, end: Option<Instant>, dayOfWeek: Option<seq<string>>,
                       repeatUntil: Option<Date>, frequency: Option<string>, allDay: bool)

  /** A rule as `initialize` leaves it: every field nil, `all_day` false. */
  const NEW_RULE: Rule := Rule(None, None, None, None, None, false)

  /** What the setters guarantee of a stored frequency and day list. */
  predicate Valid(r: Rule) {
    && (r.frequency.Some? ==> IsFrequency(r.frequency.value))
    && (r.dayOfWeek.Some? ==> AreDayCodes(r.dayOfWeek.value))
  }

  // ------------------------------------------------------------- rendering

  /** The value after `DTSTART;` or `DTEND;`. */
  function Stamp(t: Instant, allDay: bool): string {
    if allDay then "VALUE=DATE:" + DateStamp(DateOf(t)) else "VALUE=DATE-TIME:" + Compact(t)
  }

  /** One of the two time lines; a nil time fails on `utc` (all-day) or `complete`. */
  function TimeLine(tag: string, t: Option<Instant>, allDay: bool): Result<string> {
    match t
    case None => Raised(NoMethodError(if allDay then "utc" else "complete"))
    case Some(i) => Ok(tag + Stamp(i, allDay) + "\n")
  }

  predicate IsWeekly(f: string) { Downcase(f) == "weekly" }

  /** Whether a rule lists its days: a day list is set and the frequency is weekly. */
  predicate WeeklyDays(r: Rule) {
    r.dayOfWeek.Some? && r.frequency.Some? && IsWeekly(r.frequency.value)
  }

  function ByDayText(r: Rule): string {
    if WeeklyDays(r) then ";BYDAY=" + Join(r.dayOfWeek.value, ",") else ""
  }

  /** The `;BYDAY=` part under the guard `@day_of_week and @frequency.downcase == 'weekly'`. */
  function ByDay(r: Rule): Result<string> {
    match r.dayOfWeek
    case None => Ok("")
    case Some(days) =>
      match r.frequency
      case None => Raised(NoMethodError("downcase"))
      case Some(f) => Ok(ByDayText(r))
  }

  /** The guard as the source writes it, `@frequency.downcase = 'weekly'`: a
      call of the writer `downcase=` on the frequency, which neither a string
      nor nil has, so any day list makes rendering raise. */
  function ByDayAsWritten(r: Rule): Result<string> {
    match r.dayOfWeek
    case None => Ok("")
    case Some(_) => Raised(NoMethodError("downcase="))
  }

  function Freq(r: Rule): string {
    match r.frequency
    case None => ""
    case Some(f) => "FREQ=" + Upcase(f)
  }

  function Until(r: Rule): string {
    match r.repeatUntil
    case None => ""
    case Some(d) => ";UNTIL=" + DateStamp(d)
  }

  /** `to_s` with a given `;BYDAY=` step: the two time lines, then the `RRULE:` line. */
  function Assemble(r: Rule, byDay: Result<string>): Result<string> {
    match TimeLine("DTSTART;", r.start, r.allDay)
    case Raised(e) => Raised(e)
    case Ok(first) =>
      match TimeLine("DTEND;", r.end, r.allDay)
      case Raised(e) => Raised(e)
      case Ok(second) =>
        match byDay
        case Raised(e) => Raised(e)
        case Ok(b) => Ok(first + second + "RRULE:" + Freq(r) + b + Until(r) + "\n")
  }

  /** `to_s`, with the `BYDAY` guard corrected. */
  function Render(r: Rule): Result<string> { Assemble(r, ByDay(r)) }

  /** `to_s` exactly as written. */
  function RenderAsWritten(r: Rule): Result<string> { Assemble(r, ByDayAsWritten(r)) }

  // ---------------------------------------------------------------- reading

  /** A `DTSTART`/`DTEND` value: a date (all-day) or a date-time. */
  datatype Moment = OnDate(date: Date) | AtTime(time: Instant)

  /** What an `RRULE:` line says. */
  datatype RRuleParts = RRuleParts(frequency: Option<string>, byDay: Option<seq<string>>, until: Option<Date>)

  datatype Decoded = Decoded(start: Moment, end: Moment, rule: RRuleParts)

  function ParseStamp(s: string): Option<Moment> {
    if StartsWith(s, "VALUE=DATE:") then
      match ParseDateStamp(s[11..])
      case Some(d) => Some(OnDate(d))
      case None => None
    else if StartsWith(s, "VALUE=DATE-TIME:") then
      match ParseCompact(s[16..])
      case Some(t) => Some(AtTime(t))
      case None => None
    else None
  }

  /** The text of a line between its tag and its terminating line feed. */
  function LineBody(line: string, tag: string): Option<string> {
    if StartsWith(line, tag) && |line| > |tag| && line[|line| - 1] == '\n'
    then Some(line[|tag|..|line| - 1]) else None
  }

  function ParseDays(v: string): seq<string> {
    if v == "" then [] else Split(v, ',')
  }

  /** The `;`-separated parts after the frequency: `BYDAY=` and `UNTIL=`. */
  function ParseParts(pieces: seq<string>, acc: RRuleParts): Option<RRuleParts>
    decreases |pieces|
  {
    if pieces == [] then Some(acc)
    else if StartsWith(pieces[0], "BYDAY=") then
      ParseParts(pieces[1..], acc.(byDay := Some(ParseDays(pieces[0][6..]))))
    else if StartsWith(pieces[0], "UNTIL=") then
      match ParseDateStamp(pieces[0][6..])
      case None => None
      case Some(d) => ParseParts(pieces[1..], acc.(until := Some(d)))
    else None
  }

  /** The text after `RRULE:`. */
  function ParseRRule(body: string): Option<RRuleParts> {
    var pieces := Split(body, ';');
    if pieces[0] == "" then ParseParts(pieces[1..], RRuleParts(None, None, None))
    else if StartsWith(pieces[0], "FREQ=") then ParseParts(pieces[1..], RRuleParts(Some(pieces[0][5..]), None, None))
    else None
  }

  /** Reads a rendered block back: three lines, `DTSTART`, `DTEND`, `RRULE:`. */
  function Decode(text: string): Option<Decoded> {
    var ls := Lines(text);
    if |ls| != 3 then None else
    match (LineBody(ls[0], "DTSTART;"), LineBody(ls[1], "DTEND;"), LineBody(ls[2], "RRULE:"))
    case (Some(a), Some(b), Some(c)) =>
      (match (ParseStamp(a), ParseStamp(b), ParseRRule(c))
       case (Some(x), Some(y), Some(z)) => Some(Decoded(x, y, z))
       case _ => None)
    case _ => None
  }

  // ------------------------------------------------------------- properties

  function MomentOf(t: Instant, allDay: bool): Moment {
    if allDay then OnDate(DateOf(t)) else AtTime(t)
  }

  /** What a rendered rule means: start and end as dates or date-times, the
      frequency in upper case, the days only for a weekly rule, the until date. */
  function Meaning(r: Rule): Decoded
    requires r.start.Some? && r.end.Some?
  {
    Decoded(MomentOf(r.start.value, r.allDay), MomentOf(r.end.value, r.allDay),
      RRuleParts(
        (match r.frequency case None => None case Some(f) => Some(Upcase(f))),
        (if WeeklyDays(r) then r.dayOfWeek else None),
        r.repeatUntil))
  }

  /** A rule whose rendering can be read back unambiguously: valid fields, valid
      instants and date, and day codes free of the separators `,` `;` and "\n". */
  predicate Readable(r: Rule) {
    && Valid(r)
    && r.start.Some? && ValidInstant(r.start.value)
    && r.end.Some? && ValidInstant(r.end.value)
    && (r.repeatUntil.Some? ==> ValidDate(r.repeatUntil.value))
    && (r.dayOfWeek.Some? ==> r.frequency.Some?)
    && (r.dayOfWeek.Some? ==> forall i :: 0 <= i < |r.dayOfWeek.value| ==>
          ',' !in r.dayOfWeek.value[i] && ';' !in r.dayOfWeek.value[i] && '\n' !in r.dayOfWeek.value[i])
  }

  /** Rendering raises exactly when a time is missing, or a day list is set
      without a frequency (nil has no `downcase`). */
  lemma RenderFails(r: Rule)
    ensures Render(r).Raised? <==>
      r.start.None? || r.end.None? || (r.dayOfWeek.Some? && r.frequency.None?)
  {
  }

  /** The frequency written after `FREQ=` is always one of the seven canonical
      names, whatever case `frequency=` was given. */
  lemma {:induction false} CanonicalFrequency(f: string)
    requires IsFrequency(f)
    ensures Upcase(f) in FREQUENCIES
  {
    var i :| 0 <= i < |FREQUENCIES| && Downcase(FREQUENCIES[i]) == Downcase(f);
    UpcaseAgrees(FREQUENCIES[i], f);
    UpcaseOfCapitals(FREQUENCIES[i]);
  }

  lemma {:induction false} JoinAvoids(xs: seq<string>, sep: string, c: char)
    requires c !in sep
    requires forall i :: 0 <= i < |xs| ==> c !in xs[i]
    ensures c !in Join(xs, sep)
    decreases |xs|
  {
    if |xs| > 1 {
      JoinAvoids(xs[1..], sep, c);
    }
  }

  lemma FrequencyNames(f: string)
    requires f in FREQUENCIES
    ensures ';' !in f && '\n' !in f
  {
  }

  lemma StampRoundTrip(t: Instant, allDay: bool)
    requires ValidInstant(t)
    ensures '\n' !in Stamp(t, allDay)
    ensures ParseStamp(Stamp(t, allDay)) == Some(MomentOf(t, allDay))
  {
    StampsOnOneLine(t, DateOf(t));
    var s := Stamp(t, allDay);
    if allDay {
      assert s[11..] == DateStamp(DateOf(t));
      DateStampRoundTrip(DateOf(t));
    } else {
      assert !StartsWith(s, "VALUE=DATE:") by { assert s[10] == '-'; }
      assert s[16..] == Compact(t);
      CompactRoundTrip(t);
    }
  }

  /** The `BYDAY=` value reads back as the day list. */
  lemma DaysRoundTrip(days: seq<string>)
    requires AreDayCodes(days)
    requires forall i :: 0 <= i < |days| ==> ',' !in days[i]
    ensures ParseDays(Join(days, ",")) == days
  {
    if days != [] {
      assert forall x :: x in days ==> ',' !in x;
      SplitJoin(days, ',');
      assert |Join(days, ",")| >= 2 by {
        if |days| > 1 { assert Join(days, ",") == days[0] + "," + Join(days[1..], ","); }
      }
    }
  }

  /** The `BYDAY=` part of a rule, if the rule renders one. */
  function ByDayPiece(r: Rule): seq<string> {
    if WeeklyDays(r) then ["BYDAY=" + Join(r.dayOfWeek.value, ",")] else []
  }

  function UntilPiece(r: Rule): seq<string> {
    if r.repeatUntil.Some? then ["UNTIL=" + DateStamp(r.repeatUntil.value)] else []
  }

  /** The text after `RRULE:`. */
  function RRuleBody(r: Rule): string {
    Freq(r) + ByDayText(r) + Until(r)
  }

  /** The `RRULE:` text is its parts joined with `;`. */
  lemma RRuleBodyJoined(r: Rule)
    ensures RRuleBody(r) == Join([Freq(r)] + ByDayPiece(r) + UntilPiece(r), ";")
  {
    var f := Freq(r);
    if WeeklyDays(r) {
      var j := "BYDAY=" + Join(r.dayOfWeek.value, ",");
      assert ByDayText(r) == ";" + j;
      if r.repeatUntil.Some? {
        var k := "UNTIL=" + DateStamp(r.repeatUntil.value);
        assert Until(r) == ";" + k;
        assert [f] + ByDayPiece(r) + UntilPiece(r) == [f, j, k];
        assert Join([f, j, k], ";") == f + ";" + Join([j, k], ";");
        assert Join([j, k], ";") == j + ";" + Join([k], ";");
      } else {
        assert [f] + ByDayPiece(r) + UntilPiece(r) == [f, j];
        assert Join([f, j], ";") == f + ";" + Join([j], ";");
      }
    } else {
      if r.repeatUntil.Some? {
        var k := "UNTIL=" + DateStamp(r.repeatUntil.value);
        assert Until(r) == ";" + k;
        assert [f] + ByDayPiece(r) + UntilPiece(r) == [f, k];
        assert Join([f, k], ";") == f + ";" + Join([k], ";");
      } else {
        assert [f] + ByDayPiece(r) + UntilPiece(r) == [f];
      }
    }
  }

  lemma DateStampPlain(d: Date)
    ensures ';' !in DateStamp(d) && '\n' !in DateStamp(d)
  {
    ZeroPadValue(d.year, 4);
    ZeroPadValue(d.month, 2);
    ZeroPadValue(d.day, 2);
    var y, m, dd := ZeroPad(d.year, 4), ZeroPad(d.month, 2), ZeroPad(d.day, 2);
    forall i | 0 <= i < |y| ensures y[i] != ';' && y[i] != '\n' { assert IsDigit(y[i]); }
    forall i | 0 <= i < |m| ensures m[i] != ';' && m[i] != '\n' { assert IsDigit(m[i]); }
    forall i | 0 <= i < |dd| ensures dd[i] != ';' && dd[i] != '\n' { assert IsDigit(dd[i]); }
  }

  /** The parts after the frequency read back. */
  lemma TailRoundTrip(r: Rule, acc: RRuleParts)
    requires Readable(r)
    ensures ParseParts(ByDayPiece(r) + UntilPiece(r), acc)
         == Some(acc.(byDay := if ByDayPiece(r) == [] then acc.byDay else r.dayOfWeek,
                      until := if r.repeatUntil.Some? then r.repeatUntil else acc.until))
  {
    var u := UntilPiece(r);
    var acc2 := acc.(until := if r.repeatUntil.Some? then r.repeatUntil else acc.until);
    assert ParseParts(u, acc) == Some(acc2) by {
      if r.repeatUntil.Some? {
        var p := "UNTIL=" + DateStamp(r.repeatUntil.value);
        assert p[6..] == DateStamp(r.repeatUntil.value);
        DateStampRoundTrip(r.repeatUntil.value);
        assert !StartsWith(p, "BYDAY=") by { assert p[0] == 'U'; }
        assert u[1..] == [];
      }
    }
    if ByDayPiece(r) != [] {
      var b := ByDayPiece(r)[0];
      assert b[6..] == Join(r.dayOfWeek.value, ",");
      DaysRoundTrip(r.dayOfWeek.value);
      assert (ByDayPiece(r) + u)[0] == b && (ByDayPiece(r) + u)[1..] == u;
      var acc1 := acc.(byDay := r.dayOfWeek);
      assert ParseParts(u, acc1) == Some(acc1.(until := acc2.until)) by {
        if r.repeatUntil.Some? {
          var p := "UNTIL=" + DateStamp(r.repeatUntil.value);
          assert p[6..] == DateStamp(r.repeatUntil.value);
          DateStampRoundTrip(r.repeatUntil.value);
          assert !StartsWith(p, "BYDAY=") by { assert p[0] == 'U'; }
          assert u[1..] == [];
        }
      }
    } else {
      assert ByDayPiece(r) + u == u;
    }
  }

  /** The `RRULE:` text holds no line feed. */
  lemma RRuleBodyOneLine(r: Rule)
    requires Readable(r)
    ensures '\n' !in RRuleBody(r)
  {
    if r.frequency.Some? {
      CanonicalFrequency(r.frequency.value);
      FrequencyNames(Upcase(r.frequency.value));
    }
    if ByDayPiece(r) != [] {
      JoinAvoids(r.dayOfWeek.value, ",", '\n');
    }
    if r.repeatUntil.Some? {
      DateStampPlain(r.repeatUntil.value);
    }
  }

  /** The `RRULE:` text reads back as the rule's frequency, days and until date. */
  lemma RRuleBodyReadsBack(r: Rule)
    requires Readable(r)
    ensures ParseRRule(RRuleBody(r)) == Some(Meaning(r).rule)
  {
    var f := Freq(r);
    if r.frequency.Some? {
      CanonicalFrequency(r.frequency.value);
      FrequencyNames(Upcase(r.frequency.value));
      assert f[5..] == Upcase(r.frequency.value);
    }
    assert ';' !in f;
    var body := RRuleBody(r);
    var pieces := ByDayPiece(r) + UntilPiece(r);
    assert Split(body, ';') == [f] + pieces by {
      if WeeklyDays(r) {
        JoinAvoids(r.dayOfWeek.value, ",", ';');
        assert ';' !in ByDayPiece(r)[0];
      }
      if r.repeatUntil.Some? {
        DateStampPlain(r.repeatUntil.value);
        assert ';' !in UntilPiece(r)[0];
      }
      RRuleBodyJoined(r);
      assert forall x :: x in [f] + pieces ==> ';' !in x;
      SplitJoin([f] + pieces, ';');
    }
    var acc := RRuleParts(if r.frequency.Some? then Some(Upcase(r.frequency.value)) else None, None, None);
    TailRoundTrip(r, acc);
    assert ([f] + pieces)[1..] == pieces;
  }

  lemma LineOrder(p: string, q: string, x: string, y: string, z: string)
    ensures p + q + "RRULE:" + x + y + z + "\n" == p + q + ("RRULE:" + (x + y + z) + "\n")
  {
  }

  /** A rule that renders is the two time lines followed by the `RRULE:` line. */
  lemma RenderShape(r: Rule)
    requires r.start.Some? && r.end.Some? && (r.dayOfWeek.Some? ==> r.frequency.Some?)
    ensures Render(r) == Ok(("DTSTART;" + Stamp(r.start.value, r.allDay) + "\n")
                            + ("DTEND;" + Stamp(r.end.value, r.allDay) + "\n")
                            + ("RRULE:" + RRuleBody(r) + "\n"))
  {
    assert ByDay(r) == Ok(ByDayText(r));
    LineOrder("DTSTART;" + Stamp(r.start.value, r.allDay) + "\n", "DTEND;" + Stamp(r.end.value, r.allDay) + "\n",
              Freq(r), ByDayText(r), Until(r));
  }

  /** Three lines free of inner line feeds are the three elements of `to_a`. */
  lemma ThreeLines(a: string, b: string, c: string)
    requires '\n' !in a && '\n' !in b && '\n' !in c
    ensures Lines((a + "\n") + (b + "\n") + (c + "\n")) == [a + "\n", b + "\n", c + "\n"]
  {
    LinesOf(a, (b + "\n") + (c + "\n"));
    LinesOf(b, c + "\n");
    LinesOf(c, "");
    assert (a + "\n") + (b + "\n") + (c + "\n") == a + "\n" + ((b + "\n") + (c + "\n"));
    assert (b + "\n") + (c + "\n") == b + "\n" + (c + "\n");
    assert c + "\n" == c + "\n" + "";
  }

  lemma LineBodyOf(tag: string, x: string)
    ensures LineBody(tag + x + "\n", tag) == Some(x)
  {
    var line := tag + x + "\n";
    assert line[..|tag|] == tag;
    assert line[|tag|..|line| - 1] == x;
  }

  /** Three tagged lines whose values parse decode to those values. */
  lemma DecodeLines(a: string, b: string, c: string, x: Moment, y: Moment, z: RRuleParts)
    requires '\n' !in a && '\n' !in b && '\n' !in c
    requires ParseStamp(a) == Some(x) && ParseStamp(b) == Some(y) && ParseRRule(c) == Some(z)
    ensures Decode(("DTSTART;" + a + "\n") + ("DTEND;" + b + "\n") + ("RRULE:" + c + "\n")) == Some(Decoded(x, y, z))
  {
    assert "DTSTART;" + a + "\n" == ("DTSTART;" + a) + "\n";
    assert "DTEND;" + b + "\n" == ("DTEND;" + b) + "\n";
    assert "RRULE:" + c + "\n" == ("RRULE:" + c) + "\n";
    ThreeLines("DTSTART;" + a, "DTEND;" + b, "RRULE:" + c);
    LineBodyOf("DTSTART;", a);
    LineBodyOf("DTEND;", b);
    LineBodyOf("RRULE:", c);
  }

  /** `to_s` (guard corrected) yields exactly three newline-terminated lines,
      `DTSTART` from the start, `DTEND` from the end, then `RRULE:`; reading them
      back gives the rule's meaning: the upper-cased frequency only if one is set,
      the days only for a weekly rule, the until date only if one is set. */
  lemma RenderReadsBack(r: Rule)
    requires Readable(r)
    ensures Render(r).Ok?
    ensures Decode(Render(r).value) == Some(Meaning(r))
  {
    StampRoundTrip(r.start.value, r.allDay);
    StampRoundTrip(r.end.value, r.allDay);
    RenderShape(r);
    RRuleBodyOneLine(r);
    RRuleBodyReadsBack(r);
    DecodeLines(Stamp(r.start.value, r.allDay), Stamp(r.end.value, r.allDay), RRuleBody(r),
                MomentOf(r.start.value, r.allDay), MomentOf(r.end.value, r.allDay), Meaning(r).rule);
  }

  /** As written, any day list makes `to_s` raise `NoMethodError`, so `BYDAY`
      can never be rendered; the corrected guard renders it for weekly rules. */
  lemma ByDayGuardAsWritten(r: Rule)
    requires r.start.Some? && r.end.Some? && r.dayOfWeek.Some?
    ensures RenderAsWritten(r) == Raised(NoMethodError("downcase="))
    ensures r.frequency.Some? && IsWeekly(r.frequency.value) ==> Render(r).Ok?
  {
  }

  /** An example weekly rule: Mondays and Wednesdays, 09:00 to 10:00, until
      1 June 2024. */
  const EXAMPLE: Rule := Rule(Some(Instant(2024, 1, 1, 9, 0, 0)), Some(Instant(2024, 1, 1, 10, 0, 0)),
                              Some(["MO", "WE"]), Some(Date(2024, 6, 1)), Some("weekly"), false)

  lemma ExampleYear()
    ensures ZeroPad(2024, 4) == "2024"
  {
    assert ZeroPad(2, 1) == "2";
    assert ZeroPad(20, 2) == "20";
    assert ZeroPad(202, 3) == "202";
  }

  lemma ExampleDates()
    ensures DateStamp(Date(2024, 1, 1)) == "20240101"
    ensures DateStamp(Date(2024, 6, 1)) == "20240601"
  {
    ExampleYear();
    assert ZeroPad(1, 2) == "01" && ZeroPad(6, 2) == "06";
  }

  lemma ExampleStartStamp()
    ensures Stamp(EXAMPLE.start.value, false) == "VALUE=DATE-TIME:20240101T090000"
  {
    ExampleDates();
    assert ZeroPad(9, 2) == "09" && ZeroPad(0, 2) == "00";
    assert Compact(EXAMPLE.start.value) == "20240101" + "T" + "09" + "00" + "00";
  }

  lemma ExampleEndStamp()
    ensures Stamp(EXAMPLE.end.value, false) == "VALUE=DATE-TIME:20240101T100000"
  {
    ExampleDates();
    assert ZeroPad(10, 2) == "10" && ZeroPad(0, 2) == "00";
    assert Compact(EXAMPLE.end.value) == "20240101" + "T" + "10" + "00" + "00";
  }

  lemma ExampleStamps()
    ensures Stamp(EXAMPLE.start.value, false) == "VALUE=DATE-TIME:20240101T090000"
    ensures Stamp(EXAMPLE.end.value, false) == "VALUE=DATE-TIME:20240101T100000"
    ensures DateStamp(Date(2024, 6, 1)) == "20240601"
  {
    ExampleStartStamp();
    ExampleEndStamp();
    ExampleDates();
  }

  lemma ExamplePieces()
    ensures Freq(EXAMPLE) == "FREQ=WEEKLY"
    ensures ByDayText(EXAMPLE) == ";BYDAY=MO,WE"
    ensures Until(EXAMPLE) == ";UNTIL=20240601"
  {
    ExampleDates();
    assert Upcase("weekly") == "WEEKLY";
    assert Downcase("weekly") == "weekly";
    assert Join(["MO", "WE"], ",") == "MO,WE";
  }

  lemma ExampleBody()
    ensures RRuleBody(EXAMPLE) == "FREQ=WEEKLY;BYDAY=MO,WE;UNTIL=20240601"
  {
    ExamplePieces();
  }

  lemma ExampleStartLine()
    ensures "DTSTART;" + "VALUE=DATE-TIME:20240101T090000" + "\n" == "DTSTART;VALUE=DATE-TIME:20240101T090000\n"
  {
  }

  lemma ExampleEndLine()
    ensures "DTEND;" + "VALUE=DATE-TIME:20240101T100000" + "\n" == "DTEND;VALUE=DATE-TIME:20240101T100000\n"
  {
  }

  lemma ExampleRuleLine()
    ensures "RRULE:" + "FREQ=WEEKLY;BYDAY=MO,WE;UNTIL=20240601" + "\n" == "RRULE:FREQ=WEEKLY;BYDAY=MO,WE;UNTIL=20240601\n"
  {
  }

  /** The example renders to the three lines below with the guard corrected, and
      raises with the guard as written. */
  lemma ExampleRendering()
    ensures Render(EXAMPLE) == Ok("DTSTART;VALUE=DATE-TIME:20240101T090000\n"
                                  + "DTEND;VALUE=DATE-TIME:20240101T100000\n"
                                  + "RRULE:FREQ=WEEKLY;BYDAY=MO,WE;UNTIL=20240601\n")
    ensures RenderAsWritten(EXAMPLE) == Raised(NoMethodError("downcase="))
  {
    ExampleStamps();
    ExampleBody();
    RenderShape(EXAMPLE);
    ExampleStartLine();
    ExampleEndLine();
    ExampleRuleLine();
  }
}
