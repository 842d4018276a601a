/** Instants as UTC calendar fields, and the three textual forms the library
    writes: `strftime("%Y%m%d")`, `Time#complete` (`%Y%m%dT%H%M%S`, defined at
    the top of recurrence.rb) and `Time#xmlschema` (read back by `Time.parse`). */
module Instants {
  import opened Basics
  import opened Text

  /** A moment in UTC; the time-zone conversion `utc` performs is already done. */
  datatype Instant = Instant(year: nat, month: nat, day: nat, hour: nat, minute: nat, second: nat)

  /** A calendar date (Ruby's `Date`). */
  datatype Date = Date(year: nat, month: nat, day: nat)

  /** An argument as a Ruby caller may hand it to a setter that checks its class:
      a `Time`, a `Date`, a `String`, an `Array` of strings, or nil. */
  datatype Value = TimeValue(time: Instant) | DateValue(date: Date) | StringValue(str: string)
                 | ListValue(items: seq<string>) | NilValue

  predicate ValidDate(d: Date) {
    d.year < 10000 && 1 <= d.month <= 12 && 1 <= d.day <= 31
  }

  predicate ValidInstant(t: Instant) {
    ValidDate(DateOf(t)) && t.hour < 24 && t.minute < 60 && t.second <= 60
  }

  function DateOf(t: Instant): Date { Date(t.year, t.month, t.day) }

  /** `strftime("%Y%m%d")`. */
  function DateStamp(d: Date): string {
    ZeroPad(d.year, 4) + ZeroPad(d.month, 2) + ZeroPad(d.day, 2)
  }

  /** `Time#complete`: `utc.strftime("%Y%m%dT%H%M%S")`. */
  function Compact(t: Instant): string {
    DateStamp(DateOf(t)) + "T" + ZeroPad(t.hour, 2) + ZeroPad(t.minute, 2) + ZeroPad(t.second, 2)
  }

  /** `Time#xmlschema` of a UTC time: `YYYY-MM-DDTHH:MM:SSZ`. */
  function XmlSchema(t: Instant): string {
    ZeroPad(t.year, 4) + "-" + ZeroPad(t.month, 2) + "-" + ZeroPad(t.day, 2) + "T"
    + ZeroPad(t.hour, 2) + ":" + ZeroPad(t.minute, 2) + ":" + ZeroPad(t.second, 2) + "Z"
  }

  predicate DigitsAt(s: string, i: nat, width: nat) {
    i + width <= |s| && AllDigits(s[i..i + width])
  }

  function FieldAt(s: string, i: nat, width: nat): nat
    requires DigitsAt(s, i, width)
  {
    DigitsValue(s[i..i + width])
  }

  /** `Time.parse` restricted to the `xmlschema` form: the string must have exactly
      that layout and denote a valid instant. */
  function ParseXmlSchema(s: string): Option<Instant> {
    if |s| == 20 && DigitsAt(s, 0, 4) && s[4] == '-' && DigitsAt(s, 5, 2) && s[7] == '-'
       && DigitsAt(s, 8, 2) && s[10] == 'T' && DigitsAt(s, 11, 2) && s[13] == ':'
       && DigitsAt(s, 14, 2) && s[16] == ':' && DigitsAt(s, 17, 2) && s[19] == 'Z'
    then
      var t := Instant(FieldAt(s, 0, 4), FieldAt(s, 5, 2), FieldAt(s, 8, 2),
                       FieldAt(s, 11, 2), FieldAt(s, 14, 2), FieldAt(s, 17, 2));
      if ValidInstant(t) then Some(t) else None
    else None
  }

  /** Reads back the `Time#complete` form. */
  function ParseCompact(s: string): Option<Instant> {
    if |s| == 15 && DigitsAt(s, 0, 4) && DigitsAt(s, 4, 2) && DigitsAt(s, 6, 2) && s[8] == 'T'
       && DigitsAt(s, 9, 2) && DigitsAt(s, 11, 2) && DigitsAt(s, 13, 2)
    then
      var t := Instant(FieldAt(s, 0, 4), FieldAt(s, 4, 2), FieldAt(s, 6, 2),
                       FieldAt(s, 9, 2), FieldAt(s, 11, 2), FieldAt(s, 13, 2));
      if ValidInstant(t) then Some(t) else None
    else None
  }

  /** A field of a valid instant is written in exactly `width` digits that read back as it. */
  lemma PadField(n: nat, width: nat)
    requires width == 2 || width == 4
    requires width == 2 ==> n < 100
    requires width == 4 ==> n < 10000
    ensures |ZeroPad(n, width)| == width
    ensures AllDigits(ZeroPad(n, width)) && DigitsValue(ZeroPad(n, width)) == n
  {
    assert Pow10(2) == 100 && Pow10(4) == 10000;
    ZeroPadWidth(n, width);
    ZeroPadValue(n, width);
  }

  /** Where six fields sit in the `xmlschema` layout. */
  lemma XmlSchemaLayout(y: string, mo: string, d: string, h: string, mi: string, se: string)
    requires |y| == 4 && |mo| == 2 && |d| == 2 && |h| == 2 && |mi| == 2 && |se| == 2
    ensures var s := y + "-" + mo + "-" + d + "T" + h + ":" + mi + ":" + se + "Z";
      && |s| == 20 && s[4] == '-' && s[7] == '-' && s[10] == 'T' && s[13] == ':' && s[16] == ':' && s[19] == 'Z'
      && s[0..4] == y && s[5..7] == mo && s[8..10] == d
      && s[11..13] == h && s[14..16] == mi && s[17..19] == se
  {
    var s := y + "-" + mo + "-" + d + "T" + h + ":" + mi + ":" + se + "Z";
    assert s[0..4] == y by { forall k | 0 <= k < 4 ensures s[0..4][k] == y[k] { } }
    assert s[5..7] == mo by { forall k | 0 <= k < 2 ensures s[5..7][k] == mo[k] { } }
    assert s[8..10] == d by { forall k | 0 <= k < 2 ensures s[8..10][k] == d[k] { } }
    assert s[11..13] == h by { forall k | 0 <= k < 2 ensures s[11..13][k] == h[k] { } }
    assert s[14..16] == mi by { forall k | 0 <= k < 2 ensures s[14..16][k] == mi[k] { } }
    assert s[17..19] == se by { forall k | 0 <= k < 2 ensures s[17..19][k] == se[k] { } }
  }

  /** Where six fields sit in the `Time#complete` layout. */
  lemma CompactLayout(y: string, mo: string, d: string, h: string, mi: string, se: string)
    requires |y| == 4 && |mo| == 2 && |d| == 2 && |h| == 2 && |mi| == 2 && |se| == 2
    ensures var s := y + mo + d + "T" + h + mi + se;
      && |s| == 15 && s[8] == 'T'
      && s[0..4] == y && s[4..6] == mo && s[6..8] == d
      && s[9..11] == h && s[11..13] == mi && s[13..15] == se
  {
    var s := y + mo + d + "T" + h + mi + se;
    assert s[0..4] == y by { forall k | 0 <= k < 4 ensures s[0..4][k] == y[k] { } }
    assert s[4..6] == mo by { forall k | 0 <= k < 2 ensures s[4..6][k] == mo[k] { } }
    assert s[6..8] == d by { forall k | 0 <= k < 2 ensures s[6..8][k] == d[k] { } }
    assert s[9..11] == h by { forall k | 0 <= k < 2 ensures s[9..11][k] == h[k] { } }
    assert s[11..13] == mi by { forall k | 0 <= k < 2 ensures s[11..13][k] == mi[k] { } }
    assert s[13..15] == se by { forall k | 0 <= k < 2 ensures s[13..15][k] == se[k] { } }
  }

  /** Where three fields sit in the `%Y%m%d` layout. */
  lemma DateStampLayout(y: string, mo: string, d: string)
    requires |y| == 4 && |mo| == 2 && |d| == 2
    ensures var s := y + mo + d;
      && |s| == 8 && s[0..4] == y && s[4..6] == mo && s[6..8] == d
  {
    var s := y + mo + d;
    assert s[0..4] == y by { forall k | 0 <= k < 4 ensures s[0..4][k] == y[k] { } }
    assert s[4..6] == mo by { forall k | 0 <= k < 2 ensures s[4..6][k] == mo[k] { } }
    assert s[6..8] == d by { forall k | 0 <= k < 2 ensures s[6..8][k] == d[k] { } }
  }

  /** Parsing what `xmlschema` writes gives the instant back. */
  lemma XmlSchemaRoundTrip(t: Instant)
    requires ValidInstant(t)
    ensures ParseXmlSchema(XmlSchema(t)) == Some(t)
  {
    PadField(t.year, 4);
    PadField(t.month, 2);
    PadField(t.day, 2);
    PadField(t.hour, 2);
    PadField(t.minute, 2);
    PadField(t.second, 2);
    XmlSchemaLayout(ZeroPad(t.year, 4), ZeroPad(t.month, 2), ZeroPad(t.day, 2),
                    ZeroPad(t.hour, 2), ZeroPad(t.minute, 2), ZeroPad(t.second, 2));
  }

  /** Whatever the parser accepts is exactly the `xmlschema` text of what it returns. */
  lemma XmlSchemaCanonical(s: string, t: Instant)
    requires ParseXmlSchema(s) == Some(t)
    ensures XmlSchema(t) == s
  {
    ZeroPadOfDigits(s[0..4]);
    ZeroPadOfDigits(s[5..7]);
    ZeroPadOfDigits(s[8..10]);
    ZeroPadOfDigits(s[11..13]);
    ZeroPadOfDigits(s[14..16]);
    ZeroPadOfDigits(s[17..19]);
    assert s == s[0..4] + [s[4]] + s[5..7] + [s[7]] + s[8..10] + [s[10]] + s[11..13] + [s[13]]
                + s[14..16] + [s[16]] + s[17..19] + [s[19]];
  }

  /** Parsing what `Time#complete` writes gives the instant back. */
  lemma CompactRoundTrip(t: Instant)
    requires ValidInstant(t)
    ensures ParseCompact(Compact(t)) == Some(t)
  {
    PadField(t.year, 4);
    PadField(t.month, 2);
    PadField(t.day, 2);
    PadField(t.hour, 2);
    PadField(t.minute, 2);
    PadField(t.second, 2);
    CompactLayout(ZeroPad(t.year, 4), ZeroPad(t.month, 2), ZeroPad(t.day, 2),
                  ZeroPad(t.hour, 2), ZeroPad(t.minute, 2), ZeroPad(t.second, 2));
  }

  /** Reads back the `%Y%m%d` form. */
  function ParseDateStamp(s: string): Option<Date> {
    if |s| == 8 && DigitsAt(s, 0, 4) && DigitsAt(s, 4, 2) && DigitsAt(s, 6, 2) then
      var d := Date(FieldAt(s, 0, 4), FieldAt(s, 4, 2), FieldAt(s, 6, 2));
      if ValidDate(d) then Some(d) else None
    else None
  }

  /** Parsing a date stamp gives the date back. */
  lemma DateStampRoundTrip(d: Date)
    requires ValidDate(d)
    ensures ParseDateStamp(DateStamp(d)) == Some(d)
  {
    PadField(d.year, 4);
    PadField(d.month, 2);
    PadField(d.day, 2);
    DateStampLayout(ZeroPad(d.year, 4), ZeroPad(d.month, 2), ZeroPad(d.day, 2));
  }

  /** Neither compact form contains a line feed, so each fits on one line. */
  lemma StampsOnOneLine(t: Instant, d: Date)
    ensures '\n' !in DateStamp(d)
    ensures '\n' !in Compact(t)
  {
    ZeroPadNoNewline(d.year, 4);
    ZeroPadNoNewline(d.month, 2);
    ZeroPadNoNewline(d.day, 2);
    ZeroPadNoNewline(t.year, 4);
    ZeroPadNoNewline(t.month, 2);
    ZeroPadNoNewline(t.day, 2);
    ZeroPadNoNewline(t.hour, 2);
    ZeroPadNoNewline(t.minute, 2);
    ZeroPadNoNewline(t.second, 2);
  }
}
