/** The Ruby string operations the library relies on: ASCII case mapping
    (`downcase`, `upcase`), literal `gsub(pat, "")`, `strip`, Ruby 1.8's
    `String#to_a` (the lines of a string, each keeping its "\n"), `join`,
    substring search, and the zero-padded decimal fields of `strftime`. */
module Text {

  // ---------------------------------------------------------------- case

  predicate IsUpper(c: char) { 'A' <= c <= 'Z' }
  predicate IsLower(c: char) { 'a' <= c <= 'z' }

  function Lower(c: char): char { if IsUpper(c) then (c as int + 32) as char else c }
  function Upper(c: char): char { if IsLower(c) then (c as int - 32) as char else c }

  function Downcase(s: string): string { seq(|s|, i requires 0 <= i < |s| => Lower(s[i])) }
  function Upcase(s: string): string { seq(|s|, i requires 0 <= i < |s| => Upper(s[i])) }

  /** Upper-casing ignores the case the input had. */
  lemma UpcaseOfDowncase(s: string)
    ensures Upcase(Downcase(s)) == Upcase(s)
  {
    forall i | 0 <= i < |s| ensures Upcase(Downcase(s))[i] == Upcase(s)[i] {
      assert Upper(Lower(s[i])) == Upper(s[i]);
    }
  }

  /** A word of capital letters is its own upper case. */
  lemma UpcaseOfCapitals(s: string)
    requires forall i :: 0 <= i < |s| ==> IsUpper(s[i])
    ensures Upcase(s) == s
  {
  }

  /** Two words that agree ignoring case have the same upper case. */
  lemma UpcaseAgrees(s: string, t: string)
    requires Downcase(s) == Downcase(t)
    ensures Upcase(s) == Upcase(t)
  {
    UpcaseOfDowncase(s);
    UpcaseOfDowncase(t);
  }

  // ---------------------------------------------------------- searching

  predicate StartsWith(s: string, prefix: string) {
    |prefix| <= |s| && s[..|prefix|] == prefix
  }

  /** `s.match(t)` for a pattern `t` without regular-expression metacharacters. */
  predicate Contains(s: string, t: string)
    decreases |s|
  {
    StartsWith(s, t) || (s != [] && Contains(s[1..], t))
  }

  /** `s.gsub(pat, "")` for a literal pattern: every occurrence found scanning
      left to right is deleted; the text after a deletion is not rescanned
      together with what came before it. */
  function RemoveAll(s: string, pat: string): string
    decreases |s|
  {
    if pat == [] || |s| < |pat| then s
    else if s[..|pat|] == pat then RemoveAll(s[|pat|..], pat)
    else [s[0]] + RemoveAll(s[1..], pat)
  }

  /** Removing a pattern that does not occur changes nothing. */
  lemma {:induction false} RemoveAllAbsent(s: string, pat: string)
    requires !Contains(s, pat)
    ensures RemoveAll(s, pat) == s
    decreases |s|
  {
    if pat == [] || |s| < |pat| {
    } else {
      assert s[..|pat|] != pat;
      RemoveAllAbsent(s[1..], pat);
      assert [s[0]] + s[1..] == s;
    }
  }

  /** A leading occurrence is removed and the rest is processed on its own. */
  lemma RemoveAllLeading(pat: string, s: string)
    requires pat != []
    ensures RemoveAll(pat + s, pat) == RemoveAll(s, pat)
  {
    assert (pat + s)[..|pat|] == pat;
    assert (pat + s)[|pat|..] == s;
  }

  // ---------------------------------------------------------- stripping

  /** The characters Ruby 1.8's `lstrip` removes. */
  predicate IsSpace(c: char) {
    c == ' ' || c == '\t' || c == '\n' || c == '\U{0B}' || c == '\U{0C}' || c == '\r'
  }

  /** `rstrip` also removes trailing NUL characters. */
  predicate IsTrailingSpace(c: char) { IsSpace(c) || c == '\U{0}' }

  function LStrip(s: string): string
    decreases |s|
  {
    if s != [] && IsSpace(s[0]) then LStrip(s[1..]) else s
  }

  function RStrip(s: string): string
    decreases |s|
  {
    if s != [] && IsTrailingSpace(s[|s| - 1]) then RStrip(s[..|s| - 1]) else s
  }

  function Strip(s: string): string { RStrip(LStrip(s)) }

  /** Text that `strip` leaves alone: it neither begins nor ends with blank space. */
  predicate Trimmed(s: string) {
    s == [] || (!IsSpace(s[0]) && !IsTrailingSpace(s[|s| - 1]))
  }

  /** Stripping a trimmed word followed by a line feed gives the word back. */
  lemma StripLine(s: string)
    requires Trimmed(s)
    ensures Strip(s + "\n") == s
  {
    if s == [] {
      assert s + "\n" == "\n";
      assert LStrip("\n") == LStrip([]) == [];
    } else {
      assert LStrip(s + "\n") == s + "\n";
      assert (s + "\n")[..|s|] == s;
      assert RStrip(s + "\n") == RStrip(s) == s;
    }
  }

  // -------------------------------------------------------------- lines

  /** Length of the first line of `s`, its "\n" included. */
  function LineLength(s: string): (k: nat)
    requires s != []
    ensures 0 < k <= |s|
    decreases |s|
  {
    if s[0] == '\n' || |s| == 1 then 1 else 1 + LineLength(s[1..])
  }

  /** Ruby 1.8's `String#to_a`: the lines of `s`, each keeping its terminating "\n". */
  function Lines(s: string): seq<string>
    decreases |s|
  {
    if s == [] then [] else
    var k := LineLength(s);
    [s[..k]] + Lines(s[k..])
  }

  lemma {:induction false} LineLengthOf(a: string, rest: string)
    requires '\n' !in a
    ensures LineLength(a + "\n" + rest) == |a| + 1
    decreases |a|
  {
    if a != [] {
      assert (a + "\n" + rest)[1..] == a[1..] + "\n" + rest;
      LineLengthOf(a[1..], rest);
    }
  }

  /** A line without an inner line feed is the first element of `to_a`. */
  lemma LinesOf(a: string, rest: string)
    requires '\n' !in a
    ensures Lines(a + "\n" + rest) == [a + "\n"] + Lines(rest)
  {
    LineLengthOf(a, rest);
    var s := a + "\n" + rest;
    assert s[..|a| + 1] == a + "\n";
    assert s[|a| + 1..] == rest;
  }

  // ------------------------------------------------------ join and split

  /** `xs.join(sep)`. */
  function Join(xs: seq<string>, sep: string): string
    decreases |xs|
  {
    if xs == [] then "" else if |xs| == 1 then xs[0] else xs[0] + sep + Join(xs[1..], sep)
  }

  /** The pieces of `s` between occurrences of `c` (always at least one). */
  function Split(s: string, c: char): (parts: seq<string>)
    ensures |parts| >= 1
    decreases |s|
  {
    if s == [] then [""] else
    var rest := Split(s[1..], c);
    if s[0] == c then [""] + rest else [[s[0]] + rest[0]] + rest[1..]
  }

  lemma {:induction false} SplitWhole(a: string, c: char)
    requires c !in a
    ensures Split(a, c) == [a]
    decreases |a|
  {
    if a != [] {
      SplitWhole(a[1..], c);
      assert [a[0]] + a[1..] == a;
    }
  }

  lemma {:induction false} SplitAt(a: string, b: string, c: char)
    requires c !in a
    ensures Split(a + [c] + b, c) == [a] + Split(b, c)
    decreases |a|
  {
    var s := a + [c] + b;
    if a == [] {
      assert s[1..] == b;
    } else {
      assert s[1..] == a[1..] + [c] + b;
      SplitAt(a[1..], b, c);
      assert [a[0]] + a[1..] == a;
    }
  }

  /** Joining pieces free of the separator and splitting again gives them back. */
  lemma {:induction false} SplitJoin(xs: seq<string>, c: char)
    requires xs != []
    requires forall x :: x in xs ==> c !in x
    ensures Split(Join(xs, [c]), c) == xs
    decreases |xs|
  {
    if |xs| == 1 {
      SplitWhole(xs[0], c);
    } else {
      SplitJoin(xs[1..], c);
      SplitAt(xs[0], Join(xs[1..], [c]), c);
      assert [xs[0]] + xs[1..] == xs;
    }
  }

  // ------------------------------------------------------------- digits

  predicate IsDigit(c: char) { '0' <= c <= '9' }

  predicate AllDigits(s: string) { forall i :: 0 <= i < |s| ==> IsDigit(s[i]) }

  function Digit(d: nat): char
    requires d < 10
  {
    ('0' as int + d) as char
  }

  function DigitValue(c: char): nat
    requires IsDigit(c)
  {
    c as int - '0' as int
  }

  function Pow10(k: nat): nat { if k == 0 then 1 else 10 * Pow10(k - 1) }

  /** The decimal digits of `n`, zero-padded on the left to at least `width`
      characters and never fewer than one (`%Y` with width 4, `%m` with width 2). */
  function ZeroPad(n: nat, width: nat): string
    decreases n + width
  {
    if width <= 1 && n < 10 then [Digit(n)]
    else ZeroPad(n / 10, if width == 0 then 0 else width - 1) + [Digit(n % 10)]
  }

  /** The number a string of decimal digits denotes. */
  function DigitsValue(s: string): nat
    requires AllDigits(s)
    decreases |s|
  {
    if s == [] then 0 else 10 * DigitsValue(s[..|s| - 1]) + DigitValue(s[|s| - 1])
  }

  /** A padded number is digits only and reads back as the number. */
  lemma {:induction false} ZeroPadValue(n: nat, width: nat)
    ensures AllDigits(ZeroPad(n, width))
    ensures DigitsValue(ZeroPad(n, width)) == n
    decreases n + width
  {
    var s := ZeroPad(n, width);
    if width <= 1 && n < 10 {
    } else {
      var w := if width == 0 then 0 else width - 1;
      ZeroPadValue(n / 10, w);
      assert s[..|s| - 1] == ZeroPad(n / 10, w);
    }
  }

  /** A number below 10^width fills exactly `width` characters. */
  lemma {:induction false} ZeroPadWidth(n: nat, width: nat)
    requires 1 <= width && n < Pow10(width)
    ensures |ZeroPad(n, width)| == width
    decreases width
  {
    if width > 1 {
      ZeroPadWidth(n / 10, width - 1);
    }
  }

  /** Reading a field of digits and padding it to its width gives the field back. */
  lemma {:induction false} ZeroPadOfDigits(s: string)
    requires 1 <= |s| && AllDigits(s)
    ensures ZeroPad(DigitsValue(s), |s|) == s
    decreases |s|
  {
    var init := s[..|s| - 1];
    var v := DigitsValue(s);
    if |s| == 1 {
      assert init == [] && DigitsValue(init) == 0;
      assert v == DigitValue(s[0]) < 10;
      assert [Digit(v)] == s;
    } else {
      assert forall i :: 0 <= i < |init| ==> init[i] == s[i];
      assert AllDigits(init);
      ZeroPadOfDigits(init);
      assert v / 10 == DigitsValue(init) && v % 10 == DigitValue(s[|s| - 1]);
      assert init + [s[|s| - 1]] == s;
    }
  }

  /** A padded number contains no line feed (it is digits only). */
  lemma ZeroPadNoNewline(n: nat, width: nat)
    ensures '\n' !in ZeroPad(n, width)
  {
    ZeroPadValue(n, width);
    var s := ZeroPad(n, width);
    forall i | 0 <= i < |s| ensures s[i] != '\n' {
      assert IsDigit(s[i]);
    }
  }
}
