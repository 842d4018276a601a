/** The two string computations of `Service#authenticate`
    (lib/gcal4ruby/service.rb): the form body posted to the authentication
    URL, and the token taken from the body of an OK reply. */
module Session {
  import opened Basics
  import opened Text

  /** The form body: `Email=<u>&Passwd=<p>&source=GCal4Ruby&service=cl`. The
      user name and password are interpolated as given, without escaping. */
  function AuthBody(username: string, password: string): string {
    "Email=" + username + "&Passwd=" + password + "&source=GCal4Ruby&service=cl"
  }

  /** For a user name and password free of `&`, the body is exactly four
      fields: email, password, source and service. */
  lemma AuthBodyFields(username: string, password: string)
    requires '&' !in username && '&' !in password
    ensures Split(AuthBody(username, password), '&')
         == ["Email=" + username, "Passwd=" + password, "source=GCal4Ruby", "service=cl"]
  {
    var xs := ["Email=" + username, "Passwd=" + password, "source=GCal4Ruby", "service=cl"];
    JoinFour(xs[0], xs[1], xs[2], xs[3], "&");
    assert "&Passwd=" == "&" + "Passwd=";
    assert "&source=GCal4Ruby&service=cl" == "&" + ("source=GCal4Ruby" + "&" + "service=cl");
    var e, q, t, amp := "Email=", "Passwd=", "source=GCal4Ruby" + "&" + "service=cl", "&";
    assert e + username + (amp + q) + password + (amp + t) == e + username + amp + (q + password + amp + t);
    assert forall x :: x in xs ==> '&' !in x;
    SplitJoin(xs, '&');
  }

  lemma JoinFour(a: string, b: string, c: string, d: string, sep: string)
    ensures Join([a, b, c, d], sep) == a + sep + (b + sep + (c + sep + d))
  {
    assert Join([d], sep) == d;
    assert [c, d][1..] == [d];
    assert Join([c, d], sep) == c + sep + d;
    assert [b, c, d][1..] == [c, d];
    assert [a, b, c, d][1..] == [b, c, d];
  }

  /** `body.to_a[2].gsub("Auth=", "").strip`: the third line with every `Auth=`
      removed and the blank space around it stripped. A body with fewer than
      three lines leaves nil, which has no `gsub`. */
  function ExtractToken(body: string): (r: Result<string>)
    ensures r.Raised? <==> |Lines(body)| < 3
    ensures r.Ok? ==> Trimmed(r.value)
  {
    var ls := Lines(body);
    if |ls| < 3 then Raised(NoMethodError("gsub"))
    else
      var t := Strip(RemoveAll(ls[2], "Auth="));
      StripTrims(RemoveAll(ls[2], "Auth="));
      Ok(t)
  }

  lemma {:induction false} LStripTrims(s: string)
    ensures LStrip(s) == [] || !IsSpace(LStrip(s)[0])
    ensures |LStrip(s)| <= |s|
    decreases |s|
  {
    if s != [] && IsSpace(s[0]) {
      LStripTrims(s[1..]);
    }
  }

  lemma {:induction false} RStripKeepsStart(s: string)
    ensures RStrip(s) == [] || !IsTrailingSpace(RStrip(s)[|RStrip(s)| - 1])
    ensures |RStrip(s)| <= |s| && RStrip(s) == s[..|RStrip(s)|]
    decreases |s|
  {
    if s != [] && IsTrailingSpace(s[|s| - 1]) {
      RStripKeepsStart(s[..|s| - 1]);
    }
  }

  /** `strip` leaves text that neither begins nor ends with blank space. */
  lemma StripTrims(s: string)
    ensures Trimmed(Strip(s))
  {
    var l := LStrip(s);
    LStripTrims(s);
    RStripKeepsStart(l);
    var r := RStrip(l);
    if r != [] {
      assert r[0] == l[0];
    }
  }

  /** The third of three newline-free lines is read as the third line. */
  lemma ThirdLine(a: string, b: string, c: string, rest: string)
    requires '\n' !in a && '\n' !in b && '\n' !in c
    ensures var ls := Lines(a + "\n" + b + "\n" + c + "\n" + rest);
      |ls| >= 3 && ls[2] == c + "\n"
  {
    var tail := c + "\n" + rest;
    var body := a + "\n" + b + "\n" + c + "\n" + rest;
    assert body == a + "\n" + (b + "\n" + tail);
    LinesOf(a, b + "\n" + tail);
    LinesOf(b, tail);
    LinesOf(c, rest);
  }

  /** The line `Auth=<token>` yields the token. */
  lemma AuthLine(token: string)
    requires '=' !in token && Trimmed(token)
    ensures Strip(RemoveAll("Auth=" + token + "\n", "Auth=")) == token
  {
    assert "Auth=" + token + "\n" == "Auth=" + (token + "\n");
    RemoveAllLeading("Auth=", token + "\n");
    assert '=' !in token + "\n";
    NoEqualsNoAuth(token + "\n");
    RemoveAllAbsent(token + "\n", "Auth=");
    StripLine(token);
  }

  /** The token occupies the third line as `Auth=<token>`: a token free of `=`
      and of blank space at either end is read back exactly. */
  lemma TokenOfReply(sid: string, lsid: string, token: string, rest: string)
    requires '\n' !in sid && '\n' !in lsid && '\n' !in token
    requires '=' !in token && Trimmed(token)
    ensures ExtractToken(sid + "\n" + lsid + "\n" + "Auth=" + token + "\n" + rest) == Ok(token)
  {
    var third := "Auth=" + token;
    assert '\n' !in third by {
      forall i | 0 <= i < |third| ensures third[i] != '\n' {
        if i >= 5 { assert third[i] == token[i - 5]; }
      }
    }
    ThirdLine(sid, lsid, third, rest);
    assert sid + "\n" + lsid + "\n" + "Auth=" + token + "\n" + rest
        == sid + "\n" + lsid + "\n" + third + "\n" + rest;
    AuthLine(token);
  }

  /** Text without `=` contains no `Auth=`. */
  lemma {:induction false} NoEqualsNoAuth(s: string)
    requires '=' !in s
    ensures !Contains(s, "Auth=")
    decreases |s|
  {
    if |s| >= 5 {
      assert s[4] != '=';
      assert s[..5] != "Auth=" by { assert s[..5][4] == s[4]; }
    }
    if s != [] {
      NoEqualsNoAuth(s[1..]);
    }
  }
}
