/** The line-to-coordinate parse of the forwarder:
    `coord.strip('\n\r').split(',')` followed by the two-entry dictionary
    `{"lat": coord[0], "lng": coord[1]}`.  Lines are character sequences. */
module CoordinateParse {

  /** The only failure of the parse: indexing the second token of a line that
      split into a single token (Python's `IndexError`). */
  datatype ParseError = MalformedCoordinate

  datatype Result<+T> = Ok(value: T) | Err(error: ParseError)

  /** The form data handed to the HTTP post: a dictionary from key to token. */
  type Payload = map<string, string>

  const Comma: char := ','

  /** The character set given to `strip`. */
  predicate IsStripChar(c: char) {
    c == '\n' || c == '\r'
  }

  predicate AllStripChars(s: string) {
    forall k :: 0 <= k < |s| ==> IsStripChar(s[k])
  }

  /** Neither end of `s` is a character that `strip` would remove. */
  predicate Unpadded(s: string) {
    s == [] || (!IsStripChar(s[0]) && !IsStripChar(s[|s| - 1]))
  }

  // ---------------------------------------------------------------------------
  // strip('\n\r')
  // ---------------------------------------------------------------------------

  /** Scanning from `i`, the index of the first character that is not a
      newline or carriage return (or the end of the line). */
  function StripStart(s: string, i: nat): (e: nat)
    requires i <= |s|
    ensures i <= e <= |s|
    ensures forall k :: i <= k < e ==> IsStripChar(s[k])
    ensures e == |s| || !IsStripChar(s[e])
    decreases |s| - i
  {
    if i < |s| && IsStripChar(s[i]) then StripStart(s, i + 1) else i
  }

  /** Scanning back from `j`, but not below `lo`, the index just after the
      last character that is not a newline or carriage return. */
  function StripEnd(s: string, lo: nat, j: nat): (e: nat)
    requires lo <= j <= |s|
    ensures lo <= e <= j
    ensures forall k :: e <= k < j ==> IsStripChar(s[k])
    ensures e == lo || !IsStripChar(s[e - 1])
    decreases j
  {
    if j > lo && IsStripChar(s[j - 1]) then StripEnd(s, lo, j - 1) else j
  }

  /** Python's two-sided `str.strip('\n\r')`: the leading run is skipped, then
      the trailing run of what is left; neither end of the result is a newline
      or carriage-return character. */
  function Strip(s: string): (r: string)
    ensures Unpadded(r)
    ensures |r| <= |s|
  {
    var i := StripStart(s, 0);
    s[i..StripEnd(s, i, |s|)]
  }

  /** The stripped line is a contiguous slice of the line, and only newline and
      carriage-return characters lie outside it on either side. */
  lemma StripSlice(s: string)
    ensures exists i, j :: 0 <= i <= j <= |s| && Strip(s) == s[i..j]
                        && (forall k :: 0 <= k < i ==> IsStripChar(s[k]))
                        && (forall k :: j <= k < |s| ==> IsStripChar(s[k]))
  {
    var i := StripStart(s, 0);
    var j := StripEnd(s, i, |s|);
    assert Strip(s) == s[i..j];
  }

  /** `StripStart` stops exactly at the first character outside the run. */
  lemma {:induction false} StripStartAt(s: string, i: nat, e: nat)
    requires i <= e <= |s|
    requires forall k :: i <= k < e ==> IsStripChar(s[k])
    requires e == |s| || !IsStripChar(s[e])
    ensures StripStart(s, i) == e
    decreases e - i
  {
    if i < e {
      StripStartAt(s, i + 1, e);
    }
  }

  /** `StripEnd` stops exactly after the last character outside the run. */
  lemma {:induction false} StripEndAt(s: string, lo: nat, j: nat, e: nat)
    requires lo <= e <= j <= |s|
    requires forall k :: e <= k < j ==> IsStripChar(s[k])
    requires e == lo || !IsStripChar(s[e - 1])
    ensures StripEnd(s, lo, j) == e
    decreases j - e
  {
    if e < j {
      StripEndAt(s, lo, j - 1, e);
    }
  }

  /** Reference characterisation of `strip`: a line made of a run of strip
      characters, an unpadded middle and another run of strip characters
      strips to exactly that middle, whatever the middle holds inside. */
  lemma StripExactly(p: string, m: string, q: string)
    requires AllStripChars(p) && AllStripChars(q) && Unpadded(m)
    ensures Strip(p + m + q) == m
  {
    var s := p + m + q;
    if m == [] {
      StripStartAt(s, 0, |s|);
      StripEndAt(s, |s|, |s|, |s|);
    } else {
      StripStartAt(s, 0, |p|);
      StripEndAt(s, |p|, |s|, |p| + |m|);
      assert s[|p|..|p| + |m|] == m;
    }
  }

  /** Stripping twice is the same as stripping once. */
  lemma StripIdempotent(s: string)
    ensures Strip(Strip(s)) == Strip(s)
  {
    var m := Strip(s);
    assert [] + m + [] == m;
    StripExactly([], m, []);
  }

  // ---------------------------------------------------------------------------
  // split(',')
  // ---------------------------------------------------------------------------

  function CommaCount(s: string): nat {
    if s == [] then 0 else (if s[0] == Comma then 1 else 0) + CommaCount(s[1..])
  }

  /** Puts the tokens back together with `,` between neighbours. */
  function Join(tokens: seq<string>): string
    requires |tokens| >= 1
  {
    if |tokens| == 1 then tokens[0] else tokens[0] + [Comma] + Join(tokens[1..])
  }

  /** Python's `str.split(',')`: there is always at least one token, one more
      than there are commas, no token holds a comma, and joining the tokens
      with `,` gives back the line. Tokens are not trimmed or converted. */
  function Split(s: string): (tokens: seq<string>)
    ensures |tokens| == CommaCount(s) + 1
    ensures forall t :: t in tokens ==> Comma !in t
    ensures Join(tokens) == s
  {
    if s == [] then [[]]
    else
      var rest := Split(s[1..]);
      if s[0] == Comma then
        assert Join([[]] + rest) == [Comma] + Join(rest) by {
          assert ([[]] + rest)[1..] == rest;
        }
        [[]] + rest
      else
        var tokens := [[s[0]] + rest[0]] + rest[1..];
        assert tokens[1..] == rest[1..];
        assert Join(tokens) == [s[0]] + Join(rest);
        tokens
  }

  /** A comma-free line is a single token. */
  lemma {:induction false} SplitNoComma(a: string)
    requires Comma !in a
    ensures Split(a) == [a]
  {
    if a != [] {
      SplitNoComma(a[1..]);
    }
  }

  /** The first comma of a line ends its first token. */
  lemma {:induction false} SplitFirstComma(a: string, b: string)
    requires Comma !in a
    ensures Split(a + [Comma] + b) == [a] + Split(b)
  {
    if a == [] {
      assert (a + [Comma] + b)[1..] == b;
    } else {
      assert (a + [Comma] + b)[1..] == a[1..] + [Comma] + b;
      SplitFirstComma(a[1..], b);
      assert [a[0]] + a[1..] == a;
      assert ([a[1..]] + Split(b))[1..] == Split(b);
    }
  }

  /** `split` is the inverse of joining comma-free tokens. */
  lemma {:induction false} SplitJoin(tokens: seq<string>)
    requires |tokens| >= 1
    requires forall t :: t in tokens ==> Comma !in t
    ensures Split(Join(tokens)) == tokens
  {
    if |tokens| == 1 {
      SplitNoComma(tokens[0]);
    } else {
      SplitJoin(tokens[1..]);
      SplitFirstComma(tokens[0], Join(tokens[1..]));
    }
  }

  // ---------------------------------------------------------------------------
  // {"lat": coord[0], "lng": coord[1]}
  // ---------------------------------------------------------------------------

  /** Builds the two-entry dictionary from the first two tokens; indexing the
      second token fails when there is only one. Later tokens are ignored. */
  function BuildPayload(tokens: seq<string>): (r: Result<Payload>)
    ensures r.Ok? <==> |tokens| >= 2
    ensures r.Ok? ==>
              r.value.Keys == {"lat", "lng"} && r.value["lat"] == tokens[0] && r.value["lng"] == tokens[1]
  {
    if |tokens| < 2 then Err(MalformedCoordinate)
    else Ok(map["lat" := tokens[0], "lng" := tokens[1]])
  }

  /** One raw serial line to its payload: the parse fails exactly when the
      stripped line holds no comma, and a payload always has exactly the keys
      `lat` and `lng`. */
  function ParseLine(line: string): (r: Result<Payload>)
    ensures r.Ok? <==> Comma in Strip(line)
    ensures r.Ok? ==> r.value.Keys == {"lat", "lng"}
  {
    CommaCountZero(Strip(line));
    BuildPayload(Split(Strip(line)))
  }

  /** A line has no comma exactly when its comma count is zero. */
  lemma {:induction false} CommaCountZero(s: string)
    ensures CommaCount(s) == 0 <==> Comma !in s
  {
    if s != [] {
      CommaCountZero(s[1..]);
      assert s == [s[0]] + s[1..];
    }
  }

  /** A raw line holding no comma at all fails to build a payload, whatever
      newline characters surround it. */
  lemma NoCommaFails(line: string)
    requires Comma !in line
    ensures ParseLine(line) == Err(MalformedCoordinate)
  {
    var i := StripStart(line, 0);
    var j := StripEnd(line, i, |line|);
    assert Strip(line) == line[i..j];
    forall k | 0 <= k < j - i ensures line[i..j][k] != Comma {
      assert line[i..j][k] == line[i + k];
    }
  }

  /** A line written as `lat , lng rest`, where `rest` is empty or starts at the
      second comma, splits into `lat`, `lng` and at least one more token
      exactly when `rest` is not empty. */
  lemma {:induction false} SplitFields(m: string, lat: string, lng: string, rest: string)
    requires m == lat + [Comma] + lng + rest
    requires Comma !in lat && Comma !in lng
    requires rest == [] || rest[0] == Comma
    ensures |Split(m)| >= 2 && Split(m)[0] == lat && Split(m)[1] == lng
    ensures |Split(m)| > 2 <==> rest != []
  {
    assert m == lat + [Comma] + (lng + rest);
    SplitFirstComma(lat, lng + rest);
    if rest == [] {
      assert lng + rest == lng;
      SplitNoComma(lng);
    } else {
      assert lng + rest == lng + [Comma] + rest[1..];
      SplitFirstComma(lng, rest[1..]);
    }
  }

  /** With the stripped line written as `lat , lng rest`, where `rest` is empty
      or starts at the second comma, the payload is `{lat, lng}`: `lat` is the
      text before the first comma, `lng` the text up to the second comma or the
      end, and everything from the second comma on is ignored. */
  lemma ParseLineFields(line: string, lat: string, lng: string, rest: string)
    requires Strip(line) == lat + [Comma] + lng + rest
    requires Comma !in lat && Comma !in lng
    requires rest == [] || rest[0] == Comma
    ensures ParseLine(line) == Ok(map["lat" := lat, "lng" := lng])
  {
    SplitFields(Strip(line), lat, lng, rest);
  }

  /** A well-formed line `<a>,<b>` with any run of `\r`/`\n` before and
      after it yields `{lat: a, lng: b}` with the tokens untouched, provided `a`
      does not begin and `b` does not end with one of the stripped characters. */
  lemma WellFormedLine(lead: string, a: string, b: string, terminator: string)
    requires Comma !in a && Comma !in b
    requires a == [] || !IsStripChar(a[0])
    requires b == [] || !IsStripChar(b[|b| - 1])
    requires AllStripChars(lead) && AllStripChars(terminator)
    ensures ParseLine(lead + a + [Comma] + b + terminator) == Ok(map["lat" := a, "lng" := b])
  {
    var m := a + [Comma] + b;
    assert lead + m + terminator == lead + a + [Comma] + b + terminator;
    StripExactly(lead, m, terminator);
    assert m == a + [Comma] + b + [];
    ParseLineFields(lead + m + terminator, a, b, []);
  }

  /** A line without a comma, with any run of `\r`/`\n` around it, fails to
      build a payload. */
  lemma NoCommaLine(lead: string, body: string, terminator: string)
    requires Comma !in body && Unpadded(body)
    requires AllStripChars(lead) && AllStripChars(terminator)
    ensures ParseLine(lead + body + terminator) == Err(MalformedCoordinate)
  {
    StripExactly(lead, body, terminator);
    SplitNoComma(body);
  }

  /** Tokens after the second are ignored: a line `<a>,<b>,<more>` followed by
      a run of `\r`/`\n` still yields `{lat: a, lng: b}`. */
  lemma ExtraTokensIgnored(a: string, b: string, rest: string, terminator: string)
    requires Comma !in a && Comma !in b
    requires a == [] || !IsStripChar(a[0])
    requires rest != [] && rest[0] == Comma && !IsStripChar(rest[|rest| - 1])
    requires AllStripChars(terminator)
    ensures ParseLine(a + [Comma] + b + rest + terminator) == Ok(map["lat" := a, "lng" := b])
  {
    var m := a + [Comma] + b + rest;
    assert [] + m + terminator == m + terminator;
    StripExactly([], m, terminator);
    ParseLineFields(m + terminator, a, b, rest);
  }

  /** `"1.5,2.5\n"` posts lat `"1.5"` and lng `"2.5"`. */
  lemma ExampleDecimal()
    ensures ParseLine("1.5,2.5\n") == Ok(map["lat" := "1.5", "lng" := "2.5"])
  {
    assert "1.5,2.5\n" == [] + "1.5" + [Comma] + "2.5" + "\n";
    WellFormedLine([], "1.5", "2.5", "\n");
  }

  /** `"1,2,3\n"` posts lat `"1"` and lng `"2"`; the third token is ignored. */
  lemma ExampleExtraToken()
    ensures ParseLine("1,2,3\n") == Ok(map["lat" := "1", "lng" := "2"])
  {
    assert "1,2,3\n" == "1" + [Comma] + "2" + ",3" + "\n";
    ExtraTokensIgnored("1", "2", ",3", "\n");
  }

  /** `"garbage\n"` fails to build a payload. */
  lemma ExampleNoComma()
    ensures ParseLine("garbage\n") == Err(MalformedCoordinate)
  {
    assert "garbage\n" == [] + "garbage" + "\n";
    NoCommaLine([], "garbage", "\n");
  }

  /** A bare line terminator fails to build a payload. */
  lemma ExampleBareNewline()
    ensures ParseLine("\n") == Err(MalformedCoordinate)
  {
    assert "\n" == [] + [] + "\n";
    NoCommaLine([], [], "\n");
  }

  /** The strip is two-sided: leading newline characters go too. */
  lemma ExampleLeadingNewline()
    ensures ParseLine("\r\n10.0,20.0\r\n") == Ok(map["lat" := "10.0", "lng" := "20.0"])
  {
    assert "\r\n10.0,20.0\r\n" == "\r\n" + "10.0" + [Comma] + "20.0" + "\r\n";
    WellFormedLine("\r\n", "10.0", "20.0", "\r\n");
  }
}
