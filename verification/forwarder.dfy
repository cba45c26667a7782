/** The forwarding loop `read line -> parse -> post`, run over a finite
    sequence of serial lines. Running out of lines stands for the device
    going away: the real loop never ends by itself. */
module Forwarder {
  import opened CoordinateParse

  /** Why the loop stopped: the serial input ended, or the line with the
      given index (counting from 0) did not hold a coordinate pair. */
  datatype Stop = Disconnected | Malformed(line: nat)

  /** The payloads handed to the HTTP post, in order, and how the run ended. */
  datatype Trace = Trace(posted: seq<Payload>, stop: Stop)

  function Shift(stop: Stop, n: nat): Stop {
    match stop
    case Disconnected => Disconnected
    case Malformed(k) => Malformed(k + n)
  }

  /** `t` is a faithful account of a run over `lines`: every line before the
      stop was parsed and its payload posted, in order; the run stopped either
      after the last line or at the first line whose payload cannot be built,
      and posted nothing for it. */
  predicate Accounts(parse: string -> Result<Payload>, lines: seq<string>, t: Trace) {
    && |t.posted| <= |lines|
    && (forall k :: 0 <= k < |t.posted| ==> parse(lines[k]) == Ok(t.posted[k]))
    && (t.stop == Disconnected ==> |t.posted| == |lines|)
    && (t.stop.Malformed? ==>
          t.stop.line == |t.posted| < |lines| && parse(lines[|t.posted|]).Err?)
  }

  /** What the loop posts for a finite input, given the per-line parse. The
      loop itself uses `ParseLine`; keeping the parse a parameter here keeps
      these proofs independent of its definition. */
  function Forward(parse: string -> Result<Payload>, lines: seq<string>): (t: Trace)
    ensures |t.posted| <= |lines|
    ensures t.stop == Disconnected ==> |t.posted| == |lines|
    ensures t.stop.Malformed? ==> t.stop.line == |t.posted| < |lines|
  {
    if lines == [] then Trace([], Disconnected)
    else
      match parse(lines[0])
      case Err(_) => Trace([], Malformed(0))
      case Ok(p) =>
        var rest := Forward(parse, lines[1..]);
        Trace([p] + rest.posted, Shift(rest.stop, 1))
  }

  /** One payload per line in input order, up to the first line whose payload
      cannot be built; that line and every later one post nothing, and the
      run ends there. */
  lemma {:induction false} ForwardAccounts(parse: string -> Result<Payload>, lines: seq<string>)
    ensures Accounts(parse, lines, Forward(parse, lines))
  {
    if lines != [] && parse(lines[0]).Ok? {
      var rest := Forward(parse, lines[1..]);
      ForwardAccounts(parse, lines[1..]);
      var t := Forward(parse, lines);
      forall k | 1 <= k < |t.posted| ensures parse(lines[k]) == Ok(t.posted[k]) {
        assert lines[k] == lines[1..][k - 1];
        assert t.posted[k] == rest.posted[k - 1];
      }
      if t.stop.Malformed? {
        assert lines[|t.posted|] == lines[1..][|rest.posted|];
      }
    }
  }

  /** The account pins the run down: any trace that posts every line's
      payload in order and stops where the first bad line is (or at the end)
      is the one `Forward` gives. */
  lemma ForwardUnique(parse: string -> Result<Payload>, lines: seq<string>, t: Trace)
    requires Accounts(parse, lines, t)
    ensures Forward(parse, lines) == t
  {
    var f := Forward(parse, lines);
    ForwardAccounts(parse, lines);
    assert |f.posted| == |t.posted|;
    assert f.posted == t.posted;
  }

  /** Runs the loop over `lines`: each iteration reads the next line, builds
      its payload and posts it; a line without a coordinate pair ends the run
      before anything more is posted. */
  method Run(lines: seq<string>) returns (posted: seq<Payload>, stop: Stop)
    ensures Trace(posted, stop) == Forward(ParseLine, lines)
  {
    posted := [];
    var i := 0;
    while i < |lines|
      invariant i <= |lines| && |posted| == i
      invariant forall k :: 0 <= k < i ==> ParseLine(lines[k]) == Ok(posted[k])
    {
      var coord := ParseLine(lines[i]);
      if coord.Err? {
        stop := Malformed(i);
        ForwardUnique(ParseLine, lines, Trace(posted, stop));
        return;
      }
      posted := posted + [coord.value];
      i := i + 1;
    }
    stop := Disconnected;
    ForwardUnique(ParseLine, lines, Trace(posted, stop));
  }

  /** Posting is incremental: once a block of well-formed lines has been read,
      their payloads are posted whatever the device sends afterwards, and the
      rest of the run is the run over the remaining lines. */
  lemma {:induction false} ForwardAppend(parse: string -> Result<Payload>, done: seq<string>, more: seq<string>)
    requires forall k :: 0 <= k < |done| ==> parse(done[k]).Ok?
    ensures Forward(parse, done + more).posted == Forward(parse, done).posted + Forward(parse, more).posted
    ensures Forward(parse, done + more).stop == Shift(Forward(parse, more).stop, |done|)
  {
    if done == [] {
      assert done + more == more;
    } else {
      var all := done + more;
      assert all[0] == done[0] && all[1..] == done[1..] + more;
      ForwardAppend(parse, done[1..], more);
      ForwardStep(parse, done);
      ForwardStep(parse, all);
      var p, a, b := parse(done[0]).value, Forward(parse, done[1..]).posted, Forward(parse, more).posted;
      assert [p] + (a + b) == [p] + a + b;
    }
  }

  /** One iteration over a well-formed first line: its payload is posted, then
      the run continues over the remaining lines. */
  lemma ForwardStep(parse: string -> Result<Payload>, lines: seq<string>)
    requires lines != [] && parse(lines[0]).Ok?
    ensures Forward(parse, lines).posted == [parse(lines[0]).value] + Forward(parse, lines[1..]).posted
    ensures Forward(parse, lines).stop == Shift(Forward(parse, lines[1..]).stop, 1)
  {
  }

  /** The end-to-end scenario: one well-formed line, then the device goes
      away; exactly that line's payload is posted and the run ends
      disconnected. */
  lemma OneLineThenDisconnect(line: string)
    requires ParseLine(line).Ok?
    ensures Forward(ParseLine, [line]) == Trace([ParseLine(line).value], Disconnected)
  {
    ForwardUnique(ParseLine, [line], Trace([ParseLine(line).value], Disconnected));
  }

  /** The device sends `"10.0,20.0\n"` and goes away: exactly one payload,
      `{lat: "10.0", lng: "20.0"}`, is posted and the run ends disconnected. */
  lemma ExampleEndToEnd()
    ensures Forward(ParseLine, ["10.0,20.0\n"]) == Trace([map["lat" := "10.0", "lng" := "20.0"]], Disconnected)
  {
    assert "10.0,20.0\n" == [] + "10.0" + [Comma] + "20.0" + "\n";
    WellFormedLine([], "10.0", "20.0", "\n");
    OneLineThenDisconnect("10.0,20.0\n");
  }

  /** A malformed line ends the run: after a block of well-formed lines, a
      line whose payload cannot be built stops it there; the payloads of the
      block are all that is posted, and nothing after the bad line is read. */
  lemma StopsAtFirstBadLine(good: seq<string>, bad: string, later: seq<string>)
    requires forall k :: 0 <= k < |good| ==> ParseLine(good[k]).Ok?
    requires ParseLine(bad).Err?
    ensures Forward(ParseLine, good + [bad] + later) == Trace(Forward(ParseLine, good).posted, Malformed(|good|))
  {
    assert good + [bad] + later == good + ([bad] + later);
    ForwardAppend(ParseLine, good, [bad] + later);
    assert ([bad] + later)[0] == bad;
    assert Forward(ParseLine, good + []).posted == Forward(ParseLine, good).posted + Forward(ParseLine, []).posted by {
      ForwardAppend(ParseLine, good, []);
      assert good + [] == good;
    }
  }
}
