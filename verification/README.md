# GPS tracker coordinate forwarder — Dafny model

The forwarder reads newline-terminated lines of the form `<lat>,<lng>` from an
Arduino's serial port and posts each one, as the form fields `lat` and `lng`,
to a fixed HTTP endpoint, forever. Its only logic is the per-line parse
`coord.strip('\n\r').split(',')` followed by the dictionary
`{"lat": coord[0], "lng": coord[1]}`, and the loop that reads, parses and posts.

This project models:

- `coordinate_parse.dfy` (module `CoordinateParse`): Python's two-sided
  `str.strip('\n\r')` (`StripStart`, `StripEnd`, `Strip`: a scan from the
  left, then a scan from the right that stops where the first one ended),
  `str.split(',')` (`Split`, with its inverse `Join`), and the payload construction
  (`BuildPayload`, `ParseLine`), whose `IndexError` on a one-token line is the
  `Err(MalformedCoordinate)` result. Lines are `seq<char>`; tokens stay text.
- `forwarder.dfy` (module `Forwarder`): the read → parse → post loop over a
  finite sequence of lines. `Forward` is the specification of a run (the
  payloads posted, in order, and why the run stopped); `Run` is the loop
  itself, proved to produce exactly `Forward(ParseLine, lines)`. The end of the
  finite input stands for the serial device going away (`Disconnected`); a
  line whose payload cannot be built ends the run (`Malformed(i)`), since the
  script does not catch the `IndexError`.

The strip is two-sided: leading `\n`/`\r` are removed as well as trailing
ones, so `"\r\n10.0,20.0\r\n"` parses to its coordinates
(`ExampleLeadingNewline`).

## Model

| member | source | states |
|---|---|---|
| CoordinateParse.StripStart | arduinoSerialPost.py:10 | scanning forward from a position stops at the first character that is not `\n`/`\r` (or the end), having passed only `\n`/`\r` |
| CoordinateParse.StripEnd | arduinoSerialPost.py:10 | scanning backward, never below the start found for the leading run, stops just after the last character that is not `\n`/`\r`, having passed only `\n`/`\r` |
| CoordinateParse.Strip | arduinoSerialPost.py:10 | the stripped line neither starts nor ends with `\n` or `\r`, and is no longer than the raw line |
| CoordinateParse.StripSlice | arduinoSerialPost.py:10 | the stripped line is a contiguous slice of the raw line, and only `\n`/`\r` lie outside it on either side |
| CoordinateParse.StripStartAt | arduinoSerialPost.py:10 | the forward scan stops exactly at the first character outside the leading run |
| CoordinateParse.StripEndAt | arduinoSerialPost.py:10 | the backward scan stops exactly after the last character outside the trailing run |
| CoordinateParse.StripExactly | arduinoSerialPost.py:10 | a line made of a run of `\n`/`\r`, a middle not starting or ending with them, and another run strips to exactly that middle; interior `\n`, `\r`, spaces and tabs are untouched |
| CoordinateParse.StripIdempotent | arduinoSerialPost.py:10 | stripping an already stripped line changes nothing |
| CoordinateParse.Split | arduinoSerialPost.py:10 | splitting yields at least one token, exactly one more than the number of commas, no token contains a comma, and joining the tokens with `,` gives back the line |
| CoordinateParse.SplitNoComma | arduinoSerialPost.py:10 | a comma-free line, the empty line included, splits into the one token that is the line itself |
| CoordinateParse.SplitFirstComma | arduinoSerialPost.py:10 | the text before the first comma is the first token and the rest of the line splits on its own |
| CoordinateParse.SplitJoin | arduinoSerialPost.py:10 | splitting the comma-join of any non-empty list of comma-free tokens gives that list back |
| CoordinateParse.SplitFields | arduinoSerialPost.py:10 | the first token is the text before the first comma and the second the text up to the second comma or the end of the line, and there is a third token exactly when something follows the second field |
| CoordinateParse.CommaCountZero | arduinoSerialPost.py:10 | the comma count is zero exactly when the line holds no comma |
| CoordinateParse.BuildPayload | arduinoSerialPost.py:11 | building the payload succeeds exactly when there are at least two tokens, and then has exactly the keys `lat` and `lng`, bound to the first and second tokens |
| CoordinateParse.ParseLine | arduinoSerialPost.py:10-11 | parsing a raw line fails (the `IndexError`) exactly when the stripped line holds no comma; a successful payload has exactly the keys `lat` and `lng` |
| CoordinateParse.NoCommaFails | arduinoSerialPost.py:10-11 | any raw line holding no comma fails with `MalformedCoordinate`, whatever surrounds it |
| CoordinateParse.ParseLineFields | arduinoSerialPost.py:10-11 | lat is the text before the first comma, lng the text up to the second comma or the end of the stripped line, and everything from the second comma on is ignored |
| CoordinateParse.WellFormedLine | arduinoSerialPost.py:10-11 | any line `<a>,<b>` with runs of `\r`/`\n` before and after yields `{lat: a, lng: b}` with `a` and `b` neither trimmed nor converted, when `a` does not start and `b` does not end with `\n`/`\r` |
| CoordinateParse.NoCommaLine | arduinoSerialPost.py:10-11 | a line holding no comma, with any runs of `\r`/`\n` around it, fails with `MalformedCoordinate` |
| CoordinateParse.ExtraTokensIgnored | arduinoSerialPost.py:10-11 | a line `<a>,<b>,<more>` followed by a run of `\r`/`\n` yields `{lat: a, lng: b}` when `a` does not start and `<more>` does not end with `\n`/`\r`: tokens after the second are ignored, not an error |
| CoordinateParse.ExampleDecimal | arduinoSerialPost.py:10-11 | `"1.5,2.5\n"` yields `{lat: "1.5", lng: "2.5"}` |
| CoordinateParse.ExampleExtraToken | arduinoSerialPost.py:10-11 | `"1,2,3\n"` yields `{lat: "1", lng: "2"}` |
| CoordinateParse.ExampleNoComma | arduinoSerialPost.py:10-11 | `"garbage\n"` fails with `MalformedCoordinate` |
| CoordinateParse.ExampleBareNewline | arduinoSerialPost.py:10-11 | a bare `"\n"` fails with `MalformedCoordinate` |
| CoordinateParse.ExampleLeadingNewline | arduinoSerialPost.py:10-11 | leading `\r\n` is stripped as well as trailing: `"\r\n10.0,20.0\r\n"` yields `{lat: "10.0", lng: "20.0"}` |
| Forwarder.Forward | arduinoSerialPost.py:8-13 | a run posts at most one payload per line; it ends disconnected only after posting for every line, and a malformed stop names the line just after the last one posted; the full account (each payload is its line's parse, the stop line fails) is `ForwardAccounts`, and `ForwardUnique` shows that account determines the run |
| Forwarder.ForwardAccounts | arduinoSerialPost.py:8-13 | a run posts one payload per line in input order, each the parse of its line; it stops either after the last line or at the first line whose payload cannot be built, and posts nothing for that line or any later one |
| Forwarder.ForwardUnique | arduinoSerialPost.py:8-13 | any trace that posts each line's payload in order and stops at the first bad line (or at the end) is the run `Forward` describes |
| Forwarder.Run | arduinoSerialPost.py:8-13 | the loop posts exactly the payloads, and stops for exactly the reason, that `Forward` gives for its input |
| Forwarder.ForwardStep | arduinoSerialPost.py:8-13 | one iteration over a well-formed line posts its payload and continues with the remaining lines |
| Forwarder.ForwardAppend | arduinoSerialPost.py:8-13 | once a block of well-formed lines has been read, their payloads are posted whatever follows, and the rest of the run is the run over the remaining lines |
| Forwarder.OneLineThenDisconnect | arduinoSerialPost.py:8-13 | one well-formed line followed by disconnection posts exactly that line's payload and ends disconnected |
| Forwarder.ExampleEndToEnd | arduinoSerialPost.py:8-13 | the device sending `"10.0,20.0\n"` and then going away posts exactly `{lat: "10.0", lng: "20.0"}` and the run ends disconnected |
| Forwarder.StopsAtFirstBadLine | arduinoSerialPost.py:8-13 | after a block of well-formed lines, a line without a coordinate pair ends the run at that line; only the block's payloads are posted, and no later line is posted |

## Left out

- Opening the serial device `/dev/tty.usbmodem1451` at 115200 baud (arduinoSerialPost.py:4): hardware I/O.
- `ser.readline()` (arduinoSerialPost.py:9): its blocking, timing and disconnect behaviour are not modelled; the model takes the lines read as a finite sequence and treats its end as the device going away.
- `requests.post` (arduinoSerialPost.py:6, 13): form-urlencoding, network failures and the ignored HTTP status belong to a foreign library and the network; only the payload handed to it is modelled, as an element of `posted`.
- The two `print` statements (arduinoSerialPost.py:12, 14): console output with no effect on behaviour.
- Non-termination of `while True` (arduinoSerialPost.py:8): only finite inputs are modelled.
- Python 2 byte strings: lines are sequences of characters, with no decoding.
- `Forward` takes the per-line parse as a parameter, which `Run`, `OneLineThenDisconnect` and `StopsAtFirstBadLine` fix to `ParseLine`; its properties are stated by `ForwardAccounts` and `ForwardUnique`.
- Determinism of the parse is not stated as a lemma: every member of `CoordinateParse` is a function, so the same line always yields the same payload by construction.
