# kvr_appoint_finder_go — a Dafny model of the appointment check

The program asks the Munich immigration office's booking portal whether an emergency
appointment ("Notfalltermin UA 35") is free. It fetches the landing page and reads the
anti-forgery form token and, when present, a FriendlyCaptcha site key. It has the CAPTCHA
solved by an external service, polling `getTaskResult` until the task is done. It posts the
search form with both tokens. It then pulls the JSON held in `var jsonAppoints = '...'` out of
the reply and reports whether any date in `LOADBALANCER.appoints` has a slot.

The model covers the logic under that HTTP plumbing, one module per concern:

- `Extraction`: the regex search for the payload, written as a direct search over the text.
  `ClosesAt(body, i, j)` states when the pattern matches at `i` with its closing quote at
  `j`. `Extract` returns the capture of the leftmost such match.
- `Appointments`: the availability check over the decoded payload. Go's random map order is
  modelled by an arbitrary choice of the next date. `FirstHit` is the same loop over an
  explicit order.
- `Solver`: classifying the solver's replies, and the poll loop over a finite script of rounds.
- `Form`: the posted form (`url.Values` as a map from key to list of values).
- `Pipeline`: the stage ordering of `main`. It returns the run's result and the trace of
  requests sent, in order.
- `JsonValue`, `Requests`, `Wrappers`: decoded JSON values, the request trace, Option/Result.

Behaviours of the code the model keeps:

- Without a CAPTCHA site key the code posts no form. It reads the landing page's body again,
  after the HTML parser has already consumed it (main.go:84-96). `Landing.unreadBody` stands
  for whatever that second read returns.
- The code always sets `frc-captcha-solution`, even to an empty token. It builds the form only
  after a token was obtained.
- The check returns a bool and only prints the date. The model's `Verdict` keeps the date
  as well.
- There is no timeout or cancellation: the poll loop never stops by itself. Over a finite
  script, running out of rounds is reported as `Unfinished` / `StillPolling`.
- The `errorId` of the createTask reply is never checked (main.go:162-165). Polling starts
  with whatever `taskId` was decoded.
- A payload whose slot values are not all arrays can end in a verdict or in a panic,
  depending on the map's iteration order (`OrderDecidesWithMixedSlots`).

## Model

| member | source | states |
|---|---|---|
| `Form.CreateFormData` | main.go:246-253 | The form has exactly the four keys `FRM_CASETYPES_token`, `step`, `CASETYPES[Notfalltermin UA 35]`, `frc-captcha-solution`, each with one value. `url.Values.Get` returns the form token, `WEB_APPOINT_SEARCH_BY_CASETYPES`, `"1"` and the CAPTCHA token, even when that token is empty. |
| `Form.FormDataInjective` | main.go:246-253 | Two forms are equal only when both token pairs are equal: the form carries both tokens unaltered. |
| `Extraction.CloseFrom` | main.go:256 | The capture that begins at `k` closes at the first quote after `k` with no line feed before it. It yields nothing when a line feed or the end of the text comes before any quote. |
| `Extraction.Locate` | main.go:256-257 | The result is a match at or after `i` with no match starting between `i` and it. None means no match starts at or after `i`. |
| `Extraction.Extract` | main.go:255-263 | Fails exactly when no occurrence of the marker is followed by a closing quote on the same line. On success the result holds no quote and no line feed, and it is the capture of the leftmost match. |
| `Extraction.ExtractLeftmost` | main.go:256-262 | Whatever the leftmost match is, `Extract` returns the text between its marker and its closing quote. |
| `Extraction.ExtractAfterDeadPrefix` | main.go:256-257 | After a prefix in which no match starts, the result is that of the rest of the text. |
| `Extraction.ExtractSkipsSettledPrefix` | main.go:256-257 | Marker occurrences whose capture is cut by a line feed are skipped. The search moves on to the text that follows. |
| `Extraction.ExtractWrapped` | main.go:256-262 | For `p + "var jsonAppoints = '" + s + "'" + q`, the result is exactly `s`, whatever `q` holds. This needs `p` to hold no usable marker and `s` to hold no quote or line feed. |
| `Appointments.FirstHit` | main.go:282-288 | Over a given order of dates, the result is never fatal. The deciding date is the first one in the order whose slots are not an empty array: `Available(d)` when it has a non-empty slot array, `SlotsNotArray(d)` when its slots are not an array. `Unavailable` holds exactly when every date visited has an empty array. |
| `Appointments.FirstHitSkipsEmpty` | main.go:282-288 | Dates with empty slot arrays visited first do not change the outcome. |
| `Appointments.VerdictIndependentOfOrder` | main.go:282-288 | When every slot value is an array, every iteration order gives a verdict, never a panic. That verdict is true exactly when some date has a slot. |
| `Appointments.OrderDecidesWithMixedSlots` | main.go:282-286 | With one non-empty array and one non-array value, one order reports the date and the other panics. |
| `Appointments.OutcomeOfOrder` | main.go:282-288 | Take the outcome of any complete order. `Unavailable` holds exactly when all dates are empty, or there are none. `Available` names a date with a slot. |
| `Appointments.CheckAppointments` | main.go:265-289 | A payload that is not an object, or lacks an object `LOADBALANCER` or `appoints`, is fatal, never a negative verdict. Otherwise the outcome is the loop's outcome for some order that visits each date once. A positive answer names a date with slots, and a panic names a date whose slots are not an array. A negative answer holds exactly when every date's array is empty. With array-valued slots, the answer is true exactly when some date has a slot. |
| `Solver.ParseSolvedTaskResponse` | main.go:212-244 | Each decodable reply falls into exactly one class. A non-zero numeric `errorId` gives Error, whatever the status. `errorId` 0 with status "ready" gives Success, carrying `solution.token`. With status "processing" it gives Processing. With `errorId` 0 and a missing or non-string status, the type assertion panics. A missing or non-numeric `errorId`, or `errorId` 0 with another status, gives the unknown-format error. A struct that fails to decode gives an unmarshal error. |
| `Solver.ParseReply` | main.go:23-45 | The reply the service sends for Error (non-zero id), Success or Processing classifies back to that same task result. |
| `Solver.ErrorIdOverridesStatus` | main.go:219-226 | With a non-zero `errorId`, replacing the status by any value changes nothing. |
| `Solver.Step` | main.go:180-208 | A round continues the loop exactly when it is a reply classified as Processing. A failed POST, a failed `Close` and a reply that does not classify stop the loop with that failure. A Success reply stops it with its `solution.token`. An Error reply stops it fatally, with its code and description. A round decides `Solved` only on a Success reply and `Rejected` only on an Error reply, and no round decides "unfinished". |
| `Solver.Poll` | main.go:169-209 | At most one round per scripted reply is used. Every round before the last one used was Processing. The last one decides the outcome, unless every round is Processing: then nothing is produced and the whole script is used. |
| `Solver.PollStopsAtFirstDecision` | main.go:169-209 | The loop ends at the first deciding round, with its outcome, after exactly that many rounds. |
| `Solver.PollIgnoresLaterReplies` | main.go:192-204 | Once a round has decided, no later reply is polled or looked at. |
| `Solver.PollConsumesProcessing` | main.go:206-208 | Processing replies in front are consumed in order, one round each, before the rest of the script is looked at. |
| `Solver.PollTaskResult` | main.go:169-209 | The loop returns the outcome of `Poll`. It sends one getTaskResult request carrying the task id per round used. |
| `Solver.SolveCaptcha` | main.go:134-210 | A failed createTask ends solving. Otherwise polling gives the outcome, whatever errorId createTask reported. The requests are createTask, then the polls. A token is returned exactly when the first deciding round is a Success. |
| `Pipeline.Conclude` | main.go:103-113 | A missing payload marker and a payload without `LOADBALANCER.appoints` are fatal, and only those. A panic needs a date whose slots are not an array. When every slot value is an array, the result is a verdict, true exactly when some date has a slot. Every verdict fits the payload: a positive one names a date with a slot, a negative one means every date's array is empty. |
| `Pipeline.RunCheck` | main.go:56-114 | A failed landing fetch or a missing form token stops the run after the first request. Without a site key, only the landing page is fetched. The form is posted exactly when a site key exists and solving returned a token. The post is then the last request, after every solver request, and carries both tokens. Once solving started: the run is still polling exactly when the replies ran out; the POST fails exactly when solving succeeded and the POST got no reply; the CAPTCHA stage fails exactly on an Error reply or a failure other than the status panic; that panic ends the run as a panic. Once the result body is read, the run ends as the payload in that body decides, as for `Conclude`. |

## Left out

- HTTP, the cookie jar, headers and URLs (main.go:47-71, 116-132). These are network I/O. The requests appear only as entries of the `Request` trace.
- HTML parsing with goquery (main.go:73-79) is a foreign library. Its outputs are the `Landing` fields `siteKey` and `formToken`.
- JSON text is not parsed. `encoding/json` output comes in as `Option<Json>` (None: not well-formed), and the payload decoder is the parameter `decode`.
- JSON numbers are reals. A Go `int` field is taken to accept any integral value in the 64-bit range. Go rejects literals such as `1.0` or `1e3` there, and float64 rounding and overflow are not modelled.
- Go's case-insensitive matching of JSON keys to struct fields is not modelled. Struct fields are matched by their exact lower-case names.
- `url.Values.Encode` (main.go:120): its percent-encoding and key sorting are library behaviour. Only the key/value map is modelled.
- `time.Sleep`, the 5-second interval and the unbounded `for {}` (main.go:169-170): the loop runs over a finite script of rounds.
- `json.Marshal` of the request payloads (main.go:145-148, 175-179) cannot fail for those maps, so it is not modelled.
- `io.ReadAll` failures (main.go:96-101, 156-159) are folded into the inputs. The read error in the poll loop is overwritten by the `Close` error (main.go:185-186). The model follows that: the round sees whatever data was read, and only a failed `Close` stops it.
- The float fields `createTime`, `endTime`, `solveCount` (main.go:31-33) are unused. Only whether they decode is kept.
- Logging and `fmt` output. A `log.Fatalf` and a panic both end the run, and they are kept apart only as `Fatal` and `Panicked`.
- Go strings are bytes, and RE2's `.` also matches invalid UTF-8 as U+FFFD. The model searches a sequence of characters.
- Extraction.ExtractWrapped: the prefix condition is `Settled(p)` (every marker in `p` is cut by a line feed within `p`), slightly stronger than "p holds no match". A `p` ending in an unclosed marker followed by text would otherwise capture through the appended marker.
