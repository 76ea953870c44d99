/** The stage ordering of `main` (main.go:56-114): landing page, form token, CAPTCHA,
    form submission, payload extraction, verdict. The network, the HTML parser and the JSON
    text decoder are outside the model; what they yield comes in as parameters, and the
    requests the run sends come out as a trace. */
module Pipeline {
  import opened Wrappers
  import opened JsonValue
  import opened Requests
  import Form
  import Extraction
  import Appointments
  import Solver

  /** What goquery finds on the landing page (main.go:78-79), and what `io.ReadAll` later
      reads from that page's body at main.go:96 when no form was posted. */
  datatype Landing = Landing(siteKey: Option<string>, formToken: Option<string>, unreadBody: string)

  /** The stage whose `log.Fatalf` ends the run. */
  datatype Stage =
    | LandingUnavailable  // the GET or the HTML parse failed (main.go:67-76)
    | FormTokenMissing    // no FRM_CASETYPES_token input (main.go:80-82)
    | CaptchaUnsolved     // solveCaptcha failed or the solver rejected the task (main.go:86-88, 203)
    | SubmitFailed        // the form POST failed (main.go:91-93)
    | PayloadNotFound     // no `var jsonAppoints = '...'` in the body (main.go:104-106)
    | PayloadMalformed    // checkAppointments found no LOADBALANCER.appoints (main.go:268-280)

  /** How a run ends: a verdict (with the date printed when one was found), a fatal stage,
      a panic, or still polling when the scripted solver replies ran out. */
  datatype RunResult =
    | Verdict(found: bool, date: Option<string>)
    | Fatal(stage: Stage)
    | Panicked
    | StillPolling

  /** The body `main` reads at main.go:96: the reply to the form POST when a CAPTCHA was
      present (main.go:90 reassigns `resp`), otherwise what is left of the landing page's body. */
  function ResultBody(page: Landing, postReply: Option<string>): Option<string>
  {
    if page.siteKey.Some? then postReply else Some(page.unreadBody)
  }

  /** The search form was posted. */
  predicate Submitted(sent: seq<Request>)
  {
    exists k :: 0 <= k < |sent| && sent[k].SubmitForm?
  }

  /** A verdict read from `body` agrees with the payload found in it: the payload exists and
      has the LOADBALANCER.appoints object, a positive verdict names a date with a slot, and
      a negative one means every date's slot array is empty. */
  ghost predicate VerdictFits(body: string, decode: string -> Option<Json>, found: bool, date: Option<string>)
  {
    Extraction.Extract(body).Some?
    && var appoints := Appointments.Appoints(decode(Extraction.Extract(body).value));
       appoints.Success?
       && (found <==> date.Some?)
       && (found ==> date.value in appoints.value && Appointments.NonEmptySlots(appoints.value[date.value]))
       && (!found <==> forall d :: d in appoints.value ==> appoints.value[d] == JArr([]))
  }

  /** What the last stages of main (main.go:103-113) make of `body`: no payload and a
      payload without LOADBALANCER.appoints are fatal; a panic needs a date whose slots are
      not an array; a payload whose slot values are all arrays always gives a verdict, true
      exactly when some date has a slot; and every verdict fits the payload. */
  ghost predicate Concluded(body: string, decode: string -> Option<Json>, r: RunResult)
  {
    (r.Verdict? || r == Fatal(PayloadNotFound) || r == Fatal(PayloadMalformed) || r == Panicked)
    && (r == Fatal(PayloadNotFound) <==> Extraction.Extract(body).None?)
    && (r.Verdict? ==> VerdictFits(body, decode, r.found, r.date))
    && (Extraction.Extract(body).Some? ==>
          var appoints := Appointments.Appoints(decode(Extraction.Extract(body).value));
          (r == Fatal(PayloadMalformed) <==> appoints.Failure?)
          && (r == Panicked ==> appoints.Success? && exists d :: d in appoints.value && !appoints.value[d].JArr?)
          && (appoints.Success? && Appointments.AllSlotsArrays(appoints.value) ==>
                r.Verdict? && (r.found <==> Appointments.HasAvailability(appoints.value))))
  }

  /** The last stages of main: extract the payload and check it. */
  method Conclude(body: string, decode: string -> Option<Json>) returns (r: RunResult)
    ensures Concluded(body, decode, r)
  {
    var payload := Extraction.Extract(body);
    if payload.None? {
      return Fatal(PayloadNotFound);
    }
    var check := Appointments.CheckAppointments(decode(payload.value));
    match check {
      case Available(date) => r := Verdict(true, Some(date));
      case Unavailable => r := Verdict(false, None);
      case Fatal(_) => r := Fatal(PayloadMalformed);
      case SlotsNotArray(_) => r := Panicked;
    }
  }

  /** The landing page had a form token and a CAPTCHA site key, so solving was started. */
  predicate SolvingStarted(landing: Option<Landing>)
  {
    landing.Some? && landing.value.formToken.Some? && landing.value.siteKey.Some?
  }

  /** The run got as far as reading the result body at main.go:96: there was a form token,
      and either no CAPTCHA or a solved one whose form POST succeeded. */
  predicate BodyReached(landing: Option<Landing>, created: Solver.CreateReply, script: seq<Solver.Exchange>,
                        postReply: Option<string>)
  {
    landing.Some? && landing.value.formToken.Some?
    && (landing.value.siteKey.None? || (Solver.Solve(created, script).Solved? && postReply.Some?))
  }

  /** main. `decode` stands for `json.Unmarshal` of the extracted payload text. */
  method RunCheck(landing: Option<Landing>, created: Solver.CreateReply, script: seq<Solver.Exchange>,
                  postReply: Option<string>, decode: string -> Option<Json>)
    returns (r: RunResult, sent: seq<Request>)
    ensures |sent| > 0 && sent[0] == FetchLanding
    ensures landing.None? ==> r == Fatal(LandingUnavailable) && sent == [FetchLanding]
    // a missing form token aborts before any CAPTCHA solving
    ensures landing.Some? && landing.value.formToken.None? ==>
      r == Fatal(FormTokenMissing) && sent == [FetchLanding]
    // without a site key nothing is sent to the solver and no form is posted
    ensures landing.Some? && landing.value.siteKey.None? ==> sent == [FetchLanding]
    // the form is posted exactly when a site key exists and solving produced a token
    ensures Submitted(sent) <==>
      landing.Some? && landing.value.formToken.Some? && landing.value.siteKey.Some?
      && Solver.Solve(created, script).Solved?
    // ... and then only after every solver request, as the last request, carrying both tokens
    ensures Submitted(sent) ==>
      sent == [FetchLanding] + Solver.SolverSent(landing.value.siteKey.value, created, script)
              + [SubmitForm(Form.CreateFormData(landing.value.formToken.value,
                                                Solver.Solve(created, script).token))]
    ensures SolvingStarted(landing) && !Solver.Solve(created, script).Solved? ==>
      sent == [FetchLanding] + Solver.SolverSent(landing.value.siteKey.value, created, script)
      && !r.Verdict?
    // how solving ends decides the stages that follow it
    ensures SolvingStarted(landing) ==>
      (r == StillPolling <==> Solver.Solve(created, script) == Solver.Unfinished)
    ensures SolvingStarted(landing) ==>
      (r == Fatal(SubmitFailed) <==> Solver.Solve(created, script).Solved? && postReply.None?)
    ensures SolvingStarted(landing) ==>
      (r == Fatal(CaptchaUnsolved) <==>
         Solver.Solve(created, script).Rejected?
         || (Solver.Solve(created, script).Failed?
             && Solver.Solve(created, script).cause != Solver.BadReply(Solver.StatusAssertionPanic)))
    ensures SolvingStarted(landing)
            && Solver.Solve(created, script) == Solver.Failed(Solver.BadReply(Solver.StatusAssertionPanic)) ==>
      r == Panicked
    // once the result body is read, the run ends as the payload in it decides
    ensures BodyReached(landing, created, script, postReply) ==>
      ResultBody(landing.value, postReply).Some?
      && Concluded(ResultBody(landing.value, postReply).value, decode, r)
    // a verdict is reported only from the body the payload was found in
    ensures r.Verdict? ==>
      landing.Some? && landing.value.formToken.Some? && ResultBody(landing.value, postReply).Some?
      && VerdictFits(ResultBody(landing.value, postReply).value, decode, r.found, r.date)
    ensures r == Fatal(PayloadNotFound) ==>
      landing.Some? && ResultBody(landing.value, postReply).Some?
      && Extraction.Extract(ResultBody(landing.value, postReply).value).None?
  {
    sent := [FetchLanding];
    if landing.None? {
      return Fatal(LandingUnavailable), sent;
    }
    var page := landing.value;
    if page.formToken.None? {
      return Fatal(FormTokenMissing), sent;
    }
    var token := page.formToken.value;
    var body := page.unreadBody;
    if page.siteKey.Some? {
      var outcome, solverSent := Solver.SolveCaptcha(page.siteKey.value, created, script);
      sent := sent + solverSent;
      match outcome {
        case Solved(captchaToken) =>
          sent := sent + [SubmitForm(Form.CreateFormData(token, captchaToken))];
          assert sent[|sent| - 1].SubmitForm?;
          if postReply.None? {
            return Fatal(SubmitFailed), sent;
          }
          body := postReply.value;
        case Failed(BadReply(StatusAssertionPanic)) =>
          return Panicked, sent;
        case Unfinished =>
          return StillPolling, sent;
        case _ =>
          return Fatal(CaptchaUnsolved), sent;
      }
    }
    r := Conclude(body, decode);
  }
}
