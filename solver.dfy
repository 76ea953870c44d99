/** The CAPTCHA solving client: classifying the solving service's replies
    (parseSolvedTaskResponse, main.go:212-244) and polling until a reply settles the task
    (solveCaptcha, main.go:134-210). */
module Solver {
  import opened Wrappers
  import opened JsonValue
  import opened Requests

  /** The three reply shapes the source tells apart (main.go:23-45). The float fields of a
      successful reply are decoded but never read, so only their well-typedness is kept. */
  datatype SolvedTask =
    | TaskError(errorId: int, errorCode: string, errorDescription: string)
    | TaskSuccess(token: string, cost: string, ip: string)
    | TaskProcessing

  /** Why classifying a reply fails. */
  datatype ParseFailure =
    | Undecodable           // json.Unmarshal returned an error (main.go:215-216, 223-224, 230-231, 237-238)
    | UnknownFormat         // "unknown solved task response format" (main.go:243)
    | StatusAssertionPanic  // `temp["status"].(string)` panics: status missing or not a string (main.go:228)

  // ----- decoding into the Go structs: absent and null fields keep the zero value -----

  /** A float64 that converts to a Go `int` (64-bit) without loss. */
  predicate IsInt64(x: real)
  {
    x == x.Floor as real && -0x8000_0000_0000_0000 <= x.Floor < 0x8000_0000_0000_0000
  }

  predicate IntFits(v: Json) { v.JNull? || (v.JNum? && IsInt64(v.n)) }
  predicate StringFits(v: Json) { v.JNull? || v.JStr? }
  predicate FloatFits(v: Json) { v.JNull? || v.JNum? }

  function StringOf(v: Json): string { if v.JStr? then v.s else "" }
  function IntOf(v: Json): int { if v.JNum? then v.n.Floor else 0 }

  /** The reply decodes into ErrorSolvedTaskResponse (main.go:36-40). */
  predicate ErrorReplyFits(m: map<string, Json>)
  {
    IntFits(Member(m, "errorId")) && StringFits(Member(m, "errorCode"))
    && StringFits(Member(m, "errorDescription"))
  }

  /** The nested `Solution` struct decodes. */
  predicate SolutionFits(v: Json)
  {
    v.JNull? || (v.JObj? && StringFits(Member(v.fields, "token")))
  }

  /** The reply decodes into SuccessSolvedTaskResponse (main.go:23-34). */
  predicate SuccessReplyFits(m: map<string, Json>)
  {
    IntFits(Member(m, "errorId")) && StringFits(Member(m, "status"))
    && SolutionFits(Member(m, "solution"))
    && StringFits(Member(m, "cost")) && StringFits(Member(m, "ip"))
    && FloatFits(Member(m, "createTime")) && FloatFits(Member(m, "endTime"))
    && FloatFits(Member(m, "solveCount"))
  }

  /** The reply decodes into ProcessingSolvedTaskResponse (main.go:42-45). */
  predicate ProcessingReplyFits(m: map<string, Json>)
  {
    IntFits(Member(m, "errorId")) && StringFits(Member(m, "status"))
  }

  /** `Solution.Token` after decoding. */
  function SolutionToken(m: map<string, Json>): string
  {
    var v := Member(m, "solution");
    if v.JObj? then StringOf(Member(v.fields, "token")) else ""
  }

  /** `temp["errorId"].(float64)`: the number, when it is one. */
  function ErrorIdOf(temp: map<string, Json>): Option<real>
  {
    match Member(temp, "errorId")
    case JNum(x) => Some(x)
    case _ => None
  }

  /** `temp["status"].(string)`: the string, when it is one. */
  function StatusOf(temp: map<string, Json>): Option<string>
  {
    match Member(temp, "status")
    case JStr(s) => Some(s)
    case _ => None
  }

  /** parseSolvedTaskResponse. The cases are tried in the source's order, and together they
      split every decodable reply into exactly one class. */
  function ParseSolvedTaskResponse(data: Option<Json>): (r: Result<SolvedTask, ParseFailure>)
    ensures DecodeObject(data).None? ==> r == Failure(Undecodable)
    ensures DecodeObject(data).Some? ==>
      var temp := DecodeObject(data).value;
      // a non-zero errorId is an Error reply, whatever the status
      && (r.Success? && r.value.TaskError? <==>
            ErrorIdOf(temp).Some? && ErrorIdOf(temp).value != 0.0 && ErrorReplyFits(temp))
      && (ErrorIdOf(temp).Some? && ErrorIdOf(temp).value != 0.0 ==>
            r.Success? ==> r.value.TaskError?)
      && (r.Success? && r.value.TaskSuccess? <==>
            ErrorIdOf(temp) == Some(0.0) && StatusOf(temp) == Some("ready") && SuccessReplyFits(temp))
      && (r == Success(TaskProcessing) <==>
            ErrorIdOf(temp) == Some(0.0) && StatusOf(temp) == Some("processing"))
      && (r == Failure(StatusAssertionPanic) <==>
            ErrorIdOf(temp) == Some(0.0) && StatusOf(temp).None?)
      && (r == Failure(UnknownFormat) <==>
            ErrorIdOf(temp).None?
            || (ErrorIdOf(temp) == Some(0.0) && StatusOf(temp).Some?
                && StatusOf(temp).value != "ready" && StatusOf(temp).value != "processing"))
    ensures r.Success? && r.value.TaskSuccess? ==> r.value.token == SolutionToken(DecodeObject(data).value)
    ensures r.Success? && r.value.TaskError? ==>
      var temp := DecodeObject(data).value;
      r.value.errorId != 0 && r.value.errorId as real == ErrorIdOf(temp).value
      && r.value.errorDescription == StringOf(Member(temp, "errorDescription"))
  {
    match DecodeObject(data)
    case None => Failure(Undecodable)
    case Some(temp) =>
      match ErrorIdOf(temp)
      case None => Failure(UnknownFormat)
      case Some(errorId) =>
        if errorId != 0.0 then
          if ErrorReplyFits(temp) then
            Success(TaskError(IntOf(Member(temp, "errorId")),
                              StringOf(Member(temp, "errorCode")),
                              StringOf(Member(temp, "errorDescription"))))
          else Failure(Undecodable)
        else if StatusOf(temp).None? then Failure(StatusAssertionPanic)
        else if StatusOf(temp).value == "ready" then
          if SuccessReplyFits(temp) then
            Success(TaskSuccess(SolutionToken(temp), StringOf(Member(temp, "cost")),
                                StringOf(Member(temp, "ip"))))
          else Failure(Undecodable)
        else if StatusOf(temp).value == "processing" then
          if ProcessingReplyFits(temp) then Success(TaskProcessing) else Failure(Undecodable)
        else Failure(UnknownFormat)
  }

  /** The reply the solving service sends for each class of task result. */
  function Reply(t: SolvedTask): Json
  {
    match t
    case TaskError(errorId, code, description) =>
      JObj(map["errorId" := JNum(errorId as real), "errorCode" := JStr(code),
               "errorDescription" := JStr(description)])
    case TaskSuccess(token, cost, ip) =>
      JObj(map["errorId" := JNum(0.0), "status" := JStr("ready"),
               "solution" := JObj(map["token" := JStr(token)]),
               "cost" := JStr(cost), "ip" := JStr(ip)])
    case TaskProcessing =>
      JObj(map["errorId" := JNum(0.0), "status" := JStr("processing")])
  }

  /** Classifying a reply recovers the task result it was built from (an error reply needs a
      non-zero errorId that fits a Go int). */
  lemma ParseReply(t: SolvedTask)
    requires t.TaskError? ==> t.errorId != 0 && IsInt64(t.errorId as real)
    ensures ParseSolvedTaskResponse(Some(Reply(t))) == Success(t)
  {
  }

  /** A non-zero errorId decides the class: replacing the status changes nothing. */
  lemma ErrorIdOverridesStatus(temp: map<string, Json>, status: Json)
    requires ErrorIdOf(temp).Some? && ErrorIdOf(temp).value != 0.0
    ensures ParseSolvedTaskResponse(Some(JObj(temp["status" := status])))
         == ParseSolvedTaskResponse(Some(JObj(temp)))
  {
    assert Member(temp["status" := status], "errorId") == Member(temp, "errorId");
    assert Member(temp["status" := status], "errorCode") == Member(temp, "errorCode");
    assert Member(temp["status" := status], "errorDescription") == Member(temp, "errorDescription");
  }

  // ----- the poll loop -----

  /** One round of the loop at main.go:169-209, as the program observes it. */
  datatype Exchange =
    | PostFailed                   // http.Post returned an error (main.go:180-184)
    | CloseFailed                  // closing the reply body failed (main.go:186-190)
    | Replied(data: Option<Json>)  // the reply body, None when it is not well-formed JSON

  /** Why solving stopped without a token. */
  datatype SolveFailure =
    | TaskNotCreated               // createTask could not be sent, read or decoded (main.go:145-165)
    | PollPostFailed
    | BodyCloseFailed
    | BadReply(cause: ParseFailure)

  /** How solving ends. `Rejected` is the `log.Fatalf` of an Error reply (main.go:203);
      `Unfinished` means the replies ran out while the task was still processing. */
  datatype SolveOutcome =
    | Solved(token: string)
    | Rejected(errorCode: string, description: string)
    | Failed(cause: SolveFailure)
    | Unfinished

  /** What one round decides: None to poll again, Some(outcome) to stop. */
  function Step(e: Exchange): (r: Option<SolveOutcome>)
    ensures r.None? <==> e.Replied? && ParseSolvedTaskResponse(e.data) == Success(TaskProcessing)
    ensures r != Some(Unfinished)
    // a failed POST or Close, or a reply that does not classify, stops the loop with that failure
    ensures e.PostFailed? ==> r == Some(Failed(PollPostFailed))
    ensures e.CloseFailed? ==> r == Some(Failed(BodyCloseFailed))
    ensures e.Replied? && ParseSolvedTaskResponse(e.data).Failure? ==>
      r == Some(Failed(BadReply(ParseSolvedTaskResponse(e.data).error)))
    // a Success reply returns its token; an Error reply is fatal, with its code and description
    ensures e.Replied? && ParseSolvedTaskResponse(e.data).Success?
            && ParseSolvedTaskResponse(e.data).value.TaskSuccess? ==>
      r == Some(Solved(ParseSolvedTaskResponse(e.data).value.token))
    ensures e.Replied? && ParseSolvedTaskResponse(e.data).Success?
            && ParseSolvedTaskResponse(e.data).value.TaskError? ==>
      r == Some(Rejected(ParseSolvedTaskResponse(e.data).value.errorCode,
                         ParseSolvedTaskResponse(e.data).value.errorDescription))
    ensures r.Some? && r.value.Solved? ==>
      e.Replied? && ParseSolvedTaskResponse(e.data).Success? && ParseSolvedTaskResponse(e.data).value.TaskSuccess?
    ensures r.Some? && r.value.Rejected? ==>
      e.Replied? && ParseSolvedTaskResponse(e.data).Success? && ParseSolvedTaskResponse(e.data).value.TaskError?
  {
    match e
    case PostFailed => Some(Failed(PollPostFailed))
    case CloseFailed => Some(Failed(BodyCloseFailed))
    case Replied(data) =>
      match ParseSolvedTaskResponse(data)
      case Failure(cause) => Some(Failed(BadReply(cause)))
      case Success(TaskSuccess(token, _, _)) => Some(Solved(token))
      case Success(TaskError(_, code, description)) => Some(Rejected(code, description))
      case Success(TaskProcessing) => None
  }

  /** How a run of the loop over a script of rounds ends, and how many rounds it used. */
  datatype PollRun = PollRun(outcome: SolveOutcome, polls: nat)

  /** The loop over a finite script: it keeps polling through processing replies and stops
      at the first round that decides, using no round after it. */
  function Poll(script: seq<Exchange>): (r: PollRun)
    ensures r.polls <= |script|
    ensures forall k :: 0 <= k < r.polls - 1 ==> Step(script[k]).None?
    ensures r.outcome != Unfinished ==> 0 < r.polls && Step(script[r.polls - 1]) == Some(r.outcome)
    ensures r.outcome == Unfinished <==> forall k :: 0 <= k < |script| ==> Step(script[k]).None?
    ensures r.outcome == Unfinished ==> r.polls == |script|
  {
    if script == [] then PollRun(Unfinished, 0)
    else
      match Step(script[0])
      case Some(o) => PollRun(o, 1)
      case None =>
        var rest := Poll(script[1..]);
        PollRun(rest.outcome, rest.polls + 1)
  }

  /** Round k is the first round of the script that decides. */
  predicate FirstDecision(script: seq<Exchange>, k: int)
  {
    0 <= k < |script| && Step(script[k]).Some?
    && forall k' :: 0 <= k' < k ==> Step(script[k']).None?
  }

  /** The loop stops at the first round that decides, with that round's outcome, after
      exactly that many rounds. */
  lemma PollStopsAtFirstDecision(script: seq<Exchange>, k: int)
    requires FirstDecision(script, k)
    ensures Poll(script) == PollRun(Step(script[k]).value, k + 1)
  {
    assert Poll(script).outcome != Unfinished;
  }

  /** Once the loop has stopped, later replies are never looked at. */
  lemma {:induction false} PollIgnoresLaterReplies(s: seq<Exchange>, t: seq<Exchange>)
    requires Poll(s).outcome != Unfinished
    ensures Poll(s + t) == Poll(s)
  {
    assert (s + t)[0] == s[0];
    if Step(s[0]).None? {
      assert (s + t)[1..] == s[1..] + t;
      PollIgnoresLaterReplies(s[1..], t);
    }
  }

  /** Processing replies in front are consumed one round each, in order. */
  lemma {:induction false} PollConsumesProcessing(p: seq<Exchange>, s: seq<Exchange>)
    requires forall k :: 0 <= k < |p| ==> Step(p[k]).None?
    ensures Poll(p + s) == PollRun(Poll(s).outcome, |p| + Poll(s).polls)
  {
    if p == [] {
      assert p + s == s;
    } else {
      assert (p + s)[0] == p[0];
      assert (p + s)[1..] == p[1..] + s;
      PollConsumesProcessing(p[1..], s);
    }
  }

  /** The poll loop of solveCaptcha, consuming the scripted rounds in order and sending one
      getTaskResult request per round. */
  method PollTaskResult(taskId: int, script: seq<Exchange>) returns (outcome: SolveOutcome, sent: seq<Request>)
    ensures outcome == Poll(script).outcome
    ensures sent == Repeat(GetTaskResult(taskId), Poll(script).polls)
  {
    sent := [];
    var i := 0;
    while i < |script|
      invariant 0 <= i <= |script|
      invariant sent == Repeat(GetTaskResult(taskId), i)
      invariant forall k :: 0 <= k < i ==> Step(script[k]).None?
    {
      sent := sent + [GetTaskResult(taskId)];
      var step := Step(script[i]);
      i := i + 1;
      if step.Some? {
        return step.value, sent;
      }
    }
    return Unfinished, sent;
  }

  /** What createTask yielded: the decoded errorId and taskId, or a failure to send, read or
      decode it. */
  datatype CreateReply = CreateFailed | Created(errorId: int, taskId: int)

  /** How solving ends for a given task creation and script of rounds. */
  function Solve(created: CreateReply, script: seq<Exchange>): SolveOutcome
  {
    match created
    case CreateFailed => Failed(TaskNotCreated)
    case Created(_, _) => Poll(script).outcome
  }

  /** The requests solving sends: createTask, then one getTaskResult per round used. */
  function SolverSent(websiteKey: string, created: CreateReply, script: seq<Exchange>): seq<Request>
  {
    [CreateTask(websiteKey)]
    + match created
      case CreateFailed => []
      case Created(_, taskId) => Repeat(GetTaskResult(taskId), Poll(script).polls)
  }

  /** solveCaptcha. The errorId of the createTask reply is not checked: polling starts with
      whatever taskId was decoded. */
  method SolveCaptcha(websiteKey: string, created: CreateReply, script: seq<Exchange>)
    returns (outcome: SolveOutcome, sent: seq<Request>)
    ensures outcome == Solve(created, script)
    ensures sent == SolverSent(websiteKey, created, script)
    ensures outcome.Solved? <==>
      created.Created? && exists k :: FirstDecision(script, k) && Step(script[k]).value.Solved?
    ensures outcome.Solved? ==> exists k :: FirstDecision(script, k) && Step(script[k]) == Some(outcome)
  {
    sent := [CreateTask(websiteKey)];
    match created {
      case CreateFailed =>
        outcome := Failed(TaskNotCreated);
      case Created(_, taskId) =>
        var polls;
        outcome, polls := PollTaskResult(taskId, script);
        sent := sent + polls;
        if outcome.Solved? {
          var k := Poll(script).polls - 1;
          assert FirstDecision(script, k) && Step(script[k]) == Some(outcome);
        } else {
          forall k | FirstDecision(script, k)
            ensures !Step(script[k]).value.Solved?
          {
            PollStopsAtFirstDecision(script, k);
          }
        }
    }
  }
}
