/** The requests the program sends, in the order it sends them: the observable trace of a run. */
module Requests {
  import Form

  datatype Request =
    | FetchLanding                   // GET of the landing page (main.go:57-67)
    | CreateTask(websiteKey: string) // POST to the solver's createTask (main.go:136-150)
    | GetTaskResult(taskId: int)     // POST to the solver's getTaskResult (main.go:171-180)
    | SubmitForm(form: Form.Values)  // POST of the search form (main.go:116-126)

  /** `n` copies of the same request. */
  function Repeat(req: Request, n: nat): (r: seq<Request>)
    ensures |r| == n && forall k :: 0 <= k < n ==> r[k] == req
  {
    seq(n, _ => req)
  }
}
