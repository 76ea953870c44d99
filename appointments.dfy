/** Deciding from the decoded payload whether any date has a free slot
    (checkAppointments, main.go:265-289). */
module Appointments {
  import opened Wrappers
  import opened JsonValue

  /** Why the run stops with `log.Fatalf` before any verdict. */
  datatype FatalReason =
    | UnmarshalFailed   // the payload is not a JSON object (main.go:267-270)
    | NoLoadBalancer    // LOADBALANCER missing or not an object (main.go:272-275)
    | NoAppoints        // LOADBALANCER.appoints missing or not an object (main.go:277-280)

  /** What one execution of the check ends in. `Available` is the source's `true`, with the
      date it prints; `SlotsNotArray` is the panic of the type assertion at main.go:283. */
  datatype CheckOutcome =
    | Available(date: string)
    | Unavailable
    | Fatal(reason: FatalReason)
    | SlotsNotArray(date: string)

  /** The path from the decoded payload to the date-to-slots object LOADBALANCER.appoints. */
  function Appoints(payload: Option<Json>): Result<map<string, Json>, FatalReason>
  {
    match DecodeObject(payload)
    case None => Failure(UnmarshalFailed)
    case Some(root) =>
      match Member(root, "LOADBALANCER")
      case JObj(loadBalancer) =>
        (match Member(loadBalancer, "appoints")
         case JObj(appoints) => Success(appoints)
         case _ => Failure(NoAppoints))
      case _ => Failure(NoLoadBalancer)
  }

  /** A slot value that is a non-empty array. */
  predicate NonEmptySlots(v: Json)
  {
    v.JArr? && |v.items| > 0
  }

  /** Some date has at least one slot. */
  ghost predicate HasAvailability(appoints: map<string, Json>)
  {
    exists d :: d in appoints && NonEmptySlots(appoints[d])
  }

  /** Every date maps to an array, so that the type assertion never panics. */
  ghost predicate AllSlotsArrays(appoints: map<string, Json>)
  {
    forall d :: d in appoints ==> appoints[d].JArr?
  }

  /** `order` lists exactly the dates of `appoints`, each once: an order `range` may visit
      them in. */
  ghost predicate Enumerates(order: seq<string>, appoints: map<string, Json>)
  {
    (forall d :: d in order <==> d in appoints) && |order| == |appoints|
  }

  /** The loop at main.go:282-288 run over the dates in the given order: the first date
      whose slots are not an empty array decides. */
  function FirstHit(order: seq<string>, appoints: map<string, Json>): (r: CheckOutcome)
    requires forall d :: d in order ==> d in appoints
    ensures !r.Fatal?
    ensures r.Available? ==> r.date in order && NonEmptySlots(appoints[r.date])
    ensures r.SlotsNotArray? ==> r.date in order && !appoints[r.date].JArr?
    ensures r.Unavailable? <==> forall d :: d in order ==> appoints[d] == JArr([])
    // the deciding date is the first one in `order` whose slots are not an empty array
    ensures !r.Unavailable? ==>
      (exists k :: 0 <= k < |order| && order[k] == r.date
                   && (forall k' :: 0 <= k' < k ==> appoints[order[k']] == JArr([])))
  {
    if order == [] then Unavailable
    else
      match appoints[order[0]]
      case JArr(slots) =>
        if |slots| > 0 then Available(order[0]) else FirstHit(order[1..], appoints)
      case _ => SlotsNotArray(order[0])
  }

  /** Dates whose slot arrays are empty can be visited first without changing the outcome. */
  lemma {:induction false} FirstHitSkipsEmpty(visited: seq<string>, rest: seq<string>, appoints: map<string, Json>)
    requires forall d :: d in visited ==> d in appoints && appoints[d] == JArr([])
    requires forall d :: d in rest ==> d in appoints
    ensures FirstHit(visited + rest, appoints) == FirstHit(rest, appoints)
  {
    if visited == [] {
      assert visited + rest == rest;
    } else {
      var all := visited + rest;
      assert all[0] == visited[0] && appoints[all[0]] == JArr([]);
      assert all[1..] == visited[1..] + rest;
      assert FirstHit(all, appoints) == FirstHit(all[1..], appoints);
      FirstHitSkipsEmpty(visited[1..], rest, appoints);
    }
  }

  /** When every slot value is an array, every iteration order gives the same verdict:
      true exactly when some date has a slot. */
  lemma VerdictIndependentOfOrder(order: seq<string>, appoints: map<string, Json>)
    requires Enumerates(order, appoints) && AllSlotsArrays(appoints)
    ensures FirstHit(order, appoints).Available? || FirstHit(order, appoints).Unavailable?
    ensures FirstHit(order, appoints).Available? <==> HasAvailability(appoints)
  {
    if HasAvailability(appoints) {
      var d :| d in appoints && NonEmptySlots(appoints[d]);
      assert d in order;
    }
  }

  /** When some slot value is not an array, the order can decide between a verdict and a
      panic: here one order reports date "a" and the other crashes on date "b". */
  lemma OrderDecidesWithMixedSlots()
    ensures var appoints := map["a" := JArr([JNull]), "b" := JStr("x")];
      FirstHit(["a", "b"], appoints) == Available("a")
      && FirstHit(["b", "a"], appoints) == SlotsNotArray("b")
  {
  }

  /** Lists the members of a set in some order. */
  ghost function Listing(s: set<string>): (r: seq<string>)
    ensures forall d :: d in r <==> d in s
    ensures |r| == |s|
    decreases s
  {
    if s == {} then []
    else
      var d :| d in s;
      [d] + Listing(s - {d})
  }

  /** What the outcome of one complete order tells about the payload. */
  lemma OutcomeOfOrder(order: seq<string>, appoints: map<string, Json>)
    requires Enumerates(order, appoints)
    ensures FirstHit(order, appoints).Available? ==> NonEmptySlots(appoints[FirstHit(order, appoints).date])
    ensures FirstHit(order, appoints).Unavailable? <==> forall d :: d in appoints ==> appoints[d] == JArr([])
    ensures AllSlotsArrays(appoints) ==> (FirstHit(order, appoints).Available? <==> HasAvailability(appoints))
  {
    if AllSlotsArrays(appoints) {
      VerdictIndependentOfOrder(order, appoints);
    }
  }

  /** A complete order through the loop's state: the dates passed over, then `date`, then the
      rest of `remaining`. */
  ghost function Through(visited: seq<string>, date: string, remaining: set<string>): seq<string>
  {
    visited + ([date] + Listing(remaining - {date}))
  }

  /** That order lists every date once. */
  lemma CompletesOrder(visited: seq<string>, date: string, remaining: set<string>, appoints: map<string, Json>)
    requires remaining <= appoints.Keys && date in remaining
    requires forall d :: d in visited <==> d in appoints && d !in remaining
    requires |visited| + |remaining| == |appoints|
    ensures Enumerates(Through(visited, date, remaining), appoints)
  {
    var rest := [date] + Listing(remaining - {date});
    assert |remaining - {date}| == |remaining| - 1;
    assert |visited + rest| == |appoints|;
    assert forall d :: d in rest <==> d in remaining;
  }

  /** The loop stopped at `date` after passing over the dates in `visited`, all empty: the
      complete order through that state gives the same outcome as that date alone. */
  lemma OrderThrough(visited: seq<string>, date: string, remaining: set<string>, appoints: map<string, Json>)
    requires remaining <= appoints.Keys && date in remaining
    requires forall d :: d in visited <==> d in appoints && d !in remaining
    requires |visited| + |remaining| == |appoints|
    requires forall d :: d in visited ==> appoints[d] == JArr([])
    requires appoints[date] != JArr([])
    ensures Enumerates(Through(visited, date, remaining), appoints)
    ensures FirstHit(Through(visited, date, remaining), appoints) == FirstHit([date], appoints)
  {
    var rest := [date] + Listing(remaining - {date});
    CompletesOrder(visited, date, remaining, appoints);
    assert forall d :: d in rest ==> d in appoints;
    FirstHitSkipsEmpty(visited, rest, appoints);
    FirstHitHead(rest, appoints);
  }

  /** A first date whose slots are not an empty array decides alone. */
  lemma FirstHitHead(order: seq<string>, appoints: map<string, Json>)
    requires forall d :: d in order ==> d in appoints
    requires order != [] && appoints[order[0]] != JArr([])
    ensures FirstHit(order, appoints) == FirstHit([order[0]], appoints)
  {
  }

  /** checkAppointments: a malformed payload is fatal, never a negative verdict; otherwise the
      outcome is what the loop gives for SOME order of the dates, the one Go's randomised map
      iteration happened to pick (modelled by an arbitrary choice of the next date). */
  method CheckAppointments(payload: Option<Json>) returns (r: CheckOutcome)
    ensures Appoints(payload).Failure? ==> r == Fatal(Appoints(payload).error)
    ensures Appoints(payload).Success? ==>
      exists order :: Enumerates(order, Appoints(payload).value) && r == FirstHit(order, Appoints(payload).value)
    ensures r.Available? ==>
      Appoints(payload).Success? && r.date in Appoints(payload).value
      && NonEmptySlots(Appoints(payload).value[r.date])
    ensures r.Unavailable? <==>
      Appoints(payload).Success? && forall d :: d in Appoints(payload).value ==> Appoints(payload).value[d] == JArr([])
    ensures r.SlotsNotArray? ==>
      Appoints(payload).Success? && r.date in Appoints(payload).value
      && !Appoints(payload).value[r.date].JArr?
    ensures Appoints(payload).Success? && AllSlotsArrays(Appoints(payload).value) ==>
      (r.Available? <==> HasAvailability(Appoints(payload).value))
  {
    var shape := Appoints(payload);
    if shape.Failure? {
      return Fatal(shape.error);
    }
    var appoints := shape.value;
    var remaining := appoints.Keys;
    ghost var visited: seq<string> := [];
    while remaining != {}
      invariant remaining <= appoints.Keys
      invariant forall d :: d in visited <==> d in appoints && d !in remaining
      invariant |visited| + |remaining| == |appoints|
      invariant forall d :: d in visited ==> appoints[d] == JArr([])
      decreases remaining
    {
      var date :| date in remaining;
      match appoints[date] {
        case JArr(slots) =>
          if |slots| > 0 {
            r := Available(date);
            OrderThrough(visited, date, remaining, appoints);
            ghost var order := Through(visited, date, remaining);
            OutcomeOfOrder(order, appoints);
            return;
          }
        case _ =>
          r := SlotsNotArray(date);
          OrderThrough(visited, date, remaining, appoints);
          ghost var order := Through(visited, date, remaining);
          OutcomeOfOrder(order, appoints);
          return;
      }
      visited := visited + [date];
      remaining := remaining - {date};
    }
    r := Unavailable;
    assert Enumerates(visited, appoints);
    OutcomeOfOrder(visited, appoints);
  }
}
