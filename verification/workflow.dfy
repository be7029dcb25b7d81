/** The conditional edge that follows the analyst node of the agent graph:
    finish on a successful simulation, send the model back to the
    researcher while attempts remain, and ask a human after that. The rest
    of the graph's wiring is not part of this model. */
module Workflow {
  import opened Wrappers

  /** Where the graph goes after the analyst. */
  datatype Route = Finish | Researcher | HumanHelp

  /** The number of analyst attempts after which a failing model is handed
      to a human. */
  const MaxAttempts := 3

  /** `should_continue`: a missing attempt count counts as zero. */
  function ShouldContinue(status: Option<string>, attempts: Option<int>): (r: Route)
    ensures r == Finish <==> status == Some("success")
    ensures r == Researcher <==> status != Some("success") && attempts.GetOr(0) < MaxAttempts
    ensures r == HumanHelp <==> status != Some("success") && attempts.GetOr(0) >= MaxAttempts
  {
    if status == Some("success") then Finish
    else if attempts.GetOr(0) < MaxAttempts then Researcher
    else HumanHelp
  }

  /** The routes taken by successive analyst visits: each visit records its
      simulation status and one more attempt, then the router decides; the
      loop goes on only while the route is back to the researcher. */
  function AnalystRounds(attempts: int, statuses: seq<string>): (routes: seq<Route>)
    ensures |routes| <= |statuses|
    ensures |statuses| > 0 ==> |routes| > 0
    decreases |statuses|
  {
    if |statuses| == 0 then []
    else
      var r := ShouldContinue(Some(statuses[0]), Some(attempts + 1));
      if r == Researcher then [r] + AnalystRounds(attempts + 1, statuses[1..]) else [r]
  }

  /** The retry loop is bounded: starting from `attempts` recorded visits,
      the researcher is revisited at most `MaxAttempts - 1 - attempts`
      times, every route but the last is a retry, and the last one that
      is not a retry is final. */
  lemma {:induction false} RetriesBounded(attempts: int, statuses: seq<string>)
    ensures var routes := AnalystRounds(attempts, statuses);
      && (forall i :: 0 <= i < |routes| - 1 ==> routes[i] == Researcher)
      && |routes| <= if attempts >= MaxAttempts - 1 then 1 else MaxAttempts - attempts
    decreases |statuses|
  {
    if |statuses| > 0 {
      RetriesBounded(attempts + 1, statuses[1..]);
    }
  }

  /** A fresh run (no attempts recorded) that keeps failing reaches the
      human on its third analyst visit. */
  lemma FreshFailuresEscalate()
    ensures AnalystRounds(0, ["failure", "failure", "failure"]) == [Researcher, Researcher, HumanHelp]
  {
  }
}
