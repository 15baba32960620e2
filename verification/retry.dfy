/** The bounded retry around the result page fetch
    (`scrape_race`, scripts/collect/data_collector.py). The network is a
    sequence of simulated outcomes, one per attempt; the two-second pause
    between attempts is not modelled. */
module Retry {
  import opened Wrappers
  import opened Pages

  /** `max_retries`. */
  const MaxRetries: nat := 3

  /** An attempt that ends the loop: a response with status 200. */
  predicate IsOk(o: Outcome)
  {
    o.Response? && o.status == 200
  }

  /** The first attempt at or after `from`, among the first `MaxRetries`,
      that returns status 200. */
  function FirstSuccess(outcomes: seq<Outcome>, from: nat): (r: Option<nat>)
    requires from <= MaxRetries <= |outcomes|
    ensures r.Some? ==> from <= r.value < MaxRetries && IsOk(outcomes[r.value])
    ensures r.Some? ==> forall j :: from <= j < r.value ==> !IsOk(outcomes[j])
    ensures r.None? <==> forall j :: from <= j < MaxRetries ==> !IsOk(outcomes[j])
    decreases MaxRetries - from
  {
    if from == MaxRetries then None
    else if IsOk(outcomes[from]) then Some(from)
    else FirstSuccess(outcomes, from + 1)
  }

  /** The retry loop: at most `MaxRetries` attempts, stopping at the first
      status-200 response and returning its page; no page after
      `MaxRetries` failures. A raised exception is absorbed like a bad status. */
  method Fetch(outcomes: seq<Outcome>) returns (page: Option<Page>, attempts: nat)
    requires |outcomes| >= MaxRetries
    ensures 1 <= attempts <= MaxRetries
    ensures forall j :: 0 <= j < attempts - 1 ==> !IsOk(outcomes[j])
    ensures page.Some? <==> IsOk(outcomes[attempts - 1])
    ensures page.Some? ==> page.value == outcomes[attempts - 1].page
    ensures page.None? ==> attempts == MaxRetries
    ensures FirstSuccess(outcomes, 0) == if page.Some? then Some(attempts - 1) else None
  {
    page := None;
    attempts := 0;
    for attempt := 0 to MaxRetries
      invariant attempts == attempt
      invariant page.None?
      invariant forall j :: 0 <= j < attempt ==> !IsOk(outcomes[j])
    {
      attempts := attempt + 1;
      var o := outcomes[attempt];
      if o.Response? && o.status == 200 {
        page := Some(o.page);
        break;
      }
    }
  }
}
