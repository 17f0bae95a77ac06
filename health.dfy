/**
 * The health poller: after the port is known, the supervisor probes the server's
 * health endpoint up to `HEALTH_CHECK_MAX_ATTEMPTS` times, sleeping
 * `HEALTH_CHECK_DELAY_MS` after every failed probe.
 */
module HealthPoller {
  import opened Wrappers
  import opened Sentinel

  const HEALTH_CHECK_MAX_ATTEMPTS := 50
  const HEALTH_CHECK_DELAY_MS := 100

  /** The outcome of one GET of the health endpoint: a response with its status, or a failed request. */
  datatype Probe = Response(status: int) | RequestFailed

  /** The poller accepts a response whose status is a success (2xx). */
  predicate Ready(probe: Probe) {
    probe.Response? && 200 <= probe.status <= 299
  }

  /** The outcome of the 1-based `attempt`; attempts beyond the given outcomes find no server. */
  function ProbeAt(probes: seq<Probe>, attempt: nat): Probe {
    if 1 <= attempt <= |probes| then probes[attempt - 1] else RequestFailed
  }

  /** The error once every attempt has failed; it names the attempts times the delay, in milliseconds. */
  const HEALTH_TIMEOUT_MESSAGE := "Server failed to respond to health check within "
                                  + DecimalString(HEALTH_CHECK_MAX_ATTEMPTS * HEALTH_CHECK_DELAY_MS) + "ms"

  /** The first ready attempt among `attempt` .. `HEALTH_CHECK_MAX_ATTEMPTS`. */
  function FirstReadyFrom(probes: seq<Probe>, attempt: nat): Option<nat>
    decreases HEALTH_CHECK_MAX_ATTEMPTS + 1 - attempt
  {
    if attempt > HEALTH_CHECK_MAX_ATTEMPTS then None
    else if Ready(ProbeAt(probes, attempt)) then Some(attempt)
    else FirstReadyFrom(probes, attempt + 1)
  }

  /** The attempt at which polling succeeds, if any. */
  function ReadyAttempt(probes: seq<Probe>): Option<nat> {
    FirstReadyFrom(probes, 1)
  }

  lemma {:induction false} FirstReadyFromSpec(probes: seq<Probe>, from: nat, k: nat)
    requires 1 <= from
    ensures FirstReadyFrom(probes, from) == Some(k)
            <==> from <= k <= HEALTH_CHECK_MAX_ATTEMPTS && Ready(ProbeAt(probes, k))
                 && forall j :: from <= j < k ==> !Ready(ProbeAt(probes, j))
    ensures FirstReadyFrom(probes, from).None?
            <==> forall j :: from <= j <= HEALTH_CHECK_MAX_ATTEMPTS ==> !Ready(ProbeAt(probes, j))
    decreases HEALTH_CHECK_MAX_ATTEMPTS + 1 - from
  {
    if from <= HEALTH_CHECK_MAX_ATTEMPTS && !Ready(ProbeAt(probes, from)) {
      FirstReadyFromSpec(probes, from + 1, k);
    }
  }

  /**
   * Polling succeeds at attempt `k` exactly when `k` is within the budget, its probe
   * is ready and every earlier probe failed; it fails exactly when all
   * `HEALTH_CHECK_MAX_ATTEMPTS` probes fail.
   */
  lemma ReadyAttemptSpec(probes: seq<Probe>, k: nat)
    ensures ReadyAttempt(probes) == Some(k)
            <==> 1 <= k <= HEALTH_CHECK_MAX_ATTEMPTS && Ready(ProbeAt(probes, k))
                 && forall j :: 1 <= j < k ==> !Ready(ProbeAt(probes, j))
    ensures ReadyAttempt(probes).None?
            <==> forall j :: 1 <= j <= HEALTH_CHECK_MAX_ATTEMPTS ==> !Ready(ProbeAt(probes, j))
  {
    FirstReadyFromSpec(probes, 1, k);
  }

  /**
   * `wait_for_ready`: probe, and on failure sleep and try again, for at most
   * `HEALTH_CHECK_MAX_ATTEMPTS` attempts. It reports the attempt that succeeded,
   * having slept once per failed probe before it; when every attempt fails it has
   * probed and slept `HEALTH_CHECK_MAX_ATTEMPTS` times, the last sleep included.
   */
  method WaitForReady(probes: seq<Probe>) returns (r: Result<nat>, attempts: nat, sleeps: nat)
    ensures attempts <= HEALTH_CHECK_MAX_ATTEMPTS
    ensures ReadyAttempt(probes).Some? ==>
              r == Ok(ReadyAttempt(probes).value) && attempts == r.value && sleeps == attempts - 1
    ensures ReadyAttempt(probes).None? ==>
              r == Err(HEALTH_TIMEOUT_MESSAGE) && attempts == sleeps == HEALTH_CHECK_MAX_ATTEMPTS
  {
    attempts, sleeps := 0, 0;
    for attempt := 1 to HEALTH_CHECK_MAX_ATTEMPTS + 1
      invariant attempts == sleeps == attempt - 1
      invariant FirstReadyFrom(probes, 1) == FirstReadyFrom(probes, attempt)
    {
      attempts := attempts + 1;
      if Ready(ProbeAt(probes, attempt)) {
        return Ok(attempt), attempts, sleeps;
      }
      sleeps := sleeps + 1;
    }
    r := Err(HEALTH_TIMEOUT_MESSAGE);
  }

  /** The budget the error names is the time spent sleeping: 50 sleeps of 100 ms. */
  lemma HealthTimeoutMessageText()
    ensures HEALTH_CHECK_MAX_ATTEMPTS * HEALTH_CHECK_DELAY_MS == 5000
    ensures HEALTH_TIMEOUT_MESSAGE == "Server failed to respond to health check within 5000ms"
  {
    assert DecimalString(5000) == "5000";
  }

  /** A server that answers successfully on the fifth attempt, after four failures. */
  lemma ReadyOnFifthAttempt()
    ensures ReadyAttempt([RequestFailed, Response(503), RequestFailed, Response(404), Response(204)]) == Some(5)
  {
  }
}
