/** An upload that retries network errors, on top of requests that refresh their token once. */
module UploadRetry {
  datatype Failure = Aborted | Unauthorized | Network | Refused

  datatype Response = Ok(result: string) | Failed(failure: Failure)

  datatype Recovery = Token(token: string) | RecoveryFailed(failure: Failure)

  /** All that can happen during one `authedRequest`; abortedBefore and abortedAfter: the signal at the two checks. */
  datatype Script = Script(
    first: Response,
    abortedBefore: bool,
    recovery: Recovery,
    abortedAfter: bool,
    retry: Response)

  datatype Outcome = Outcome(response: Response, requests: nat)

  /** `authedRequest` with refreshing allowed: at most one request before the refresh and one after. */
  function AuthedRequest(s: Script): Outcome {
    if s.first.Ok? then Outcome(s.first, 1)
    else if s.first.failure.Aborted? || s.abortedBefore then Outcome(Failed(Aborted), 1)
    else if !s.first.failure.Unauthorized? then Outcome(s.first, 1)
    else if s.recovery.RecoveryFailed? then Outcome(Failed(s.recovery.failure), 1)
    else if s.abortedAfter then Outcome(Failed(Aborted), 1)
    else if s.recovery.token == "" then Outcome(s.first, 1)
    else Outcome(s.retry, 2)
  }

  const MAX_ATTEMPTS := 3

  function Power(n: nat): nat {
    if n == 0 then 1 else 2 * Power(n - 1)
  }

  /** One round of the loop: the request, the signal when it failed, the jitter drawn and whether the wait is aborted. */
  datatype Round = Round(script: Script, aborted: bool, jitter: nat, waitAborted: bool)

  /** What a failure comes to in the loop. */
  function Thrown(r: Round): Failure
    requires AuthedRequest(r.script).response.Failed?
  {
    if r.aborted then Aborted else AuthedRequest(r.script).response.failure
  }

  predicate Retries(r: Round) {
    AuthedRequest(r.script).response.Failed? && Thrown(r).Network? && !r.waitAborted
  }

  // ---- what a round comes to ----

  /** The request is made a second time: the first was unauthorised, nothing aborted, and there is a token. */
  predicate AsksAgain(s: Script) {
    && s.first == Failed(Unauthorized)
    && !s.abortedBefore
    && s.recovery.Token? && s.recovery.token != ""
    && !s.abortedAfter
  }

  /** Where a failure comes from: the abort, the first request, the recovery or the second request. */
  predicate FailsWith(s: Script, f: Failure) {
    s.first.Failed? &&
    if s.abortedBefore || s.first.failure.Aborted? then f == Aborted
    else if s.first.failure != Unauthorized then f == s.first.failure
    else
      || s.recovery == RecoveryFailed(f)
      || (s.recovery.Token? && s.abortedAfter && f == Aborted)
      || (s.recovery == Token("") && !s.abortedAfter && f == Unauthorized)
      || (AsksAgain(s) && s.retry == Failed(f))
  }

  /** The result comes from the first request or, when that is made, from the second. */
  predicate Brings(s: Script, result: string) {
    s.first == Ok(result) || (AsksAgain(s) && s.retry == Ok(result))
  }

  /** A request with refreshing: which of its steps decides what it comes to, and how many requests it takes. */
  lemma RequestExplained(s: Script)
    ensures forall r :: AuthedRequest(s).response == Ok(r) <==> Brings(s, r)
    ensures forall f :: AuthedRequest(s).response == Failed(f) <==> FailsWith(s, f)
    ensures AuthedRequest(s).requests == if AsksAgain(s) then 2 else 1
  {
  }

  /** The round ends in a network error nobody aborted. */
  predicate Stumbles(r: Round) {
    FailsWith(r.script, Network) && !r.aborted
  }

  /** What the whole upload comes to, when r is its last round, the n-th. */
  predicate Concludes(r: Round, n: nat, response: Response) {
    match response
    case Ok(result) => Brings(r.script, result)
    case Failed(f) =>
      exists g :: FailsWith(r.script, g) &&
        f == if r.aborted then Aborted
             else if g.Network? && n < MAX_ATTEMPTS then Aborted
             else g
  }

  lemma Concluded(r: Round, n: nat)
    ensures AuthedRequest(r.script).response.Ok? ==> Concludes(r, n, AuthedRequest(r.script).response)
    ensures AuthedRequest(r.script).response.Failed? ==>
              Concludes(r, n, Failed(if Thrown(r).Network? && n < MAX_ATTEMPTS then Aborted else Thrown(r)))
    ensures Retries(r) <==> Stumbles(r) && !r.waitAborted
  {
    RequestExplained(r.script);
    if AuthedRequest(r.script).response.Failed? {
      assert FailsWith(r.script, AuthedRequest(r.script).response.failure);
    }
  }

  /** Among the first n rounds, those that make a second request. */
  function Repeated(rounds: nat -> Round, n: nat): (k: nat)
    ensures k <= n
  {
    if n == 0 then 0 else Repeated(rounds, n - 1) + if AsksAgain(rounds(n - 1).script) then 1 else 0
  }

  /** The first wait is 250 ms and the second 500, each with its jitter. */
  function Slept(rounds: nat -> Round, n: nat): nat {
    (if n > 0 then 250 + rounds(0).jitter else 0) + (if n > 1 then 500 + rounds(1).jitter else 0)
  }

  /**
   * `uploadFile`: a loop without a bound of its own. It stops after at most three rounds and six
   * requests, goes on exactly after a network error whose wait was not cut short, waits at most
   * twice and 1048 ms in all, and what it comes to is what its last round came to.
   */
  method UploadFile(rounds: nat -> Round) returns (response: Response, attempts: nat, requests: nat, waited: nat, waits: nat)
    requires forall n :: rounds(n).jitter < 150
    ensures 1 <= attempts <= 3
    ensures forall n :: 0 <= n < attempts ==> (n + 1 < attempts <==> Stumbles(rounds(n)) && !rounds(n).waitAborted && n < 2)
    ensures Concludes(rounds(attempts - 1), attempts, response)
    ensures requests == attempts + Repeated(rounds, attempts) <= 6
    ensures waits == if Stumbles(rounds(attempts - 1)) && attempts < 3 then attempts else attempts - 1
    ensures waits <= 2 && waited == Slept(rounds, waits) <= 1048
  {
    var attempt := 0;
    requests, waited, waits := 0, 0, 0;
    while true
      invariant 0 <= attempt < MAX_ATTEMPTS
      invariant forall n :: 0 <= n < attempt ==> Stumbles(rounds(n)) && !rounds(n).waitAborted
      invariant requests == attempt + Repeated(rounds, attempt)
      invariant waits == attempt && waited == Slept(rounds, attempt)
      decreases MAX_ATTEMPTS - attempt
    {
      var round := rounds(attempt);
      var outcome := AuthedRequest(round.script);
      RequestExplained(round.script);
      Concluded(round, attempt + 1);
      requests := requests + outcome.requests;
      attempts := attempt + 1;
      if outcome.response.Ok? {
        assert Brings(round.script, outcome.response.result);
        return outcome.response, attempts, requests, waited, waits;
      }
      var failure := if round.aborted then Aborted else outcome.response.failure;
      if !failure.Network? || attempt >= 2 {
        return Failed(failure), attempts, requests, waited, waits;
      }
      waited := waited + 250 * Power(attempt) + round.jitter;
      waits := waits + 1;
      assert Power(0) == 1 && Power(1) == 2 * Power(0);
      if round.waitAborted {
        return Failed(Aborted), attempts, requests, waited, waits;
      }
      attempt := attempt + 1;
    }
  }
}
