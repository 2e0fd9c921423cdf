/** src/scrapers/base_scraper.py: the HTTP client session a scraper holds between
    `__aenter__` and `__aexit__`, and the retry loop of `_make_request`.

    The network is an oracle: for each request and each attempt number it says what
    that attempt gives back. */
module BaseScraper {
  import opened Wrappers

  /** The two scraping settings the retry loop reads. */
  datatype ScrapingConfig = ScrapingConfig(retryAttempts: int, retryDelay: int)

  /** What a scraper sends: the method, the URL and the form fields. */
  datatype Request = Request(verb: string, url: string, data: map<string, string>)

  /** One attempt, as the network answers it: a response with its status and body, an
      aiohttp ClientError raised by the request, or an exception of another kind. */
  datatype Attempt = Response(status: int, body: string) | ClientFault | OtherFault

  type Network = Request -> nat -> Attempt

  datatype RequestError =
    | NoSession           // RuntimeError: a request outside `async with`
    | ClientFailure       // the ClientError of the final attempt, raised again
    | OtherFailure        // an exception that is no ClientError, never retried
    | MaxRetriesReached   // RuntimeError: the loop made no attempt at all

  /** An answer `raise_for_status` lets through. */
  predicate Succeeded(a: Attempt) {
    a.Response? && a.status < 400
  }

  /** An attempt `except aiohttp.ClientError` catches: a ClientError from the request, or
      the one `raise_for_status` raises for a status of 400 or more. */
  predicate Retryable(a: Attempt) {
    a.ClientFault? || (a.Response? && a.status >= 400)
  }

  /** Attempt `k` of a request; a closed client session raises RuntimeError, which is no
      ClientError. */
  function AttemptAt(answers: nat -> Attempt, closed: bool, k: nat): Attempt {
    if closed then OtherFault else answers(k)
  }

  /** What the loop does from attempt `k` on: the result, the attempts made, the sleeps. */
  datatype Trace = Trace(result: Result<string, RequestError>, attempts: nat, sleeps: nat)

  /** `for attempt in range(retry_attempts)`, from attempt `k` on. */
  function Retry(answers: nat -> Attempt, closed: bool, k: nat, n: int): Trace
    decreases n - k
  {
    if k >= n then Trace(Failure(MaxRetriesReached), 0, 0)
    else
      var a := AttemptAt(answers, closed, k);
      if Succeeded(a) then Trace(Success(a.body), 1, 0)
      else if !Retryable(a) then Trace(Failure(OtherFailure), 1, 0)
      else if k + 1 == n then Trace(Failure(ClientFailure), 1, 0)
      else
        var t := Retry(answers, closed, k + 1, n);
        Trace(t.result, t.attempts + 1, t.sleeps + 1)
  }

  /** `n` sleeps of `delay` seconds each. */
  function Sleeps(n: nat, delay: int): (r: seq<int>)
    ensures |r| == n && forall i :: 0 <= i < n ==> r[i] == delay
  {
    if n == 0 then [] else Sleeps(n - 1, delay) + [delay]
  }

  // ------------------------------------------------------------- the retry laws

  /** With `retry_attempts <= 0` no attempt is made and the loop's final RuntimeError is raised. */
  lemma RetryNone(answers: nat -> Attempt, closed: bool, n: int)
    requires n <= 0
    ensures Retry(answers, closed, 0, n) == Trace(Failure(MaxRetriesReached), 0, 0)
  {
  }

  /** How a run of attempts from `k` ends: after between 1 and n - k attempts, with one
      sleep after every attempt but the last; every attempt but the last raised a
      ClientError; the body returned is the last attempt's, which succeeded; a
      ClientError is raised again only on the final allowed attempt; any other exception
      ends the loop at once. */
  ghost predicate Ended(answers: nat -> Attempt, closed: bool, k: nat, n: int, t: Trace) {
    && 1 <= t.attempts && k + t.attempts <= n && t.sleeps == t.attempts - 1
    && (forall j :: k <= j < k + t.attempts - 1 ==> Retryable(AttemptAt(answers, closed, j)))
    && var last := AttemptAt(answers, closed, k + t.attempts - 1);
      && (t.result.Success? <==> Succeeded(last))
      && (t.result.Success? ==> t.result.value == last.body)
      && (t.result == Failure(ClientFailure) <==> Retryable(last))
      && (t.result == Failure(ClientFailure) ==> k + t.attempts == n)
      && (t.result == Failure(OtherFailure) <==> !Succeeded(last) && !Retryable(last))
      && t.result != Failure(MaxRetriesReached) && t.result != Failure(NoSession)
  }

  lemma {:induction false} RetryEnds(answers: nat -> Attempt, closed: bool, k: nat, n: int)
    requires k < n
    ensures Ended(answers, closed, k, n, Retry(answers, closed, k, n))
    decreases n - k
  {
    var a := AttemptAt(answers, closed, k);
    if Retryable(a) && k + 1 != n {
      RetryEnds(answers, closed, k + 1, n);
      var t := Retry(answers, closed, k + 1, n);
      assert Retry(answers, closed, k, n) == Trace(t.result, t.attempts + 1, t.sleeps + 1);
      assert AttemptAt(answers, closed, k + 1 + t.attempts - 1) == AttemptAt(answers, closed, k + (t.attempts + 1) - 1);
    }
  }

  /** When every allowed attempt raises a ClientError, all `n` attempts are made with
      `n - 1` sleeps between them, and the last ClientError is raised. */
  lemma AllAttemptsFail(answers: nat -> Attempt, n: int)
    requires n >= 1
    requires forall j :: 0 <= j < n ==> Retryable(answers(j))
    ensures Retry(answers, false, 0, n) == Trace(Failure(ClientFailure), n, n - 1)
  {
    RetryEnds(answers, false, 0, n);
    var t := Retry(answers, false, 0, n);
    assert Retryable(AttemptAt(answers, false, t.attempts - 1));
  }

  /** The first successful attempt within the limit, after ClientErrors only, gives its
      body, after one sleep per failed attempt. */
  lemma FirstSuccessWins(answers: nat -> Attempt, n: int, j: nat)
    requires j < n && Succeeded(answers(j))
    requires forall i :: 0 <= i < j ==> Retryable(answers(i))
    ensures Retry(answers, false, 0, n) == Trace(Success(answers(j).body), j + 1, j)
  {
    SuccessFrom(answers, n, j, 0);
  }

  lemma {:induction false} SuccessFrom(answers: nat -> Attempt, n: int, j: nat, k: nat)
    requires k <= j < n && Succeeded(answers(j))
    requires forall i :: k <= i < j ==> Retryable(answers(i))
    ensures Retry(answers, false, k, n) == Trace(Success(answers(j).body), j - k + 1, j - k)
    decreases j - k
  {
    if k < j {
      SuccessFrom(answers, n, j, k + 1);
    }
  }

  /** A temporary failure (a 503, say) followed by a good answer recovers, when at least
      two attempts are allowed. */
  lemma RecoversAfterOneFailure(answers: nat -> Attempt, n: int)
    requires n >= 2 && Retryable(answers(0)) && Succeeded(answers(1))
    ensures Retry(answers, false, 0, n) == Trace(Success(answers(1).body), 2, 1)
  {
    FirstSuccessWins(answers, n, 1);
  }

  /** An exception that is no ClientError is raised at once: one attempt, no sleep. */
  lemma OtherFaultNotRetried(answers: nat -> Attempt, closed: bool, n: int)
    requires n >= 1 && !Succeeded(AttemptAt(answers, closed, 0)) && !Retryable(AttemptAt(answers, closed, 0))
    ensures Retry(answers, closed, 0, n) == Trace(Failure(OtherFailure), 1, 0)
  {
  }

  // ------------------------------------------------------------- the scraper object

  /** An `aiohttp.ClientSession`. */
  class ClientSession {
    var closed: bool

    constructor ()
      ensures !closed
    {
      closed := false;
    }

    method Close()
      modifies this
      ensures closed
    {
      closed := true;
    }
  }

  /** A `BaseScraper`: its settings, its client session (None until `__aenter__`), and the
      sleeps its retry loops took, in order. */
  class Scraper {
    const config: ScrapingConfig
    var session: ClientSession?
    var slept: seq<int>

    constructor (config: ScrapingConfig)
      ensures this.config == config && session == null && slept == []
    {
      this.config := config;
      session := null;
      slept := [];
    }

    /** `__aenter__`: a new client session. */
    method Enter()
      modifies this
      ensures fresh(session) && !session.closed && slept == old(slept)
    {
      session := new ClientSession();
    }

    /** `__aexit__`: the session is closed when there is one. */
    method Exit()
      modifies session
      ensures session != null ==> session.closed
    {
      if session != null {
        session.Close();
      }
    }

    /** `_make_request`: the request is tried up to `retry_attempts` times; a ClientError
        before the last attempt is followed by a sleep of `retry_delay`. */
    method MakeRequest(net: Network, request: Request) returns (r: Result<string, RequestError>, attempts: nat)
      modifies this`slept
      ensures session == null ==> r == Failure(NoSession) && attempts == 0 && slept == old(slept)
      ensures session != null ==>
        var t := Retry(net(request), session.closed, 0, config.retryAttempts);
        r == t.result && attempts == t.attempts && slept == old(slept) + Sleeps(t.sleeps, config.retryDelay)
    {
      if session == null {
        return Failure(NoSession), 0;
      }
      var n := config.retryAttempts;
      var closed := session.closed;
      ghost var whole := Retry(net(request), closed, 0, n);
      var attempt: nat := 0;
      while attempt < n
        invariant attempt == 0 || attempt < n
        invariant Tried(net(request), closed, n, attempt, whole)
        invariant slept == old(slept) + Sleeps(attempt, config.retryDelay)
        decreases n - attempt
      {
        var a := if closed then OtherFault else net(request)(attempt);
        if Succeeded(a) {
          return Success(a.body), attempt + 1;
        }
        if !Retryable(a) {
          return Failure(OtherFailure), attempt + 1;
        }
        if attempt + 1 == n {
          return Failure(ClientFailure), attempt + 1;
        }
        slept := slept + [config.retryDelay];
        attempt := attempt + 1;
      }
      return Failure(MaxRetriesReached), 0;
    }
  }

  /** After `k` failed attempts the whole run is those attempts and sleeps followed by the
      run from attempt `k`. */
  ghost predicate Tried(answers: nat -> Attempt, closed: bool, n: int, k: nat, whole: Trace) {
    var rest := Retry(answers, closed, k, n);
    whole == Trace(rest.result, rest.attempts + k, rest.sleeps + k)
  }
}
