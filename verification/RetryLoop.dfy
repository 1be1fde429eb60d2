/**
  AWSAuthConnection._mexe: retries with exponential backoff, redirects, and the
  connection pool the loop takes connections from and returns one to. A send is
  an arbitrary outcome, given as a script; without a retry handler or a sender.
*/
module RetryLoop {
  import opened Wrappers
  import opened PoolQueues
  import opened ConnectionPools

  // A port is the number configured, or text split off a redirect's netloc.
  datatype Port = Number(n: int) | Digits(s: string)

  datatype HostKey = HostKey(host: string, port: Port, isSecure: bool)

  // A connection and the (host, port, is_secure) it was opened for.
  datatype Connection = Connection(id: nat, openedFor: HostKey)

  datatype Location = Location(scheme: string, netloc: string)

  // location is None when the header is missing or empty.
  datatype Response = Response(status: int, reason: string, body: string, location: Option<Location>, closes: bool)

  // How one pass through the try block ends. `got` is the response obtained
  // before the exception was raised, if any.
  datatype Outcome =
    | Answered(response: Response)
    | PleaseRetry(attached: Option<Response>)
    | Retryable(error: string, got: Option<Response>)
    | Unretryable(error: string)
    | OtherError(error: string)

  // One attempt: its outcome, and what random.random() returned.
  datatype Try = Try(outcome: Outcome, random: real)

  datatype Settings = Settings(numRetries: int, maxRetryDelay: real, isSecure: bool)

  datatype Loop = Loop(
    i: nat,
    host: string,
    port: Port,
    key: HostKey,                 // what the current connection was asked for
    response: Option<Response>,
    body: Option<string>,
    ex: Option<Outcome>,
    sleeps: seq<real>)            // the arguments of time.sleep so far

  datatype Final =
    | Returned(response: Response, storedUnder: Option<HostKey>)  // None: closed
    | Raised(ex: Outcome)
    | ServerError(status: int, reason: string, body: Option<string>)
    | ReportThis                                                  // 'Please report this ...'
    | Unfinished                                                  // the script ran out

  predicate ServerFailure(r: Response) {
    r.status in {500, 502, 503, 504}
  }

  predicate Redirects(r: Response) {
    !ServerFailure(r) && 300 <= r.status < 400 && r.location.Some?
  }

  predicate IsRedirect(o: Outcome) {
    o.Answered? && Redirects(o.response)
  }

  function Pow2(i: nat): nat {
    if i == 0 then 1 else 2 * Pow2(i - 1)
  }

  function Min(a: real, b: real): real {
    if a <= b then a else b
  }

  function NextSleep(s: Settings, i: nat, random: real): real {
    Min(random * Pow2(i) as real, s.maxRetryDelay)
  }

  // request.host.split(':', 1) if there is a colon.
  function SplitHost(netloc: string, port: Port): (string, Port) {
    if ':' in netloc then SplitAtColon(netloc) else (netloc, port)
  }

  function SplitAtColon(netloc: string): (string, Port)
    requires ':' in netloc
  {
    if netloc[0] == ':' then ("", Digits(netloc[1..]))
    else
      var (host, port) := SplitAtColon(netloc[1..]);
      ([netloc[0]] + host, port)
  }

  function Reopened(s: Settings, l: Loop): HostKey {
    HostKey(l.host, l.port, s.isSecure)
  }

  function Slept(s: Settings, l: Loop, random: real): Loop {
    l.(i := l.i + 1, sleeps := l.sleeps + [NextSleep(s, l.i, random)])
  }

  // One pass through the loop body.
  function Pass(s: Settings, l: Loop, t: Try): Result<Loop, Final> {
    match t.outcome
    case Answered(r) =>
      if ServerFailure(r) then Ok(Slept(s, l.(response := Some(r), body := Some(r.body)), t.random))
      else if !Redirects(r) then Err(Returned(r, if r.closes then None else Some(Reopened(s, l))))
      else
        var (host, port) := SplitHost(r.location.value.netloc, l.port);
        Ok(l.(host := host, port := port, response := None,
              key := HostKey(host, port, r.location.value.scheme == "https")))
    case PleaseRetry(attached) =>
      Ok(Slept(s, l.(key := Reopened(s, l), response := attached, ex := Some(t.outcome)), t.random))
    case Retryable(_, got) =>
      Ok(Slept(s, l.(key := Reopened(s, l), response := if got.Some? then got else l.response, ex := Some(t.outcome)), t.random))
    case Unretryable(_) => Err(Raised(t.outcome))
    case OtherError(_) => Err(Raised(t.outcome))
  }

  // What is raised once the retries are exhausted.
  function Exhausted(l: Loop): Final {
    if l.response.Some? then ServerError(l.response.value.status, l.response.value.reason, l.body)
    else if l.ex.Some? then Raised(l.ex.value)
    else ReportThis
  }

  // The loop: how it ends, in what state, after how many attempts.
  function Run(s: Settings, l: Loop, script: seq<Try>): (Final, Loop, nat)
    decreases script
  {
    if l.i > s.numRetries then (Exhausted(l), l, 0)
    else if script == [] then (Unfinished, l, 0)
    else match Pass(s, l, script[0])
      case Err(final) => (final, l, 1)
      case Ok(l') => var (final, end, n) := Run(s, l', script[1..]); (final, end, n + 1)
  }

  function Start(s: Settings, host: string, port: Port): Loop {
    Loop(0, host, port, HostKey(host, port, s.isSecure), None, None, None, [])
  }

  // The loop is at attempt k of the script.
  lemma RunStep(s: Settings, l: Loop, script: seq<Try>, k: nat)
    requires l.i <= s.numRetries && k < |script|
    ensures var pass, here := Pass(s, l, script[k]), Run(s, l, script[k..]);
      if pass.Err? then here == (pass.error, l, 1)
      else
        var rest := Run(s, pass.value, script[k + 1..]);
        here == (rest.0, rest.1, rest.2 + 1)
  {
    assert script[k..][0] == script[k] && script[k..][1..] == script[k + 1..];
  }

  // ---- one attempt, in full ----

  // A 500, 502, 503 or 504 is read and retried on the same connection after a
  // sleep of random * 2^i seconds, or of the maximum if that is less.
  lemma ServerFailureRetries(s: Settings, l: Loop, t: Try, rest: seq<Try>) returns (sleep: real)
    requires l.i <= s.numRetries && t.outcome.Answered? && t.outcome.response.status in {500, 502, 503, 504}
    ensures var wait := t.random * Pow2(l.i) as real;
      sleep <= wait && sleep <= s.maxRetryDelay && sleep in {wait, s.maxRetryDelay}
    ensures var r := t.outcome.response;
      var next := Loop(l.i + 1, l.host, l.port, l.key, Some(r), Some(r.body), l.ex, l.sleeps + [sleep]);
      Run(s, l, [t] + rest) == (Run(s, next, rest).0, Run(s, next, rest).1, Run(s, next, rest).2 + 1)
  {
    sleep := NextSleep(s, l.i, t.random);
    StepOn(s, l, t, rest);
  }

  // Any other answer that is no redirect, or names no location, is returned at
  // once, and its connection goes back to the pool unless it was closed.
  lemma AnswerReturns(s: Settings, l: Loop, t: Try, rest: seq<Try>)
    requires l.i <= s.numRetries && t.outcome.Answered? && t.outcome.response.status !in {500, 502, 503, 504}
    requires var r := t.outcome.response; r.status < 300 || r.status >= 400 || r.location == None
    ensures var r := t.outcome.response;
      var storedUnder := if r.closes then None else Some(HostKey(l.host, l.port, s.isSecure));
      Run(s, l, [t] + rest) == (Returned(r, storedUnder), l, 1)
  {
    StepOn(s, l, t, rest);
  }

  // A redirect goes on at the location, without a sleep and without counting.
  lemma RedirectFollows(s: Settings, l: Loop, t: Try, rest: seq<Try>, host: string, port: Port)
    requires l.i <= s.numRetries && t.outcome.Answered?
    requires 300 <= t.outcome.response.status < 400 && t.outcome.response.location.Some?
    requires NamesHost(t.outcome.response.location.value.netloc, l.port, host, port)
    ensures var https := t.outcome.response.location.value.scheme == "https";
      var next := Loop(l.i, host, port, HostKey(host, port, https), None, l.body, l.ex, l.sleeps);
      Run(s, l, [t] + rest) == (Run(s, next, rest).0, Run(s, next, rest).1, Run(s, next, rest).2 + 1)
  {
    NamesHostIff(t.outcome.response.location.value.netloc, l.port, host, port);
    StepOn(s, l, t, rest);
  }

  // host and port are what the netloc names: split at its first colon, or the
  // whole of it with the port there was.
  predicate NamesHost(netloc: string, before: Port, host: string, port: Port) {
    if ':' in netloc then port.Digits? && ':' !in host && netloc == host + ":" + port.s
    else netloc == host && port == before
  }

  lemma NamesHostIff(netloc: string, before: Port, host: string, port: Port)
    ensures NamesHost(netloc, before, host, port) <==> SplitHost(netloc, before) == (host, port)
  {
    if ':' in netloc {
      SplitAtColonIff(netloc, host, port);
    }
  }

  lemma {:induction false} SplitAtColonIff(netloc: string, host: string, port: Port)
    requires ':' in netloc
    ensures SplitAtColon(netloc) == (host, port) <==> port.Digits? && ':' !in host && netloc == host + ":" + port.s
  {
    if netloc[0] == ':' {
      assert netloc == "" + ":" + netloc[1..];
      if port.Digits? && ':' !in host && netloc == host + ":" + port.s {
        ColonFirst(host, port.s);
        assert netloc[1..] == port.s;
      }
    } else {
      assert netloc == [netloc[0]] + netloc[1..];
      if host != "" {
        SplitAtColonIff(netloc[1..], host[1..], port);
        assert host == [host[0]] + host[1..];
        if port.Digits? {
          assert host + ":" + port.s == [host[0]] + (host[1..] + ":" + port.s);
        }
      }
    }
  }

  lemma ColonFirst(host: string, port: string)
    requires ':' !in host && (host + ":" + port)[0] == ':'
    ensures host == ""
  {}

  // A retry exception, or a retryable one, reopens the connection under the
  // call's own scheme and counts; any other exception ends the call.
  lemma ExceptionRetries(s: Settings, l: Loop, t: Try, rest: seq<Try>) returns (sleep: real)
    requires l.i <= s.numRetries && (t.outcome.PleaseRetry? || t.outcome.Retryable?)
    ensures var wait := t.random * Pow2(l.i) as real;
      sleep <= wait && sleep <= s.maxRetryDelay && sleep in {wait, s.maxRetryDelay}
    ensures
      var response :=
        if t.outcome.PleaseRetry? then t.outcome.attached else if t.outcome.got.Some? then t.outcome.got else l.response;
      var next := Loop(l.i + 1, l.host, l.port, HostKey(l.host, l.port, s.isSecure),
                       response, l.body, Some(t.outcome), l.sleeps + [sleep]);
      Run(s, l, [t] + rest) == (Run(s, next, rest).0, Run(s, next, rest).1, Run(s, next, rest).2 + 1)
  {
    sleep := NextSleep(s, l.i, t.random);
    StepOn(s, l, t, rest);
  }

  lemma ExceptionEnds(s: Settings, l: Loop, t: Try, rest: seq<Try>)
    requires l.i <= s.numRetries && (t.outcome.Unretryable? || t.outcome.OtherError?)
    ensures Run(s, l, [t] + rest) == (Raised(t.outcome), l, 1)
  {
    StepOn(s, l, t, rest);
  }

  lemma StepOn(s: Settings, l: Loop, t: Try, rest: seq<Try>)
    requires l.i <= s.numRetries
    ensures var pass := Pass(s, l, t);
      Run(s, l, [t] + rest) ==
        if pass.Err? then (pass.error, l, 1)
        else (Run(s, pass.value, rest).0, Run(s, pass.value, rest).1, Run(s, pass.value, rest).2 + 1)
  {
    var script := [t] + rest;
    RunStep(s, l, script, 0);
    assert script[0..] == script && script[1..] == rest;
  }

  // The backoff doubles.
  lemma {:induction false} Pow2IsPower(i: nat, j: nat)
    ensures Pow2(0) == 1 && Pow2(1) == 2 && Pow2(i + j) == Pow2(i) * Pow2(j)
  {
    if i > 0 {
      Pow2IsPower(i - 1, j);
      assert Pow2(i) * Pow2(j) == 2 * (Pow2(i - 1) * Pow2(j));
    }
  }

  predicate AllFail(script: seq<Try>) {
    forall k :: 0 <= k < |script| ==>
      script[k].outcome.Answered? && script[k].outcome.response.status in {500, 502, 503, 504}
  }

  // A server that keeps failing is asked numRetries + 1 times, with a sleep
  // after each, and its last answer is raised.
  lemma FailuresExhaust(s: Settings, host: string, port: Port, script: seq<Try>, rest: seq<Try>)
    requires s.numRetries >= 0 && |script| == s.numRetries + 1 && AllFail(script)
    ensures var (final, end, n) := Run(s, Start(s, host, port), script + rest);
      var last := script[s.numRetries].outcome.response;
      && final == ServerError(last.status, last.reason, Some(last.body))
      && n == s.numRetries + 1 && |end.sleeps| == s.numRetries + 1
      && end.host == host && end.port == port && end.key == HostKey(host, port, s.isSecure)
  {
    FailuresRun(s, Start(s, host, port), script, rest);
  }

  lemma {:induction false} FailuresRun(s: Settings, l: Loop, script: seq<Try>, rest: seq<Try>)
    requires script != [] && l.i + |script| == s.numRetries + 1 && AllFail(script)
    ensures var (final, end, n) := Run(s, l, script + rest);
      var last := script[|script| - 1].outcome.response;
      && final == ServerError(last.status, last.reason, Some(last.body))
      && n == |script| && |end.sleeps| == |l.sleeps| + |script|
      && end.host == l.host && end.port == l.port && end.key == l.key
    decreases script
  {
    var more := script[1..] + rest;
    assert script + rest == [script[0]] + more;
    var sleep := ServerFailureRetries(s, l, script[0], more);
    var r := script[0].outcome.response;
    var next := Loop(l.i + 1, l.host, l.port, l.key, Some(r), Some(r.body), l.ex, l.sleeps + [sleep]);
    if |script| > 1 {
      FailuresRun(s, next, script[1..], rest);
    } else {
      assert Run(s, next, more) == (ServerError(r.status, r.reason, Some(r.body)), next, 0);
    }
  }

  // ---- attempts ----

  function CountRedirects(script: seq<Try>): nat {
    if script == [] then 0 else (if IsRedirect(script[0].outcome) then 1 else 0) + CountRedirects(script[1..])
  }

  lemma {:induction false} CountRedirectsPrefix(script: seq<Try>, n: nat)
    requires n <= |script|
    ensures CountRedirects(script[..n]) <= CountRedirects(script)
  {
    if n > 0 {
      CountRedirectsPrefix(script[1..], n - 1);
      assert script[..n][1..] == script[1..][..n - 1];
    }
  }

  // Every attempt is a redirect, a retry, or the one that ends the call.
  lemma {:induction false} AttemptsSplit(s: Settings, l: Loop, script: seq<Try>)
    requires s.numRetries >= -1 && l.i <= s.numRetries + 1
    ensures var (final, end, n) := Run(s, l, script);
      && n <= |script| && l.i <= end.i <= s.numRetries + 1
      && n == (end.i - l.i) + CountRedirects(script[..n]) + (if final.Unfinished? || end.i > s.numRetries then 0 else 1)
      && (final.Unfinished? ==> n == |script| && end.i <= s.numRetries)
    decreases script
  {
    if l.i <= s.numRetries && script != [] {
      match Pass(s, l, script[0])
      case Err(_) =>
        assert script[..1] == [script[0]];
        assert CountRedirects([script[0]]) == 0 by { assert [script[0]][1..] == []; }
      case Ok(l') =>
        AttemptsSplit(s, l', script[1..]);
        var n := Run(s, l', script[1..]).2;
        assert script[..n + 1][1..] == script[1..][..n];
    } else {
      assert script[..0] == [];
    }
  }

  // The attempt ends the call: an answer to return, or an exception that is
  // not retried.
  predicate Ends(o: Outcome) {
    o.Unretryable? || o.OtherError? || (o.Answered? && !ServerFailure(o.response) && !Redirects(o.response))
  }

  // The attempts that count as tries.
  function Tries(script: seq<Try>): seq<Try> {
    if script == [] then []
    else (if Ends(script[0].outcome) || IsRedirect(script[0].outcome) then [] else [script[0]]) + Tries(script[1..])
  }

  function CountTries(script: seq<Try>): nat {
    |Tries(script)|
  }

  // The loop is still running after a script exactly when no attempt in it
  // ends the call and its tries do not use up the retries.
  lemma {:induction false} UnfinishedIff(s: Settings, l: Loop, script: seq<Try>)
    requires l.i <= s.numRetries
    ensures Run(s, l, script).0.Unfinished? <==>
      (forall k :: 0 <= k < |script| ==> !Ends(script[k].outcome)) && l.i + CountTries(script) <= s.numRetries
    decreases script
  {
    if script == [] {
    } else {
      assert forall k :: 1 <= k < |script| ==> script[k] == script[1..][k - 1];
      match Pass(s, l, script[0])
      case Err(_) =>
        assert Ends(script[0].outcome);
      case Ok(l') =>
        if l'.i <= s.numRetries {
          UnfinishedIff(s, l', script[1..]);
        }
    }
  }

  function Prefix(answers: nat -> Try, n: nat): (script: seq<Try>)
    ensures |script| == n && forall k :: 0 <= k < n ==> script[k] == answers(k)
  {
    seq(n, k requires 0 <= k < n => answers(k))
  }

  // Against an endless supply of outcomes the call never ends exactly when no
  // outcome ends it and no more than numRetries of them ever count as tries.
  lemma NeverEndsIff(s: Settings, host: string, port: Port, answers: nat -> Try)
    requires s.numRetries >= 0
    ensures (forall n :: Run(s, Start(s, host, port), Prefix(answers, n)).0.Unfinished?) <==>
      (forall k :: !Ends(answers(k).outcome)) && (forall n :: CountTries(Prefix(answers, n)) <= s.numRetries)
  {
    forall n: nat ensures Run(s, Start(s, host, port), Prefix(answers, n)).0.Unfinished? <==>
      (forall k :: 0 <= k < n ==> !Ends(Prefix(answers, n)[k].outcome)) && CountTries(Prefix(answers, n)) <= s.numRetries
    {
      UnfinishedIff(s, Start(s, host, port), Prefix(answers, n));
    }
    if forall n :: Run(s, Start(s, host, port), Prefix(answers, n)).0.Unfinished? {
      forall k: nat ensures !Ends(answers(k).outcome) {
        assert Run(s, Start(s, host, port), Prefix(answers, k + 1)).0.Unfinished?;
        assert Prefix(answers, k + 1)[k] == answers(k);
      }
    }
  }

  lemma {:induction false} TriesAndRedirects(script: seq<Try>)
    requires forall k :: 0 <= k < |script| ==> !Ends(script[k].outcome)
    ensures CountTries(script) + CountRedirects(script) == |script|
  {
    if script == [] {
    } else {
      TriesAndRedirects(script[1..]);
    }
  }

  // With at most r redirects, at most r + numRetries + 1 attempts are made,
  // and a script of that length always finishes.
  lemma AttemptsBounded(s: Settings, host: string, port: Port, script: seq<Try>, r: nat)
    requires s.numRetries >= 0 && CountRedirects(script) <= r
    ensures var (final, end, n) := Run(s, Start(s, host, port), script);
      && n <= r + s.numRetries + 1
      && (|script| >= r + s.numRetries + 1 ==> !final.Unfinished?)
  {
    var (final, end, n) := Run(s, Start(s, host, port), script);
    AttemptsSplit(s, Start(s, host, port), script);
    CountRedirectsPrefix(script, n);
    UnfinishedIff(s, Start(s, host, port), script);
    if final.Unfinished? {
      TriesAndRedirects(script);
    }
  }

  lemma {:induction false} AllRedirects(script: seq<Try>)
    requires forall k :: 0 <= k < |script| ==> IsRedirect(script[k].outcome)
    ensures CountTries(script) == 0 && CountRedirects(script) == |script|
  {
    if script == [] {
    } else {
      AllRedirects(script[1..]);
    }
  }

  // Redirects are not counted as tries: a server that keeps redirecting keeps
  // the loop going for ever, without a sleep.
  lemma RedirectsNeverFinish(s: Settings, l: Loop, script: seq<Try>)
    requires l.i <= s.numRetries
    requires forall k :: 0 <= k < |script| ==> IsRedirect(script[k].outcome)
    ensures var (final, end, n) := Run(s, l, script);
      final.Unfinished? && n == |script| && end.sleeps == l.sleeps
  {
    AllRedirects(script);
    UnfinishedIff(s, l, script);
    AttemptsSplit(s, l, script);
    SleepPerTry(s, l, script);
    assert script[..|script|] == script;
  }

  // ---- sleeps ----

  // A sleep is added for every counted try, and only then.
  lemma {:induction false} SleepPerTry(s: Settings, l: Loop, script: seq<Try>)
    ensures var end := Run(s, l, script).1;
      l.sleeps <= end.sleeps && |end.sleeps| - |l.sleeps| == end.i - l.i
    decreases script
  {
    if l.i <= s.numRetries && script != [] && Pass(s, l, script[0]).Ok? {
      SleepPerTry(s, Pass(s, l, script[0]).value, script[1..]);
    }
  }

  // The backoffs of some tries, the first of which is number i.
  function Backoffs(s: Settings, i: nat, tries: seq<Try>): seq<real>
    decreases tries
  {
    if tries == [] then [] else [NextSleep(s, i, tries[0].random)] + Backoffs(s, i + 1, tries[1..])
  }

  lemma {:induction false} BackoffAt(s: Settings, i: nat, tries: seq<Try>, k: nat)
    requires k < |tries|
    ensures |Backoffs(s, i, tries)| == |tries|
    ensures Backoffs(s, i, tries)[k] == NextSleep(s, i + k, tries[k].random)
    decreases tries
  {
    if |tries| > 1 {
      BackoffAt(s, i + 1, tries[1..], if k > 0 then k - 1 else 0);
    }
  }

  // In a whole call the sleeps are the backoffs of the tries, in order.
  lemma {:induction false} EverySleep(s: Settings, l: Loop, script: seq<Try>)
    ensures Run(s, l, script).1.sleeps <= l.sleeps + Backoffs(s, l.i, Tries(script))
    decreases script
  {
    if l.i <= s.numRetries && script != [] && Pass(s, l, script[0]).Ok? {
      var next := Pass(s, l, script[0]).value;
      PassTries(s, l, script);
      RunOn(s, l, script);
      EverySleep(s, next, script[1..]);
      if next.i != l.i {
        OneMoreBackoff(s, l, script[0], Tries(script[1..]));
      }
    }
  }

  lemma OneMoreBackoff(s: Settings, l: Loop, t: Try, more: seq<Try>)
    ensures l.sleeps + [NextSleep(s, l.i, t.random)] + Backoffs(s, l.i + 1, more) == l.sleeps + Backoffs(s, l.i, [t] + more)
  {
    assert ([t] + more)[1..] == more;
  }

  lemma RunOn(s: Settings, l: Loop, script: seq<Try>)
    requires l.i <= s.numRetries && script != [] && Pass(s, l, script[0]).Ok?
    ensures Run(s, l, script).1 == Run(s, Pass(s, l, script[0]).value, script[1..]).1
  {}

  lemma PassTries(s: Settings, l: Loop, script: seq<Try>)
    requires script != [] && Pass(s, l, script[0]).Ok?
    ensures var next, more := Pass(s, l, script[0]).value, Tries(script[1..]);
      if next.i == l.i then Tries(script) == more && next.sleeps == l.sleeps
      else
        && next.i == l.i + 1 && Tries(script) == [script[0]] + more
        && next.sleeps == l.sleeps + [NextSleep(s, l.i, script[0].random)]
  {}

  predicate Randoms(script: seq<Try>) {
    forall k :: 0 <= k < |script| ==> 0.0 <= script[k].random < 1.0
  }

  predicate SleepsBounded(s: Settings, sleeps: seq<real>) {
    forall k :: 0 <= k < |sleeps| ==> sleeps[k] <= Min(Pow2(k) as real, s.maxRetryDelay)
  }

  function Sum(xs: seq<real>): real {
    if xs == [] then 0.0 else Sum(xs[..|xs| - 1]) + xs[|xs| - 1]
  }

  lemma NextSleepBounded(s: Settings, i: nat, random: real)
    requires 0.0 <= random < 1.0
    ensures NextSleep(s, i, random) <= Min(Pow2(i) as real, s.maxRetryDelay)
  {
    var p := Pow2(i) as real;
    assert p >= 0.0;
    assert random * p <= p;
  }

  // One sleep per try, the i-th at most min(2^i, the configured maximum).
  lemma {:induction false} EverySleepBounded(s: Settings, l: Loop, script: seq<Try>)
    requires Randoms(script) && |l.sleeps| == l.i && SleepsBounded(s, l.sleeps)
    ensures var end := Run(s, l, script).1;
      |end.sleeps| == end.i && SleepsBounded(s, end.sleeps)
    decreases script
  {
    if l.i <= s.numRetries && script != [] && Pass(s, l, script[0]).Ok? {
      NextSleepBounded(s, l.i, script[0].random);
      EverySleepBounded(s, Pass(s, l, script[0]).value, script[1..]);
    }
  }

  lemma {:induction false} SumBelowPow2(s: Settings, sleeps: seq<real>, n: nat)
    requires SleepsBounded(s, sleeps) && |sleeps| <= n
    ensures Sum(sleeps) <= (Pow2(n) - 1) as real
    decreases sleeps
  {
    Pow2Grows(|sleeps|, n);
    if sleeps == [] {
    } else {
      var k := |sleeps| - 1;
      SumBelowPow2(s, sleeps[..k], k);
      assert sleeps[k] <= Min(Pow2(k) as real, s.maxRetryDelay);
    }
  }

  // n times d.
  function Times(n: nat, d: real): real {
    if n == 0 then 0.0 else Times(n - 1, d) + d
  }

  lemma {:induction false} TimesIsProduct(n: nat, d: real)
    ensures Times(n, d) == n as real * d
  {
    if n > 0 {
      TimesIsProduct(n - 1, d);
      assert n as real * d == (n - 1) as real * d + d;
    }
  }

  lemma {:induction false} SumBelowMax(s: Settings, sleeps: seq<real>, n: nat)
    requires SleepsBounded(s, sleeps) && |sleeps| <= n && s.maxRetryDelay >= 0.0
    ensures Sum(sleeps) <= Times(n, s.maxRetryDelay)
    decreases n
  {
    if sleeps != [] {
      var k := |sleeps| - 1;
      SumBelowMax(s, sleeps[..k], n - 1);
      assert sleeps[k] <= Min(Pow2(k) as real, s.maxRetryDelay);
    } else if n > 0 {
      SumBelowMax(s, sleeps, n - 1);
    }
  }

  lemma {:induction false} Pow2Grows(i: nat, j: nat)
    requires i <= j
    ensures 1 <= Pow2(i) <= Pow2(j)
  {
    if j > 0 && i < j {
      Pow2Grows(i, j - 1);
    } else if i > 0 {
      Pow2Grows(i - 1, i - 1);
    }
  }

  lemma SleepCount(s: Settings, host: string, port: Port, script: seq<Try>)
    requires s.numRetries >= 0 && Randoms(script)
    ensures var sleeps := Run(s, Start(s, host, port), script).1.sleeps;
      |sleeps| <= s.numRetries + 1 && SleepsBounded(s, sleeps)
  {
    EverySleepBounded(s, Start(s, host, port), script);
    AttemptsSplit(s, Start(s, host, port), script);
  }

  // All sleeps together last at most 2^(numRetries + 1) - 1 seconds, and at
  // most numRetries + 1 times the configured maximum.
  lemma TotalSleepBounded(s: Settings, host: string, port: Port, script: seq<Try>)
    requires s.numRetries >= 0 && s.maxRetryDelay >= 0.0 && Randoms(script)
    ensures var total := Sum(Run(s, Start(s, host, port), script).1.sleeps);
      && total <= (Pow2(s.numRetries + 1) - 1) as real
      && total <= Times(s.numRetries + 1, s.maxRetryDelay)
  {
    SleepCount(s, host, port, script);
    var sleeps := Run(s, Start(s, host, port), script).1.sleeps;
    SumBelowPow2(s, sleeps, s.numRetries + 1);
    SumBelowMax(s, sleeps, s.numRetries + 1);
  }

  // ---- what is raised in the end ----

  // What f says of the last attempt it says anything of.
  function Last<T>(f: Outcome -> Option<T>, script: seq<Try>): Option<T> {
    if script == [] then None
    else if f(script[|script| - 1].outcome).Some? then f(script[|script| - 1].outcome)
    else Last(f, script[..|script| - 1])
  }

  lemma LastStep<T>(f: Outcome -> Option<T>, done: seq<Try>, t: Try)
    ensures Last(f, done + [t]) == if f(t.outcome).Some? then f(t.outcome) else Last(f, done)
  {
    assert (done + [t])[..|done|] == done;
  }

  // The response an attempt leaves behind: Some(None) takes the previous one
  // away, None leaves it there.
  function Leaves(o: Outcome): Option<Option<Response>> {
    match o
    case Answered(r) => Some(if ServerFailure(r) then Some(r) else None)
    case PleaseRetry(attached) => Some(attached)
    case Retryable(_, got) => if got.Some? then Some(got) else None
    case _ => None
  }

  function LeavesBody(o: Outcome): Option<string> {
    if o.Answered? && ServerFailure(o.response) then Some(o.response.body) else None
  }

  function LeavesException(o: Outcome): Option<Outcome> {
    if o.PleaseRetry? || o.Retryable? then Some(o) else None
  }

  // The local variables after some attempts.
  ghost predicate Tracks(l: Loop, done: seq<Try>) {
    && l.response == (match Last(Leaves, done) case Some(r) => r case None => None)
    && l.body == Last(LeavesBody, done)
    && l.ex == Last(LeavesException, done)
  }

  lemma PassTracks(s: Settings, l: Loop, done: seq<Try>, t: Try)
    requires Tracks(l, done) && Pass(s, l, t).Ok?
    ensures Tracks(Pass(s, l, t).value, done + [t])
  {
    LastStep(Leaves, done, t);
    LastStep(LeavesBody, done, t);
    LastStep(LeavesException, done, t);
  }

  lemma {:induction false} RunTracks(s: Settings, l: Loop, done: seq<Try>, script: seq<Try>)
    requires Tracks(l, done)
    ensures var (final, end, n) := Run(s, l, script);
      n <= |script| && (end.i > s.numRetries ==> Tracks(end, done + script[..n]))
    decreases script
  {
    var n := Run(s, l, script).2;
    if l.i <= s.numRetries && script != [] {
      match Pass(s, l, script[0])
      case Err(_) =>
      case Ok(l') =>
        PassTracks(s, l, done, script[0]);
        RunTracks(s, l', done + [script[0]], script[1..]);
        TakeOneMore(done, script, n);
    } else {
      TakeNone(done, script);
    }
  }

  lemma TakeOneMore<T>(done: seq<T>, script: seq<T>, n: nat)
    requires 0 < n <= |script|
    ensures done + [script[0]] + script[1..][..n - 1] == done + script[..n]
  {
    assert script[..n] == [script[0]] + script[1..][..n - 1];
  }

  lemma TakeNone<T>(done: seq<T>, script: seq<T>)
    ensures done + script[..0] == done
  {}

  // A call that runs out of retries raises BotoServerError exactly when the
  // last attempt to touch the response left one, for that response and the
  // body of the last server failure; otherwise the last exception is raised.
  lemma ExhaustionRaises(s: Settings, host: string, port: Port, script: seq<Try>)
    requires s.numRetries >= 0
    ensures var (final, end, n) := Run(s, Start(s, host, port), script);
      && n <= |script|
      && (end.i > s.numRetries ==>
            match Last<Option<Response>>(Leaves, script[..n])
            case Some(Some(r)) => final == ServerError(r.status, r.reason, Last(LeavesBody, script[..n]))
            case _ => Last(LeavesException, script[..n]).Some? && final == Raised(Last(LeavesException, script[..n]).value))
  {
    var l := Start(s, host, port);
    var n := Run(s, l, script).2;
    RunTracks(s, l, [], script);
    EmptyBefore(script[..n]);
    FinalIsExhausted(s, l, script);
    TriesLeaveSomething(s, l, script);
  }

  lemma EmptyBefore<T>(xs: seq<T>)
    ensures [] + xs == xs
  {}

  lemma {:induction false} FinalIsExhausted(s: Settings, l: Loop, script: seq<Try>)
    requires l.i <= s.numRetries + 1
    ensures var (final, end, n) := Run(s, l, script);
      end.i > s.numRetries ==> final == Exhausted(end)
    decreases script
  {
    if l.i <= s.numRetries && script != [] && Pass(s, l, script[0]).Ok? {
      FinalIsExhausted(s, Pass(s, l, script[0]).value, script[1..]);
    }
  }

  // Once a try was used up, there is a response or an exception to raise.
  lemma {:induction false} TriesLeaveSomething(s: Settings, l: Loop, script: seq<Try>)
    requires l.i > 0 ==> l.response.Some? || l.ex.Some? || l.i <= s.numRetries
    ensures var end := Run(s, l, script).1;
      end.i > 0 ==> end.response.Some? || end.ex.Some? || end.i <= s.numRetries
    decreases script
  {
    if l.i <= s.numRetries && script != [] && Pass(s, l, script[0]).Ok? {
      TriesLeaveSomething(s, Pass(s, l, script[0]).value, script[1..]);
    }
  }

  // The 'Please report' error is raised exactly when no try is allowed at all.
  lemma ReportIffNoTries(s: Settings, host: string, port: Port, script: seq<Try>)
    ensures Run(s, Start(s, host, port), script).0.ReportThis? <==> s.numRetries < 0
  {
    TriesLeaveSomething(s, Start(s, host, port), script);
    if s.numRetries >= 0 {
      ReportMeansExhausted(s, Start(s, host, port), script);
    }
  }

  lemma {:induction false} ReportMeansExhausted(s: Settings, l: Loop, script: seq<Try>)
    ensures var (final, end, n) := Run(s, l, script);
      final.ReportThis? ==> end.i > s.numRetries && end.response.None? && end.ex.None?
    decreases script
  {
    if l.i <= s.numRetries && script != [] && Pass(s, l, script[0]).Ok? {
      ReportMeansExhausted(s, Pass(s, l, script[0]).value, script[1..]);
    }
  }

  // ---- which key the connection is stored under ----

  // The scheme of the connection an attempt puts in place of the current one.
  function Reconnects(s: Settings, o: Outcome): Option<bool> {
    if IsRedirect(o) then Some(o.response.location.value.scheme == "https")
    else if o.PleaseRetry? || o.Retryable? then Some(s.isSecure)
    else None
  }

  // The connection in use came from a redirect to the other scheme.
  ghost predicate OnOtherScheme(s: Settings, script: seq<Try>) {
    Last((o: Outcome) => Reconnects(s, o), script) == Some(!s.isSecure)
  }

  ghost predicate KeyTracks(s: Settings, l: Loop, done: seq<Try>) {
    && l.key.host == l.host && l.key.port == l.port
    && (l.key.isSecure != s.isSecure <==> OnOtherScheme(s, done))
  }

  lemma PassTracksKey(s: Settings, l: Loop, done: seq<Try>, t: Try)
    requires KeyTracks(s, l, done) && Pass(s, l, t).Ok?
    ensures KeyTracks(s, Pass(s, l, t).value, done + [t])
  {
    LastStep((o: Outcome) => Reconnects(s, o), done, t);
  }

  lemma {:induction false} RunTracksKey(s: Settings, l: Loop, done: seq<Try>, script: seq<Try>)
    requires KeyTracks(s, l, done)
    ensures var (final, end, n) := Run(s, l, script);
      n <= |script| && (final.Returned? ==> n > 0 && KeyTracks(s, end, done + script[..n - 1]))
      && (final.Returned? && final.storedUnder.Some? ==> final.storedUnder.value == Reopened(s, end))
    decreases script
  {
    var n := Run(s, l, script).2;
    if l.i <= s.numRetries && script != [] {
      match Pass(s, l, script[0])
      case Err(_) =>
        TakeNone(done, script);
      case Ok(l') =>
        PassTracksKey(s, l, done, script[0]);
        RunTracksKey(s, l', done + [script[0]], script[1..]);
        if n > 1 {
          TakeOneMore(done, script, n - 1);
        }
    }
  }

  // A returned connection is stored under the key it was asked for unless the
  // last attempt to replace it was a redirect that changed the scheme.
  lemma StoredUnderOwnKeyIff(s: Settings, host: string, port: Port, script: seq<Try>)
    ensures var (final, end, n) := Run(s, Start(s, host, port), script);
      n <= |script| && (final.Returned? && final.storedUnder.Some? ==>
        n > 0 && (final.storedUnder.value == end.key <==> !OnOtherScheme(s, script[..n - 1])))
  {
    var (final, end, n) := Run(s, Start(s, host, port), script);
    assert KeyTracks(s, Start(s, host, port), []);
    RunTracksKey(s, Start(s, host, port), [], script);
    if final.Returned? {
      EmptyBefore(script[..n - 1]);
    }
  }

  // It does happen: a secure connection redirected to http stores the http
  // connection under the https key.
  lemma RedirectMisfiles(s: Settings, host: string, port: Port, reason: string, body: string, random: real)
    requires s.numRetries >= 0 && s.isSecure
    ensures
      var moved := Response(307, reason, body, Some(Location("http", "b")), false);
      var done := Response(200, reason, body, None, false);
      var (final, end, n) := Run(s, Start(s, host, port), [Try(Answered(moved), random), Try(Answered(done), random)]);
      final == Returned(done, Some(HostKey("b", port, true))) && end.key == HostKey("b", port, false)
  {
    var moved := Response(307, reason, body, Some(Location("http", "b")), false);
    var done := Response(200, reason, body, None, false);
    var last := [Try(Answered(done), random)];
    var script := [Try(Answered(moved), random)] + last;
    assert script[1..] == last;
    var l := Pass(s, Start(s, host, port), script[0]).value;
    assert l.host == "b" && l.port == port && l.key == HostKey("b", port, false);
    assert Run(s, l, last).0 == Returned(done, Some(Reopened(s, l)));
  }

  // ---- the loop on a real pool ----

  type Queues = map<HostKey, seq<Entry<Connection>>>

  // How often c is queued.
  function Copies<C(==)>(cs: seq<C>, c: C): nat {
    if cs == [] then 0 else (if cs[0] == c then 1 else 0) + Copies(cs[1..], c)
  }

  // How often c is queued under key k.
  ghost function Stock(qs: Queues, k: HostKey, c: Connection): nat {
    if k in qs then Copies(Conns(qs[k]), c) else 0
  }

  // A connection at a key, or none.
  type Slot = Option<(HostKey, Connection)>

  function Is(slot: Slot, k: HostKey, c: Connection): nat {
    if slot == Some((k, c)) then 1 else 0
  }

  // Nothing is in the pool afterwards but what was, less the one taken, and
  // the one put.
  ghost predicate Moved(before: Queues, after: Queues, taken: Slot, put: Slot) {
    forall k, c :: Stock(after, k, c) + Is(taken, k, c) <= Stock(before, k, c) + Is(put, k, c)
  }

  // Every pooled connection is queued under the key it was opened for.
  ghost predicate Faithful(qs: Queues) {
    forall k, c :: Stock(qs, k, c) > 0 ==> c.openedFor == k
  }

  lemma MovedOn(a: Queues, b: Queues, c: Queues, put: Slot)
    requires Moved(a, b, None, None) && Moved(b, c, None, put)
    ensures Moved(a, c, None, put)
  {
    forall k, x ensures Stock(c, k, x) + Is(None, k, x) <= Stock(a, k, x) + Is(put, k, x) {
      assert Stock(b, k, x) + Is(None, k, x) <= Stock(a, k, x) + Is(None, k, x);
    }
  }

  lemma StaysFaithful(before: Queues, after: Queues, put: Slot)
    requires Faithful(before) && Moved(before, after, None, put)
    requires put.Some? ==> Stock(after, put.value.0, put.value.1) > 0
    ensures Faithful(after) <==> put.None? || put.value.1.openedFor == put.value.0
  {
    forall k, c | Stock(after, k, c) > 0 ensures c.openedFor == k || put == Some((k, c)) {
      assert Stock(after, k, c) + Is(None, k, c) <= Stock(before, k, c) + Is(put, k, c);
    }
  }

  lemma FaithfulEnd(before: Queues, after: Queues, put: Slot)
    requires Moved(before, after, None, put)
    requires put.Some? ==> Stock(after, put.value.0, put.value.1) > 0
    ensures Faithful(before) ==> (Faithful(after) <==> put.None? || put.value.1.openedFor == put.value.0)
  {
    if Faithful(before) {
      StaysFaithful(before, after, put);
    }
  }

  lemma {:induction false} CopiesAppend<C>(s: seq<C>, t: seq<C>, c: C)
    ensures Copies(s + t, c) == Copies(s, c) + Copies(t, c)
  {
    if s == [] {
      assert s + t == t;
    } else {
      assert (s + t)[1..] == s[1..] + t;
      CopiesAppend(s[1..], t, c);
    }
  }

  lemma SuffixCopies<C>(s: seq<C>, d: nat, c: C)
    requires d <= |s|
    ensures Copies(s[d..], c) <= Copies(s, c)
  {
    assert s == s[..d] + s[d..];
    CopiesAppend(s[..d], s[d..], c);
  }

  lemma CleanMoves(before: Queues, after: Queues, duration: real, clock: Clock, started: map<HostKey, nat>, from: nat, to: nat)
    requires CleanedPools(before, after, duration, clock, started, from, to)
    ensures Moved(before, after, None, None)
  {
    forall k, c ensures Stock(after, k, c) <= Stock(before, k, c) {
      if k in after {
        CleanIsSuffix(before[k], duration, clock, started[k]);
        var d := |before[k]| - |after[k]|;
        assert Conns(after[k]) == Conns(before[k])[d..];
        SuffixCopies(Conns(before[k]), d, c);
      }
    }
  }

  lemma TookCopies<C>(before: seq<C>, r: Option<C>, after: seq<C>, dropped: nat, found: nat, c: C)
    requires Took(before, r, after, dropped, found)
    ensures Copies(after, c) + (if r == Some(c) then 1 else 0) <= Copies(before, c)
  {
    var s := before[dropped..];
    SuffixCopies(before, dropped, c);
    if found < |s| {
      assert s == s[..found] + ([s[found]] + s[found + 1..]);
      CopiesAppend(s[..found], [s[found]] + s[found + 1..], c);
      CopiesAppend([s[found]], s[found + 1..], c);
      CopiesAppend(s[found + 1..], s[..found], c);
    }
  }

  ghost function Fetched(key: HostKey, r: Option<Connection>): Slot {
    if r.Some? then Some((key, r.value)) else None
  }

  lemma GetMoves(qs: Queues, key: HostKey, duration: real, clock: Clock, tick: nat, ready: (Connection, nat) -> bool)
    requires key in qs
    ensures var g := Get(qs[key], duration, clock, tick, ready);
      Moved(qs, qs[key := g.1], Fetched(key, g.0), None)
  {
    var g := Get(qs[key], duration, clock, tick, ready);
    var dropped, found := GetTakes(qs[key], duration, clock, tick, ready);
    forall k, c ensures Stock(qs[key := g.1], k, c) + Is(Fetched(key, g.0), k, c) <= Stock(qs, k, c) {
      TookCopies(Conns(qs[key]), g.0, Conns(g.1), dropped, found, c);
    }
  }

  lemma PutMoves(qs: Queues, key: HostKey, e: Entry<Connection>)
    ensures var qs' := qs[key := (if key in qs then qs[key] else []) + [e]];
      Moved(qs, qs', None, Some((key, e.conn))) && Stock(qs', key, e.conn) > 0
  {
    var q := if key in qs then qs[key] else [];
    ConnsAppend(q, [e]);
    assert Conns([e]) == [e.conn];
    forall c ensures Copies(Conns(q + [e]), c) == Copies(Conns(q), c) + if c == e.conn then 1 else 0 {
      CopiesAppend(Conns(q), [e.conn], c);
    }
  }

  lemma FetchedFaithful(before: Queues, after: Queues, key: HostKey, r: Option<Connection>)
    requires Moved(before, after, Fetched(key, r), None)
    ensures Moved(before, after, None, None)
    ensures Faithful(before) ==> Faithful(after) && (r.Some? ==> r.value.openedFor == key)
  {
    forall k, c ensures Stock(after, k, c) + Is(None, k, c) <= Stock(before, k, c) + Is(None, k, c) {
      assert Stock(after, k, c) + Is(Fetched(key, r), k, c) <= Stock(before, k, c) + Is(None, k, c);
    }
    if Faithful(before) {
      StaysFaithful(before, after, None);
      if r.Some? {
        assert Stock(after, key, r.value) + Is(Fetched(key, r), key, r.value) <= Stock(before, key, r.value);
      }
    }
  }

  // Connections are numbered as they are opened, and none is queued twice.
  ghost predicate Owned(qs: Queues, nextId: nat) {
    && (forall k, c :: Stock(qs, k, c) > 0 ==> c.id < nextId)
    && (forall k, c :: Stock(qs, k, c) <= 1)
    && (forall k, k', c :: Stock(qs, k, c) > 0 && Stock(qs, k', c) > 0 ==> k == k')
  }

  // A connection that was opened and is not in the pool.
  ghost predicate InHand(qs: Queues, nextId: nat, c: Connection) {
    c.id < nextId && forall k :: Stock(qs, k, c) == 0
  }

  lemma StillOwned(before: Queues, after: Queues, nextId: nat, nextId': nat)
    requires Owned(before, nextId) && nextId <= nextId' && Moved(before, after, None, None)
    ensures Owned(after, nextId')
    ensures forall c :: InHand(before, nextId, c) ==> InHand(after, nextId', c)
    ensures forall c: Connection :: c.id == nextId < nextId' ==> InHand(after, nextId', c)
  {
    forall k, c ensures Stock(after, k, c) <= Stock(before, k, c) {
      assert Stock(after, k, c) + Is(None, k, c) <= Stock(before, k, c) + Is(None, k, c);
    }
  }

  // What was fetched is in hand: it was queued once and is not any more.
  lemma FetchedInHand(before: Queues, after: Queues, key: HostKey, c: Connection, nextId: nat)
    requires Owned(before, nextId) && Moved(before, after, Some((key, c)), None)
    ensures InHand(after, nextId, c)
  {
    assert Stock(after, key, c) + Is(Some((key, c)), key, c) <= Stock(before, key, c) + Is(None, key, c);
    forall k ensures Stock(after, k, c) == 0 {
      assert Stock(after, k, c) + Is(Some((key, c)), k, c) <= Stock(before, k, c) + Is(None, k, c);
    }
  }

  // Putting back a connection in hand keeps every connection queued once.
  lemma PutOwned(before: Queues, after: Queues, key: HostKey, c: Connection, nextId: nat)
    requires Owned(before, nextId) && InHand(before, nextId, c) && Moved(before, after, None, Some((key, c)))
    ensures Owned(after, nextId)
  {
    forall k, x ensures Stock(after, k, x) <= Stock(before, k, x) + Is(Some((key, c)), k, x) {
      assert Stock(after, k, x) + Is(None, k, x) <= Stock(before, k, x) + Is(Some((key, c)), k, x);
    }
  }

  // How get_http_connection came by its result: what it fetched, the pool
  // between its two critical sections, and when each queue was cleaned.
  datatype Fetch = Fetch(r: Option<Connection>, mid: Queues, started: map<HostKey, nat>)

  // The effect of ConnectionPool.get_http_connection on the queues.
  ghost predicate GotFrom(before: Queues, mid: Queues, after: Queues, started: map<HostKey, nat>, duration: real,
                          clock: Clock, from: nat, to: nat, key: HostKey, ready: (Connection, nat) -> bool, r: Option<Connection>)
  {
    && (mid == before || CleanedPools(before, mid, duration, clock, started, from, to))
    && if key !in mid then r == None && after == mid
       else exists t: nat :: r == Get(mid[key], duration, clock, t, ready).0
                             && after == mid[key := Get(mid[key], duration, clock, t, ready).1]
  }

  // It only takes connections out.
  lemma FetchMoves(before: Queues, mid: Queues, after: Queues, started: map<HostKey, nat>, duration: real,
                   clock: Clock, from: nat, to: nat, key: HostKey, ready: (Connection, nat) -> bool, r: Option<Connection>)
    requires GotFrom(before, mid, after, started, duration, clock, from, to, key, ready, r)
    ensures Moved(before, after, Fetched(key, r), None)
  {
    if mid != before {
      CleanMoves(before, mid, duration, clock, started, from, to);
    }
    if key in mid {
      var t: nat :| r == Get(mid[key], duration, clock, t, ready).0
                    && after == mid[key := Get(mid[key], duration, clock, t, ready).1];
      GetMoves(mid, key, duration, clock, t, ready);
      forall k, c ensures Stock(after, k, c) + Is(Fetched(key, r), k, c) <= Stock(before, k, c) {
        assert Stock(after, k, c) + Is(Fetched(key, r), k, c) <= Stock(mid, k, c) + Is(None, k, c);
        assert mid != before ==> Stock(mid, k, c) + Is(None, k, c) <= Stock(before, k, c) + Is(None, k, c);
      }
    }
  }

  class AWSAuthConnection {
    const settings: Settings
    const pool: ConnectionPool<HostKey, Connection>
    const time: TimeSource
    var nextId: nat

    constructor (settings: Settings, pool: ConnectionPool<HostKey, Connection>, time: TimeSource)
      ensures this.settings == settings && this.pool == pool && this.time == time && nextId == 0
    {
      this.settings, this.pool, this.time, nextId := settings, pool, time, 0;
    }

    // The pool is owned and c is in hand.
    ghost predicate Held(c: Connection)
      reads this, pool, pool.hostToPool.Values
    {
      Owned(pool.Queues(), nextId) && InHand(pool.Queues(), nextId, c)
    }

    method NewHttpConnection(key: HostKey) returns (c: Connection)
      modifies this`nextId
      ensures c == Connection(old(nextId), key) && nextId == old(nextId) + 1
      ensures old(Owned(pool.Queues(), nextId)) ==> Held(c)
    {
      c := Connection(nextId, key);
      nextId := nextId + 1;
      if old(Owned(pool.Queues(), nextId)) {
        StillOwned(pool.Queues(), pool.Queues(), old(nextId), nextId);
      }
    }

    // From the pool if it has a ready one, otherwise a new one.
    method GetHttpConnection(key: HostKey, ready: (Connection, nat) -> bool) returns (c: Connection, ghost how: Fetch)
      requires pool.Valid()
      modifies this`nextId, pool, pool.hostToPool.Values, time
      ensures pool.Valid() && pool.hostToPool.Values <= old(pool.hostToPool.Values)
      ensures GotFrom(old(pool.Queues()), how.mid, pool.Queues(), how.started, pool.staleDuration, time.reading,
                      old(time.ticks), time.ticks, key, ready, how.r)
      ensures if how.r.Some? then c == how.r.value && nextId == old(nextId)
              else c == Connection(old(nextId), key) && nextId == old(nextId) + 1
    {
      var r, mid, started := pool.GetHttpConnection(key, time, ready);
      how := Fetch(r, mid, started);
      if r.Some? {
        c := r.value;
      } else {
        c := NewHttpConnection(key);
      }
    }

    // The connection to use next: whatever the loop held before, it is in hand
    // and, in a faithful pool, opened for its key.
    method Connect(key: HostKey, ready: (Connection, nat) -> bool) returns (c: Connection)
      requires pool.Valid()
      modifies this`nextId, pool, pool.hostToPool.Values, time
      ensures pool.Valid() && pool.hostToPool.Values <= old(pool.hostToPool.Values)
      ensures Moved(old(pool.Queues()), pool.Queues(), None, None)
      ensures old(Faithful(pool.Queues())) ==> Faithful(pool.Queues()) && c.openedFor == key
      ensures old(Owned(pool.Queues(), nextId)) ==> Held(c)
    {
      ghost var how;
      c, how := GetHttpConnection(key, ready);
      FetchMoves(old(pool.Queues()), how.mid, pool.Queues(), how.started, pool.staleDuration, time.reading,
                 old(time.ticks), time.ticks, key, ready, how.r);
      FetchedFaithful(old(pool.Queues()), pool.Queues(), key, how.r);
      if old(Owned(pool.Queues(), nextId)) {
        StillOwned(old(pool.Queues()), pool.Queues(), old(nextId), nextId);
        if how.r.Some? {
          FetchedInHand(old(pool.Queues()), pool.Queues(), key, c, nextId);
        }
      }
    }

    method PutHttpConnection(key: HostKey, c: Connection)
      requires pool.Valid()
      modifies pool, pool.hostToPool.Values, time
      ensures pool.Valid() && fresh(pool.hostToPool.Values - old(pool.hostToPool.Values))
      ensures Moved(old(pool.Queues()), pool.Queues(), None, Some((key, c)))
      ensures Stock(pool.Queues(), key, c) > 0
    {
      PutMoves(pool.Queues(), key, Entry(c, time.reading(time.ticks)));
      pool.PutHttpConnection(key, c, time);
    }

    // The response is returned: its connection goes back unless it was closed.
    method Release(r: Response, key: HostKey, c: Connection) returns (final: Final)
      requires pool.Valid()
      modifies pool, pool.hostToPool.Values, time
      ensures pool.Valid() && fresh(pool.hostToPool.Values - old(pool.hostToPool.Values))
      ensures final == Returned(r, if r.closes then None else Some(key))
      ensures Moved(old(pool.Queues()), pool.Queues(), None, if r.closes then None else Some((key, c)))
      ensures r.closes || Stock(pool.Queues(), key, c) > 0
      ensures old(Held(c)) ==> Owned(pool.Queues(), nextId)
    {
      if r.closes {
        return Returned(r, None);
      }
      PutHttpConnection(key, c);
      if old(Held(c)) {
        PutOwned(old(pool.Queues()), pool.Queues(), key, c, nextId);
      }
      return Returned(r, Some(key));
    }

    // The try block once there is a response; the sleep, if any, comes after it.
    method Answer(l: Loop, c0: Connection, r: Response, random: real, ready: (Connection, nat) -> bool)
      returns (next: Result<Loop, Final>, c: Connection)
      requires pool.Valid()
      modifies this`nextId, pool, pool.hostToPool.Values, time
      ensures pool.Valid() && fresh(pool.hostToPool.Values - old(pool.hostToPool.Values))
      ensures next == Pass(settings, l, Try(Answered(r), random))
      ensures next.Err? ==> c == c0
      ensures Moved(old(pool.Queues()), pool.Queues(), None, Stored(next, c)) && IsIn(Stored(next, c), pool.Queues())
      ensures next.Ok? && c0.openedFor == l.key && old(Faithful(pool.Queues())) ==>
        c.openedFor == next.value.key && Faithful(pool.Queues())
      ensures old(Held(c0)) ==> if next.Ok? then Held(c) else Owned(pool.Queues(), nextId)
    {
      c := c0;
      if r.status in {500, 502, 503, 504} {
        next := Ok(Slept(settings, l.(response := Some(r), body := Some(r.body)), random));
      } else if r.status < 300 || r.status >= 400 || r.location.None? {
        var final := Release(r, HostKey(l.host, l.port, settings.isSecure), c);
        next := Err(final);
      } else {
        var (host, port) := SplitHost(r.location.value.netloc, l.port);
        var there := HostKey(host, port, r.location.value.scheme == "https");
        c := Connect(there, ready);
        next := Ok(l.(host := host, port := port, key := there, response := None));
      }
    }

    // The body of the loop of _mexe; its local variables are the fields of l.
    method OneTry(l: Loop, c0: Connection, t: Try, ready: (Connection, nat) -> bool)
      returns (next: Result<Loop, Final>, c: Connection)
      requires pool.Valid()
      modifies this`nextId, pool, pool.hostToPool.Values, time
      ensures pool.Valid() && fresh(pool.hostToPool.Values - old(pool.hostToPool.Values))
      ensures next == Pass(settings, l, t)
      ensures next.Err? ==> c == c0
      ensures Moved(old(pool.Queues()), pool.Queues(), None, Stored(next, c)) && IsIn(Stored(next, c), pool.Queues())
      ensures next.Ok? && c0.openedFor == l.key && old(Faithful(pool.Queues())) ==>
        c.openedFor == next.value.key && Faithful(pool.Queues())
      ensures old(Held(c0)) ==> if next.Ok? then Held(c) else Owned(pool.Queues(), nextId)
    {
      var here := HostKey(l.host, l.port, settings.isSecure);
      match t.outcome {
        case Answered(r) =>
          next, c := Answer(l, c0, r, t.random, ready);
        case PleaseRetry(attached) =>
          c := NewHttpConnection(here);
          next := Ok(Slept(settings, l.(key := here, response := attached, ex := Some(t.outcome)), t.random));
        case Retryable(_, got) =>
          c := NewHttpConnection(here);
          var response := if got.Some? then got else l.response;
          next := Ok(Slept(settings, l.(key := here, response := response, ex := Some(t.outcome)), t.random));
        case _ =>
          next, c := Err(Raised(t.outcome)), c0;
      }
    }

    // What a pass adds to the pool.
    ghost function Stored(next: Result<Loop, Final>, c: Connection): Slot {
      if next.Err? then StoredBy(next.error, c) else None
    }

    ghost function StoredBy(final: Final, c: Connection): Slot {
      if final.Returned? && final.storedUnder.Some? then Some((final.storedUnder.value, c)) else None
    }

    ghost predicate IsIn(slot: Slot, qs: Queues) {
      slot.Some? ==> Stock(qs, slot.value.0, slot.value.1) > 0
    }

    ghost function LastKey(host: string, port: Port, script: seq<Try>): HostKey {
      Run(settings, Start(settings, host, port), script).1.key
    }

    // The while loop of _mexe, from any point on: how it ends, or where it is
    // when the retries or the script are used up.
    method Attempts(l0: Loop, c0: Connection, script: seq<Try>, ready: (Connection, nat) -> bool)
      returns (final: Final, c: Connection)
      requires pool.Valid()
      modifies this`nextId, pool, pool.hostToPool.Values, time
      ensures pool.Valid() && fresh(pool.hostToPool.Values - old(pool.hostToPool.Values))
      ensures final == Run(settings, l0, script).0
      ensures Moved(old(pool.Queues()), pool.Queues(), None, StoredBy(final, c)) && IsIn(StoredBy(final, c), pool.Queues())
      ensures old(Held(c0)) ==> Owned(pool.Queues(), nextId)
      ensures old(Faithful(pool.Queues())) && c0.openedFor == l0.key ==> c.openedFor == Run(settings, l0, script).1.key
    {
      ghost var before := pool.Queues();
      var l, attempt := l0, 0;
      c := c0;
      assert script[0..] == script;
      while l.i <= settings.numRetries && attempt < |script|
        invariant 0 <= attempt <= |script|
        invariant SameEnd(Run(settings, l, script[attempt..]), Run(settings, l0, script))
        invariant pool.Valid() && fresh(pool.hostToPool.Values - old(pool.hostToPool.Values))
        invariant Moved(before, pool.Queues(), None, None)
        invariant Faithful(before) && c0.openedFor == l0.key ==> c.openedFor == l.key && Faithful(pool.Queues())
        invariant old(Held(c0)) ==> Held(c)
        decreases |script| - attempt
      {
        ghost var now := pool.Queues();
        RunStep(settings, l, script, attempt);
        var next;
        next, c := OneTry(l, c, script[attempt], ready);
        MovedOn(before, now, pool.Queues(), Stored(next, c));
        if next.Err? {
          return next.error, c;
        }
        l := next.value;
        attempt := attempt + 1;
      }
      final := if l.i <= settings.numRetries then Unfinished else Exhausted(l);
    }

    // _mexe, for a script of outcomes and an oracle for which pooled
    // connections are ready. Beyond the result, the pool gains at most one
    // connection, under the key the run says; it is one that was opened or
    // fetched for the key it was asked for, and it was not in the pool.
    method Mexe(host: string, port: Port, script: seq<Try>, ready: (Connection, nat) -> bool)
      returns (final: Final, ghost used: Connection)
      requires pool.Valid()
      modifies this`nextId, pool, pool.hostToPool.Values, time
      ensures pool.Valid() && fresh(pool.hostToPool.Values - old(pool.hostToPool.Values))
      ensures final == Run(settings, Start(settings, host, port), script).0
      ensures Moved(old(pool.Queues()), pool.Queues(), None, StoredBy(final, used)) && IsIn(StoredBy(final, used), pool.Queues())
      ensures old(Owned(pool.Queues(), nextId)) ==> Owned(pool.Queues(), nextId)
      ensures old(Faithful(pool.Queues())) ==> used.openedFor == LastKey(host, port, script)
      ensures old(Faithful(pool.Queues())) ==>
        (Faithful(pool.Queues()) <==> !(final.Returned? && final.storedUnder.Some? && final.storedUnder.value != LastKey(host, port, script)))
    {
      var l := Start(settings, host, port);
      ghost var before := pool.Queues();
      var connection := Connect(l.key, ready);
      ghost var now := pool.Queues();
      final, connection := Attempts(l, connection, script, ready);
      MovedOn(before, now, pool.Queues(), StoredBy(final, connection));
      FaithfulEnd(before, pool.Queues(), StoredBy(final, connection));
      used := connection;
    }

    ghost predicate SameEnd(a: (Final, Loop, nat), b: (Final, Loop, nat)) {
      a.0 == b.0 && a.1 == b.1
    }
  }
}
