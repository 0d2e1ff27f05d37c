/**
 Invoking an action through the direct route, with retries, a fall-back to the frontend route and the
 sticky switch that turns the direct route off. The network and the clock are the script of an invoke.
 */
module DirectInvoke {
  const MAX_ATTEMPTS := 3
  const ROUTE_MISS_BUDGET := 3

  /** SafeFailure: connecting, or waiting for a pooled connection, failed, so that nothing was sent.
      UnknownFailure: reading or writing failed.  OtherFailure: any other transport error.
      Response: `terminal` is the frontend's word that the sandbox is gone, on an error status. */
  datatype Outcome =
    | SafeFailure
    | UnknownFailure
    | OtherFailure
    | Response(status: nat, terminal: bool, validJson: bool)

  /** One attempt: whether time is left before it and after it, and what comes of it. */
  datatype Attempt = Attempt(timeBefore: bool, outcome: Outcome, timeAfter: bool)

  datatype Client = Client(enabled: bool, disabled: bool, misses: nat)

  datatype Last = NoError | SafeError | HttpError | UnknownError

  datatype Ending = Returned | FellBack | RaisedTerminal | RaisedHttp | RaisedUnknown

  datatype DirectRun = DirectRun(client: Client, attempts: nat, ending: Ending)

  predicate Terminal(outcome: Outcome) {
    outcome.Response? && outcome.status >= 400 && outcome.terminal
  }

  predicate RouteMiss(outcome: Outcome) {
    outcome.Response? && outcome.status == 404 && !outcome.terminal
  }

  predicate GatewayError(outcome: Outcome) {
    outcome.Response? && outcome.status in {502, 503, 504}
  }

  /** What one attempt leads to: an end, or another try with this kind of last error. */
  datatype Verdict = End(ending: Ending) | Again(last: Last)

  function Judge(outcome: Outcome): Verdict {
    match outcome
    case SafeFailure => Again(SafeError)
    case UnknownFailure => Again(UnknownError)
    case OtherFailure => End(RaisedUnknown)
    case Response(status, _, validJson) =>
      if Terminal(outcome) then End(RaisedTerminal)
      else if status == 404 then End(FellBack)
      else if GatewayError(outcome) then Again(HttpError)
      else if status >= 400 then End(RaisedHttp)
      else if validJson then End(Returned)
      else Again(UnknownError)
  }

  /** The counters after an attempt. */
  function Counted(c: Client, outcome: Outcome): Client {
    if Terminal(outcome) then c
    else if RouteMiss(outcome) then
      c.(misses := c.misses + 1, disabled := c.disabled || c.misses + 1 > ROUTE_MISS_BUDGET)
    else c.(misses := 0)
  }

  /** After the last attempt. */
  function GiveUp(c: Client, attempts: nat, last: Last): DirectRun {
    if last == SafeError then DirectRun(c.(disabled := true), attempts, FellBack)
    else if last == HttpError then DirectRun(c, attempts, RaisedHttp)
    else DirectRun(c, attempts, RaisedUnknown)
  }

  /** The attempts from number `n` on. */
  function From(c: Client, script: seq<Attempt>, n: nat, last: Last): DirectRun
    requires |script| == MAX_ATTEMPTS && n <= MAX_ATTEMPTS
    decreases MAX_ATTEMPTS - n
  {
    if n == MAX_ATTEMPTS || !script[n].timeBefore then GiveUp(c, n, last) else
    var after := Counted(c, script[n].outcome);
    match Judge(script[n].outcome)
    case End(ending) => DirectRun(after, n + 1, ending)
    case Again(error) =>
      if !script[n].timeAfter then GiveUp(after, n + 1, error) else From(after, script, n + 1, error)
  }

  datatype Route = Direct | Frontend

  datatype InvokeRun = InvokeRun(client: Client, directRequests: nat, frontendRequests: nat, tried: seq<Outcome>,
                                 ending: Ending)

  /** One invoke. The frontend's own answer is not looked at here: FellBack ends with its request. */
  function Invoke(c: Client, script: seq<Attempt>, timeForFrontend: bool): InvokeRun
    requires |script| == MAX_ATTEMPTS
  {
    if c.enabled && !c.disabled then
      var run := From(c, script, 0, NoError);
      var fallBack := run.ending == FellBack && timeForFrontend;
      AttemptsAreBounded(c, script, 0, NoError);
      InvokeRun(run.client, run.attempts, if fallBack then 1 else 0, Outcomes(script[..run.attempts]),
                if run.ending == FellBack && !timeForFrontend then RaisedUnknown else run.ending)
    else
      InvokeRun(c, 0, if timeForFrontend then 1 else 0, [], if timeForFrontend then FellBack else RaisedUnknown)
  }

  function Outcomes(script: seq<Attempt>): seq<Outcome> {
    seq(|script|, i requires 0 <= i < |script| => script[i].outcome)
  }

  lemma {:induction false} AttemptsAreBounded(c: Client, script: seq<Attempt>, n: nat, last: Last)
    requires |script| == MAX_ATTEMPTS && n <= MAX_ATTEMPTS
    ensures n <= From(c, script, n, last).attempts <= MAX_ATTEMPTS
    decreases MAX_ATTEMPTS - n
  {
    if n < MAX_ATTEMPTS && script[n].timeBefore {
      match Judge(script[n].outcome)
      case End(_) =>
      case Again(error) => AttemptsAreBounded(Counted(c, script[n].outcome), script, n + 1, error);
    }
  }

  predicate KnownNotRun(outcome: Outcome) {
    RouteMiss(outcome) || outcome == SafeFailure
  }

  /** Only the last attempt decides: a request whose first attempt may have run is sent again through the
      frontend when the next two attempts cannot connect. */
  lemma EarlierAttemptMayHaveRun()
    ensures var script := [Attempt(true, UnknownFailure, true), Attempt(true, SafeFailure, true),
                           Attempt(true, SafeFailure, true)];
            var run := Invoke(Client(true, false, 0), script, true);
            run.frontendRequests == 1 && run.tried == [UnknownFailure, SafeFailure, SafeFailure]
  {
    var script := [Attempt(true, UnknownFailure, true), Attempt(true, SafeFailure, true),
                   Attempt(true, SafeFailure, true)];
    var c := Client(true, false, 0);
    assert From(c, script, 2, SafeError) == GiveUp(c, 3, SafeError);
    assert From(c, script, 1, UnknownError) == From(c, script, 2, SafeError);
    assert From(c, script, 0, NoError) == From(c, script, 1, UnknownError);
    assert script[..3] == script;
  }

  /** Failures that another attempt may get past. */
  predicate MayPass(outcome: Outcome) {
    || outcome == SafeFailure
    || outcome == UnknownFailure
    || (outcome.Response? && outcome.status in {502, 503, 504} && !outcome.terminal)
    || (outcome.Response? && outcome.status < 400 && !outcome.validJson)
  }

  lemma VerdictOf(outcome: Outcome)
    ensures Judge(outcome).Again? <==> MayPass(outcome)
  {}

  /** How many attempts are made: each but the last met a failure that may pass, with time left before and
      after it, and it stops short of three only without time or at an outcome that decides. */
  lemma {:induction false} AttemptsAreExact(c: Client, script: seq<Attempt>, n: nat, last: Last)
    requires |script| == MAX_ATTEMPTS && n <= MAX_ATTEMPTS
    ensures var k := From(c, script, n, last).attempts;
            && n <= k <= MAX_ATTEMPTS
            && (forall i :: n <= i < k ==> script[i].timeBefore)
            && (forall i :: n <= i < k - 1 ==> MayPass(script[i].outcome) && script[i].timeAfter)
            && (k < MAX_ATTEMPTS ==>
                  || !script[k].timeBefore
                  || (k > n && !(MayPass(script[k - 1].outcome) && script[k - 1].timeAfter)))
    decreases MAX_ATTEMPTS - n
  {
    if n < MAX_ATTEMPTS && script[n].timeBefore {
      var outcome := script[n].outcome;
      VerdictOf(outcome);
      if Judge(outcome).Again? && script[n].timeAfter {
        AttemptsAreExact(Counted(c, outcome), script, n + 1, Judge(outcome).last);
      }
    }
  }

  /** What an outcome means for the caller when no other attempt follows it. */
  function Meaning(outcome: Outcome): Ending {
    match outcome
    case SafeFailure => FellBack
    case UnknownFailure => RaisedUnknown
    case OtherFailure => RaisedUnknown
    case Response(status, terminal, validJson) =>
      if status >= 400 && terminal then RaisedTerminal
      else if status == 404 then FellBack
      else if status >= 400 then RaisedHttp
      else if validJson then Returned
      else RaisedUnknown
  }

  predicate EndsAsLast(run: DirectRun, script: seq<Attempt>) {
    && run.attempts <= |script|
    && run.ending == if run.attempts == 0 then RaisedUnknown else Meaning(script[run.attempts - 1].outcome)
  }

  lemma VerdictMeans(c: Client, script: seq<Attempt>, n: nat)
    requires n < |script|
    ensures match Judge(script[n].outcome)
            case End(ending) => EndsAsLast(DirectRun(c, n + 1, ending), script)
            case Again(last) => EndsAsLast(GiveUp(c, n + 1, last), script)
  {}

  /** The direct route ends as its last outcome has it, whatever came before. */
  lemma {:induction false} EndingIsTheLastOutcome(c: Client, script: seq<Attempt>, n: nat, last: Last)
    requires |script| == MAX_ATTEMPTS && n <= MAX_ATTEMPTS
    requires EndsAsLast(GiveUp(c, n, last), script)
    ensures EndsAsLast(From(c, script, n, last), script)
    decreases MAX_ATTEMPTS - n
  {
    if n < MAX_ATTEMPTS && script[n].timeBefore {
      var after := Counted(c, script[n].outcome);
      VerdictMeans(after, script, n);
      match Judge(script[n].outcome)
      case End(_) =>
      case Again(error) => if script[n].timeAfter { EndingIsTheLastOutcome(after, script, n + 1, error); }
    }
  }

  /** So the direct route falls back exactly when the last attempt made is known not to have run anything. */
  lemma FallBackIffLastNotRun(c: Client, script: seq<Attempt>)
    requires |script| == MAX_ATTEMPTS
    ensures var run := From(c, script, 0, NoError);
            && run.attempts <= MAX_ATTEMPTS
            && (run.ending == FellBack <==> run.attempts > 0 && KnownNotRun(script[run.attempts - 1].outcome))
  {
    EndingIsTheLastOutcome(c, script, 0, NoError);
  }

  // ---- what a fall-back repeats, told from the script

  /** Attempt `k` is made. */
  predicate Made(script: seq<Attempt>, k: nat)
    requires |script| == MAX_ATTEMPTS
  {
    && k < MAX_ATTEMPTS && script[k].timeBefore
    && forall i :: 0 <= i < k ==> script[i].timeBefore && MayPass(script[i].outcome) && script[i].timeAfter
  }

  /** It is made, falls back, and no other attempt follows it: the route is missing, or the connection failed
      at the third attempt or with the time. */
  predicate FallsBackAt(script: seq<Attempt>, k: nat)
    requires |script| == MAX_ATTEMPTS
  {
    && Made(script, k)
    && (RouteMiss(script[k].outcome) || (script[k].outcome == SafeFailure && !Made(script, k + 1)))
  }

  lemma FallsBackAtTheLast(c: Client, script: seq<Attempt>)
    requires |script| == MAX_ATTEMPTS
    ensures var run := From(c, script, 0, NoError);
            && run.attempts <= MAX_ATTEMPTS
            && (forall k: nat :: k < MAX_ATTEMPTS ==> (Made(script, k) <==> k < run.attempts))
            && (forall k: nat :: k < MAX_ATTEMPTS ==>
                  (FallsBackAt(script, k) <==> run.ending == FellBack && k + 1 == run.attempts))
  {
    AttemptsAreExact(c, script, 0, NoError);
    FallBackIffLastNotRun(c, script);
  }

  /** How often an action is carried out at most. Direct requests under one id are carried out once; the
      frontend does not know that id. */
  function Executions(run: InvokeRun): nat {
    (if exists i :: 0 <= i < |run.tried| && !KnownNotRun(run.tried[i]) then 1 else 0) + run.frontendRequests
  }

  /** The exact condition, on what the network and the clock do: an invoke can carry its action out twice if
      and only if it falls back, with time left, after an earlier attempt that was anything but a failed
      connection. */
  lemma ExecutedTwiceIff(c: Client, script: seq<Attempt>, timeForFrontend: bool)
    requires |script| == MAX_ATTEMPTS && c.enabled && !c.disabled
    ensures Executions(Invoke(c, script, timeForFrontend)) <= 2
    ensures Executions(Invoke(c, script, timeForFrontend)) == 2 <==>
              && timeForFrontend
              && exists i: nat, k: nat ::
                   i < k < MAX_ATTEMPTS && FallsBackAt(script, k) && script[i].outcome != SafeFailure
  {
    var run := Invoke(c, script, timeForFrontend);
    FallsBackAtTheLast(c, script);
    FallBackIffLastNotRun(c, script);
    AttemptsAreExact(c, script, 0, NoError);
    if Executions(run) == 2 {
      var i :| 0 <= i < |run.tried| && !KnownNotRun(run.tried[i]);
      assert script[i].outcome == run.tried[i] != SafeFailure;
      assert FallsBackAt(script, run.directRequests - 1) && i < run.directRequests - 1;
    }
    if timeForFrontend && exists i: nat, k: nat ::
         i < k < MAX_ATTEMPTS && FallsBackAt(script, k) && script[i].outcome != SafeFailure
    {
      var i: nat, k: nat :| i < k < MAX_ATTEMPTS && FallsBackAt(script, k) && script[i].outcome != SafeFailure;
      assert run.tried[i] == script[i].outcome && MayPass(run.tried[i]);
    }
  }

  /** A client whose direct route is off carries the action out once at most. */
  lemma ExecutedOnceWithoutDirect(c: Client, script: seq<Attempt>, timeForFrontend: bool)
    requires |script| == MAX_ATTEMPTS && !(c.enabled && !c.disabled)
    ensures Executions(Invoke(c, script, timeForFrontend)) == if timeForFrontend then 1 else 0
  {}

  /** One invoke makes at most three direct requests and one through the frontend; after a direct request
      the frontend is used exactly when the last one was a missing route or a failed connection, and
      time remains. */
  lemma InvokeIsBounded(c: Client, script: seq<Attempt>, timeForFrontend: bool)
    requires |script| == MAX_ATTEMPTS
    ensures var run := Invoke(c, script, timeForFrontend);
            && run.directRequests <= 3 && run.frontendRequests <= 1
            && |run.tried| == run.directRequests
            && (run.directRequests > 0 ==> c.enabled && !c.disabled)
            && (run.frontendRequests == 1 <==>
                  timeForFrontend && (if c.enabled && !c.disabled
                                      then run.directRequests > 0 && KnownNotRun(run.tried[run.directRequests - 1])
                                      else true))
  {
    if c.enabled && !c.disabled {
      FallBackIffLastNotRun(c, script);
    }
  }

  /** And it ends as the last direct request has it, with the frontend's request when that one is made, and with an
      unknown outcome when there is nothing to go by: no direct request, or no time for the frontend. */
  lemma InvokeEndsAsTold(c: Client, script: seq<Attempt>, timeForFrontend: bool)
    requires |script| == MAX_ATTEMPTS
    ensures var run := Invoke(c, script, timeForFrontend);
            && (run.ending == FellBack <==> run.frontendRequests == 1)
            && (run.ending != FellBack ==>
                  run.ending == if run.tried == [] || Meaning(run.tried[|run.tried| - 1]) == FellBack then RaisedUnknown
                                else Meaning(run.tried[|run.tried| - 1]))
  {
    if c.enabled && !c.disabled {
      EndingIsTheLastOutcome(c, script, 0, NoError);
      AttemptsAreBounded(c, script, 0, NoError);
    }
  }

  // ---- any number of invokes

  datatype Operation = Call(script: seq<Attempt>, timeForFrontend: bool) | SetEnabled(enabled: bool)

  /** `history`: the outcome of every direct request ever made.  `direct`: how many each operation made. */
  datatype Session = Session(client: Client, history: seq<Outcome>, direct: seq<nat>)

  predicate Valid(operations: seq<Operation>) {
    forall i :: 0 <= i < |operations| && operations[i].Call? ==> |operations[i].script| == MAX_ATTEMPTS
  }

  function Exec(operations: seq<Operation>): (s: Session)
    requires Valid(operations)
    ensures |s.direct| == |operations|
  {
    if operations == [] then Session(Client(true, false, 0), [], []) else
      var before := Exec(operations[..|operations| - 1]);
      match operations[|operations| - 1]
      case Call(script, timeForFrontend) =>
        var run := Invoke(before.client, script, timeForFrontend);
        Session(run.client, before.history + run.tried, before.direct + [run.directRequests])
      case SetEnabled(enabled) =>
        Session(before.client.(enabled := enabled, disabled := before.client.disabled || !enabled),
                before.history, before.direct + [0])
  }

  /** The missing routes since the last other answer; answers that end an invoke as terminal do not count
      either way. */
  function CurrentMisses(history: seq<Outcome>): nat {
    if history == [] then 0 else
      var before := history[..|history| - 1];
      var last := history[|history| - 1];
      if Terminal(last) then CurrentMisses(before)
      else if RouteMiss(last) then CurrentMisses(before) + 1
      else 0
  }

  ghost predicate Tracks(c: Client, history: seq<Outcome>) {
    && c.misses == CurrentMisses(history)
    && (!c.disabled ==> c.misses <= ROUTE_MISS_BUDGET)
  }

  lemma CountedTracks(c: Client, history: seq<Outcome>, outcome: Outcome)
    requires Tracks(c, history)
    ensures Tracks(Counted(c, outcome), history + [outcome])
  {
    assert (history + [outcome])[..|history|] == history;
  }

  lemma OutcomesFrom(script: seq<Attempt>, n: nat, end: nat, history: seq<Outcome>)
    requires n < end <= |script|
    ensures history + [script[n].outcome] + Outcomes(script[n + 1..end]) == history + Outcomes(script[n..end])
  {}

  /** The counters after a run whose attempts had these outcomes. */
  ghost predicate RunTracks(c: Client, run: DirectRun, script: seq<Attempt>, n: nat, history: seq<Outcome>) {
    && n <= run.attempts <= |script|
    && Tracks(run.client, history + Outcomes(script[n..run.attempts]))
    && (c.disabled ==> run.client.disabled)
  }

  lemma NoMoreAttempts(c: Client, run: DirectRun, script: seq<Attempt>, history: seq<Outcome>)
    requires Tracks(c, history) && run.attempts <= |script|
    requires run.client == c || run.client == c.(disabled := true)
    ensures RunTracks(c, run, script, run.attempts, history)
  {
    assert history + Outcomes(script[run.attempts..run.attempts]) == history;
  }

  lemma OneMoreAttempt(c: Client, run: DirectRun, script: seq<Attempt>, n: nat, history: seq<Outcome>)
    requires n < |script| && RunTracks(Counted(c, script[n].outcome), run, script, n + 1, history + [script[n].outcome])
    ensures RunTracks(c, run, script, n, history)
  {
    OutcomesFrom(script, n, run.attempts, history);
  }

  lemma LastAttemptTracks(c: Client, script: seq<Attempt>, n: nat, last: Last, history: seq<Outcome>)
    requires |script| == MAX_ATTEMPTS && n < MAX_ATTEMPTS && script[n].timeBefore && Tracks(c, history)
    requires !(Judge(script[n].outcome).Again? && script[n].timeAfter)
    ensures RunTracks(c, From(c, script, n, last), script, n, history)
  {
    var run, after := From(c, script, n, last), Counted(c, script[n].outcome);
    CountedTracks(c, history, script[n].outcome);
    NoMoreAttempts(after, run, script, history + [script[n].outcome]);
    OneMoreAttempt(c, run, script, n, history);
  }

  lemma AnotherAttempt(c: Client, script: seq<Attempt>, n: nat, last: Last)
    requires |script| == MAX_ATTEMPTS && n < MAX_ATTEMPTS && script[n].timeBefore
    requires Judge(script[n].outcome).Again? && script[n].timeAfter
    ensures From(c, script, n, last)
         == From(Counted(c, script[n].outcome), script, n + 1, Judge(script[n].outcome).last)
  {}

  lemma {:induction false} AttemptsTrack(c: Client, script: seq<Attempt>, n: nat, last: Last, history: seq<Outcome>)
    requires |script| == MAX_ATTEMPTS && n <= MAX_ATTEMPTS && Tracks(c, history)
    ensures RunTracks(c, From(c, script, n, last), script, n, history)
    decreases MAX_ATTEMPTS - n
  {
    if n == MAX_ATTEMPTS || !script[n].timeBefore {
      NoMoreAttempts(c, From(c, script, n, last), script, history);
    } else {
      var outcome := script[n].outcome;
      if Judge(outcome).Again? && script[n].timeAfter {
        var after, error := Counted(c, outcome), Judge(outcome).last;
        CountedTracks(c, history, outcome);
        AttemptsTrack(after, script, n + 1, error, history + [outcome]);
        OneMoreAttempt(c, From(after, script, n + 1, error), script, n, history);
        AnotherAttempt(c, script, n, last);
      } else {
        LastAttemptTracks(c, script, n, last, history);
      }
    }
  }

  /** The miss counter is exactly the current run of missing routes over all invokes, and at most three
      while the direct route is on. */
  lemma {:induction false} MissesAreTheCurrentRun(operations: seq<Operation>)
    requires Valid(operations)
    ensures var s := Exec(operations);
            && s.client.misses == CurrentMisses(s.history)
            && (!s.client.disabled ==> s.client.misses <= 3)
            && (!s.client.enabled ==> s.client.disabled)
  {
    if operations != [] {
      var prefix := operations[..|operations| - 1];
      MissesAreTheCurrentRun(prefix);
      var before := Exec(prefix);
      match operations[|operations| - 1] {
        case Call(script, timeForFrontend) =>
          if before.client.enabled && !before.client.disabled {
            AttemptsTrack(before.client, script, 0, NoError, before.history);
            EnabledKept(before.client, script, 0, NoError);
          } else {
            assert before.history + [] == before.history;
          }
        case SetEnabled(_) =>
      }
    }
  }

  lemma {:induction false} EnabledKept(c: Client, script: seq<Attempt>, n: nat, last: Last)
    requires |script| == MAX_ATTEMPTS && n <= MAX_ATTEMPTS
    ensures From(c, script, n, last).client.enabled == c.enabled
    decreases MAX_ATTEMPTS - n
  {
    if n < MAX_ATTEMPTS && script[n].timeBefore {
      match Judge(script[n].outcome)
      case End(_) =>
      case Again(error) => EnabledKept(Counted(c, script[n].outcome), script, n + 1, error);
    }
  }

  // ---- what turns the direct route off

  /** At some time these outcomes came to more missing routes in a row than the budget allows. */
  ghost predicate OverBudget(history: seq<Outcome>, from: nat) {
    exists n :: from < n <= |history| && CurrentMisses(history[..n]) > ROUTE_MISS_BUDGET
  }

  /** An attempt of the script falls back because the connection failed. */
  ghost predicate ConnectionsFailed(script: seq<Attempt>)
    requires |script| == MAX_ATTEMPTS
  {
    exists k: nat :: k < MAX_ATTEMPTS && FallsBackAt(script, k) && script[k].outcome == SafeFailure
  }

  /** What one direct try does to the switch. */
  ghost predicate SwitchTold(c: Client, run: DirectRun, history: seq<Outcome>, after: seq<Outcome>) {
    run.client.disabled <==>
      || c.disabled
      || (after != [] && run.ending == FellBack && after[|after| - 1] == SafeFailure)
      || OverBudget(after, |history|)
  }

  lemma OneOutcomeOver(history: seq<Outcome>, outcome: Outcome)
    ensures OverBudget(history + [outcome], |history|) <==> CurrentMisses(history + [outcome]) > ROUTE_MISS_BUDGET
  {
    var longer := history + [outcome];
    assert longer[..|longer|] == longer;
  }

  lemma NothingOver(history: seq<Outcome>)
    ensures !OverBudget(history, |history|)
  {}

  lemma OverInTwoParts(history: seq<Outcome>, middle: nat, from: nat)
    requires from <= middle <= |history|
    ensures OverBudget(history, from) <==> OverBudget(history[..middle], from) || OverBudget(history, middle)
  {
    if OverBudget(history, from) {
      var n :| from < n <= |history| && CurrentMisses(history[..n]) > ROUTE_MISS_BUDGET;
      if n <= middle { assert history[..middle][..n] == history[..n]; }
    }
    if OverBudget(history[..middle], from) {
      var n :| from < n <= middle && CurrentMisses(history[..middle][..n]) > ROUTE_MISS_BUDGET;
      assert history[..middle][..n] == history[..n];
    }
  }

  /** The counter turns the switch off exactly when the current run of missing routes exceeds the budget. */
  lemma CountedSwitch(c: Client, history: seq<Outcome>, outcome: Outcome)
    requires Tracks(c, history) && !c.disabled
    ensures Counted(c, outcome).disabled <==> CurrentMisses(history + [outcome]) > ROUTE_MISS_BUDGET
  {
    assert (history + [outcome])[..|history|] == history;
  }

  lemma RetriedIsNoMiss(outcome: Outcome)
    requires Judge(outcome).Again?
    ensures !RouteMiss(outcome) && !Terminal(outcome)
  {}

  /** The last attempt: it ends the run, or the run is given up after it. */
  lemma LastAttemptSwitch(c: Client, script: seq<Attempt>, n: nat, last: Last, history: seq<Outcome>)
    requires |script| == MAX_ATTEMPTS && n < MAX_ATTEMPTS && script[n].timeBefore && Tracks(c, history) && !c.disabled
    requires From(c, script, n, last).attempts == n + 1
    ensures SwitchTold(c, From(c, script, n, last), history, history + [script[n].outcome])
  {
    CountedSwitch(c, history, script[n].outcome);
    OneOutcomeOver(history, script[n].outcome);
    var after := Counted(c, script[n].outcome);
    if Judge(script[n].outcome).Again? {
      RetriedIsNoMiss(script[n].outcome);
      assert From(c, script, n, last) == GiveUp(after, n + 1, Judge(script[n].outcome).last) by {
        if script[n].timeAfter { AttemptsAreExact(after, script, n + 1, Judge(script[n].outcome).last); }
      }
    }
  }

  lemma {:induction false} AttemptsSwitch(c: Client, script: seq<Attempt>, n: nat, last: Last, history: seq<Outcome>)
    requires |script| == MAX_ATTEMPTS && n < MAX_ATTEMPTS && script[n].timeBefore && Tracks(c, history) && !c.disabled
    ensures var run := From(c, script, n, last);
            && n < run.attempts <= MAX_ATTEMPTS
            && SwitchTold(c, run, history, history + Outcomes(script[n..run.attempts]))
    decreases MAX_ATTEMPTS - n
  {
    AttemptsAreExact(c, script, n, last);
    var run := From(c, script, n, last);
    if run.attempts == n + 1 {
      LastAttemptSwitch(c, script, n, last, history);
      assert Outcomes(script[n..n + 1]) == [script[n].outcome];
    } else {
      var outcome := script[n].outcome;
      AnotherSwitch(c, script, n, last, history);
      AttemptsSwitch(Counted(c, outcome), script, n + 1, Judge(outcome).last, history + [outcome]);
      OutcomesFrom(script, n, run.attempts, history);
      var whole := history + Outcomes(script[n..run.attempts]);
      assert whole[..|history| + 1] == history + [outcome];
      OverInTwoParts(whole, |history| + 1, |history|);
    }
  }

  lemma AnotherSwitch(c: Client, script: seq<Attempt>, n: nat, last: Last, history: seq<Outcome>)
    requires |script| == MAX_ATTEMPTS && n < MAX_ATTEMPTS && script[n].timeBefore && Tracks(c, history) && !c.disabled
    requires From(c, script, n, last).attempts > n + 1
    ensures var outcome := script[n].outcome;
            var after := Counted(c, outcome);
            && Judge(outcome).Again? && script[n].timeAfter
            && From(c, script, n, last) == From(after, script, n + 1, Judge(outcome).last)
            && n + 1 < MAX_ATTEMPTS && script[n + 1].timeBefore
            && Tracks(after, history + [outcome]) && !after.disabled
            && !OverBudget(history + [outcome], |history|)
  {
    AttemptsAreExact(c, script, n, last);
    VerdictOf(script[n].outcome);
    CountedTracks(c, history, script[n].outcome);
    CountedSwitch(c, history, script[n].outcome);
    RetriedIsNoMiss(script[n].outcome);
    OneOutcomeOver(history, script[n].outcome);
  }

  /** One invoke with the direct route on turns it off exactly when its script falls back over failed
      connections, or when its attempts run over the miss budget. */
  lemma InvokeSwitch(c: Client, script: seq<Attempt>, timeForFrontend: bool, history: seq<Outcome>)
    requires |script| == MAX_ATTEMPTS && c.enabled && !c.disabled && Tracks(c, history)
    ensures var run := Invoke(c, script, timeForFrontend);
            run.client.disabled <==> ConnectionsFailed(script) || OverBudget(history + run.tried, |history|)
  {
    var run := From(c, script, 0, NoError);
    FallsBackAtTheLast(c, script);
    AttemptsAreExact(c, script, 0, NoError);
    if script[0].timeBefore {
      AttemptsSwitch(c, script, 0, NoError, history);
      assert script[0..run.attempts] == script[..run.attempts];
      var after := history + Outcomes(script[..run.attempts]);
      assert after[|after| - 1] == script[run.attempts - 1].outcome;
      if run.ending == FellBack { assert FallsBackAt(script, run.attempts - 1); }
    } else {
      assert history + [] == history;
      NothingOver(history);
    }
  }

  /** An operation that turns the direct route off. */
  ghost predicate TurnsOff(operations: seq<Operation>, i: nat)
    requires Valid(operations) && i < |operations|
  {
    match operations[i]
    case SetEnabled(enabled) => !enabled
    case Call(script, _) =>
      var c := Exec(operations[..i]).client;
      c.enabled && !c.disabled && ConnectionsFailed(script)
  }

  ghost predicate SomeTurnsOff(operations: seq<Operation>)
    requires Valid(operations)
  {
    exists i :: 0 <= i < |operations| && TurnsOff(operations, i)
  }

  lemma OneMoreOperation(operations: seq<Operation>)
    requires Valid(operations) && operations != []
    ensures var last := |operations| - 1;
            SomeTurnsOff(operations) <==> SomeTurnsOff(operations[..last]) || TurnsOff(operations, last)
  {
    var last := |operations| - 1;
    var prefix := operations[..last];
    forall i | 0 <= i < last ensures TurnsOff(prefix, i) <==> TurnsOff(operations, i) {
      assert prefix[..i] == operations[..i];
    }
    if SomeTurnsOff(prefix) {
      var i :| 0 <= i < |prefix| && TurnsOff(prefix, i);
      assert TurnsOff(operations, i);
    }
  }

  /** The exact condition, over any operations: the direct route is off if and only if somebody switched it off,
      or a call made while it was on fell back over failed connections, or at some time more than three direct
      requests in a row had found no route. */
  lemma {:induction false} OffIff(operations: seq<Operation>)
    requires Valid(operations)
    ensures Exec(operations).client.disabled
       <==> SomeTurnsOff(operations) || OverBudget(Exec(operations).history, 0)
  {
    if operations != [] {
      var last := |operations| - 1;
      var prefix := operations[..last];
      OffIff(prefix);
      OneMoreOperation(operations);
      MissesAreTheCurrentRun(prefix);
      var before := Exec(prefix);
      var after := Exec(operations);
      match operations[last] {
        case Call(script, timeForFrontend) =>
          OverInTwoParts(after.history, |before.history|, 0);
          assert after.history[..|before.history|] == before.history;
          if before.client.enabled && !before.client.disabled {
            InvokeSwitch(before.client, script, timeForFrontend, before.history);
          } else {
            assert before.history + [] == before.history;
            NothingOver(before.history);
          }
        case SetEnabled(_) =>
      }
    }
  }

  /** Once the direct route is off it stays off: no later operation makes a direct request. */
  lemma {:induction false} NeverDirectAgain(operations: seq<Operation>, i: nat)
    requires Valid(operations) && i <= |operations| && Exec(operations[..i]).client.disabled
    ensures Exec(operations).client.disabled
    ensures forall k :: i <= k < |operations| ==> Exec(operations).direct[k] == 0
    decreases |operations|
  {
    if i == |operations| {
      assert operations[..i] == operations;
    } else {
      var prefix := operations[..|operations| - 1];
      assert prefix[..i] == operations[..i];
      NeverDirectAgain(prefix, i);
    }
  }

  /** Which value the caller gave the switch last. */
  function LastChoice(operations: seq<Operation>): bool {
    if operations == [] then true else
    match operations[|operations| - 1]
    case SetEnabled(enabled) => enabled
    case Call(_, _) => LastChoice(operations[..|operations| - 1])
  }

  /** The switch shows what the caller chose last, whether or not the direct route is still used. */
  lemma {:induction false} SwitchShowsTheChoice(operations: seq<Operation>)
    requires Valid(operations)
    ensures Exec(operations).client.enabled == LastChoice(operations)
  {
    if operations != [] {
      var before := operations[..|operations| - 1];
      SwitchShowsTheChoice(before);
      match operations[|operations| - 1]
      case SetEnabled(_) =>
      case Call(script, _) => if Exec(before).client.enabled && !Exec(before).client.disabled {
        KeepsChoice(Exec(before).client, script, 0, NoError);
      }
    }
  }

  lemma {:induction false} KeepsChoice(c: Client, script: seq<Attempt>, n: nat, last: Last)
    requires |script| == MAX_ATTEMPTS && n <= MAX_ATTEMPTS
    ensures From(c, script, n, last).client.enabled == c.enabled
    decreases MAX_ATTEMPTS - n
  {
    if n < MAX_ATTEMPTS && script[n].timeBefore {
      match Judge(script[n].outcome)
      case End(_) =>
      case Again(error) => KeepsChoice(Counted(c, script[n].outcome), script, n + 1, error);
    }
  }

  /** The client object; `sent` is the list of its requests. */
  class SandboxClient {
    var directEnabled: bool
    var directDisabled: bool
    var directRouteMisses: nat
    ghost var sent: seq<(string, Route)>

    function View(): Client
      reads this
    {
      Client(directEnabled, directDisabled, directRouteMisses)
    }

    constructor ()
      ensures View() == Client(true, false, 0) && sent == []
    {
      directEnabled, directDisabled, directRouteMisses, sent := true, false, 0, [];
    }

    method SetDirectEnabled(enabled: bool)
      modifies this
      ensures View() == old(View()).(enabled := enabled, disabled := old(directDisabled) || !enabled)
      ensures sent == old(sent)
    {
      directEnabled := enabled;
      if !enabled { directDisabled := true; }
    }

    /** The bookkeeping of one response or failure. */
    method Count(outcome: Outcome)
      modifies this
      ensures View() == Counted(old(View()), outcome) && sent == old(sent)
    {
      if outcome.Response? && outcome.status >= 400 && outcome.terminal { return; }
      if outcome.Response? && outcome.status == 404 {
        directRouteMisses := directRouteMisses + 1;
        if directRouteMisses > ROUTE_MISS_BUDGET { directDisabled := true; }
        return;
      }
      directRouteMisses := 0;
    }

    method InvokeDirect(requestId: string, script: seq<Attempt>) returns (ending: Ending, ghost attempts: nat)
      requires |script| == MAX_ATTEMPTS
      modifies this
      ensures DirectRun(View(), attempts, ending) == From(old(View()), script, 0, NoError)
      ensures sent == old(sent) + seq(attempts, _ => (requestId, Direct))
    {
      attempts := 0;
      var last := NoError;
      var attempt := 0;
      while attempt < MAX_ATTEMPTS
        invariant 0 <= attempt <= MAX_ATTEMPTS && attempts == attempt
        invariant From(View(), script, attempt, last) == From(old(View()), script, 0, NoError)
        invariant sent == old(sent) + seq(attempt, _ => (requestId, Direct))
      {
        if !script[attempt].timeBefore { break; }
        attempt := attempt + 1;
        attempts := attempt;
        sent := sent + [(requestId, Direct)];
        var outcome := script[attempt - 1].outcome;
        Count(outcome);
        match outcome {
          case SafeFailure => last := SafeError;
          case UnknownFailure => last := UnknownError;
          case OtherFailure => return RaisedUnknown, attempts;
          case Response(status, terminal, validJson) =>
            if status >= 400 && terminal { return RaisedTerminal, attempts; }
            if status == 404 { return FellBack, attempts; }
            if status == 502 || status == 503 || status == 504 {
              last := HttpError;
            } else if status >= 400 {
              return RaisedHttp, attempts;
            } else if validJson {
              return Returned, attempts;
            } else {
              last := UnknownError;
            }
        }
        if attempt >= MAX_ATTEMPTS || !script[attempt - 1].timeAfter { break; }
      }
      if last == SafeError {
        directDisabled := true;
        return FellBack, attempts;
      }
      return if last == HttpError then RaisedHttp else RaisedUnknown, attempts;
    }

    method InvokeAction(requestId: string, script: seq<Attempt>, timeForFrontend: bool) returns (ending: Ending)
      requires |script| == MAX_ATTEMPTS
      modifies this
      ensures var run := Invoke(old(View()), script, timeForFrontend);
              && View() == run.client && ending == run.ending
              && sent == old(sent) + seq(run.directRequests, _ => (requestId, Direct))
                                   + seq(run.frontendRequests, _ => (requestId, Frontend))
    {
      if directEnabled && !directDisabled {
        ghost var attempts;
        ending, attempts := InvokeDirect(requestId, script);
        if ending != FellBack { return; }
      }
      if !timeForFrontend { return RaisedUnknown; }
      sent := sent + [(requestId, Frontend)];
      return FellBack;
    }
  }
}
