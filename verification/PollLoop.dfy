/**
 Waiting for a background process: polling until it is done, an error ends it, or the deadline passes.
 Times are whole microseconds of the monotonic clock; the script says what each poll meets.
 */
module PollLoops {
  import opened Bytes

  const POLL_INTERVAL := 10_000_000
  const RETRY_DELAY := 1_000_000
  const MAX_CONSECUTIVE_ERRORS := 3

  /** Retryable: an error that may pass.  Fatal: a closed client, or a status that ends polling. */
  datatype Outcome = ProcessDone | ProcessError | StillRunning | Retryable | Fatal

  /** One round: the jittered wait, how long the poll took, and by how much a sleep ran over. */
  datatype Round = Round(jittered: nat, outcome: Outcome, elapsed: nat, oversleep: nat)

  /** What the loop does, with the time left when it computed how long. */
  datatype Action =
    | Poll(wait: int, remaining: int, outcome: Outcome)
    | Sleep(delay: int, remaining: int)
    | Kill

  datatype Ending = Finished | FailedProcess | TimedOut | RaisedFatal | RaisedErrors | Unfinished

  datatype Run = Run(actions: seq<Action>, ending: Ending)

  predicate Jittered(round: Round) {
    7 * POLL_INTERVAL <= 10 * round.jittered < 13 * POLL_INTERVAL
  }

  function Prepend(first: seq<Action>, rest: Run): Run {
    rest.(actions := first + rest.actions)
  }

  /** The rounds left, the clock at `now`, after `errors` failed polls in a row. Unfinished when the
      script stops first. */
  function From(script: seq<Round>, now: int, deadline: int, errors: nat): Run
    decreases |script|, 1
  {
    if deadline - now <= 0 then Run([Kill], TimedOut)
    else if script == [] then Run([], Unfinished)
    else
      var round := script[0];
      Prepend([Poll(Min(round.jittered, deadline - now), deadline - now, round.outcome)],
              AfterPoll(script, now + round.elapsed, deadline, errors))
  }

  /** The rest of a run whose first poll has just returned. */
  function AfterPoll(script: seq<Round>, after: int, deadline: int, errors: nat): Run
    requires script != []
    decreases |script|, 0
  {
    match script[0].outcome
    case ProcessDone => Run([], Finished)
    case ProcessError => Run([], FailedProcess)
    case Fatal => Run([], RaisedFatal)
    case StillRunning => From(script[1..], after, deadline, 0)
    case Retryable =>
      var delay := Min(RETRY_DELAY, deadline - after);
      if delay <= 0 then Run([Kill], TimedOut)
      else if errors + 1 >= MAX_CONSECUTIVE_ERRORS then Run([], RaisedErrors)
      else Prepend([Sleep(delay, deadline - after)],
                   From(script[1..], after + delay + script[0].oversleep, deadline, errors + 1))
  }

  function Kills(actions: seq<Action>): nat {
    if actions == [] then 0 else (if actions[0].Kill? then 1 else 0) + Kills(actions[1..])
  }

  function FailuresAfter(action: Action, before: nat): nat {
    if action.Poll? then (if action.outcome == Retryable then before + 1 else 0) else before
  }

  /** The failed polls at the end of a list of actions, any other poll in between ending the count. */
  function FailuresInARow(actions: seq<Action>, before: nat): nat
    decreases |actions|
  {
    if actions == [] then before
    else FailuresInARow(actions[1..], FailuresAfter(actions[0], before))
  }

  /** No wait and no sleep outlasts the time left when it was computed, and none is empty. */
  ghost predicate InTime(actions: seq<Action>) {
    forall i :: 0 <= i < |actions| ==>
      match actions[i]
      case Poll(wait, remaining, _) => 0 < wait <= remaining && 10 * wait < 13 * POLL_INTERVAL
      case Sleep(delay, remaining) => 0 < delay <= remaining && delay <= RETRY_DELAY
      case Kill => i == |actions| - 1
  }

  /** At every point at most three polls in a row have failed. */
  ghost predicate ErrorsBounded(actions: seq<Action>, before: nat) {
    forall n :: 0 <= n <= |actions| ==> FailuresInARow(actions[..n], before) <= MAX_CONSECUTIVE_ERRORS
  }

  /** What is shown of a run that begins after `before` failed polls in a row. */
  ghost predicate Orderly(run: Run, before: nat) {
    && InTime(run.actions)
    && ErrorsBounded(run.actions, before)
    && Kills(run.actions) == (if run.ending == TimedOut then 1 else 0)
    && (run.ending == RaisedErrors ==> FailuresInARow(run.actions, before) == MAX_CONSECUTIVE_ERRORS)
    && (run.ending in {Unfinished, Finished, FailedProcess} ==>
          FailuresInARow(run.actions, before) < MAX_CONSECUTIVE_ERRORS)
  }

  lemma OrderlyPrepend(first: Action, rest: Run, before: nat)
    requires !first.Kill? && InTime([first]) && before <= MAX_CONSECUTIVE_ERRORS
    requires Orderly(rest, FailuresAfter(first, before))
    ensures Orderly(Prepend([first], rest), before)
  {
    var all := [first] + rest.actions;
    assert all[0] == [first][0] && all[1..] == rest.actions;
    forall n | 0 <= n <= |all| ensures FailuresInARow(all[..n], before) <= MAX_CONSECUTIVE_ERRORS {
      if n > 0 { assert all[..n][1..] == rest.actions[..n - 1]; }
    }
    assert forall i :: 1 <= i < |all| ==> all[i] == rest.actions[i - 1];
  }

  lemma OrderlyEnd(before: nat, ending: Ending)
    requires before <= MAX_CONSECUTIVE_ERRORS && (ending == RaisedErrors <==> before == MAX_CONSECUTIVE_ERRORS)
    ensures ending != TimedOut ==> Orderly(Run([], ending), before)
    ensures Orderly(Run([Kill], TimedOut), before)
  {
    assert [Kill][..1] == [Kill] && [Kill][1..] == [];
    assert FailuresInARow([Kill], before) == FailuresInARow([], before);
  }

  /** Over every script: each wait and each sleep fits the time left, no block of failed polls is longer
      than three, the errors are raised only by three failed polls in a row, and the process is killed
      exactly once when the loop ends by its deadline and not at all when it ends in any other way. */
  lemma {:induction false} LoopIsOrderly(script: seq<Round>, now: int, deadline: int, errors: nat)
    requires errors < MAX_CONSECUTIVE_ERRORS && forall i :: 0 <= i < |script| ==> Jittered(script[i])
    ensures Orderly(From(script, now, deadline, errors), errors)
    decreases |script|
  {
    if deadline - now <= 0 || script == [] {
      OrderlyEnd(errors, Unfinished);
    } else {
      var round := script[0];
      assert Jittered(round);
      var poll := Poll(Min(round.jittered, deadline - now), deadline - now, round.outcome);
      var after := now + round.elapsed;
      AfterPollIsOrderly(script, after, deadline, errors);
      OrderlyPrepend(poll, AfterPoll(script, after, deadline, errors), errors);
    }
  }

  lemma {:induction false} AfterPollIsOrderly(script: seq<Round>, after: int, deadline: int, errors: nat)
    requires script != [] && errors < MAX_CONSECUTIVE_ERRORS
    requires forall i :: 0 <= i < |script| ==> Jittered(script[i])
    ensures Orderly(AfterPoll(script, after, deadline, errors),
                    if script[0].outcome == Retryable then errors + 1 else 0)
    decreases |script|, 0
  {
    match script[0].outcome {
      case StillRunning => LoopIsOrderly(script[1..], after, deadline, 0);
      case Retryable =>
        if deadline > after && errors + 1 < MAX_CONSECUTIVE_ERRORS {
          LoopIsOrderly(script[1..], AwakeAt(script[0], after, deadline), deadline, errors + 1);
        }
        AfterFailureIsOrderly(script, after, deadline, errors);
      case ProcessDone => OrderlyEnd(0, Finished);
      case ProcessError => OrderlyEnd(0, FailedProcess);
      case Fatal => OrderlyEnd(0, RaisedFatal);
    }
  }

  function AwakeAt(round: Round, after: int, deadline: int): int {
    after + Min(RETRY_DELAY, deadline - after) + round.oversleep
  }

  lemma AfterFailureIsOrderly(script: seq<Round>, after: int, deadline: int, errors: nat)
    requires script != [] && script[0].outcome == Retryable && errors < MAX_CONSECUTIVE_ERRORS
    requires deadline > after && errors + 1 < MAX_CONSECUTIVE_ERRORS ==>
               Orderly(From(script[1..], AwakeAt(script[0], after, deadline), deadline, errors + 1), errors + 1)
    ensures Orderly(AfterPoll(script, after, deadline, errors), errors + 1)
  {
    if deadline > after && errors + 1 < MAX_CONSECUTIVE_ERRORS {
      var sleep := Sleep(Min(RETRY_DELAY, deadline - after), deadline - after);
      OrderlyPrepend(sleep, From(script[1..], AwakeAt(script[0], after, deadline), deadline, errors + 1), errors + 1);
    } else {
      OrderlyEnd(errors + 1, if errors + 1 == MAX_CONSECUTIVE_ERRORS then RaisedErrors else Unfinished);
    }
  }

  // ---- what each action and the ending are, told from the rounds and a clock

  /** What a list of actions may be when `rounds` polls are over and the clock shows `now`: every wait, every
      sleep and the kill go by the time left, the outcomes are those of the script in order, a sleep follows a
      failed poll only, and nothing follows the kill. */
  ghost predicate Follows(actions: seq<Action>, script: seq<Round>, rounds: nat, now: int, deadline: int)
    decreases |actions|
  {
    actions == [] ||
    match actions[0]
    case Poll(wait, remaining, outcome) =>
      && rounds < |script| && outcome == script[rounds].outcome
      && remaining == deadline - now > 0 && wait == Min(script[rounds].jittered, remaining)
      && Follows(actions[1..], script, rounds + 1, now + script[rounds].elapsed, deadline)
    case Sleep(delay, remaining) =>
      && 0 < rounds <= |script| && script[rounds - 1].outcome == Retryable
      && remaining == deadline - now > 0 && delay == Min(RETRY_DELAY, remaining)
      && Follows(actions[1..], script, rounds, now + delay + script[rounds - 1].oversleep, deadline)
    case Kill => deadline <= now && |actions| == 1
  }

  /** How a run ends that did this. */
  ghost predicate EndsAs(run: Run, last: Action) {
    match last
    case Poll(_, _, ProcessDone) => run.ending == Finished
    case Poll(_, _, ProcessError) => run.ending == FailedProcess
    case Poll(_, _, Fatal) => run.ending == RaisedFatal
    case Poll(_, _, StillRunning) => run.ending == Unfinished
    case Poll(_, _, Retryable) => run.ending == RaisedErrors
    case Sleep(_, _) => run.ending == Unfinished
    case Kill => run.ending == TimedOut
  }

  ghost predicate Told(run: Run, script: seq<Round>, rounds: nat, now: int, deadline: int) {
    && Follows(run.actions, script, rounds, now, deadline)
    && (run.actions != [] ==> EndsAs(run, run.actions[|run.actions| - 1]))
  }

  lemma ToldPrepend(first: Action, rest: Run, script: seq<Round>, rounds: nat, now: int, deadline: int)
    requires !first.Kill?
    requires Follows([first], script, rounds, now, deadline)
    requires rest.actions == [] ==> EndsAs(rest, first)
    requires first.Poll? ==> Told(rest, script, rounds + 1, now + script[rounds].elapsed, deadline)
    requires first.Sleep? ==> Told(rest, script, rounds, now + first.delay + script[rounds - 1].oversleep, deadline)
    ensures Told(Prepend([first], rest), script, rounds, now, deadline)
  {
    var all := [first] + rest.actions;
    assert all[1..] == rest.actions;
  }

  /** Over every script: each action goes by the time that is left then, and the last action tells the ending. */
  lemma {:induction false} RunIsTold(script: seq<Round>, rounds: nat, now: int, deadline: int, errors: nat)
    requires rounds <= |script|
    ensures var run := From(script[rounds..], now, deadline, errors);
            && Told(run, script, rounds, now, deadline)
            && (run.actions == [] ==> run.ending == Unfinished)
    decreases |script| - rounds
  {
    if deadline - now > 0 && rounds < |script| {
      var rest := script[rounds..];
      var round := script[rounds];
      assert rest[1..] == script[rounds + 1..];
      var after := now + round.elapsed;
      var poll := Poll(Min(round.jittered, deadline - now), deadline - now, round.outcome);
      if round.outcome == StillRunning {
        RunIsTold(script, rounds + 1, after, deadline, 0);
      } else if round.outcome == Retryable && deadline > after && errors + 1 < MAX_CONSECUTIVE_ERRORS {
        var sleep := Sleep(Min(RETRY_DELAY, deadline - after), deadline - after);
        var awake := AwakeAt(round, after, deadline);
        RunIsTold(script, rounds + 1, awake, deadline, errors + 1);
        ToldPrepend(sleep, From(script[rounds + 1..], awake, deadline, errors + 1), script, rounds + 1, after,
                    deadline);
      }
      ToldPrepend(poll, AfterPoll(rest, after, deadline, errors), script, rounds, now, deadline);
    }
  }

  /** The loop ends before the script does when every poll that finds the process running takes time. */
  lemma {:induction false} LoopEnds(script: seq<Round>, now: int, deadline: int, errors: nat)
    requires forall i :: 0 <= i < |script| && script[i].outcome == StillRunning ==> script[i].elapsed > 0
    requires |script| >= deadline - now
    ensures From(script, now, deadline, errors).ending != Unfinished
    decreases |script|
  {
    if deadline - now > 0 {
      var round := script[0];
      var after := now + round.elapsed;
      if round.outcome == StillRunning {
        LoopEnds(script[1..], after, deadline, 0);
      } else if round.outcome == Retryable {
        var delay := Min(RETRY_DELAY, deadline - after);
        if delay > 0 && errors + 1 < MAX_CONSECUTIVE_ERRORS {
          LoopEnds(script[1..], after + delay + round.oversleep, deadline, errors + 1);
        }
      }
    }
  }

  /** Three failed polls in a row with time left end the loop with an error, two do not. */
  lemma ThirdFailureRaises(rounds: seq<Round>, deadline: int)
    requires |rounds| == 3 && forall i :: 0 <= i < 3 ==> rounds[i].outcome == Retryable
    requires deadline > Spent(rounds[0]) + Spent(rounds[1]) + Spent(rounds[2])
    ensures From(rounds, 0, deadline, 0).ending == RaisedErrors
    ensures From(rounds[..2], 0, deadline, 0).ending == Unfinished
  {
    var a, b := Spent(rounds[0]), Spent(rounds[0]) + Spent(rounds[1]);
    assert rounds[1..][0] == rounds[1] && rounds[1..][1..] == [rounds[2]] && rounds[..2][1..] == [rounds[1]];
    assert From([rounds[2]], b, deadline, 2).ending == RaisedErrors;
    assert From(rounds[1..], a, deadline, 1).ending == RaisedErrors;
    assert [rounds[1]][1..] == [] && From([], b, deadline, 2).ending == Unfinished;
    assert From([rounds[1]], a, deadline, 1).ending == Unfinished;
  }

  function Spent(round: Round): nat {
    round.elapsed + RETRY_DELAY + round.oversleep
  }

  /** The handler of one failed poll, from counting it to the sleep; None when the loop goes on. */
  method AfterFailure(errors: nat, now: int, deadline: int, oversleep: nat)
    returns (stop: Option<Ending>, newErrors: nat, newNow: int, actions: seq<Action>)
    ensures newErrors == errors + 1
    ensures var delay := Min(RETRY_DELAY, deadline - now);
            if delay <= 0 then stop == Some(TimedOut) && actions == [Kill]
            else if errors + 1 >= MAX_CONSECUTIVE_ERRORS then stop == Some(RaisedErrors) && actions == []
            else stop == None && actions == [Sleep(delay, deadline - now)] && newNow == now + delay + oversleep
  {
    newErrors := errors + 1;
    newNow := now;
    var retryDelay := Min(RETRY_DELAY, deadline - now);
    if retryDelay <= 0 { return Some(TimedOut), newErrors, newNow, [Kill]; }
    if newErrors >= MAX_CONSECUTIVE_ERRORS { return Some(RaisedErrors), newErrors, newNow, []; }
    return None, newErrors, now + retryDelay + oversleep, [Sleep(retryDelay, deadline - now)];
  }

  /** The loop itself, with its clock; the actions of the run are what it did. */
  method PollUntilDone(script: seq<Round>, start: int, timeout: int) returns (run: Run)
    ensures run == From(script, start, start + timeout, 0)
  {
    var deadline := start + timeout;
    var now, consecutiveErrors, i := start, 0, 0;
    var actions: seq<Action> := [];
    ghost var whole := From(script, start, deadline, 0);
    NothingDone(whole);
    assert script[0..] == script;
    while deadline - now > 0
      invariant 0 <= i <= |script|
      invariant Prepend(actions, From(script[i..], now, deadline, consecutiveErrors)) == whole
      decreases |script| - i
    {
      if i == |script| {
        NothingMore(actions, Unfinished);
        return Run(actions, Unfinished);
      }
      var round := script[i];
      var poll := Poll(Min(round.jittered, deadline - now), deadline - now, round.outcome);
      now := now + round.elapsed;
      ghost var rest := AfterPoll(script[i..], now, deadline, consecutiveErrors);
      PrependTwice(actions, [poll], rest);
      actions := actions + [poll];
      assert Prepend(actions, rest) == whole;
      assert script[i..][1..] == script[i + 1..];
      i := i + 1;
      if round.outcome == Fatal {
        NothingMore(actions, RaisedFatal);
        return Run(actions, RaisedFatal);
      }
      if round.outcome == Retryable {
        var stop, newErrors, newNow, more := AfterFailure(consecutiveErrors, now, deadline, round.oversleep);
        if stop.Some? {
          assert rest == Run(more, stop.value);
          return Run(actions + more, stop.value);
        }
        PrependTwice(actions, more, From(script[i..], newNow, deadline, newErrors));
        actions, consecutiveErrors, now := actions + more, newErrors, newNow;
      } else {
        consecutiveErrors := 0;
        if round.outcome == ProcessDone {
          NothingMore(actions, Finished);
          return Run(actions, Finished);
        }
        if round.outcome == ProcessError {
          NothingMore(actions, FailedProcess);
          return Run(actions, FailedProcess);
        }
      }
    }
    return Run(actions + [Kill], TimedOut);
  }

  lemma NothingDone(rest: Run)
    ensures Prepend([], rest) == rest
  {
    assert [] + rest.actions == rest.actions;
  }

  lemma NothingMore(actions: seq<Action>, ending: Ending)
    ensures Prepend(actions, Run([], ending)) == Run(actions, ending)
  {
    assert actions + [] == actions;
  }

  lemma PrependTwice(first: seq<Action>, second: seq<Action>, rest: Run)
    ensures Prepend(first, Prepend(second, rest)) == Prepend(first + second, rest)
  {
    assert first + (second + rest.actions) == first + second + rest.actions;
  }
}
