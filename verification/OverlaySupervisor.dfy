/** The overlay process supervisor: restart with bounded exponential backoff. */
module OverlaySupervisor {
  import opened Basics

  const SECOND := 1_000_000_000
  const STABLE_CHILD_INTERVAL := 30 * SECOND
  const MAX_RESTART_DELAY := 30 * SECOND
  const U32_MAX := 0xFFFF_FFFF

  datatype Status = Started | Running | Exited | BackingOff | ExecutableMissing | StartFailed

  /** The answer of the system about the recorded child. The question itself may fail; the
      child then lives on or not. */
  datatype Wait = StillRunning | HasExited | WaitFailed(childLives: bool)

  /** What a tick meets: the time in nanoseconds, the answer about the child if one is recorded,
      how many processes that are no longer recorded ended since the last tick, whether the
      executable exists and whether starting it works. */
  datatype Tick = Tick(now: nat, wait: Wait, strayEnded: nat, executableExists: bool, startWorks: bool)

  datatype State = State(childStartedAt: Option<nat>, retryAt: Option<nat>, failures: nat)

  function Initially(): State {
    State(None, None, 0)
  }

  function RestartDelay(failures: nat): nat {
    var exponent := if failures == 0 then 0 else if failures - 1 < 5 then failures - 1 else 5;
    var delay := [1, 2, 4, 8, 16, 32][exponent] * SECOND;
    if delay < MAX_RESTART_DELAY then delay else MAX_RESTART_DELAY
  }

  function Bump(failures: nat): nat {
    if failures >= U32_MAX then U32_MAX else failures + 1
  }

  function Failed(s: State, now: nat): State {
    State(None, Some(now + RestartDelay(Bump(s.failures))), Bump(s.failures))
  }

  predicate Stable(s: State, t: Tick) {
    s.childStartedAt.Some? && t.wait.StillRunning? && t.now >= s.childStartedAt.value + STABLE_CHILD_INTERVAL
  }

  /** The state and status after one tick. */
  function Step(s: State, t: Tick): (State, Status) {
    if s.childStartedAt.Some? then
      if t.wait.StillRunning? then (if Stable(s, t) then s.(failures := 0) else s, Running)
      else (Failed(s, t.now), Exited)
    else if s.retryAt.Some? && t.now < s.retryAt.value then (s, BackingOff)
    else if !t.executableExists then (Failed(s, t.now), ExecutableMissing)
    else if t.startWorks then (State(Some(t.now), None, s.failures), Started)
    else (Failed(s, t.now), StartFailed)
  }

  class Supervisor {
    var childStartedAt: Option<nat>
    var retryAt: Option<nat>
    var consecutiveFailures: nat

    function Current(): State
      reads this
    {
      State(childStartedAt, retryAt, consecutiveFailures)
    }

    constructor ()
      ensures Current() == Initially()
    {
      childStartedAt, retryAt, consecutiveFailures := None, None, 0;
    }

    method RecordFailure() returns (delay: nat)
      modifies this`consecutiveFailures
      ensures consecutiveFailures == Bump(old(consecutiveFailures)) && delay == RestartDelay(consecutiveFailures)
    {
      consecutiveFailures := if consecutiveFailures >= U32_MAX then U32_MAX else consecutiveFailures + 1;
      delay := RestartDelay(consecutiveFailures);
    }

    method DoTick(t: Tick) returns (status: Status)
      modifies this
      ensures (Current(), status) == Step(old(Current()), t)
    {
      if childStartedAt.Some? {
        if t.wait.StillRunning? {
          var age := if t.now >= childStartedAt.value then t.now - childStartedAt.value else 0;
          if age >= STABLE_CHILD_INTERVAL {
            consecutiveFailures := 0;
          }
          return Running;
        }
        childStartedAt := None;
        var delay := RecordFailure();
        retryAt := Some(t.now + delay);
        return Exited;
      }
      if retryAt.Some? && t.now < retryAt.value {
        return BackingOff;
      }
      if !t.executableExists {
        var delay := RecordFailure();
        retryAt := Some(t.now + delay);
        return ExecutableMissing;
      }
      if t.startWorks {
        childStartedAt, retryAt := Some(t.now), None;
        return Started;
      }
      var delay := RecordFailure();
      retryAt := Some(t.now + delay);
      return StartFailed;
    }

    method Shutdown()
      modifies this`childStartedAt
      ensures childStartedAt.None?
    {
      childStartedAt := None;
    }
  }

  // ----- what a tick reports and does

  /** Each status, with the ticks it is reported for. */
  lemma StatusesMean(s: State, t: Tick)
    ensures var child, waiting := s.childStartedAt.Some?, s.retryAt.Some? && t.now < s.retryAt.value;
            var status := Step(s, t).1;
            && (status == Running <==> child && t.wait == StillRunning)
            && (status == Exited <==> child && t.wait != StillRunning)
            && (status == BackingOff <==> !child && waiting)
            && (status == ExecutableMissing <==> !child && !waiting && !t.executableExists)
            && (status == Started <==> !child && !waiting && t.executableExists && t.startWorks)
            && (status == StartFailed <==> !child && !waiting && t.executableExists && !t.startWorks)
  {
  }

  /** A tick that reports a failure forgets the child, counts the failure and waits; a running
      child is cleared of failures after thirty seconds; nothing else moves. */
  lemma TicksMove(s: State, t: Tick)
    requires s.failures <= 4_294_967_295
    ensures var (next, status) := Step(s, t);
            match status
            case Started => next == State(Some(t.now), None, s.failures)
            case BackingOff => next == s
            case Running =>
              && next.childStartedAt == s.childStartedAt && next.retryAt == s.retryAt
              && next.failures == (if t.now < s.childStartedAt.value + 30_000_000_000 then s.failures else 0)
            case _ =>
              && next.childStartedAt.None?
              && next.failures == (if s.failures < 4_294_967_295 then s.failures + 1 else s.failures)
              && next.retryAt == Some(t.now + Min(Pow2(next.failures - 1), 30) * 1_000_000_000)
  {
    DelayIsCappedPower(Bump(s.failures));
  }

  // ----- whole runs

  function After(ticks: seq<Tick>, n: nat): State
    requires n <= |ticks|
  {
    if n == 0 then Initially() else Step(After(ticks, n - 1), ticks[n - 1]).0
  }

  predicate Attempted(status: Status) {
    status == Started || status == ExecutableMissing || status == StartFailed
  }

  function TimesAfter(s: State, times: seq<nat>, t: Tick): seq<nat> {
    if Attempted(Step(s, t).1) then times + [t.now] else times
  }

  /** The times of the start attempts among the first n ticks. */
  function AttemptTimes(ticks: seq<Tick>, n: nat): seq<nat>
    requires n <= |ticks|
  {
    if n == 0 then []
    else TimesAfter(After(ticks, n - 1), AttemptTimes(ticks, n - 1), ticks[n - 1])
  }

  ghost predicate InOrder(ticks: seq<Tick>) {
    forall i, j :: 0 <= i < j < |ticks| ==> ticks[i].now <= ticks[j].now
  }

  /** No tick finds a child that has been running for the stable interval. */
  ghost predicate NeverStable(ticks: seq<Tick>) {
    forall i :: 0 <= i < |ticks| ==> !Stable(After(ticks, i), ticks[i])
  }

  function Pow2(n: nat): nat {
    if n == 0 then 1 else 2 * Pow2(n - 1)
  }

  /** The least total wait over n failures in a row. */
  function BackoffSum(n: nat): nat {
    if n == 0 then 0 else BackoffSum(n - 1) + Min(Pow2(n - 1), 30) * SECOND
  }

  lemma {:induction false} Pow2Grows(n: nat)
    requires n >= 5
    ensures Pow2(n) >= 32
  {
    if n > 5 { Pow2Grows(n - 1); } else { assert Pow2(2) == 4 && Pow2(5) == 8 * Pow2(2); }
  }

  /** The nth failure in a row is followed by a wait of min(2^(n-1), 30) seconds. */
  lemma DelayIsCappedPower(n: nat)
    requires n >= 1
    ensures RestartDelay(Min(n, U32_MAX)) == Min(Pow2(n - 1), 30) * SECOND
    ensures SECOND <= RestartDelay(n) <= MAX_RESTART_DELAY
  {
    if n >= 6 {
      Pow2Grows(n - 1);
    } else {
      assert Pow2(2) == 4 && Pow2(4) == 4 * Pow2(2);
    }
  }

  /** The attempts since the latest reset, headed by the time of the reset if there was one. */
  function SinceAfter(s: State, since: seq<nat>, t: Tick): seq<nat> {
    if Stable(s, t) then [t.now] else TimesAfter(s, since, t)
  }

  function SinceReset(ticks: seq<Tick>, n: nat): seq<nat>
    requires n <= |ticks|
  {
    if n == 0 then [] else SinceAfter(After(ticks, n - 1), SinceReset(ticks, n - 1), ticks[n - 1])
  }

  /** The last of the first n ticks that found a stable child. */
  function LastReset(ticks: seq<Tick>, n: nat): (r: Option<nat>)
    requires n <= |ticks|
    ensures r.Some? ==> r.value < n && Stable(After(ticks, r.value), ticks[r.value])
  {
    if n == 0 then None
    else if Stable(After(ticks, n - 1), ticks[n - 1]) then Some(n - 1) else LastReset(ticks, n - 1)
  }

  lemma {:induction false} NoResetCountsAll(ticks: seq<Tick>, n: nat)
    requires n <= |ticks| && LastReset(ticks, n).None?
    ensures SinceReset(ticks, n) == AttemptTimes(ticks, n)
  {
    if n > 0 {
      NoResetCountsAll(ticks, n - 1);
    }
  }

  lemma {:induction false} SinceResetIsTail(ticks: seq<Tick>, n: nat, reset: nat)
    requires n <= |ticks| && LastReset(ticks, n) == Some(reset)
    ensures IsTail(SinceReset(ticks, n), ticks[reset].now, AttemptTimes(ticks, n), |AttemptTimes(ticks, reset + 1)|)
  {
    if reset < n - 1 {
      SinceResetIsTail(ticks, n - 1, reset);
      LongerTail(SinceReset(ticks, n - 1), ticks[reset].now, AttemptTimes(ticks, n - 1),
                 |AttemptTimes(ticks, reset + 1)|, ticks[n - 1].now);
    }
  }

  /** The head and then the times from position `done` on. */
  ghost predicate IsTail(since: seq<nat>, head: nat, times: seq<nat>, done: nat) {
    && done + |since| == |times| + 1
    && since != [] && since[0] == head
    && forall k :: 1 <= k < |since| ==> since[k] == times[done + k - 1]
  }

  lemma LongerTail(since: seq<nat>, head: nat, times: seq<nat>, done: nat, next: nat)
    requires IsTail(since, head, times, done)
    ensures IsTail(since + [next], head, times + [next], done)
  {
  }

  /** Between two attempts exactly one failure is counted, and its delay has to pass. */
  ghost predicate BackoffInv(s: State, times: seq<nat>, clock: nat) {
    && (forall i :: 0 <= i < |times| ==> times[i] <= clock)
    && (times == [] ==> s == Initially())
    && (times != [] && s.childStartedAt.Some? ==> s.failures == Min(|times| - 1, U32_MAX))
    && (times != [] && s.childStartedAt.None? ==>
          && s.failures == Min(|times|, U32_MAX) && s.retryAt.Some?
          && s.retryAt.value >= times[|times| - 1] + Min(Pow2(|times| - 1), 30) * SECOND)
    && BackedOff(times)
  }

  ghost predicate BackedOff(times: seq<nat>) {
    forall i, j :: 0 <= i <= j < |times| ==> times[j] - times[i] >= BackoffSum(j) - BackoffSum(i)
  }

  lemma LaterBacksOff(times: seq<nat>, next: nat)
    requires BackedOff(times)
    requires times != [] ==> next >= times[|times| - 1] + Min(Pow2(|times| - 1), 30) * SECOND
    ensures BackedOff(times + [next])
  {
    var after, n := times + [next], |times|;
    forall i, j | 0 <= i <= j < |after|
      ensures after[j] - after[i] >= BackoffSum(j) - BackoffSum(i)
    {
      if i < j == n {
        assert times[n - 1] - times[i] >= BackoffSum(n - 1) - BackoffSum(i);
      }
    }
  }

  lemma StepKeepsBackoff(s: State, times: seq<nat>, clock: nat, t: Tick)
    requires BackoffInv(s, times, clock) && clock <= t.now
    ensures BackoffInv(Step(s, t).0, SinceAfter(s, times, t), t.now)
  {
    if Attempted(Step(s, t).1) {
      DelayIsCappedPower(|times| + 1);
      LaterBacksOff(times, t.now);
    } else if times != [] {
      DelayIsCappedPower(|times|);
    }
  }

  function Clock(ticks: seq<Tick>, n: nat): nat
    requires n <= |ticks|
  {
    if n == 0 then 0 else ticks[n - 1].now
  }

  lemma {:induction false} RunKeepsBackoff(ticks: seq<Tick>, n: nat)
    requires InOrder(ticks) && n <= |ticks|
    ensures BackoffInv(After(ticks, n), SinceReset(ticks, n), Clock(ticks, n))
  {
    if n > 0 {
      RunKeepsBackoff(ticks, n - 1);
      StepKeepsBackoff(After(ticks, n - 1), SinceReset(ticks, n - 1), Clock(ticks, n - 1), ticks[n - 1]);
    }
  }

  lemma {:induction false} NeverStableMeansNoReset(ticks: seq<Tick>, n: nat)
    requires NeverStable(ticks) && n <= |ticks|
    ensures LastReset(ticks, n).None?
  {
    if n > 0 {
      assert !Stable(After(ticks, n - 1), ticks[n - 1]);
      NeverStableMeansNoReset(ticks, n - 1);
    }
  }

  /** Without a stable child, start attempt n + 1 comes at least the sum of min(2^(i-1), 30)
      seconds over i = 1..n after the first attempt. */
  lemma AttemptsBackOff(ticks: seq<Tick>, n: nat)
    requires InOrder(ticks) && NeverStable(ticks) && n < |AttemptTimes(ticks, |ticks|)|
    ensures AttemptTimes(ticks, |ticks|)[n] >= AttemptTimes(ticks, |ticks|)[0] + BackoffSum(n)
  {
    NeverStableMeansNoReset(ticks, |ticks|);
    NoResetCountsAll(ticks, |ticks|);
    RunKeepsBackoff(ticks, |ticks|);
    assert SinceReset(ticks, |ticks|)[n] - SinceReset(ticks, |ticks|)[0] >= BackoffSum(n) - BackoffSum(0);
  }

  /** From position `done` on, the times back off: the nth comes at least the sum of the first n
      delays after the head, and the waits between them go on growing from there. */
  ghost predicate BacksOffFrom(head: nat, times: seq<nat>, done: nat) {
    && (forall n :: 1 <= n && done + n <= |times| ==> times[done + n - 1] >= head + BackoffSum(n))
    && (forall m, n :: 1 <= m <= n && done + n <= |times| ==>
                         times[done + n - 1] - times[done + m - 1] >= BackoffSum(n) - BackoffSum(m))
  }

  lemma TailBacksOff(since: seq<nat>, head: nat, times: seq<nat>, done: nat)
    requires IsTail(since, head, times, done) && BackedOff(since)
    ensures BacksOffFrom(head, times, done)
  {
    forall n | 1 <= n && done + n <= |times|
      ensures times[done + n - 1] >= head + BackoffSum(n)
    {
      assert since[n] - since[0] >= BackoffSum(n) - BackoffSum(0);
    }
    forall m, n | 1 <= m <= n && done + n <= |times|
      ensures times[done + n - 1] - times[done + m - 1] >= BackoffSum(n) - BackoffSum(m)
    {
      assert since[n] - since[m] >= BackoffSum(n) - BackoffSum(m);
    }
  }

  /** With stable children the backoff starts over at every tick that finds one: the attempts
      after the latest such tick back off from its time on. */
  lemma AttemptsBackOffAgain(ticks: seq<Tick>, reset: nat)
    requires InOrder(ticks) && LastReset(ticks, |ticks|) == Some(reset)
    ensures BacksOffFrom(ticks[reset].now, AttemptTimes(ticks, |ticks|), |AttemptTimes(ticks, reset + 1)|)
  {
    SinceResetIsTail(ticks, |ticks|, reset);
    RunKeepsBackoff(ticks, |ticks|);
    TailBacksOff(SinceReset(ticks, |ticks|), ticks[reset].now, AttemptTimes(ticks, |ticks|),
                 |AttemptTimes(ticks, reset + 1)|);
  }

  ghost predicate SpacedInv(s: State, times: seq<nat>, clock: nat) {
    && (forall i :: 0 <= i < |times| ==> times[i] <= clock)
    && (times == [] ==> s == Initially())
    && (times != [] && s.childStartedAt.None? ==> s.retryAt.Some? && s.retryAt.value >= times[|times| - 1] + SECOND)
    && (forall i :: 0 < i < |times| ==> times[i] >= times[i - 1] + SECOND)
  }

  lemma StepKeepsSpacing(s: State, times: seq<nat>, clock: nat, t: Tick)
    requires SpacedInv(s, times, clock) && clock <= t.now
    ensures SpacedInv(Step(s, t).0, TimesAfter(s, times, t), t.now)
  {
    DelayIsCappedPower(Bump(s.failures));
    var after := TimesAfter(s, times, t);
    assert forall i :: 0 <= i < |times| ==> after[i] == times[i];
  }

  lemma {:induction false} RunKeepsSpacing(ticks: seq<Tick>, n: nat)
    requires InOrder(ticks) && n <= |ticks|
    ensures SpacedInv(After(ticks, n), AttemptTimes(ticks, n), Clock(ticks, n))
  {
    if n > 0 {
      RunKeepsSpacing(ticks, n - 1);
      StepKeepsSpacing(After(ticks, n - 1), AttemptTimes(ticks, n - 1), Clock(ticks, n - 1), ticks[n - 1]);
    }
  }

  /** Stable children or not, two start attempts are at least one second apart. */
  lemma AttemptsAreSpaced(ticks: seq<Tick>, n: nat)
    requires InOrder(ticks) && 0 < n < |AttemptTimes(ticks, |ticks|)|
    ensures AttemptTimes(ticks, |ticks|)[n] >= AttemptTimes(ticks, |ticks|)[n - 1] + SECOND
  {
    RunKeepsSpacing(ticks, |ticks|);
  }

  // ----- live processes

  /** The tick gives up the recorded child although its process lives: the child is forgotten,
      not killed. */
  predicate Forgets(s: State, t: Tick) {
    s.childStartedAt.Some? && t.wait == WaitFailed(true)
  }

  function Remaining(strays: nat, t: Tick): nat {
    if strays >= t.strayEnded then strays - t.strayEnded else 0
  }

  /** Live processes among the first n ticks that the supervisor started and no longer records. */
  function Strays(ticks: seq<Tick>, n: nat): nat
    requires n <= |ticks|
  {
    if n == 0 then 0
    else Remaining(Strays(ticks, n - 1), ticks[n - 1]) + if Forgets(After(ticks, n - 1), ticks[n - 1]) then 1 else 0
  }

  function Live(ticks: seq<Tick>, n: nat): nat
    requires n <= |ticks|
  {
    Strays(ticks, n) + if After(ticks, n).childStartedAt.Some? then 1 else 0
  }

  ghost predicate AtMostOne(ticks: seq<Tick>) {
    forall n :: 0 <= n <= |ticks| ==> Live(ticks, n) <= 1
  }

  predicate StartsBesideStray(ticks: seq<Tick>, i: nat)
    requires i < |ticks|
  {
    Step(After(ticks, i), ticks[i]).1 == Started && Remaining(Strays(ticks, i), ticks[i]) > 0
  }

  lemma {:induction false} LiveStaysOne(ticks: seq<Tick>, n: nat)
    requires n <= |ticks| && forall i :: 0 <= i < n ==> !StartsBesideStray(ticks, i)
    ensures Live(ticks, n) <= 1
  {
    if n > 0 {
      LiveStaysOne(ticks, n - 1);
      assert !StartsBesideStray(ticks, n - 1);
    }
  }

  /** A run has at most one process at every time exactly when no start happens while a
      forgotten child still lives. */
  lemma AtMostOneExactly(ticks: seq<Tick>)
    ensures AtMostOne(ticks) <==> forall i :: 0 <= i < |ticks| ==> !StartsBesideStray(ticks, i)
  {
    if forall i :: 0 <= i < |ticks| ==> !StartsBesideStray(ticks, i) {
      forall n | 0 <= n <= |ticks|
        ensures Live(ticks, n) <= 1
      {
        LiveStaysOne(ticks, n);
      }
    } else {
      var i :| 0 <= i < |ticks| && StartsBesideStray(ticks, i);
      assert Live(ticks, i + 1) >= 2;
    }
  }

  ghost predicate ForgetsAt(ticks: seq<Tick>, i: nat)
    requires i < |ticks|
  {
    Forgets(After(ticks, i), ticks[i])
  }

  lemma {:induction false} NoStrays(ticks: seq<Tick>, n: nat)
    requires n <= |ticks| && forall i :: 0 <= i < n ==> !ForgetsAt(ticks, i)
    ensures Strays(ticks, n) == 0
  {
    if n > 0 {
      NoStrays(ticks, n - 1);
      assert !ForgetsAt(ticks, n - 1);
    }
  }

  /** The run up to tick k, then other ticks. */
  function Continued(ticks: seq<Tick>, k: nat, more: seq<Tick>): seq<Tick>
    requires k <= |ticks|
  {
    ticks[..k] + more
  }

  lemma {:induction false} SamePast(ticks: seq<Tick>, k: nat, more: seq<Tick>, n: nat)
    requires n <= k <= |ticks|
    ensures After(Continued(ticks, k, more), n) == After(ticks, n)
    ensures Strays(Continued(ticks, k, more), n) == Strays(ticks, n)
  {
    if n > 0 {
      SamePast(ticks, k, more, n - 1);
    }
  }

  /** At most one process lives however the run goes on from any of its points, as long as no
      later wait fails on a live child. */
  ghost predicate SafeHoweverItGoesOn(ticks: seq<Tick>) {
    forall k, more :: 0 <= k <= |ticks| && InOrder(Continued(ticks, k, more))
                      && (forall i :: k <= i < k + |more| ==> !ForgetsAt(Continued(ticks, k, more), i))
                      ==> AtMostOne(Continued(ticks, k, more))
  }

  /** After a wait failed on a live child, the next start makes a second process. */
  lemma ForgottenChildGetsCompany(ticks: seq<Tick>, i: nat) returns (next: Tick)
    requires InOrder(ticks) && i < |ticks| && ForgetsAt(ticks, i)
    ensures InOrder(Continued(ticks, i + 1, [next])) && !ForgetsAt(Continued(ticks, i + 1, [next]), i + 1)
    ensures Live(Continued(ticks, i + 1, [next]), i + 2) >= 2
  {
    var s := After(ticks, i + 1);
    next := Tick(s.retryAt.value, HasExited, 0, true, true);
    SamePast(ticks, i + 1, [next], i + 1);
    assert Continued(ticks, i + 1, [next])[i + 1] == next;
    assert forall j :: 0 <= j <= i ==> Continued(ticks, i + 1, [next])[j] == ticks[j];
  }

  /** At most one process lives over every such run exactly when no wait fails on a live child. */
  lemma OneProcessExactly(ticks: seq<Tick>)
    requires InOrder(ticks)
    ensures SafeHoweverItGoesOn(ticks) <==> forall i :: 0 <= i < |ticks| ==> !ForgetsAt(ticks, i)
  {
    if i :| 0 <= i < |ticks| && ForgetsAt(ticks, i) {
      var next := ForgottenChildGetsCompany(ticks, i);
      assert !AtMostOne(Continued(ticks, i + 1, [next]));
    } else {
      forall k, more | 0 <= k <= |ticks| && InOrder(Continued(ticks, k, more))
                       && (forall i :: k <= i < k + |more| ==> !ForgetsAt(Continued(ticks, k, more), i))
        ensures AtMostOne(Continued(ticks, k, more))
      {
        NothingForgottenIsSafe(ticks, k, more);
      }
    }
  }

  lemma NothingForgottenIsSafe(ticks: seq<Tick>, k: nat, more: seq<Tick>)
    requires k <= |ticks| && forall i :: 0 <= i < |ticks| ==> !ForgetsAt(ticks, i)
    requires forall i :: k <= i < k + |more| ==> !ForgetsAt(Continued(ticks, k, more), i)
    ensures AtMostOne(Continued(ticks, k, more))
  {
    var run := Continued(ticks, k, more);
    forall i | 0 <= i < |run|
      ensures !ForgetsAt(run, i)
    {
      if i < k {
        SamePast(ticks, k, more, i);
        assert !ForgetsAt(ticks, i);
      }
    }
    forall n | 0 <= n <= |run|
      ensures Live(run, n) <= 1
    {
      NoStrays(run, n);
    }
  }

  /** A concrete run with two live processes: started, wait failed, started again a second later. */
  lemma TwoProcesses() returns (ticks: seq<Tick>)
    ensures InOrder(ticks) && Live(ticks, |ticks|) == 2
  {
    var start, lose := Tick(0, HasExited, 0, true, true), Tick(0, WaitFailed(true), 0, true, true);
    var again := Tick(SECOND, HasExited, 0, true, true);
    ticks := [start, lose, again];
    assert After(ticks, 0) == Initially();
    assert After(ticks, 1) == State(Some(0), None, 0);
    assert RestartDelay(1) == SECOND;
    assert After(ticks, 2) == State(None, Some(SECOND), 1);
    assert After(ticks, 3) == State(Some(SECOND), None, 1);
    assert Strays(ticks, 0) == 0 && Strays(ticks, 1) == 0;
    assert Strays(ticks, 2) == 1 && Strays(ticks, 3) == 1;
  }
}
