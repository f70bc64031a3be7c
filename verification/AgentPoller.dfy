/** The agent: a poll loop between trust checks, the publishing pipeline with its sequence
    numbers, and the health counters. */
module AgentPoller {
  import opened Basics

  const I64_MAX := 0x7FFF_FFFF_FFFF_FFFF
  const RECHECK_INTERVAL := 30_000_000_000

  datatype ErrorKind =
    | SelectionMissing | SelectionInactive | SelectionAmbiguous | Authentication | Timeout
    | Decode | Policy | Transport | Publication

  datatype RestError =
    | SelectedPlayerMissing | SelectedPlayerInactive | SelectedPlayerAmbiguous | Unauthorized | TimedOut | BadBody
    | PolicyRefused | ConnectionUntrusted | TransportFailed | UnexpectedStatus

  datatype PublishReply = Accepted | AcceptedWithGap | OtherReply | PublisherGone

  /** A fetched sample: whether it names the configured subject, when it was completed (None
      before the epoch), and what random source and publisher do with it. */
  datatype Sample = Sample(sameSubject: bool, completedAtMs: Option<nat>, randomWorks: bool, reply: PublishReply)

  datatype PipelineError = IdentityMismatch | SequenceExhausted | InvalidTimestamp | RandomUnavailable
                         | PublisherUnavailable | PublisherRejected

  function Classify(error: RestError): ErrorKind {
    match error
    case SelectedPlayerMissing => SelectionMissing
    case SelectedPlayerInactive => SelectionInactive
    case SelectedPlayerAmbiguous => SelectionAmbiguous
    case Unauthorized => Authentication
    case TimedOut => Timeout
    case BadBody => Decode
    case PolicyRefused => Policy
    case ConnectionUntrusted => Policy
    case TransportFailed => Transport
    case UnexpectedStatus => Transport
  }

  function Increment(n: nat): nat {
    if n >= U64_MAX then U64_MAX else n + 1
  }

  // ----- health and pipeline state

  datatype Health = Health(successfulPolls: nat, failedPolls: nat, emittedSamples: nat, publishFailures: nat,
                           consecutiveFailures: nat, lastError: Option<ErrorKind>)

  predicate Degraded(h: Health) {
    h.consecutiveFailures > 0
  }

  /** `published` lists the sequence numbers the publisher has accepted under this boot id. */
  datatype Agent = Agent(health: Health, nextSequence: nat, published: seq<nat>)

  function Booted(): Agent {
    Agent(Health(0, 0, 0, 0, 0, None), 1, [])
  }

  function PollSucceeded(h: Health): Health {
    h.(successfulPolls := Increment(h.successfulPolls), consecutiveFailures := 0, lastError := None)
  }

  function PollFailed(h: Health, error: RestError): Health {
    h.(failedPolls := Increment(h.failedPolls), consecutiveFailures := Increment(h.consecutiveFailures),
    lastError := Some(Classify(error)))
  }

  function PublishFailed(h: Health): Health {
    h.(publishFailures := Increment(h.publishFailures), consecutiveFailures := Increment(h.consecutiveFailures),
    lastError := Some(Publication))
  }

  function EmitError(nextSequence: nat, sample: Sample): Option<PipelineError> {
    if !sample.sameSubject then Some(IdentityMismatch)
    else if nextSequence == U64_MAX then Some(SequenceExhausted)
    else if sample.completedAtMs.None? || sample.completedAtMs.value > I64_MAX || sample.completedAtMs.value == 0
    then Some(InvalidTimestamp)
    else if !sample.randomWorks then Some(RandomUnavailable)
    else match sample.reply
      case PublisherGone => Some(PublisherUnavailable)
      case OtherReply => Some(PublisherRejected)
      case _ => None
  }

  function Emit(a: Agent, sample: Sample): Agent {
    if EmitError(a.nextSequence, sample).Some? then a.(health := PublishFailed(a.health))
    else Agent(a.health.(emittedSamples := Increment(a.health.emittedSamples)),
               Increment(a.nextSequence), a.published + [a.nextSequence])
  }

  // ----- one turn of the loop

  datatype Fetch = Fetched(sample: Sample) | FetchError(error: RestError) | Interrupted(stop: bool)

  /** What one turn meets: a change of the shutdown flag, or a tick with the results of the
      first trust check, the fetch and the second trust check. */
  datatype Turn = Signal(stop: bool) | Poll(firstTrusted: bool, fetch: Fetch, secondTrusted: bool)

  datatype Exit = Shutdown | TrustLost

  function ExitOf(turn: Turn): Option<Exit> {
    match turn
    case Signal(stop) => if stop then Some(Shutdown) else None
    case Poll(first, fetch, second) =>
      if !first then Some(TrustLost)
      else if fetch.Interrupted? then if fetch.stop then Some(Shutdown) else None
      else if fetch.FetchError? && fetch.error.ConnectionUntrusted? then Some(TrustLost)
      else if !second then Some(TrustLost)
      else None
  }

  /** The turn reaches the result of its fetch: both trust checks passed around it. */
  predicate Bracketed(turn: Turn) {
    turn.Poll? && turn.firstTrusted && turn.secondTrusted && !turn.fetch.Interrupted? && ExitOf(turn).None?
  }

  function Take(a: Agent, turn: Turn): Agent {
    if !Bracketed(turn) then a
    else match turn.fetch
      case Fetched(sample) => Emit(a.(health := PollSucceeded(a.health)), sample)
      case FetchError(error) => a.(health := PollFailed(a.health, error))
  }

  /** The loop over a series of turns, up to the first exit. */
  function Run(a: Agent, turns: seq<Turn>): (Agent, Option<Exit>)
    decreases |turns|
  {
    if turns == [] then (a, None)
    else if ExitOf(turns[0]).Some? then (Take(a, turns[0]), ExitOf(turns[0]))
    else Run(Take(a, turns[0]), turns[1..])
  }

  class HealthMonitor {
    var state: Health

    constructor ()
      ensures state == Booted().health
    {
      state := Booted().health;
    }

    method RecordPollSuccess()
      modifies this
      ensures state == PollSucceeded(old(state))
    {
      state := state.(successfulPolls := Increment(state.successfulPolls));
      state := state.(consecutiveFailures := 0, lastError := None);
    }

    method RecordPollFailure(error: RestError)
      modifies this
      ensures state == PollFailed(old(state), error)
    {
      state := state.(failedPolls := Increment(state.failedPolls));
      state := state.(consecutiveFailures := Increment(state.consecutiveFailures), lastError := Some(Classify(error)));
    }

    method RecordEmitted()
      modifies this
      ensures state == old(state).(emittedSamples := Increment(old(state).emittedSamples))
    {
      state := state.(emittedSamples := Increment(state.emittedSamples));
    }

    method RecordPublishFailure()
      modifies this
      ensures state == PublishFailed(old(state))
    {
      state := state.(publishFailures := Increment(state.publishFailures));
      state := state.(consecutiveFailures := Increment(state.consecutiveFailures), lastError := Some(Publication));
    }
  }

  class AgentPipeline {
    const health: HealthMonitor
    var nextSequence: nat
    ghost var published: seq<nat>

    constructor (monitor: HealthMonitor)
      ensures health == monitor && nextSequence == 1 && published == []
    {
      health := monitor;
      nextSequence := 1;
      published := [];
    }

    ghost function Current(): Agent
      reads this, health
    {
      Agent(health.state, nextSequence, published)
    }

    method EmitSample(sample: Sample) returns (error: Option<PipelineError>)
      modifies this, health
      ensures Current() == Emit(old(Current()), sample)
      ensures error == EmitError(old(nextSequence), sample)
    {
      error := EmitInner(sample);
      if error.Some? {
        health.RecordPublishFailure();
      }
    }

    method EmitInner(sample: Sample) returns (error: Option<PipelineError>)
      modifies this, health
      ensures error == EmitError(old(nextSequence), sample)
      ensures Current() == if error.Some? then old(Current()) else Emit(old(Current()), sample)
    {
      if !sample.sameSubject {
        return Some(IdentityMismatch);
      }
      if nextSequence == U64_MAX {
        return Some(SequenceExhausted);
      }
      if sample.completedAtMs.None? || sample.completedAtMs.value > I64_MAX || sample.completedAtMs.value <= 0 {
        return Some(InvalidTimestamp);
      }
      if !sample.randomWorks {
        return Some(RandomUnavailable);
      }
      match sample.reply
      case PublisherGone =>
        return Some(PublisherUnavailable);
      case OtherReply =>
        return Some(PublisherRejected);
      case _ =>
        published := published + [nextSequence];
        nextSequence := Increment(nextSequence);
        health.RecordEmitted();
        return None;
    }
  }

  /** The poll loop, driven by the turns it meets. */
  method RunPoller(pipeline: AgentPipeline, turns: seq<Turn>) returns (exit: Option<Exit>)
    modifies pipeline, pipeline.health
    ensures (pipeline.Current(), exit) == Run(old(pipeline.Current()), turns)
  {
    var health := pipeline.health;
    var i := 0;
    assert turns[0..] == turns;
    while i < |turns|
      invariant i <= |turns|
      invariant Run(old(pipeline.Current()), turns) == Run(pipeline.Current(), turns[i..])
    {
      assert turns[i..][0] == turns[i] && turns[i..][1..] == turns[i + 1..];
      var turn := turns[i];
      i := i + 1;
      match turn
      case Signal(stop) =>
        if stop {
          return Some(Shutdown);
        }
      case Poll(first, fetch, second) =>
        if !first {
          return Some(TrustLost);
        }
        if fetch.Interrupted? {
          if fetch.stop {
            return Some(Shutdown);
          }
          continue;
        }
        if fetch.FetchError? && fetch.error.ConnectionUntrusted? {
          return Some(TrustLost);
        }
        if !second {
          return Some(TrustLost);
        }
        if fetch.Fetched? {
          health.RecordPollSuccess();
          var error := pipeline.EmitSample(fetch.sample);
          if error.Some? {
            continue;
          }
        } else {
          health.RecordPollFailure(fetch.error);
        }
    }
    return None;
  }

  // ----- what every run keeps

  /** The true counts behind the saturating counters. */
  datatype Counts = Counts(polls: nat, emitted: nat, failedToPublish: nat)

  /** The turns the loop really takes: up to and including its exit. */
  function Taken(turns: seq<Turn>): seq<Turn> {
    if turns == [] then []
    else if ExitOf(turns[0]).Some? then [turns[0]]
    else [turns[0]] + Taken(turns[1..])
  }

  predicate Delivers(turn: Turn) {
    Bracketed(turn) && turn.fetch.Fetched?
  }

  function Deliveries(turns: seq<Turn>): nat {
    if turns == [] then 0 else (if Delivers(turns[0]) then 1 else 0) + Deliveries(turns[1..])
  }

  /** The numbers published so far are 1, 2, 3 and so on; polls, emissions and publish failures
      add up; the saturating counters show these counts, capped. */
  ghost predicate Conserved(a: Agent, c: Counts) {
    && c.polls == c.emitted + c.failedToPublish
    && |a.published| == c.emitted
    && (forall i :: 0 <= i < |a.published| ==> a.published[i] == i + 1)
    && a.nextSequence == 1 + c.emitted <= U64_MAX
    && a.health.successfulPolls == Min(c.polls, U64_MAX)
    && a.health.emittedSamples == c.emitted
    && a.health.publishFailures == Min(c.failedToPublish, U64_MAX)
    && (a.health.lastError.None? <==> !Degraded(a.health))
  }

  lemma TakeConserves(a: Agent, turn: Turn, c: Counts) returns (d: Counts)
    requires Conserved(a, c)
    ensures Conserved(Take(a, turn), d)
    ensures d.polls == c.polls + if Delivers(turn) then 1 else 0
  {
    d := c;
    if Delivers(turn) {
      if EmitError(a.nextSequence, turn.fetch.sample).Some? {
        d := Counts(c.polls + 1, c.emitted, c.failedToPublish + 1);
      } else {
        d := Counts(c.polls + 1, c.emitted + 1, c.failedToPublish);
      }
    }
  }

  /** Conservation over whole runs: every poll of the run that delivered a sample was either
      published under the next number or counted as a publish failure. */
  lemma {:induction false} RunConserves(a: Agent, turns: seq<Turn>, c: Counts) returns (d: Counts)
    requires Conserved(a, c)
    ensures Conserved(Run(a, turns).0, d)
    ensures d.polls == c.polls + Deliveries(Taken(turns))
    decreases |turns|
  {
    d := c;
    if turns != [] {
      var mid := TakeConserves(a, turns[0], c);
      if ExitOf(turns[0]).Some? {
        d := mid;
      } else {
        d := RunConserves(Take(a, turns[0]), turns[1..], mid);
        assert Taken(turns)[1..] == Taken(turns[1..]);
      }
    }
  }

  /** The visible counters themselves add up. */
  ghost predicate AddsUp(a: Agent) {
    && a.health.successfulPolls == a.health.emittedSamples + a.health.publishFailures
    && a.nextSequence == 1 + a.health.emittedSamples
    && |a.published| == a.health.emittedSamples
    && forall i :: 0 <= i < |a.published| ==> a.published[i] == i + 1
  }

  lemma UncappedAddsUp(a: Agent, d: Counts)
    requires Conserved(a, d) && d.polls <= U64_MAX
    ensures AddsUp(a)
  {
  }

  ghost predicate NothingCounted(a: Agent) {
    Conserved(a, Counts(0, 0, 0))
  }

  lemma BootConserves()
    ensures NothingCounted(Booted())
  {
  }

  /** Below counter saturation the visible counters add up after every run. */
  lemma RunAddsUp(a: Agent, turns: seq<Turn>, c: Counts, end: Agent)
    requires Conserved(a, c) && c.polls + |turns| <= U64_MAX && end == Run(a, turns).0
    ensures AddsUp(end)
  {
    var d := RunConserves(a, turns, c);
    DeliveriesBounded(turns);
    UncappedAddsUp(end, d);
  }

  lemma RunFromNothingAddsUp(a: Agent, turns: seq<Turn>)
    requires NothingCounted(a) && |turns| <= U64_MAX
    ensures AddsUp(Run(a, turns).0)
  {
    RunAddsUp(a, turns, Counts(0, 0, 0), Run(a, turns).0);
  }

  /** After a boot and any run too short to saturate a counter, the visible counters add up and
      the published numbers are 1, 2, 3 and so on. */
  lemma CountersAddUp(turns: seq<Turn>)
    requires |turns| <= U64_MAX
    ensures AddsUp(Run(Booted(), turns).0)
  {
    BootConserves();
    RunFromNothingAddsUp(Booted(), turns);
  }

  lemma {:induction false} DeliveriesBounded(turns: seq<Turn>)
    ensures Deliveries(Taken(turns)) <= |turns|
  {
    if turns != [] {
      DeliveriesBounded(turns[1..]);
      if ExitOf(turns[0]).None? {
        assert Taken(turns)[1..] == Taken(turns[1..]);
      } else {
        assert Taken(turns)[1..] == [];
      }
    }
  }

  /** The turn delivers a sample of the configured subject between its own two passed trust checks. */
  predicate MayPublish(turn: Turn) {
    Delivers(turn) && turn.fetch.sample.sameSubject
  }

  predicate Publishes(a: Agent, turn: Turn) {
    Delivers(turn) && EmitError(a.nextSequence, turn.fetch.sample).None?
  }

  /** The turns that publish, by position among the turns the loop takes. */
  function PublishingTurns(a: Agent, turns: seq<Turn>, from: nat): seq<nat>
    decreases |turns|
  {
    if turns == [] then []
    else if ExitOf(turns[0]).Some? then []
    else (if Publishes(a, turns[0]) then [from] else []) + PublishingTurns(Take(a, turns[0]), turns[1..], from + 1)
  }

  /** Ascending positions, from `low` on, of turns that may publish. */
  ghost predicate Positions(at: seq<nat>, turns: seq<Turn>, low: nat) {
    && (forall i :: 0 <= i < |at| ==> low <= at[i] < |turns| && MayPublish(turns[at[i]]))
    && (forall i, j :: 0 <= i < j < |at| ==> at[i] < at[j])
  }

  lemma EarlierPosition(at: seq<nat>, turns: seq<Turn>, low: nat)
    requires Positions(at, turns, low + 1) && low < |turns|
    ensures Positions([] + at, turns, low)
    ensures MayPublish(turns[low]) ==> Positions([low] + at, turns, low)
  {
  }

  lemma TakePublishes(a: Agent, turn: Turn)
    requires a.nextSequence <= U64_MAX
    ensures var count := if Publishes(a, turn) then 1 else 0;
            && Take(a, turn).published == a.published + NumbersFrom(a.nextSequence, count)
            && Take(a, turn).nextSequence == a.nextSequence + count <= U64_MAX
    ensures Publishes(a, turn) ==> MayPublish(turn) && ExitOf(turn).None?
  {
  }

  lemma Regrouped(before: seq<Turn>, turn: Turn, rest: seq<Turn>)
    ensures before + ([turn] + rest) == before + [turn] + rest && (before + ([turn] + rest))[|before|] == turn
  {
  }

  lemma TakenFrom(before: seq<Turn>, turns: seq<Turn>)
    requires turns != [] && ExitOf(turns[0]).None?
    ensures before + Taken(turns) == before + [turns[0]] + Taken(turns[1..])
    ensures (before + Taken(turns))[|before|] == turns[0]
  {
    Regrouped(before, turns[0], Taken(turns[1..]));
  }

  lemma {:induction false} PublishingPositions(a: Agent, turns: seq<Turn>, before: seq<Turn>)
    ensures Positions(PublishingTurns(a, turns, |before|), before + Taken(turns), |before|)
    decreases |turns|
  {
    if turns != [] && ExitOf(turns[0]).None? {
      var next := Take(a, turns[0]);
      PublishingPositions(next, turns[1..], before + [turns[0]]);
      TakenFrom(before, turns);
      EarlierPosition(PublishingTurns(next, turns[1..], |before| + 1), before + Taken(turns), |before|);
    }
  }

  lemma {:induction false} PublishedNumbers(a: Agent, turns: seq<Turn>, from: nat)
    requires a.nextSequence <= U64_MAX
    ensures Run(a, turns).0.published == a.published + NumbersFrom(a.nextSequence, |PublishingTurns(a, turns, from)|)
    decreases |turns|
  {
    if turns == [] {
      assert a.published + NumbersFrom(a.nextSequence, 0) == a.published;
    } else {
      TakePublishes(a, turns[0]);
      if ExitOf(turns[0]).None? {
        var next := Take(a, turns[0]);
        PublishedNumbers(next, turns[1..], from + 1);
        NumbersJoin(a.nextSequence, if Publishes(a, turns[0]) then 1 else 0,
                    |PublishingTurns(next, turns[1..], from + 1)|);
      }
    }
  }

  /** Every number a run publishes comes from a turn of its own with both trust checks passed,
      in the order of the turns, and the numbers follow each other without a gap. */
  lemma PublishesOnlyBetweenTrustChecks(a: Agent, turns: seq<Turn>)
    requires a.nextSequence <= U64_MAX
    ensures var at := PublishingTurns(a, turns, 0);
            && Positions(at, Taken(turns), 0)
            && Run(a, turns).0.published == a.published + NumbersFrom(a.nextSequence, |at|)
  {
    PublishingPositions(a, turns, []);
    assert [] + Taken(turns) == Taken(turns);
    PublishedNumbers(a, turns, 0);
  }

  function NumbersFrom(first: nat, count: nat): seq<nat> {
    seq(count, i requires 0 <= i < count => first + i)
  }

  lemma NumbersJoin(first: nat, m: nat, n: nat)
    ensures NumbersFrom(first, m) + NumbersFrom(first + m, n) == NumbersFrom(first, m + n)
  {
  }

  /** A lost trust check ends the run for good and publishes nothing any more. */
  lemma {:induction false} NothingAfterTrustLost(a: Agent, before: seq<Turn>, turn: Turn, later: seq<Turn>)
    requires Run(a, before).1.None? && ExitOf(turn) == Some(TrustLost)
    ensures Run(a, before + [turn] + later) == (Run(a, before).0, Some(TrustLost))
    decreases |before|
  {
    var all := before + [turn] + later;
    if before == [] {
      assert all[0] == turn;
    } else {
      assert all[0] == before[0] && all[1..] == before[1..] + [turn] + later;
      NothingAfterTrustLost(Take(a, before[0]), before[1..], turn, later);
    }
  }

  // ----- the remote identity lease

  datatype Lease = Lease(expected: string, lastVerified: nat)

  /** One request: the time it asks, the identity the server then reports and when it is confirmed. */
  datatype Request = Request(now: nat, reported: Option<string>, confirmedAt: nat)

  predicate IsDue(l: Lease, now: nat) {
    now >= l.lastVerified + RECHECK_INTERVAL
  }

  predicate Admitted(l: Lease, r: Request) {
    !IsDue(l, r.now) || r.reported == Some(l.expected)
  }

  function Renew(l: Lease, r: Request): Lease {
    if IsDue(l, r.now) && r.reported == Some(l.expected) then l.(lastVerified := r.confirmedAt) else l
  }

  class RemoteIdentityCheck {
    const expected: string
    var lastVerified: nat

    constructor (identity: string, verifiedAt: nat)
      ensures Current() == Lease(identity, verifiedAt)
    {
      expected, lastVerified := identity, verifiedAt;
    }

    function Current(): Lease
      reads this
    {
      Lease(expected, lastVerified)
    }

    method Confirm(identity: string, now: nat) returns (trusted: bool)
      modifies this
      ensures trusted == (identity == expected)
      ensures lastVerified == if trusted then now else old(lastVerified)
    {
      if identity != expected {
        return false;
      }
      lastVerified := now;
      return true;
    }

    /** The check in front of a request: a due lease is renewed only by the expected identity. */
    method RevalidateIfDue(r: Request) returns (admitted: bool)
      modifies this
      ensures admitted == Admitted(old(Current()), r)
      ensures Current() == Renew(old(Current()), r)
    {
      if !IsDue(Current(), r.now) {
        return true;
      }
      if r.reported.None? {
        return false;
      }
      admitted := Confirm(r.reported.value, r.confirmedAt);
    }
  }

  function LeaseAfter(l: Lease, requests: seq<Request>): Lease {
    if requests == [] then l else Renew(LeaseAfter(l, requests[..|requests| - 1]), requests[|requests| - 1])
  }

  /** Whenever a request is admitted, the server's identity was confirmed less than thirty
      seconds before, or is confirmed by this very request. */
  lemma {:induction false} AdmissionIsBacked(l: Lease, requests: seq<Request>, r: Request)
    requires Admitted(LeaseAfter(l, requests), r)
    ensures r.reported == Some(l.expected)
            || r.now < l.lastVerified + 30_000_000_000
            || exists i :: 0 <= i < |requests| && requests[i].reported == Some(l.expected)
                           && r.now < requests[i].confirmedAt + 30_000_000_000
  {
    LeaseSource(l, requests);
  }

  lemma {:induction false} LeaseSource(l: Lease, requests: seq<Request>)
    ensures LeaseAfter(l, requests).expected == l.expected
    ensures LeaseAfter(l, requests).lastVerified == l.lastVerified
            || exists i :: 0 <= i < |requests| && requests[i].reported == Some(l.expected)
                           && requests[i].confirmedAt == LeaseAfter(l, requests).lastVerified
  {
    if requests != [] {
      LeaseSource(l, requests[..|requests| - 1]);
    }
  }
}
