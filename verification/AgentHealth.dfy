/** What the poll loop's outcomes mean: which turns end it, what its errors are called, and what
    the health report shows after any run. */
module AgentHealth {
  import opened Basics
  import opened AgentPoller

  // ----- outcomes

  /** A turn ends the loop as trust lost for one of three reasons, and as shut down when told to. */
  lemma ExitsMean(turn: Turn)
    ensures ExitOf(turn) == Some(TrustLost) <==>
            turn.Poll? && (!turn.firstTrusted
                           || turn.fetch == FetchError(ConnectionUntrusted)
                           || (!turn.fetch.Interrupted? && !turn.secondTrusted))
    ensures ExitOf(turn) == Some(Shutdown) <==>
            turn == Signal(true) || (turn.Poll? && turn.firstTrusted && turn.fetch == Interrupted(true))
  {
  }

  /** A run ends with the first turn that ends the loop, and only then. */
  lemma {:induction false} RunStopsAtExit(a: Agent, turns: seq<Turn>)
    ensures Run(a, turns).1.None? <==> forall i :: 0 <= i < |turns| ==> ExitOf(turns[i]).None?
    ensures Run(a, turns).1.Some? ==>
              var n := |Taken(turns)|;
              && 0 < n <= |turns| && Taken(turns) == turns[..n] && ExitOf(turns[n - 1]) == Run(a, turns).1
              && forall i :: 0 <= i < n - 1 ==> ExitOf(turns[i]).None?
    decreases |turns|
  {
    if turns != [] && ExitOf(turns[0]).None? {
      RunStopsAtExit(Take(a, turns[0]), turns[1..]);
      assert Taken(turns)[1..] == Taken(turns[1..]);
    }
  }

  /** The kinds of errors, each with the errors it stands for. */
  lemma KindsMean(error: RestError)
    ensures Classify(error) == SelectionMissing <==> error == SelectedPlayerMissing
    ensures Classify(error) == SelectionInactive <==> error == SelectedPlayerInactive
    ensures Classify(error) == SelectionAmbiguous <==> error == SelectedPlayerAmbiguous
    ensures Classify(error) == Authentication <==> error == Unauthorized
    ensures Classify(error) == Timeout <==> error == TimedOut
    ensures Classify(error) == ErrorKind.Decode <==> error == BadBody
    ensures Classify(error) == Policy <==> error == PolicyRefused || error == ConnectionUntrusted
    ensures Classify(error) == Transport <==> error == TransportFailed || error == UnexpectedStatus
    ensures Classify(error) != Publication
  {
  }

  predicate InRange(ms: Option<nat>) {
    ms.Some? && 1 <= ms.value <= 9_223_372_036_854_775_807
  }

  /** Why a sample is not published; the checks come in this order. */
  lemma EmissionsMean(next: nat, s: Sample)
    ensures match EmitError(next, s)
            case None => s.sameSubject && next != 18_446_744_073_709_551_615 && InRange(s.completedAtMs)
                && s.randomWorks
                         && (s.reply == Accepted || s.reply == AcceptedWithGap)
            case Some(IdentityMismatch) => !s.sameSubject
            case Some(SequenceExhausted) => s.sameSubject && next == 18_446_744_073_709_551_615
            case Some(InvalidTimestamp) => s.sameSubject && !InRange(s.completedAtMs)
            case Some(RandomUnavailable) => s.sameSubject && InRange(s.completedAtMs) && !s.randomWorks
            case Some(PublisherUnavailable) =>
              s.sameSubject && InRange(s.completedAtMs) && s.randomWorks && s.reply == PublisherGone
            case Some(PublisherRejected) =>
              s.sameSubject && InRange(s.completedAtMs) && s.randomWorks && s.reply == OtherReply
  {
  }

  // ----- the health report after a run

  /** What a turn reports to the health monitor, in order. */
  datatype Mark = Succeeded | Failed(kind: ErrorKind)

  function TurnMarks(a: Agent, turn: Turn): seq<Mark> {
    if !Bracketed(turn) then []
    else match turn.fetch
      case FetchError(error) => [Failed(Classify(error))]
      case Fetched(sample) =>
        if EmitError(a.nextSequence, sample).Some? then [Succeeded, Failed(Publication)] else [Succeeded]
  }

  function RunMarks(a: Agent, turns: seq<Turn>): seq<Mark>
    decreases |turns|
  {
    if turns == [] then []
    else TurnMarks(a, turns[0]) + if ExitOf(turns[0]).Some? then [] else RunMarks(Take(a, turns[0]), turns[1..])
  }

  /** Failures since the last success. */
  function Trailing(marks: seq<Mark>): nat {
    if marks == [] || marks[|marks| - 1].Succeeded? then 0 else Trailing(marks[..|marks| - 1]) + 1
  }

  ghost predicate Shows(h: Health, marks: seq<Mark>) {
    && h.consecutiveFailures == (if Trailing(marks) < U64_MAX then Trailing(marks) else U64_MAX)
    && h.lastError == (if marks == [] || marks[|marks| - 1].Succeeded? then None else Some(marks[|marks| - 1].kind))
  }

  lemma MarkShows(marks: seq<Mark>, m: Mark)
    ensures Trailing(marks + [m]) == if m.Succeeded? then 0 else Trailing(marks) + 1
  {
    assert (marks + [m])[..|marks|] == marks;
  }

  lemma TurnShows(a: Agent, turn: Turn, marks: seq<Mark>)
    requires Shows(a.health, marks)
    ensures Shows(Take(a, turn).health, marks + TurnMarks(a, turn))
  {
    if !Bracketed(turn) {
      assert marks + [] == marks;
    } else {
      match turn.fetch
      case FetchError(error) => MarkShows(marks, Failed(Classify(error)));
      case Fetched(sample) =>
        MarkShows(marks, Succeeded);
        MarkShows(marks + [Succeeded], Failed(Publication));
        assert marks + [Succeeded, Failed(Publication)] == marks + [Succeeded] + [Failed(Publication)];
    }
  }

  lemma Associative(a: seq<Mark>, b: seq<Mark>, c: seq<Mark>)
    ensures a + b + c == a + (b + c) && a + [] == a
  {
  }

  /** After any run the report counts the failures since the last successful poll and names the
      last of them. */
  lemma {:induction false} HealthShowsRun(a: Agent, turns: seq<Turn>, marks: seq<Mark>)
    requires Shows(a.health, marks)
    ensures Shows(Run(a, turns).0.health, marks + RunMarks(a, turns))
    decreases |turns|
  {
    if turns == [] {
      assert marks + [] == marks;
    } else {
      var first := TurnMarks(a, turns[0]);
      TurnShows(a, turns[0], marks);
      if ExitOf(turns[0]).Some? {
        Associative(marks, first, []);
      } else {
        var next := Take(a, turns[0]);
        HealthShowsRun(next, turns[1..], marks + first);
        Associative(marks, first, RunMarks(next, turns[1..]));
      }
    }
  }

  function FailedFetches(turns: seq<Turn>): nat {
    if turns == [] then 0
    else (if Bracketed(turns[0]) && turns[0].fetch.FetchError? then 1 else 0) + FailedFetches(turns[1..])
  }

  /** Failed polls are the failed fetches between two passed trust checks, up to saturation. */
  lemma {:induction false} FailedPollsAreCounted(a: Agent, turns: seq<Turn>, before: nat)
    requires a.health.failedPolls == Min(before, U64_MAX)
    ensures Run(a, turns).0.health.failedPolls == Min(before + FailedFetches(Taken(turns)), U64_MAX)
    decreases |turns|
  {
    if turns != [] {
      var more := if Bracketed(turns[0]) && turns[0].fetch.FetchError? then 1 else 0;
      assert Take(a, turns[0]).health.failedPolls == Min(before + more, U64_MAX);
      if ExitOf(turns[0]).None? {
        FailedPollsAreCounted(Take(a, turns[0]), turns[1..], before + more);
        assert Taken(turns)[1..] == Taken(turns[1..]);
      } else {
        assert Taken(turns)[1..] == [];
      }
    }
  }

  // ----- the remote identity lease

  /** A request is admitted within thirty seconds of the last confirmation, and later only with
      the expected identity, which then counts as confirmed. */
  lemma LeaseMeans(l: Lease, r: Request)
    ensures r.now < l.lastVerified + 30_000_000_000 ==> Admitted(l, r) && Renew(l, r) == l
    ensures r.now >= l.lastVerified + 30_000_000_000 && r.reported == Some(l.expected) ==>
              Admitted(l, r) && Renew(l, r) == Lease(l.expected, r.confirmedAt)
    ensures r.now >= l.lastVerified + 30_000_000_000 && r.reported != Some(l.expected) ==>
              !Admitted(l, r) && Renew(l, r) == l
  {
  }
}
