/** Control sessions sharing one settings store, and what holds over any interleaving of
    their messages and disconnects. */
module ControlSession {
  import opened Basics
  import opened OverlaySettings
  import opened SettingsStore

  const TRACE_ID_BYTES := 16
  const POI_FILTERS_FIELD := 12

  datatype Role = ManagementUi | OverlayUi | OtherRole

  datatype Payload =
    | SettingsQuery
    | OverlayCommand(expectedBy: nat, action: Option<Action>)
    | SettingsPatch(traceLength: nat, expected: nat, candidate: Option<Candidate>, fields: seq<int>)
    | OtherPayload

  /** A message with the gate's verdicts on it: the role a hello would establish, and whether
      an established session lets the message through. */
  datatype Envelope = Envelope(messageId: nat, hello: Option<Role>, passesGate: bool, payload: Payload)

  datatype ErrorCode = GateRejected | ValidationFailed | UnexpectedPayload | InvalidTraceId

  datatype Body =
    | ProtocolError(code: ErrorCode)
    | SettingsReply(current: Snapshot)
    | CommandResult(result: Answer)
    | Ack(ack: Answer)

  datatype Outcome = Quiet | Response(id: nat, replyTo: nat, body: Body) | ResponseIdOverflow

  datatype Session = Session(established: bool, role: Role, nextId: nat)

  function NewSession(): Session {
    Session(false, OtherRole, 1)
  }

  // ----- one message

  /** The error a message gets before it reaches the store. */
  function Screen(session: Session, m: Envelope): Option<ErrorCode> {
    if !session.established then if m.hello.None? then Some(GateRejected) else None
    else if !m.passesGate then Some(GateRejected)
    else match m.payload
      case SettingsQuery => None
      case OverlayCommand(_, action) => if action.None? then Some(ValidationFailed) else None
      case SettingsPatch(traceLength, _, _, fields) =>
        if traceLength != TRACE_ID_BYTES then Some(InvalidTraceId)
        else if session.role == OverlayUi && fields != [POI_FILTERS_FIELD] then Some(UnexpectedPayload)
        else None
      case OtherPayload => Some(UnexpectedPayload)
  }

  /** What the message does to the store. */
  function Effect(session: Session, s: Snapshot, m: Envelope): Answer {
    if !session.established || Screen(session, m).Some? then NoOp(s)
    else match m.payload
      case OverlayCommand(expected, action) => Act(s, expected, action.value)
      case SettingsPatch(_, expected, candidate, fields) =>
        if candidate.None? then Rejected(s, MissingCandidate) else Patch(s, expected, candidate.value, fields)
      case _ => NoOp(s)
  }

  function BodyFor(session: Session, s: Snapshot, m: Envelope): Body {
    if Screen(session, m).Some? then ProtocolError(Screen(session, m).value)
    else match m.payload
      case OverlayCommand(_, _) => CommandResult(Effect(session, s, m))
      case SettingsPatch(_, _, _, _) => Ack(Effect(session, s, m))
      case _ => SettingsReply(s)
  }

  predicate Establishes(session: Session, m: Envelope) {
    !session.established && m.hello.Some?
  }

  function Handle(session: Session, s: Snapshot, m: Envelope): (Session, Outcome) {
    if Establishes(session, m) then (session.(established := true, role := m.hello.value), Quiet)
    else if session.nextId >= U64_MAX then (session, ResponseIdOverflow)
    else (session.(nextId := session.nextId + 1), Response(session.nextId, m.messageId, BodyFor(session, s, m)))
  }

  function DisconnectEffect(session: Session, s: Snapshot): Answer {
    if session.established then ForceLock(s) else NoOp(s)
  }

  class Connection {
    const store: Store
    var state: Session

    constructor (shared: Store)
      ensures store == shared && state == NewSession()
    {
      store := shared;
      state := NewSession();
    }

    method Respond(m: Envelope, body: Body) returns (outcome: Outcome)
      requires state.nextId <= U64_MAX
      modifies this`state
      ensures if old(state).nextId == U64_MAX then state == old(state) && outcome == ResponseIdOverflow
              else state == old(state).(nextId := old(state).nextId + 1)
                   && outcome == Response(old(state).nextId, m.messageId, body)
    {
      if state.nextId == U64_MAX {
        return ResponseIdOverflow;
      }
      outcome := Response(state.nextId, m.messageId, body);
      state := state.(nextId := state.nextId + 1);
    }

    method PatchStore(expected: nat, candidate: Option<Candidate>, fields: seq<int>) returns (answer: Answer)
      requires store.Sound()
      modifies store
      ensures store.Sound() && store.Current() == answer.current
      ensures answer == if candidate.None? then Rejected(old(store.Current()), MissingCandidate)
                        else Patch(old(store.Current()), expected, candidate.value, fields)
    {
      if candidate.None? {
        return Rejected(store.Current(), MissingCandidate);
      }
      answer := store.ApplyPatch(expected, candidate.value, fields);
    }

    method HandleEnvelope(m: Envelope) returns (outcome: Outcome)
      requires store.Sound() && state.nextId <= U64_MAX
      modifies this`state, store
      ensures store.Sound()
      ensures (state, outcome) == Handle(old(state), old(store.Current()), m)
      ensures store.Current() == Effect(old(state), old(store.Current()), m).current
    {
      if !state.established {
        if m.hello.Some? {
          state := state.(established := true, role := m.hello.value);
          return Quiet;
        }
        outcome := Respond(m, ProtocolError(GateRejected));
        return;
      }
      if !m.passesGate {
        outcome := Respond(m, ProtocolError(GateRejected));
        return;
      }
      match m.payload
      case SettingsQuery =>
        outcome := Respond(m, SettingsReply(store.Current()));
      case OverlayCommand(expected, action) =>
        if action.None? {
          outcome := Respond(m, ProtocolError(ValidationFailed));
          return;
        }
        var answer := store.ApplyAction(expected, action.value);
        outcome := Respond(m, CommandResult(answer));
      case SettingsPatch(traceLength, expected, candidate, fields) =>
        if traceLength != TRACE_ID_BYTES {
          outcome := Respond(m, ProtocolError(InvalidTraceId));
          return;
        }
        if state.role == OverlayUi && fields != [POI_FILTERS_FIELD] {
          outcome := Respond(m, ProtocolError(UnexpectedPayload));
          return;
        }
        var answer := PatchStore(expected, candidate, fields);
        outcome := Respond(m, Ack(answer));
      case OtherPayload =>
        outcome := Respond(m, ProtocolError(UnexpectedPayload));
    }

    method Disconnect() returns (answer: Answer)
      requires store.Sound()
      modifies store
      ensures store.Sound()
      ensures answer == DisconnectEffect(state, old(store.Current())) && store.Current() == answer.current
    {
      if !state.established {
        return NoOp(store.Current());
      }
      answer := store.ForceLocked();
    }
  }

  // ----- several sessions on one store

  datatype System = System(store: Snapshot, sessions: seq<Session>)

  datatype Event = Open | Deliver(session: nat, m: Envelope) | Close(session: nat)

  predicate Enabled(sys: System, e: Event) {
    e.Open? || e.session < |sys.sessions|
  }

  function EventEffect(sys: System, e: Event): Answer
    requires Enabled(sys, e)
  {
    match e
    case Open => NoOp(sys.store)
    case Deliver(i, m) => Effect(sys.sessions[i], sys.store, m)
    case Close(i) => DisconnectEffect(sys.sessions[i], sys.store)
  }

  function Next(sys: System, e: Event): System
    requires Enabled(sys, e)
  {
    var store := EventEffect(sys, e).current;
    match e
    case Open => System(store, sys.sessions + [NewSession()])
    case Deliver(i, m) => System(store, sys.sessions[i := Handle(sys.sessions[i], sys.store, m).0])
    case Close(_) => System(store, sys.sessions)
  }

  /** The system after the first n events; events for sessions that do not exist are ignored. */
  function After(start: System, events: seq<Event>, n: nat): System
    requires n <= |events|
  {
    if n == 0 then start
    else
      var before := After(start, events, n - 1);
      if Enabled(before, events[n - 1]) then Next(before, events[n - 1]) else before
  }

  /** The answer the store gives to event i. */
  function AnswerTo(start: System, events: seq<Event>, i: nat): Answer
    requires i < |events|
  {
    var before := After(start, events, i);
    if Enabled(before, events[i]) then EventEffect(before, events[i]) else NoOp(before.store)
  }

  function AppliedCount(start: System, events: seq<Event>, n: nat): nat
    requires n <= |events|
  {
    if n == 0 then 0
    else AppliedCount(start, events, n - 1) + if AnswerTo(start, events, n - 1).Applied? then 1 else 0
  }

  ghost predicate Opening(start: System) {
    Valid(start.store.settings) && start.store.version == 1 && start.sessions == []
  }

  lemma AnswerMoves(start: System, events: seq<Event>, i: nat)
    requires i < |events|
    ensures After(start, events, i + 1).store == AnswerTo(start, events, i).current
    ensures !AnswerTo(start, events, i).Applied? ==> After(start, events, i + 1).store == After(start, events, i).store
    ensures AnswerTo(start, events, i).Applied? ==>
              && After(start, events, i + 1).store.version == After(start, events, i).store.version + 1
              && After(start, events, i + 1).store.version <= U64_MAX
              && Valid(After(start, events, i + 1).store.settings)
  {
  }

  /** At every point of every run the settings are valid and the version is one more than the
      number of changes applied so far. */
  lemma {:induction false} VersionsCountChanges(start: System, events: seq<Event>, n: nat)
    requires Opening(start) && n <= |events|
    ensures After(start, events, n).store.version == 1 + AppliedCount(start, events, n) <= U64_MAX
    ensures Valid(After(start, events, n).store.settings)
  {
    if n > 0 {
      VersionsCountChanges(start, events, n - 1);
      AnswerMoves(start, events, n - 1);
    }
  }

  /** No version number ever names two different settings. */
  lemma {:induction false} VersionNamesOneSettings(start: System, events: seq<Event>, i: nat, j: nat)
    requires i <= j <= |events|
    ensures After(start, events, i).store.version <= After(start, events, j).store.version
    ensures After(start, events, i).store.version == After(start, events, j).store.version ==>
              After(start, events, i).store.settings == After(start, events, j).store.settings
    decreases j
  {
    if i < j {
      VersionNamesOneSettings(start, events, i, j - 1);
      AnswerMoves(start, events, j - 1);
    }
  }

  /** The version a patch or an action expects. */
  function Expects(e: Event): Option<nat> {
    if !e.Deliver? then None
    else match e.m.payload
      case OverlayCommand(expected, _) => Some(expected)
      case SettingsPatch(_, expected, _, _) => Some(expected)
      case _ => None
  }

  /** Event i is a request for version v and the store applied it. */
  ghost predicate Wins(start: System, events: seq<Event>, i: nat, v: nat)
    requires i < |events|
  {
    events[i].Deliver? && Expects(events[i]) == Some(v) && AnswerTo(start, events, i).Applied?
  }

  lemma WinnerRaisesVersion(start: System, events: seq<Event>, i: nat, v: nat)
    requires i < |events| && Wins(start, events, i, v)
    ensures After(start, events, i).store.version == v && After(start, events, i + 1).store.version == v + 1
  {
    AnswerMoves(start, events, i);
  }

  lemma LaterVersionsDiffer(start: System, events: seq<Event>, i: nat, j: nat, v: nat)
    requires i < j <= |events| && After(start, events, i + 1).store.version == v + 1
    ensures After(start, events, j).store.version > v
  {
    VersionNamesOneSettings(start, events, i + 1, j);
  }

  /** Of all requests of all sessions that expect the same version, at most one is applied. */
  lemma OneWinnerPerVersion(start: System, events: seq<Event>, i: nat, j: nat, v: nat)
    requires i < j < |events| && Wins(start, events, i, v)
    ensures !Wins(start, events, j, v)
  {
    WinnerRaisesVersion(start, events, i, v);
    LaterVersionsDiffer(start, events, i, j, v);
    if Wins(start, events, j, v) {
      WinnerRaisesVersion(start, events, j, v);
    }
  }

  /** An overlay session can change nothing by patches but the point-of-interest filters. */
  lemma OverlayPatchesOnlyFilters(session: Session, s: Snapshot, m: Envelope, field: Field)
    requires session.established && session.role == OverlayUi && m.payload.SettingsPatch?
    requires field != Filters
    ensures SameField(Effect(session, s, m).current.settings, s.settings, field)
  {
    var answer := Effect(session, s, m);
    if answer.Applied? {
      var p := m.payload;
      assert p.fields == [POI_FILTERS_FIELD];
      PatchTouchesOnlyMasked(s, p.expected, p.candidate.value, p.fields, field);
    }
  }

  /** After an established session closes, the input is locked, unless versions have run out. */
  lemma CloseLocks(start: System, events: seq<Event>, i: nat)
    requires Opening(start) && i < |events| && events[i].Close?
    requires events[i].session < |After(start, events, i).sessions|
             && After(start, events, i).sessions[events[i].session].established
    ensures After(start, events, i + 1).store.settings.input == Locked
            || (After(start, events, i).store.version == U64_MAX && AnswerTo(start, events, i).Rejected?)
  {
    VersionsCountChanges(start, events, i);
    ForceLockLocks(After(start, events, i).store);
  }

  // ----- response numbering

  /** The responses session k sent during the first n events. */
  function ResponseIds(start: System, events: seq<Event>, n: nat, k: nat): seq<nat>
    requires n <= |events|
  {
    if n == 0 then []
    else
      var before, e := After(start, events, n - 1), events[n - 1];
      var sent := ResponseIds(start, events, n - 1, k);
      if e.Deliver? && e.session == k && k < |before.sessions| then
        var outcome := Handle(before.sessions[k], before.store, e.m).1;
        if outcome.Response? then sent + [outcome.id] else sent
      else sent
  }

  lemma {:induction false} SessionsPersist(start: System, events: seq<Event>, n: nat)
    requires 0 < n <= |events|
    ensures |After(start, events, n - 1).sessions| <= |After(start, events, n).sessions|
    ensures forall k :: 0 <= k < |After(start, events, n - 1).sessions|
                        && !(events[n - 1].Deliver? && events[n - 1].session == k) ==>
                          After(start, events, n).sessions[k] == After(start, events, n - 1).sessions[k]
  {
  }

  /** Each session numbers its responses 1, 2, 3 and so on, without gaps or repetitions. */
  lemma {:induction false} ResponsesAreNumbered(start: System, events: seq<Event>, n: nat, k: nat)
    requires Opening(start) && n <= |events|
    ensures forall i :: 0 <= i < |ResponseIds(start, events, n, k)| ==> ResponseIds(start, events, n, k)[i] == i + 1
    ensures k < |After(start, events, n).sessions| ==>
              After(start, events, n).sessions[k].nextId == |ResponseIds(start, events, n, k)| + 1
    ensures k >= |After(start, events, n).sessions| ==> ResponseIds(start, events, n, k) == []
  {
    if n > 0 {
      ResponsesAreNumbered(start, events, n - 1, k);
      SessionsPersist(start, events, n);
    }
  }

  // ----- what a session answers

  /** Errors of a message that reaches no command, each with the messages it is given for. */
  lemma RefusalsMean(session: Session, s: Snapshot, m: Envelope)
    requires !Establishes(session, m)
    ensures var through := session.established && m.passesGate;
            && (BodyFor(session, s, m) == ProtocolError(GateRejected) <==> !through)
            && (BodyFor(session, s, m) == ProtocolError(ValidationFailed) <==>
                through && m.payload.OverlayCommand? && m.payload.action.None?)
            && (BodyFor(session, s, m) == ProtocolError(InvalidTraceId) <==>
                through && m.payload.SettingsPatch? && m.payload.traceLength != 16)
            && (BodyFor(session, s, m) == ProtocolError(UnexpectedPayload) <==>
                through && (m.payload.OtherPayload?
                            || (m.payload.SettingsPatch? && m.payload.traceLength == 16
                                && session.role == OverlayUi && m.payload.fields != [12])))
    ensures BodyFor(session, s, m).ProtocolError? ==> Effect(session, s, m) == NoOp(s)
  {
  }

  /** A first message the gate takes as a hello establishes the session in the role it gives,
      without an answer and without touching the settings; any other is refused. */
  lemma FirstMessages(session: Session, s: Snapshot, m: Envelope)
    requires !session.established && session.nextId < U64_MAX
    ensures m.hello.Some? ==>
              && Handle(session, s, m) == (Session(true, m.hello.value, session.nextId), Quiet)
    ensures m.hello.None? ==>
              && !Handle(session, s, m).0.established
              && Handle(session, s, m).1 == Response(session.nextId, m.messageId, ProtocolError(GateRejected))
    ensures Effect(session, s, m).current == s && DisconnectEffect(session, s).current == s
  {
  }

  /** An established session that lets a message through. */
  predicate LetsThrough(session: Session, m: Envelope) {
    session.established && m.passesGate && session.nextId < U64_MAX
  }

  /** A query is answered with the settings that hold, and moves nothing. */
  lemma QueriesAreAnswered(session: Session, s: Snapshot, m: Envelope)
    requires LetsThrough(session, m) && m.payload.SettingsQuery?
    ensures Handle(session, s, m).1 == Response(session.nextId, m.messageId, SettingsReply(s))
    ensures Effect(session, s, m).current == s
  {
  }

  /** A command for the current version that changes something and fits is carried out, and the
      answer says so. */
  lemma CommandsAreCarriedOut(session: Session, s: Snapshot, m: Envelope)
    requires LetsThrough(session, m) && m.payload.OverlayCommand? && m.payload.action.Some?
             && m.payload.expectedBy == s.version
    requires Valid(s.settings) && s.version < U64_MAX
    requires Reduce(s.settings, m.payload.action.value) != s.settings && !Overfills(s.settings, m.payload.action.value)
    ensures var next := Snapshot(Reduce(s.settings, m.payload.action.value), s.version + 1);
            && Effect(session, s, m) == Applied(next)
            && Handle(session, s, m).1 == Response(session.nextId, m.messageId, CommandResult(Applied(next)))
  {
    ActionRefusals(s, m.payload.action.value);
  }

  /** A patch for the current version with a valid candidate and a well-formed mask is applied,
      for an overlay session if it is about the filters only, and the answer says so. */
  lemma PatchesAreCarriedOut(session: Session, s: Snapshot, m: Envelope, candidate: Settings, field: Field)
    requires LetsThrough(session, m) && m.payload.SettingsPatch? && m.payload.traceLength == 16
    requires session.role != OverlayUi || m.payload.fields == [12]
    requires m.payload.candidate == Some(Decoded(candidate)) && m.payload.expected == s.version
    requires Valid(s.settings) && Valid(candidate) && s.version < U64_MAX && FieldsError(m.payload.fields).None?
    ensures Effect(session, s, m).Applied? && Effect(session, s, m).current.version == s.version + 1
    ensures SameField(Effect(session, s, m).current.settings,
                      if Masked(m.payload.fields, field) then candidate else s.settings, field)
    ensures Handle(session, s, m).1 == Response(session.nextId, m.messageId, Ack(Effect(session, s, m)))
  {
    ValidPatchApplies(s, candidate, m.payload.fields);
    PatchTouchesOnlyMasked(s, s.version, Decoded(candidate), m.payload.fields, field);
  }

  /** A patch without a candidate is refused as such once it gets through. */
  lemma MissingCandidates(session: Session, s: Snapshot, m: Envelope)
    requires LetsThrough(session, m) && m.payload.SettingsPatch? && m.payload.traceLength == 16
    requires session.role != OverlayUi || m.payload.fields == [12]
    requires m.payload.candidate.None?
    ensures Handle(session, s, m).1 == Response(session.nextId, m.messageId, Ack(Rejected(s, MissingCandidate)))
  {
  }
}
