/** The versioned settings store: optimistic patches with field masks, user actions, and the
    forced lock. */
module SettingsStore {
  import opened Basics
  import opened OverlaySettings

  datatype Field =
    | Enabled | AutoShow | Rotation | Input | Display | Opacity | Diameter | Zoom
    | NormalizedX | NormalizedY | Fps | Filters | Bindings

  datatype Rejection =
    | MissingCandidate | InvalidCandidate | EmptyFieldMask | UnspecifiedField | UnknownField | DuplicateField
    | InvalidEffective(error: ValidationError) | VersionOverflow

  datatype Snapshot = Snapshot(settings: Settings, version: nat)

  /** Every answer carries the settings that hold after the call. */
  datatype Answer =
    | Applied(current: Snapshot)
    | NoOp(current: Snapshot)
    | VersionConflict(current: Snapshot)
    | Rejected(current: Snapshot, reason: Rejection)

  /** A candidate as decoded from the wire. */
  datatype Candidate = Undecodable | Decoded(settings: Settings)

  // ----- field masks

  const FIELDS: seq<Field> :=
    [Enabled, AutoShow, Rotation, Input, Display, Opacity, Diameter, Zoom, NormalizedX, NormalizedY, Fps, Filters,
     Bindings]

  predicate IsField(raw: int) {
    1 <= raw <= 13
  }

  function FieldOf(raw: int): Field
    requires IsField(raw)
  {
    FIELDS[raw - 1]
  }

  /** The first error in the mask from position `from` on; raw value 0 is the unspecified field. */
  function MaskError(fields: seq<int>, from: nat): Option<Rejection>
    requires from <= |fields|
    decreases |fields| - from
  {
    if from == |fields| then None
    else if fields[from] != 0 && !IsField(fields[from]) then Some(UnknownField)
    else if fields[from] == 0 then Some(UnspecifiedField)
    else if fields[from] in fields[..from] then Some(DuplicateField)
    else MaskError(fields, from + 1)
  }

  function FieldsError(fields: seq<int>): Option<Rejection> {
    if fields == [] then Some(EmptyFieldMask) else MaskError(fields, 0)
  }

  lemma {:induction false} MaskAccepted(fields: seq<int>, from: nat)
    requires from <= |fields| && MaskError(fields, from).None?
    ensures forall j :: from <= j < |fields| ==> IsField(fields[j])
    decreases |fields| - from
  {
    if from < |fields| {
      MaskAccepted(fields, from + 1);
    }
  }

  function CopyField(target: Settings, candidate: Settings, field: Field): Settings {
    match field
    case Enabled => target.(enabled := candidate.enabled)
    case AutoShow => target.(autoShow := candidate.autoShow)
    case Rotation => target.(rotation := candidate.rotation)
    case Input => target.(input := candidate.input)
    case Display => target.(display := candidate.display)
    case Opacity => target.(opacity := candidate.opacity)
    case Diameter => target.(diameter := candidate.diameter)
    case Zoom => target.(zoom := candidate.zoom)
    case NormalizedX => target.(x := candidate.x)
    case NormalizedY => target.(y := candidate.y)
    case Fps => target.(fps := candidate.fps)
    case Filters => target.(filters := candidate.filters)
    case Bindings => target.(hotkeys := candidate.hotkeys)
  }

  predicate SameField(a: Settings, b: Settings, field: Field) {
    match field
    case Enabled => a.enabled == b.enabled
    case AutoShow => a.autoShow == b.autoShow
    case Rotation => a.rotation == b.rotation
    case Input => a.input == b.input
    case Display => a.display == b.display
    case Opacity => a.opacity == b.opacity
    case Diameter => a.diameter == b.diameter
    case Zoom => a.zoom == b.zoom
    case NormalizedX => a.x == b.x
    case NormalizedY => a.y == b.y
    case Fps => a.fps == b.fps
    case Filters => a.filters == b.filters
    case Bindings => a.hotkeys == b.hotkeys
  }

  /** The first n masked fields copied over. */
  function CopyFields(current: Settings, candidate: Settings, fields: seq<int>, n: nat): Settings
    requires n <= |fields| && forall i :: 0 <= i < |fields| ==> IsField(fields[i])
  {
    if n == 0 then current
    else CopyField(CopyFields(current, candidate, fields, n - 1), candidate, FieldOf(fields[n - 1]))
  }

  predicate Masked(fields: seq<int>, field: Field) {
    exists i :: 0 <= i < |fields| && IsField(fields[i]) && FieldOf(fields[i]) == field
  }

  lemma CopyFieldMeans(current: Settings, target: Settings, candidate: Settings, copied: Field, field: Field)
    ensures copied == field ==> SameField(CopyField(target, candidate, copied), candidate, field)
    ensures copied != field && SameField(target, current, field) ==>
              SameField(CopyField(target, candidate, copied), current, field)
  {
  }

  /** Masked fields come from the candidate and all others stay. */
  lemma {:induction false} CopyFieldsMeans(current: Settings, candidate: Settings, fields: seq<int>, n: nat,
                                           field: Field)
    requires n <= |fields| && forall i :: 0 <= i < |fields| ==> IsField(fields[i])
    ensures (exists i :: 0 <= i < n && FieldOf(fields[i]) == field) ==>
              SameField(CopyFields(current, candidate, fields, n), candidate, field)
    ensures (forall i :: 0 <= i < n ==> FieldOf(fields[i]) != field) ==>
              SameField(CopyFields(current, candidate, fields, n), current, field)
  {
    if n > 0 {
      CopyFieldsMeans(current, candidate, fields, n - 1, field);
      var before, last := CopyFields(current, candidate, fields, n - 1), FieldOf(fields[n - 1]);
      CopyFieldMeans(candidate, before, candidate, last, field);
      CopyFieldMeans(current, before, candidate, last, field);
    }
  }

  /** Settings that agree field by field with one of two valid settings are valid themselves. */
  lemma MixIsValid(a: Settings, b: Settings, mix: Settings)
    requires Valid(a) && Valid(b)
    requires forall field: Field :: SameField(mix, a, field) || SameField(mix, b, field)
    ensures Valid(mix)
  {
    assert SameField(mix, a, Opacity) || SameField(mix, b, Opacity);
    assert SameField(mix, a, Diameter) || SameField(mix, b, Diameter);
    assert SameField(mix, a, Zoom) || SameField(mix, b, Zoom);
    assert SameField(mix, a, NormalizedX) || SameField(mix, b, NormalizedX);
    assert SameField(mix, a, NormalizedY) || SameField(mix, b, NormalizedY);
    assert SameField(mix, a, Filters) || SameField(mix, b, Filters);
    assert SameField(mix, a, Bindings) || SameField(mix, b, Bindings);
  }

  // ----- the three operations

  function Patch(s: Snapshot, expected: nat, candidate: Candidate, fields: seq<int>): Answer {
    if expected != s.version then VersionConflict(s)
    else if candidate.Undecodable? then Rejected(s, InvalidCandidate)
    else if FieldsError(fields).Some? then Rejected(s, FieldsError(fields).value)
    else if s.version >= U64_MAX then Rejected(s, VersionOverflow)
    else
      MaskAccepted(fields, 0);
      var effective := CopyFields(s.settings, candidate.settings, fields, |fields|);
      if Validate(effective).Some? then Rejected(s, InvalidEffective(Validate(effective).value))
      else Applied(Snapshot(effective, s.version + 1))
  }

  function Act(s: Snapshot, expected: nat, action: Action): Answer {
    if expected != s.version then VersionConflict(s)
    else if s.version >= U64_MAX then Rejected(s, VersionOverflow)
    else
      var effective := Reduce(s.settings, action);
      if effective == s.settings then NoOp(s)
      else if Validate(effective).Some? then Rejected(s, InvalidEffective(Validate(effective).value))
      else Applied(Snapshot(effective, s.version + 1))
  }

  function ForceLock(s: Snapshot): Answer {
    if s.settings.input == Locked then NoOp(s)
    else if s.version >= U64_MAX then Rejected(s, VersionOverflow)
    else
      var effective := s.settings.(input := Locked);
      if Validate(effective).Some? then Rejected(s, InvalidEffective(Validate(effective).value))
      else Applied(Snapshot(effective, s.version + 1))
  }

  class Store {
    var settings: Settings
    var version: nat

    ghost predicate Sound()
      reads this
    {
      Valid(settings) && 1 <= version <= U64_MAX
    }

    function Current(): Snapshot
      reads this
    {
      Snapshot(settings, version)
    }

    constructor (initial: Settings)
      requires Valid(initial)
      ensures Sound() && Current() == Snapshot(initial, 1)
    {
      settings := initial;
      version := 1;
    }

    static method New(initial: Settings) returns (error: Option<ValidationError>, store: Store?)
      ensures error == Validate(initial) && (error.None? <==> store != null)
      ensures store != null ==> fresh(store) && store.Sound() && store.Current() == Snapshot(initial, 1)
    {
      error, store := Validate(initial), null;
      if error.None? {
        store := new Store(initial);
      }
    }

    method ApplyPatch(expected: nat, candidate: Candidate, fields: seq<int>) returns (answer: Answer)
      requires Sound()
      modifies this
      ensures Sound()
      ensures answer == Patch(old(Current()), expected, candidate, fields) && Current() == answer.current
    {
      if expected != version {
        return VersionConflict(Current());
      }
      if candidate.Undecodable? {
        return Rejected(Current(), InvalidCandidate);
      }
      var maskError := ValidateFields(fields);
      if maskError.Some? {
        return Rejected(Current(), maskError.value);
      }
      if version == U64_MAX {
        return Rejected(Current(), VersionOverflow);
      }
      MaskAccepted(fields, 0);
      var effective := settings;
      for i := 0 to |fields|
        invariant effective == CopyFields(settings, candidate.settings, fields, i)
        invariant unchanged(this)
      {
        effective := CopyField(effective, candidate.settings, FieldOf(fields[i]));
      }
      var error := Validate(effective);
      if error.Some? {
        return Rejected(Current(), InvalidEffective(error.value));
      }
      settings, version := effective, version + 1;
      return Applied(Current());
    }

    method ApplyAction(expected: nat, action: Action) returns (answer: Answer)
      requires Sound()
      modifies this
      ensures Sound()
      ensures answer == Act(old(Current()), expected, action) && Current() == answer.current
    {
      if expected != version {
        return VersionConflict(Current());
      }
      if version == U64_MAX {
        return Rejected(Current(), VersionOverflow);
      }
      var effective := Reduce(settings, action);
      if effective == settings {
        return NoOp(Current());
      }
      var error := Validate(effective);
      if error.Some? {
        return Rejected(Current(), InvalidEffective(error.value));
      }
      settings, version := effective, version + 1;
      return Applied(Current());
    }

    method ForceLocked() returns (answer: Answer)
      requires Sound()
      modifies this
      ensures Sound()
      ensures answer == ForceLock(old(Current())) && Current() == answer.current
    {
      if settings.input == Locked {
        return NoOp(Current());
      }
      if version == U64_MAX {
        return Rejected(Current(), VersionOverflow);
      }
      var effective := settings.(input := Locked);
      var error := Validate(effective);
      if error.Some? {
        return Rejected(Current(), InvalidEffective(error.value));
      }
      settings, version := effective, version + 1;
      return Applied(Current());
    }
  }

  method ValidateFields(fields: seq<int>) returns (error: Option<Rejection>)
    ensures error == FieldsError(fields)
  {
    if fields == [] {
      return Some(EmptyFieldMask);
    }
    for index := 0 to |fields|
      invariant MaskError(fields, 0) == MaskError(fields, index)
    {
      if fields[index] != 0 && !IsField(fields[index]) {
        return Some(UnknownField);
      }
      if fields[index] == 0 {
        return Some(UnspecifiedField);
      }
      if fields[index] in fields[..index] {
        return Some(DuplicateField);
      }
    }
    return None;
  }

  // ----- what each operation promises

  /** An applied patch takes exactly the masked fields from the candidate. */
  lemma PatchTouchesOnlyMasked(s: Snapshot, expected: nat, candidate: Candidate, fields: seq<int>, field: Field)
    requires Patch(s, expected, candidate, fields).Applied?
    ensures candidate.Decoded?
    ensures SameField(Patch(s, expected, candidate, fields).current.settings,
                      if Masked(fields, field) then candidate.settings else s.settings, field)
  {
    MaskAccepted(fields, 0);
    CopyFieldsMeans(s.settings, candidate.settings, fields, |fields|, field);
  }

  /** A patch with a valid candidate and a well-formed mask is never refused for its values. */
  lemma ValidPatchApplies(s: Snapshot, candidate: Settings, fields: seq<int>)
    requires Valid(s.settings) && Valid(candidate) && s.version < U64_MAX
    ensures Patch(s, s.version, Decoded(candidate), fields).Applied? <==> FieldsError(fields).None?
  {
    if FieldsError(fields).None? {
      MaskAccepted(fields, 0);
      var effective := CopyFields(s.settings, candidate, fields, |fields|);
      forall field: Field
        ensures SameField(effective, s.settings, field) || SameField(effective, candidate, field)
      {
        CopyFieldsMeans(s.settings, candidate, fields, |fields|, field);
      }
      MixIsValid(s.settings, candidate, effective);
    }
  }

  /** An action on valid settings is refused only for version overflow or a full layer list. */
  lemma ActionRefusals(s: Snapshot, action: Action)
    requires Valid(s.settings) && s.version <= U64_MAX
    ensures Act(s, s.version, action).Rejected? <==> s.version == U64_MAX || Overfills(s.settings, action)
    ensures s.version < U64_MAX && Overfills(s.settings, action) ==>
              Act(s, s.version, action).reason == InvalidEffective(TooManyEnabledLayers)
  {
    ReducerKeepsValid(s.settings, action);
  }

  /** A forced lock fails only for version overflow, and otherwise leaves the input locked. */
  lemma ForceLockLocks(s: Snapshot)
    requires Valid(s.settings)
    ensures ForceLock(s).Rejected? <==> s.settings.input != Locked && s.version >= U64_MAX
    ensures !ForceLock(s).Rejected? ==> ForceLock(s).current.settings == s.settings.(input := Locked)
  {
  }

  // ----- answers

  /** The wire numbers of the fields. */
  lemma FieldNumbers()
    ensures FieldOf(1) == Enabled && FieldOf(2) == AutoShow && FieldOf(3) == Rotation && FieldOf(4) == Input
    ensures FieldOf(5) == Display && FieldOf(6) == Opacity && FieldOf(7) == Diameter && FieldOf(8) == Zoom
    ensures FieldOf(9) == NormalizedX && FieldOf(10) == NormalizedY && FieldOf(11) == Fps
    ensures FieldOf(12) == Filters && FieldOf(13) == Bindings
  {
  }

  /** The first bad entry of a mask decides: unspecified, unknown, or listed before. */
  lemma {:induction false} MaskFaults(fields: seq<int>, from: nat)
    requires from <= |fields|
    ensures match MaskError(fields, from)
            case None => forall k :: from <= k < |fields| ==> 1 <= fields[k] <= 13 && fields[k] !in fields[..k]
            case Some(e) =>
              exists k :: from <= k < |fields| && MaskFault(fields, k) == Some(e)
                          && forall j :: from <= j < k ==> MaskFault(fields, j).None?
    decreases |fields| - from
  {
    if from < |fields| {
      MaskFaults(fields, from + 1);
      assert MaskFault(fields, from).Some? ==> MaskError(fields, from) == MaskFault(fields, from);
    }
  }

  function MaskFault(fields: seq<int>, k: nat): Option<Rejection>
    requires k < |fields|
  {
    if 1 <= fields[k] <= 13 && fields[k] !in fields[..k] then None
    else if fields[k] == 0 then Some(UnspecifiedField)
    else if 1 <= fields[k] <= 13 then Some(DuplicateField)
    else Some(UnknownField)
  }

  /** Each answer to a patch, with the requests it is given to; only an applied one changes anything. */
  lemma PatchAnswers(s: Snapshot, expected: nat, candidate: Candidate, fields: seq<int>)
    requires s.version <= 18_446_744_073_709_551_615
    ensures match Patch(s, expected, candidate, fields)
            case VersionConflict(now) => expected != s.version && now == s
            case Rejected(now, InvalidCandidate) => now == s && expected == s.version && candidate == Undecodable
            case Rejected(now, VersionOverflow) =>
              now == s && expected == s.version && candidate.Decoded? && FieldsError(fields).None?
              && s.version == 18_446_744_073_709_551_615
            case Rejected(now, InvalidEffective(e)) =>
              now == s && expected == s.version && candidate.Decoded? && FieldsError(fields).None?
            case Rejected(now, e) =>
              now == s && expected == s.version && candidate.Decoded? && FieldsError(fields) == Some(e)
            case NoOp(_) => false
            case Applied(next) =>
              expected == s.version && candidate.Decoded? && FieldsError(fields).None?
              && next.version == s.version + 1 <= 18_446_744_073_709_551_615 && Valid(next.settings)
    ensures FieldsError([]) == Some(EmptyFieldMask)
  {
    if fields != [] { MaskFaults(fields, 0); }
  }

  /** The same for actions. */
  lemma ActionAnswers(s: Snapshot, expected: nat, action: Action)
    requires s.version <= 18_446_744_073_709_551_615
    ensures match Act(s, expected, action)
            case VersionConflict(now) => expected != s.version && now == s
            case NoOp(now) => expected == s.version && now == s && Reduce(s.settings, action) == s.settings
            case Rejected(now, VersionOverflow) =>
              now == s && expected == s.version == 18_446_744_073_709_551_615
            case Rejected(now, e) =>
              now == s && expected == s.version && e.InvalidEffective? && !Valid(Reduce(s.settings, action))
            case Applied(next) =>
              expected == s.version && next == Snapshot(Reduce(s.settings, action), s.version + 1)
              && next.version <= 18_446_744_073_709_551_615 && Valid(next.settings)
  {
  }
}
