/** Overlay settings: what makes them valid, and how user actions change them. */
module OverlaySettings {
  import opened Basics
  import opened Ordering

  const MAX_LAYERS := 64
  const MAX_SELECTED_PALS := 8

  datatype RotationMode = NorthUp | HeadingUp

  datatype InputMode = Locked | TemporaryInteractive | PinnedInteractive | LayoutEdit

  datatype DisplayMode = MiniMap | ExpandedMap

  datatype FpsProfile = Auto | Thirty | Sixty

  datatype PoiFilters = PoiFilters(fastTravel: bool, boss: bool, wanted: bool, dungeon: bool,
                                   enabledLayers: seq<string>, selectedPals: seq<string>, nightOnly: bool)

  datatype Chord = Chord(modified: bool, virtualKey: nat)

  datatype Hotkeys = Hotkeys(visibility: Option<Chord>, rotation: Option<Chord>,
                             temporary: Option<Chord>, lock: Option<Chord>)

  datatype HotkeyAction = OverlayVisibility | RotationToggle | TemporaryInteraction | InteractionLock

  datatype HotkeyReason = ZeroVirtualKey | UnmodifiedK | UnmodifiedGameKey

  datatype Settings = Settings(
    enabled: bool, autoShow: bool, rotation: RotationMode, input: InputMode, display: DisplayMode,
    opacity: real, diameter: nat, zoom: real, x: real, y: real, fps: FpsProfile,
    filters: PoiFilters, hotkeys: Hotkeys)

  datatype ValidationError =
    | OpacityOutOfRange | DiameterOutOfRange | ZoomOutOfRange | NormalizedXOutOfRange | NormalizedYOutOfRange
    | InvalidHotkey(action: HotkeyAction, reason: HotkeyReason)
    | TooManyEnabledLayers | TooManySelectedPals | HiddenUnverifiedMapFilterId
    | InvalidMapFilterId | DuplicateMapFilterId

  datatype Action =
    | Show | Hide | ToggleVisibility | EnterInteractive | ExitInteractive | OpenExpanded | CloseExpanded
    | ZoomIn | ZoomOut | ToggleRotation | Lock | ToggleFastTravel | ToggleBoss | ToggleWanted | ToggleDungeon
    | ToggleTower | ToggleEgg | ToggleResources | ToggleSalvage

  const TOWER_LAYERS: seq<string> := ["tower"]
  const EGG_LAYERS: seq<string> := ["egg"]
  const SALVAGE_LAYERS: seq<string> := ["salvage-rank-1", "salvage-rank-2"]
  const RESOURCE_LAYERS: seq<string> :=
    ["oil-field", "soralite", "chromite", "hexolite-quartz", "ancient-bark", "ancient-lava",
     "ore-copper", "ore-coal", "ore-quartz", "ore-sulfur", "ore-crystal", "paloxite"]
  const HIDDEN_LAYERS: seq<string> :=
    ["respawn-point", "captured-pal", "anti-air-turret", "medal", "ancient-shrine", "healing-spring"]

  // ----- validation

  predicate ValidLayerChar(c: char) {
    'a' <= c <= 'z' || 'A' <= c <= 'Z' || '0' <= c <= '9' || c == '_' || c == '-' || c == ':'
  }

  predicate ValidFilterId(id: string) {
    0 < |id| <= 96 && forall i :: 0 <= i < |id| ==> ValidLayerChar(id[i])
  }

  /** The first error among the ids from position `from` on. */
  function FilterIdError(ids: seq<string>, from: nat): Option<ValidationError>
    requires from <= |ids|
    decreases |ids| - from
  {
    if from == |ids| then None
    else if !ValidFilterId(ids[from]) then Some(InvalidMapFilterId)
    else if ids[from] in ids[..from] then Some(DuplicateMapFilterId)
    else FilterIdError(ids, from + 1)
  }

  method ValidateMapFilterIds(ids: seq<string>, maximum: nat, tooMany: ValidationError)
    returns (error: Option<ValidationError>)
    ensures error == if |ids| > maximum then Some(tooMany) else FilterIdError(ids, 0)
    ensures error.None? <==> |ids| <= maximum && Distinct(ids) && forall id :: id in ids ==> ValidFilterId(id)
  {
    FilterIdsAccepted(ids, 0);
    if |ids| > maximum {
      return Some(tooMany);
    }
    for index := 0 to |ids|
      invariant FilterIdError(ids, 0) == FilterIdError(ids, index)
    {
      if !ValidFilterId(ids[index]) {
        return Some(InvalidMapFilterId);
      }
      if ids[index] in ids[..index] {
        return Some(DuplicateMapFilterId);
      }
    }
    return None;
  }

  lemma {:induction false} FilterIdsAccepted(ids: seq<string>, from: nat)
    requires from <= |ids|
    ensures FilterIdError(ids, from).None? <==>
            forall j :: from <= j < |ids| ==> ValidFilterId(ids[j]) && ids[j] !in ids[..j]
    ensures from == 0 ==>
              (FilterIdError(ids, 0).None? <==> Distinct(ids) && forall id :: id in ids ==> ValidFilterId(id))
    decreases |ids| - from
  {
    if from < |ids| {
      FilterIdsAccepted(ids, from + 1);
    }
    if from == 0 {
      if forall j :: 0 <= j < |ids| ==> ValidFilterId(ids[j]) && ids[j] !in ids[..j] {
        forall i, j | 0 <= i < j < |ids|
          ensures ids[i] != ids[j]
        {
          assert ids[j] !in ids[..j] && ids[..j][i] == ids[i];
        }
      }
    }
  }

  function ChordError(action: HotkeyAction, chord: Option<Chord>): Option<ValidationError> {
    if chord.None? then None
    else if chord.value.virtualKey == 0 then Some(InvalidHotkey(action, ZeroVirtualKey))
    else if chord.value.virtualKey == 0x4B && !chord.value.modified then Some(InvalidHotkey(action, UnmodifiedK))
    else if !chord.value.modified && (0x30 <= chord.value.virtualKey <= 0x39 || 0x41 <= chord.value.virtualKey <= 0x5A)
    then Some(InvalidHotkey(action, UnmodifiedGameKey))
    else None
  }

  function HotkeyError(h: Hotkeys): Option<ValidationError> {
    if ChordError(OverlayVisibility, h.visibility).Some? then ChordError(OverlayVisibility, h.visibility)
    else if ChordError(RotationToggle, h.rotation).Some? then ChordError(RotationToggle, h.rotation)
    else if ChordError(TemporaryInteraction, h.temporary).Some? then ChordError(TemporaryInteraction, h.temporary)
    else ChordError(InteractionLock, h.lock)
  }

  function FilterError(f: PoiFilters): Option<ValidationError> {
    if |f.enabledLayers| > MAX_LAYERS then Some(TooManyEnabledLayers)
    else if FilterIdError(f.enabledLayers, 0).Some? then FilterIdError(f.enabledLayers, 0)
    else if exists id :: id in f.enabledLayers && id in HIDDEN_LAYERS then Some(HiddenUnverifiedMapFilterId)
    else if |f.selectedPals| > MAX_SELECTED_PALS then Some(TooManySelectedPals)
    else FilterIdError(f.selectedPals, 0)
  }

  function Validate(s: Settings): Option<ValidationError> {
    if !(0.20 <= s.opacity <= 1.00) then Some(OpacityOutOfRange)
    else if !(180 <= s.diameter <= 640) then Some(DiameterOutOfRange)
    else if !(0.50 <= s.zoom <= 4.00) then Some(ZoomOutOfRange)
    else if !(0.0 <= s.x <= 1.0) then Some(NormalizedXOutOfRange)
    else if !(0.0 <= s.y <= 1.0) then Some(NormalizedYOutOfRange)
    else if HotkeyError(s.hotkeys).Some? then HotkeyError(s.hotkeys)
    else FilterError(s.filters)
  }

  predicate Valid(s: Settings) {
    Validate(s).None?
  }

  // ----- the reducer

  predicate GroupSelected(enabled: seq<string>, group: seq<string>) {
    exists id :: id in group && id in enabled
  }

  function Without(enabled: seq<string>, group: seq<string>): seq<string> {
    if enabled == [] then []
    else (if enabled[0] in group then [] else [enabled[0]]) + Without(enabled[1..], group)
  }

  function ToggleGroup(enabled: seq<string>, group: seq<string>): seq<string> {
    if GroupSelected(enabled, group) then Without(enabled, group) else SortDedup(enabled + group)
  }

  function MinReal(a: real, b: real): real {
    if a < b then a else b
  }

  function MaxReal(a: real, b: real): real {
    if a > b then a else b
  }

  function ToggleLayers(s: Settings, group: seq<string>): Settings {
    s.(filters := s.filters.(enabledLayers := ToggleGroup(s.filters.enabledLayers, group)))
  }

  function Reduce(s: Settings, action: Action): Settings {
    match action
    case Show => s.(enabled := true)
    case Hide => s.(enabled := false)
    case ToggleVisibility => s.(enabled := !s.enabled)
    case EnterInteractive => s.(input := PinnedInteractive)
    case ExitInteractive => s.(input := Locked)
    case Lock => s.(input := Locked)
    case OpenExpanded => s.(display := ExpandedMap)
    case CloseExpanded => s.(display := MiniMap, input := Locked)
    case ZoomIn => s.(zoom := MinReal(s.zoom + 0.25, 4.0))
    case ZoomOut => s.(zoom := MaxReal(s.zoom - 0.25, 0.5))
    case ToggleRotation => s.(rotation := if s.rotation == NorthUp then HeadingUp else NorthUp)
    case ToggleFastTravel => s.(filters := s.filters.(fastTravel := !s.filters.fastTravel))
    case ToggleBoss => s.(filters := s.filters.(boss := !s.filters.boss))
    case ToggleWanted => s.(filters := s.filters.(wanted := !s.filters.wanted))
    case ToggleDungeon => s.(filters := s.filters.(dungeon := !s.filters.dungeon))
    case ToggleTower => ToggleLayers(s, TOWER_LAYERS)
    case ToggleEgg => ToggleLayers(s, EGG_LAYERS)
    case ToggleResources => ToggleLayers(s, RESOURCE_LAYERS)
    case ToggleSalvage => ToggleLayers(s, SALVAGE_LAYERS)
  }

  // ----- group toggles

  lemma {:induction false} WithoutKeepsOrder(enabled: seq<string>, group: seq<string>)
    ensures Elements(Without(enabled, group)) == Elements(enabled) - Elements(group)
    ensures Distinct(enabled) ==> Distinct(Without(enabled, group))
    ensures |Without(enabled, group)| <= |enabled|
  {
    if enabled != [] {
      WithoutKeepsOrder(enabled[1..], group);
      assert enabled == [enabled[0]] + enabled[1..];
      var rest := Without(enabled[1..], group);
      assert Elements(enabled) == {enabled[0]} + Elements(enabled[1..]);
      assert Elements(Without(enabled, group)) == Elements(rest) + (if enabled[0] in group then {} else {enabled[0]});
      if Distinct(enabled) {
        assert Distinct(enabled[1..]);
        forall j | 0 <= j < |rest|
          ensures rest[j] != enabled[0]
        {
          assert rest[j] in Elements(rest);
          assert rest[j] in enabled[1..];
        }
      }
    }
  }

  lemma AscendingIsDistinct(s: seq<string>)
    requires StrictlyAscending(s)
    ensures Distinct(s)
  {
    StringOrderIsTotal();
  }

  lemma {:induction false} DistinctSize(s: seq<string>)
    requires Distinct(s)
    ensures |Elements(s)| == |s|
  {
    if s != [] {
      DistinctSize(s[1..]);
      assert Elements(s) == Elements(s[1..]) + {s[0]};
    }
  }

  /** One toggle removes the whole group or adds the whole group; ids outside it stay as they
      are, and no id is ever listed twice. */
  lemma ToggleMeans(enabled: seq<string>, group: seq<string>)
    ensures Elements(ToggleGroup(enabled, group)) ==
            if GroupSelected(enabled, group) then Elements(enabled) - Elements(group)
            else Elements(enabled) + Elements(group)
    ensures Distinct(enabled) ==> Distinct(ToggleGroup(enabled, group))
  {
    if GroupSelected(enabled, group) {
      WithoutKeepsOrder(enabled, group);
    } else {
      SortDedupAscends(enabled + group);
      AscendingIsDistinct(SortDedup(enabled + group));
    }
  }

  /** Toggling a group three times selects the same layers as toggling it once. */
  lemma ToggleThriceIsOnce(enabled: seq<string>, group: seq<string>)
    ensures Elements(ToggleGroup(ToggleGroup(ToggleGroup(enabled, group), group), group)) ==
            Elements(ToggleGroup(enabled, group))
  {
    var once := ToggleGroup(enabled, group);
    var twice := ToggleGroup(once, group);
    ToggleMeans(enabled, group);
    ToggleMeans(once, group);
    ToggleMeans(twice, group);
    SelectedMeans(enabled, group);
    SelectedMeans(once, group);
    SelectedMeans(twice, group);
  }

  lemma SelectedMeans(enabled: seq<string>, group: seq<string>)
    ensures GroupSelected(enabled, group) <==> Elements(group) * Elements(enabled) != {}
  {
    if id :| id in group && id in enabled {
      assert id in Elements(group) * Elements(enabled);
    }
    if id :| id in Elements(group) * Elements(enabled) {
      assert id in group && id in enabled;
    }
  }

  // ----- validity under the reducer

  function GroupOf(action: Action): seq<string> {
    match action
    case ToggleTower => TOWER_LAYERS
    case ToggleEgg => EGG_LAYERS
    case ToggleResources => RESOURCE_LAYERS
    case ToggleSalvage => SALVAGE_LAYERS
    case _ => []
  }

  /** The action adds a layer group that no longer fits. */
  predicate Overfills(s: Settings, action: Action) {
    && GroupOf(action) != []
    && !GroupSelected(s.filters.enabledLayers, GroupOf(action))
    && |s.filters.enabledLayers| + |GroupOf(action)| > MAX_LAYERS
  }

  ghost predicate GoodGroup(group: seq<string>) {
    Distinct(group) && forall id :: id in group ==> ValidFilterId(id) && id !in HIDDEN_LAYERS
  }

  lemma GroupsAreGood(action: Action)
    ensures GoodGroup(GroupOf(action))
  {
    var group := GroupOf(action);
    forall i | 0 <= i < |group|
      ensures ValidFilterId(group[i]) && group[i] !in HIDDEN_LAYERS
    {
      var id := group[i];
      forall k | 0 <= k < |id|
        ensures ValidLayerChar(id[k])
      {
      }
    }
  }

  lemma UnionSize(enabled: seq<string>, group: seq<string>)
    requires Distinct(enabled) && Distinct(group) && !GroupSelected(enabled, group)
    ensures |ToggleGroup(enabled, group)| == |enabled| + |group|
  {
    ToggleMeans(enabled, group);
    SelectedMeans(enabled, group);
    DistinctSize(enabled);
    DistinctSize(group);
    DistinctSize(ToggleGroup(enabled, group));
  }

  lemma LayersAccepted(f: PoiFilters)
    ensures FilterError(f).None? <==>
            && |f.enabledLayers| <= MAX_LAYERS && |f.selectedPals| <= MAX_SELECTED_PALS
            && Distinct(f.enabledLayers) && Distinct(f.selectedPals)
            && (forall id :: id in f.enabledLayers ==> ValidFilterId(id) && id !in HIDDEN_LAYERS)
            && (forall id :: id in f.selectedPals ==> ValidFilterId(id))
  {
    FilterIdsAccepted(f.enabledLayers, 0);
    FilterIdsAccepted(f.selectedPals, 0);
  }

  lemma ToggleKeepsFilters(f: PoiFilters, group: seq<string>)
    requires FilterError(f).None? && GoodGroup(group)
    ensures var next := f.(enabledLayers := ToggleGroup(f.enabledLayers, group));
            FilterError(next) ==
            if !GroupSelected(f.enabledLayers, group) && |f.enabledLayers| + |group| > MAX_LAYERS
            then Some(TooManyEnabledLayers) else None
  {
    var next := f.(enabledLayers := ToggleGroup(f.enabledLayers, group));
    LayersAccepted(f);
    LayersAccepted(next);
    ToggleMeans(f.enabledLayers, group);
    forall id | id in next.enabledLayers
      ensures ValidFilterId(id) && id !in HIDDEN_LAYERS
    {
      assert id in Elements(next.enabledLayers);
    }
    if GroupSelected(f.enabledLayers, group) {
      WithoutKeepsOrder(f.enabledLayers, group);
    } else {
      UnionSize(f.enabledLayers, group);
    }
  }

  /** From valid settings every action leads to valid settings, except a group toggle that
      would exceed the layer limit, and that is the only error it can cause. */
  lemma ReducerKeepsValid(s: Settings, action: Action)
    requires Valid(s)
    ensures Validate(Reduce(s, action)) == if Overfills(s, action) then Some(TooManyEnabledLayers) else None
  {
    GroupsAreGood(action);
    var group := GroupOf(action);
    if group != [] {
      ToggleKeepsFilters(s.filters, group);
      assert Reduce(s, action) == ToggleLayers(s, group);
    } else {
      LayersAccepted(s.filters);
      LayersAccepted(Reduce(s, action).filters);
    }
  }
}
