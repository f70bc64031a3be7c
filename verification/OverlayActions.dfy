/** What each user action does to the settings, which settings are valid, and which fault a
    rejection names, all in plain values. */
module OverlayActions {
  import opened Basics
  import opened Text
  import opened Ordering
  import opened OverlaySettings
  import opened SettingsStore

  ghost predicate ChangesOnly(before: Settings, after: Settings, fields: set<Field>) {
    forall field: Field :: field !in fields ==> SameField(after, before, field)
  }

  // ----- single fields

  /** Showing, hiding and locking say what holds afterwards, whatever held before. */
  lemma SettingActions(s: Settings)
    ensures Reduce(s, Show).enabled && ChangesOnly(s, Reduce(s, Show), {Enabled})
    ensures !Reduce(s, Hide).enabled && ChangesOnly(s, Reduce(s, Hide), {Enabled})
    ensures Reduce(s, Lock).input == Locked && ChangesOnly(s, Reduce(s, Lock), {Input})
    ensures Reduce(s, ExitInteractive) == Reduce(s, Lock)
    ensures Reduce(s, EnterInteractive).input == PinnedInteractive
            && ChangesOnly(s, Reduce(s, EnterInteractive), {Input})
    ensures Reduce(s, OpenExpanded).display == ExpandedMap && ChangesOnly(s, Reduce(s, OpenExpanded), {Display})
    ensures Reduce(s, CloseExpanded).display == MiniMap && Reduce(s, CloseExpanded).input == Locked
    ensures ChangesOnly(s, Reduce(s, CloseExpanded), {Display, Input})
  {
  }

  /** A toggle really changes its field, changes no other, and undoes itself. */
  lemma ToggleActions(s: Settings)
    ensures Reduce(s, ToggleVisibility).enabled != s.enabled
    ensures ChangesOnly(s, Reduce(s, ToggleVisibility), {Enabled})
    ensures Reduce(Reduce(s, ToggleVisibility), ToggleVisibility) == s
    ensures Reduce(s, ToggleRotation).rotation != s.rotation
    ensures ChangesOnly(s, Reduce(s, ToggleRotation), {Rotation})
    ensures Reduce(Reduce(s, ToggleRotation), ToggleRotation) == s
  {
  }

  /** The filters apart from the flag an action toggles. */
  ghost predicate SameOtherFlags(f: PoiFilters, g: PoiFilters, action: Action) {
    && (action != ToggleFastTravel ==> f.fastTravel == g.fastTravel)
    && (action != ToggleBoss ==> f.boss == g.boss)
    && (action != ToggleWanted ==> f.wanted == g.wanted)
    && (action != ToggleDungeon ==> f.dungeon == g.dungeon)
    && f.enabledLayers == g.enabledLayers && f.selectedPals == g.selectedPals && f.nightOnly == g.nightOnly
  }

  lemma FlagActions(s: Settings, action: Action)
    requires action in {ToggleFastTravel, ToggleBoss, ToggleWanted, ToggleDungeon}
    ensures ChangesOnly(s, Reduce(s, action), {Filters})
    ensures Reduce(s, action).filters != s.filters && SameOtherFlags(Reduce(s, action).filters, s.filters, action)
    ensures Reduce(Reduce(s, action), action) == s
  {
  }

  /** Zooming moves by a quarter and stops at 4 and at a half. */
  lemma ZoomActions(s: Settings)
    requires 0.5 <= s.zoom <= 4.0
    ensures ChangesOnly(s, Reduce(s, ZoomIn), {Zoom}) && ChangesOnly(s, Reduce(s, ZoomOut), {Zoom})
    ensures s.zoom <= Reduce(s, ZoomIn).zoom <= 4.0 && 0.5 <= Reduce(s, ZoomOut).zoom <= s.zoom
    ensures s.zoom <= 3.75 ==> Reduce(s, ZoomIn).zoom - s.zoom == 0.25 && Reduce(Reduce(s, ZoomIn), ZoomOut) == s
    ensures s.zoom >= 0.75 ==> s.zoom - Reduce(s, ZoomOut).zoom == 0.25 && Reduce(Reduce(s, ZoomOut), ZoomIn) == s
    ensures s.zoom > 3.75 ==> Reduce(s, ZoomIn).zoom == 4.0
    ensures s.zoom < 0.75 ==> Reduce(s, ZoomOut).zoom == 0.5
  {
  }

  // ----- layer groups

  /** The ids a layer action is about. */
  function LayerIds(action: Action): set<string> {
    match action
    case ToggleTower => {"tower"}
    case ToggleEgg => {"egg"}
    case ToggleSalvage => {"salvage-rank-1", "salvage-rank-2"}
    case ToggleResources =>
      {"ancient-bark", "ancient-lava", "chromite", "hexolite-quartz", "oil-field", "ore-coal", "ore-copper",
       "ore-crystal", "ore-quartz", "ore-sulfur", "paloxite", "soralite"}
    case _ => {}
  }

  lemma GroupIds(action: Action)
    ensures Elements(GroupOf(action)) == LayerIds(action)
  {
    match action
    case ToggleTower => assert GroupOf(action) == ["tower"];
    case ToggleEgg => assert GroupOf(action) == ["egg"];
    case ToggleSalvage => assert GroupOf(action) == ["salvage-rank-1", "salvage-rank-2"];
    case ToggleResources => ResourceIds();
    case _ =>
  }

  lemma ResourceIds()
    ensures Elements(RESOURCE_LAYERS) == LayerIds(ToggleResources)
  {
    var r := RESOURCE_LAYERS;
    assert |r| == 12;
    assert forall id :: id in r <==>
      id == r[0] || id == r[1] || id == r[2] || id == r[3] || id == r[4] || id == r[5]
      || id == r[6] || id == r[7] || id == r[8] || id == r[9] || id == r[10] || id == r[11];
  }

  lemma {:induction false} WithoutConcat(a: seq<string>, b: seq<string>, group: seq<string>)
    ensures Without(a + b, group) == Without(a, group) + Without(b, group)
  {
    if a == [] {
      assert a + b == b;
    } else {
      assert (a + b)[1..] == a[1..] + b;
      WithoutConcat(a[1..], b, group);
    }
  }

  /** The list after a toggle of some ids: they are removed when one of them is enabled and all
      added otherwise; the other ids stay, in their order when ids are removed and in ascending
      order when they are added. */
  ghost predicate Toggled(before: seq<string>, after: seq<string>, ids: set<string>) {
    if ids !! Elements(before)
    then Elements(after) == Elements(before) + ids && StrictlyAscending(after)
    else Elements(after) == Elements(before) - ids && Remaining(before, after, ids)
  }

  lemma GroupToggles(before: seq<string>, group: seq<string>)
    ensures Toggled(before, ToggleGroup(before, group), Elements(group))
  {
    ToggleMeans(before, group);
    SelectedMeans(before, group);
    SortDedupAscends(before + group);
    WithoutRemains(before, group);
  }

  lemma ReducesByGroup(s: Settings, action: Action)
    requires action in {ToggleTower, ToggleEgg, ToggleSalvage, ToggleResources}
    ensures Reduce(s, action) == ToggleLayers(s, GroupOf(action))
  {
  }

  /** Each layer action toggles its own ids and changes nothing else. */
  lemma LayerActions(s: Settings, action: Action)
    requires action in {ToggleTower, ToggleEgg, ToggleSalvage, ToggleResources}
    ensures ChangesOnly(s, Reduce(s, action), {Filters})
    ensures Reduce(s, action).filters.(enabledLayers := s.filters.enabledLayers) == s.filters
    ensures Toggled(s.filters.enabledLayers, Reduce(s, action).filters.enabledLayers, LayerIds(action))
  {
    ReducesByGroup(s, action);
    GroupIds(action);
    GroupToggles(s.filters.enabledLayers, GroupOf(action));
  }

  /** What remains of a list when some ids are taken out, in the same order. */
  ghost predicate Remaining(before: seq<string>, after: seq<string>, ids: set<string>) {
    if before == [] then after == []
    else if before[|before| - 1] in ids then Remaining(before[..|before| - 1], after, ids)
    else after != [] && after[|after| - 1] == before[|before| - 1]
         && Remaining(before[..|before| - 1], after[..|after| - 1], ids)
  }

  lemma {:induction false} WithoutRemains(before: seq<string>, group: seq<string>)
    ensures Remaining(before, Without(before, group), Elements(group))
  {
    if before != [] {
      var init, last := before[..|before| - 1], before[|before| - 1];
      WithoutRemains(init, group);
      WithoutConcat(init, [last], group);
      assert before == init + [last];
      var kept := Without(init, group);
      assert [last][1..] == [];
      assert Without([last], group) == if last in group then [] else [last];
      if last in group {
        assert Without(before, group) == kept;
      } else {
        assert Without(before, group) == kept + [last];
        assert (kept + [last])[..|kept|] == kept;
      }
    }
  }

  /** Through the store: a locking action on valid settings always ends locked. */
  lemma LockingEndsLocked(s: Snapshot, action: Action)
    requires Valid(s.settings) && s.version < U64_MAX && action in {Lock, ExitInteractive, CloseExpanded}
    ensures !Act(s, s.version, action).Rejected?
    ensures Act(s, s.version, action).current.settings.input == Locked
  {
    ActionRefusals(s, action);
  }

  // ----- validity

  const FILTER_CHARACTERS := LOWER + UPPER + DIGITS + "_-:"

  predicate UsableFilterIds(ids: seq<string>) {
    Distinct(ids) && forall i :: 0 <= i < |ids| ==> 1 <= |ids[i]| <= 96 && MadeOf(ids[i], FILTER_CHARACTERS)
  }

  /** A chord with a modifier may use any key; one without must avoid digits and letters. */
  predicate UsableChord(chord: Option<Chord>) {
    chord.Some? ==>
      && chord.value.virtualKey > 0
      && (chord.value.modified || chord.value.virtualKey < 48 || 57 < chord.value.virtualKey < 65
          || chord.value.virtualKey > 90)
  }

  lemma UsableFilterId(id: string)
    ensures ValidFilterId(id) <==> 1 <= |id| <= 96 && MadeOf(id, FILTER_CHARACTERS)
  {
    forall i | 0 <= i < |id|
      ensures id[i] in FILTER_CHARACTERS <==> ValidLayerChar(id[i])
    {
      AlphabetWith(id[i], "_-:");
    }
  }

  lemma UsableIds(ids: seq<string>)
    ensures UsableFilterIds(ids) <==> FilterIdError(ids, 0).None?
  {
    FilterIdsAccepted(ids, 0);
    forall i | 0 <= i < |ids|
      ensures ValidFilterId(ids[i]) <==> 1 <= |ids[i]| <= 96 && MadeOf(ids[i], FILTER_CHARACTERS)
    {
      UsableFilterId(ids[i]);
    }
    assert (forall id :: id in ids ==> ValidFilterId(id)) <==> (forall i :: 0 <= i < |ids| ==> ValidFilterId(ids[i]));
  }

  /** Which settings are valid. */
  lemma ValidMeans(s: Settings)
    ensures Valid(s) <==>
            && 0.2 <= s.opacity <= 1.0 && 180 <= s.diameter <= 640 && 0.5 <= s.zoom <= 4.0
            && 0.0 <= s.x <= 1.0 && 0.0 <= s.y <= 1.0
            && UsableChord(s.hotkeys.visibility) && UsableChord(s.hotkeys.rotation)
            && UsableChord(s.hotkeys.temporary) && UsableChord(s.hotkeys.lock)
            && |s.filters.enabledLayers| <= 64 && UsableFilterIds(s.filters.enabledLayers)
            && (forall id :: id in s.filters.enabledLayers ==>
                               id !in ["respawn-point", "captured-pal", "anti-air-turret", "medal",
                                       "ancient-shrine", "healing-spring"])
            && |s.filters.selectedPals| <= 8 && UsableFilterIds(s.filters.selectedPals)
  {
    UsableIds(s.filters.enabledLayers);
    UsableIds(s.filters.selectedPals);
  }

  /** Numbers are checked first and in turn, so each fault is named only where the earlier ones are absent. */
  lemma NumberFaults(s: Settings)
    ensures Validate(s) == Some(OpacityOutOfRange) <==> s.opacity < 0.2 || s.opacity > 1.0
    ensures Validate(s) == Some(DiameterOutOfRange) <==>
              0.2 <= s.opacity <= 1.0 && (s.diameter < 180 || s.diameter > 640)
    ensures Validate(s) == Some(ZoomOutOfRange) <==>
            0.2 <= s.opacity <= 1.0 && 180 <= s.diameter <= 640 && (s.zoom < 0.5 || s.zoom > 4.0)
    ensures Validate(s) == Some(NormalizedXOutOfRange) <==>
            0.2 <= s.opacity <= 1.0 && 180 <= s.diameter <= 640 && 0.5 <= s.zoom <= 4.0 && (s.x < 0.0 || s.x > 1.0)
    ensures Validate(s) == Some(NormalizedYOutOfRange) <==>
            0.2 <= s.opacity <= 1.0 && 180 <= s.diameter <= 640 && 0.5 <= s.zoom <= 4.0 && 0.0 <= s.x <= 1.0
            && (s.y < 0.0 || s.y > 1.0)
  {
    OtherFaults(s);
  }

  lemma OtherFaults(s: Settings)
    ensures HotkeyError(s.hotkeys).Some? ==> HotkeyError(s.hotkeys).value.InvalidHotkey?
    ensures FilterError(s.filters) in {None, Some(TooManyEnabledLayers), Some(TooManySelectedPals),
                                       Some(HiddenUnverifiedMapFilterId), Some(InvalidMapFilterId),
                                       Some(DuplicateMapFilterId)}
  {
    IdFaults(s.filters.enabledLayers, 0);
    IdFaults(s.filters.selectedPals, 0);
  }

  predicate NumbersFit(s: Settings) {
    && 0.2 <= s.opacity <= 1.0 && 180 <= s.diameter <= 640 && 0.5 <= s.zoom <= 4.0
    && 0.0 <= s.x <= 1.0 && 0.0 <= s.y <= 1.0
  }

  /** The chord bound to an action. */
  function ChordFor(h: Hotkeys, action: HotkeyAction): Option<Chord> {
    match action
    case OverlayVisibility => h.visibility
    case RotationToggle => h.rotation
    case TemporaryInteraction => h.temporary
    case InteractionLock => h.lock
  }

  /** A hotkey fault names a binding that is really at fault, and the reason. */
  lemma HotkeyFaults(s: Settings, action: HotkeyAction, reason: HotkeyReason)
    requires Validate(s) == Some(InvalidHotkey(action, reason))
    ensures NumbersFit(s) && ChordFor(s.hotkeys, action).Some?
    ensures var chord := ChordFor(s.hotkeys, action).value;
            match reason
            case ZeroVirtualKey => chord.virtualKey == 0
            case UnmodifiedK => chord.virtualKey == 75 && !chord.modified
            case UnmodifiedGameKey => !chord.modified && chord.virtualKey != 75
                                      && (48 <= chord.virtualKey <= 57 || 65 <= chord.virtualKey <= 90)
    ensures forall earlier: HotkeyAction ::
              Position(earlier) < Position(action) ==> UsableChord(ChordFor(s.hotkeys, earlier))
  {
    OtherFaults(s);
  }

  /** Bindings are checked in this order. */
  function Position(action: HotkeyAction): nat {
    match action
    case OverlayVisibility => 0
    case RotationToggle => 1
    case TemporaryInteraction => 2
    case InteractionLock => 3
  }

  /** A filter fault names what is wrong: a list that is too long, a hidden layer, a malformed or a repeated id. */
  lemma FilterFaults(s: Settings)
    requires NumbersFit(s) && forall action :: UsableChord(ChordFor(s.hotkeys, action))
    ensures var layers, pals := s.filters.enabledLayers, s.filters.selectedPals;
            var hidden := exists id :: id in layers && id in HIDDEN_LAYERS;
            && (Validate(s) == Some(TooManyEnabledLayers) <==> |layers| > 64)
            && (Validate(s) == Some(HiddenUnverifiedMapFilterId) <==>
                |layers| <= 64 && UsableFilterIds(layers) && hidden)
            && (Validate(s) == Some(TooManySelectedPals) <==>
                |layers| <= 64 && UsableFilterIds(layers) && !hidden && |pals| > 8)
  {
    assert forall action :: UsableChord(ChordFor(s.hotkeys, action)) ==>
             ChordError(action, ChordFor(s.hotkeys, action)).None?;
    assert UsableChord(ChordFor(s.hotkeys, OverlayVisibility)) && UsableChord(ChordFor(s.hotkeys, RotationToggle));
    assert UsableChord(ChordFor(s.hotkeys, TemporaryInteraction)) && UsableChord(ChordFor(s.hotkeys, InteractionLock));
    UsableIds(s.filters.enabledLayers);
    IdFaults(s.filters.enabledLayers, 0);
    IdFaults(s.filters.selectedPals, 0);
  }

  /** A fault in a list names its first bad id: malformed, or well-formed and listed before. */
  lemma {:induction false} IdFaults(ids: seq<string>, from: nat)
    requires from <= |ids|
    ensures FilterIdError(ids, from) in {None, Some(InvalidMapFilterId), Some(DuplicateMapFilterId)}
    ensures FilterIdError(ids, from) == Some(InvalidMapFilterId) ==>
              exists k :: from <= k < |ids| && !ValidFilterId(ids[k])
                          && forall j :: from <= j < k ==> ValidFilterId(ids[j]) && ids[j] !in ids[..j]
    ensures FilterIdError(ids, from) == Some(DuplicateMapFilterId) ==>
              exists k :: from <= k < |ids| && ValidFilterId(ids[k]) && ids[k] in ids[..k]
                          && forall j :: from <= j < k ==> ValidFilterId(ids[j]) && ids[j] !in ids[..j]
    decreases |ids| - from
  {
    if from < |ids| {
      IdFaults(ids, from + 1);
    }
  }
}
