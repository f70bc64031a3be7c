/** The fullscreen frame bridge: frame publishing, visibility-only republishing and frame
    reading, on top of the sequence-lock protocol. */
module FrameBridge {
  import opened Basics
  import opened SeqLock

  const MAX_FRAME_PIXELS := 1_024 * 1_024
  const BYTES_PER_PIXEL := 4
  const MAX_PAYLOAD_BYTES := MAX_FRAME_PIXELS * BYTES_PER_PIXEL
  const U32_LIMIT := 0x1_0000_0000

  type u32 = x: int | 0 <= x < U32_LIMIT

  datatype DisplayMode = MiniMap | ExpandedMap

  datatype InputMode = Locked | Interactive

  datatype PoiFilters = PoiFilters(fastTravel: bool, boss: bool, wanted: bool, dungeon: bool,
                                   tower: bool, egg: bool, resources: bool, salvage: bool)

  datatype Metadata = Metadata(displayMode: DisplayMode, inputMode: InputMode, filters: PoiFilters,
                               opacity: real, visible: bool, displayWidth: u32, displayHeight: u32)

  /** One call of the writer's publish function; pixels are 0x00RRGGBB words. */
  datatype Publication = Publication(width: u32, height: u32, meta: Metadata, pixels: seq<u32>)

  datatype BridgeError = InvalidDimensions | PixelCountMismatch

  /** What a reader gets, apart from the sequence number. */
  datatype View = View(width: u32, height: u32, displayWidth: u32, displayHeight: u32, displayMode: DisplayMode,
                       inputMode: InputMode, filters: PoiFilters, opacity: real, visible: bool, rgba: seq<nat>)

  datatype Cell =
    | Width | Height | PayloadBytes | Mode | Input | FilterBits | Opacity | Visible
    | DisplayWidth | DisplayHeight | Payload(index: nat)

  datatype Word = Num(n: u32) | Real(r: real) | Bits(bits: bv32)

  type Memory = map<Cell, Word>

  // ----- field encodings

  function Bit(on: bool, value: bv32): bv32 {
    if on then value else 0
  }

  function ToBits(f: PoiFilters): bv32 {
    Bit(f.fastTravel, 1) | Bit(f.boss, 2) | Bit(f.wanted, 4) | Bit(f.dungeon, 8)
    | Bit(f.tower, 16) | Bit(f.egg, 32) | Bit(f.resources, 64) | Bit(f.salvage, 128)
  }

  function FromBits(bits: bv32): PoiFilters {
    PoiFilters(bits & 1 != 0, bits & 2 != 0, bits & 4 != 0, bits & 8 != 0,
               bits & 16 != 0, bits & 32 != 0, bits & 64 != 0, bits & 128 != 0)
  }

  lemma FilterBitsRoundTrip(f: PoiFilters)
    ensures FromBits(ToBits(f)) == f
  {
  }

  function RawMode(m: DisplayMode): u32 {
    match m case MiniMap => 0 case ExpandedMap => 1
  }

  function ModeFromRaw(raw: u32): Option<DisplayMode> {
    if raw == 0 then Some(MiniMap) else if raw == 1 then Some(ExpandedMap) else None
  }

  function RawInput(m: InputMode): u32 {
    match m case Locked => 0 case Interactive => 1
  }

  function InputFromRaw(raw: u32): Option<InputMode> {
    if raw == 0 then Some(Locked) else if raw == 1 then Some(Interactive) else None
  }

  function Clamp(r: real): real {
    if r < 0.2 then 0.2 else if r > 1.0 then 1.0 else r
  }

  function CheckedPixelCount(width: u32, height: u32): Option<int> {
    if width == 0 || height == 0 || width * height > MAX_FRAME_PIXELS then None else Some(width * height)
  }

  /** Edge smoothing of the round mini map: some byte, fixed by position and size. */
  ghost function EdgeAlpha(index: nat, width: u32, height: u32): (a: nat)
    ensures a < 256
  {
    var a: nat :| a < 256;
    a
  }

  ghost function FrameAlpha(index: nat, width: u32, height: u32, mode: DisplayMode): nat {
    if mode == ExpandedMap then 255 else EdgeAlpha(index, width, height)
  }

  // ----- the writer

  function PublishError(p: Publication): Option<BridgeError> {
    if CheckedPixelCount(p.width, p.height).None? then Some(InvalidDimensions)
    else if p.meta.displayWidth == 0 || p.meta.displayHeight == 0 then Some(InvalidDimensions)
    else if |p.pixels| != CheckedPixelCount(p.width, p.height).value then Some(PixelCountMismatch)
    else None
  }

  ghost function RasterByte(p: Publication, i: nat): nat
    requires i < BYTES_PER_PIXEL * |p.pixels|
  {
    var source := p.pixels[i / BYTES_PER_PIXEL];
    match i % BYTES_PER_PIXEL
    case 0 => source / 65_536 % 256
    case 1 => source / 256 % 256
    case 2 => source % 256
    case _ => FrameAlpha(i / BYTES_PER_PIXEL, p.width, p.height, p.meta.displayMode)
  }

  ghost function Raster(p: Publication): (r: seq<nat>)
    ensures forall i :: 0 <= i < |r| ==> r[i] < 256
  {
    seq(BYTES_PER_PIXEL * |p.pixels|, i requires 0 <= i < BYTES_PER_PIXEL * |p.pixels| => RasterByte(p, i))
  }

  function HeaderStores(p: Publication): seq<Store<Cell, Word>>
    requires PublishError(p).None?
  {
    [Store(Width, Num(p.width)), Store(Height, Num(p.height)),
     Store(PayloadBytes, Num(BYTES_PER_PIXEL * |p.pixels|)),
     Store(Mode, Num(RawMode(p.meta.displayMode))), Store(Input, Num(RawInput(p.meta.inputMode))),
     Store(FilterBits, Bits(ToBits(p.meta.filters))), Store(Opacity, Real(Clamp(p.meta.opacity))),
     Store(Visible, Num(if p.meta.visible then 1 else 0)),
     Store(DisplayWidth, Num(p.meta.displayWidth)), Store(DisplayHeight, Num(p.meta.displayHeight))]
  }

  function PayloadStores(bytes: seq<nat>): seq<Store<Cell, Word>>
    requires forall i :: 0 <= i < |bytes| ==> bytes[i] < 256
  {
    seq(|bytes|, i requires 0 <= i < |bytes| => Store(Payload(i), Num(bytes[i])))
  }

  ghost function PublishStores(p: Publication): seq<Store<Cell, Word>>
    requires PublishError(p).None?
  {
    HeaderStores(p) + PayloadStores(Raster(p))
  }

  /** The frame a publication stands for: display size raised to the raster size, opacity in range. */
  ghost function ViewOf(p: Publication): View {
    View(p.width, p.height, Max(p.meta.displayWidth, p.width), Max(p.meta.displayHeight, p.height),
         p.meta.displayMode, p.meta.inputMode, p.meta.filters, Clamp(p.meta.opacity), p.meta.visible, Raster(p))
  }

  // ----- the reader

  predicate HasNum(copy: Memory, c: Cell) {
    c in copy && copy[c].Num?
  }

  predicate HeaderCopied(copy: Memory) {
    && HasNum(copy, Width) && HasNum(copy, Height) && HasNum(copy, PayloadBytes) && HasNum(copy, Mode)
    && HasNum(copy, Input) && FilterBits in copy && copy[FilterBits].Bits? && Opacity in copy && copy[Opacity].Real?
    && HasNum(copy, Visible) && HasNum(copy, DisplayWidth) && HasNum(copy, DisplayHeight)
  }

  predicate PayloadCopied(copy: Memory, length: nat) {
    forall i: nat {:trigger Payload(i)} :: i < length ==> HasNum(copy, Payload(i))
  }

  function PayloadOf(copy: Memory, length: nat): seq<nat>
    requires PayloadCopied(copy, length)
  {
    seq(length, i requires 0 <= i < length => copy[Payload(i)].n)
  }

  /** The reader's checks on its copied cells, in its order; None also for a copy it never completed. */
  function Decode(copy: Memory): Option<View> {
    if !HeaderCopied(copy) then None else
    var width, height, bytes := copy[Width].n, copy[Height].n, copy[PayloadBytes].n;
    var mode, input := ModeFromRaw(copy[Mode].n), InputFromRaw(copy[Input].n);
    var pixels := CheckedPixelCount(width, height);
    if mode.None? || input.None? || pixels.None? then None
    else if bytes != BYTES_PER_PIXEL * pixels.value || bytes > MAX_PAYLOAD_BYTES then None
    else if !PayloadCopied(copy, bytes) then None
    else Some(View(width, height, Max(copy[DisplayWidth].n, width), Max(copy[DisplayHeight].n, height),
                   mode.value, input.value, FromBits(copy[FilterBits].bits), Clamp(copy[Opacity].r),
                   copy[Visible].n != 0, PayloadOf(copy, bytes)))
  }

  lemma DecodeOfPart(copy: Memory, memory: Memory)
    requires Agrees(copy, memory) && Decode(copy).Some?
    ensures Decode(memory) == Decode(copy)
  {
    var bytes := copy[PayloadBytes].n;
    forall i: nat | i < bytes
      ensures HasNum(memory, Payload(i)) && memory[Payload(i)] == copy[Payload(i)]
    {
      assert HasNum(copy, Payload(i));
    }
    assert PayloadCopied(memory, bytes);
    assert PayloadOf(memory, bytes) == PayloadOf(copy, bytes);
  }

  // ----- what a complete call leaves in the region

  ghost predicate HoldsHeader(memory: Memory, p: Publication)
    requires PublishError(p).None?
  {
    forall i :: 0 <= i < 10 ==> HeaderStores(p)[i].cell in memory
                                && memory[HeaderStores(p)[i].cell] == HeaderStores(p)[i].value
  }

  ghost predicate HoldsPayload(memory: Memory, bytes: seq<nat>)
  {
    forall i: nat {:trigger Payload(i)} :: i < |bytes| ==>
      HasNum(memory, Payload(i)) && memory[Payload(i)].n == bytes[i]
  }

  lemma HeaderFields(memory: Memory, p: Publication)
    requires PublishError(p).None? && HoldsHeader(memory, p)
    ensures && HeaderCopied(memory)
            && memory[Width].n == p.width && memory[Height].n == p.height
            && memory[PayloadBytes].n == BYTES_PER_PIXEL * |p.pixels|
            && memory[Mode].n == RawMode(p.meta.displayMode) && memory[Input].n == RawInput(p.meta.inputMode)
            && memory[FilterBits].bits == ToBits(p.meta.filters) && memory[Opacity].r == Clamp(p.meta.opacity)
            && (memory[Visible].n != 0) == p.meta.visible
            && memory[DisplayWidth].n == p.meta.displayWidth && memory[DisplayHeight].n == p.meta.displayHeight
  {
    var h := HeaderStores(p);
    assert h[0].cell == Width && h[1].cell == Height && h[2].cell == PayloadBytes && h[3].cell == Mode;
    assert h[4].cell == Input && h[5].cell == FilterBits && h[6].cell == Opacity && h[7].cell == Visible;
    assert h[8].cell == DisplayWidth && h[9].cell == DisplayHeight;
  }

  lemma HeaderSurvives(memory: Memory, p: Publication)
    requires PublishError(p).None?
    ensures HoldsHeader(ApplyStores(ApplyStores(memory, HeaderStores(p)), PayloadStores(Raster(p))), p)
  {
    var header, payload := HeaderStores(p), PayloadStores(Raster(p));
    var between := ApplyStores(memory, header);
    DistinctStores(memory, header);
    DistinctStores(between, payload);
    var after := ApplyStores(between, payload);
    forall i | 0 <= i < 10
      ensures header[i].cell in after && after[header[i].cell] == header[i].value
    {
      assert forall k :: 0 <= k < |payload| ==> payload[k].cell != header[i].cell;
    }
  }

  lemma PayloadStored(memory: Memory, bytes: seq<nat>)
    requires forall i :: 0 <= i < |bytes| ==> bytes[i] < 256
    ensures HoldsPayload(ApplyStores(memory, PayloadStores(bytes)), bytes)
  {
    var payload := PayloadStores(bytes);
    DistinctStores(memory, payload);
    var after := ApplyStores(memory, payload);
    forall i: nat | i < |bytes|
      ensures HasNum(after, Payload(i)) && after[Payload(i)].n == bytes[i]
    {
      assert payload[i].cell == Payload(i);
    }
  }

  lemma PublishedCells(memory: Memory, p: Publication)
    requires PublishError(p).None?
    ensures HoldsHeader(ApplyStores(memory, PublishStores(p)), p)
    ensures HoldsPayload(ApplyStores(memory, PublishStores(p)), Raster(p))
  {
    ApplyStoresConcat(memory, HeaderStores(p), PayloadStores(Raster(p)));
    HeaderSurvives(memory, p);
    PayloadStored(ApplyStores(memory, HeaderStores(p)), Raster(p));
  }

  lemma PayloadReadsBack(memory: Memory, bytes: seq<nat>)
    requires HoldsPayload(memory, bytes)
    ensures PayloadCopied(memory, |bytes|) && PayloadOf(memory, |bytes|) == bytes
  {
  }

  /** Whatever the region held, a finished publication reads back as its view. */
  lemma PublicationReadsBack(memory: Memory, p: Publication)
    requires PublishError(p).None?
    ensures Decode(ApplyStores(memory, PublishStores(p))) == Some(ViewOf(p))
  {
    var after := ApplyStores(memory, PublishStores(p));
    PublishedCells(memory, p);
    HeaderFields(after, p);
    FilterBitsRoundTrip(p.meta.filters);
    PayloadReadsBack(after, Raster(p));
  }

  function WithVisible(view: Option<View>, visible: bool): Option<View> {
    if view.None? then None else Some(view.value.(visible := visible))
  }

  function VisibleStore(visible: bool): Store<Cell, Word> {
    Store(Visible, Num(if visible then 1 else 0))
  }

  /** A visibility store changes the visibility of the current frame and nothing else. */
  lemma VisibilityReadsBack(memory: Memory, visible: bool)
    requires HasNum(memory, Visible)
    ensures Decode(memory[Visible := VisibleStore(visible).value]) == WithVisible(Decode(memory), visible)
  {
    var after := memory[Visible := VisibleStore(visible).value];
    if HeaderCopied(memory) {
      var bytes := memory[PayloadBytes].n;
      assert forall i: nat {:trigger Payload(i)} :: HasNum(after, Payload(i)) == HasNum(memory, Payload(i));
      assert PayloadCopied(after, bytes) == PayloadCopied(memory, bytes);
      if PayloadCopied(memory, bytes) {
        assert PayloadOf(after, bytes) == PayloadOf(memory, bytes);
      }
    }
  }

  // ----- the bridge: writer calls and shared-memory steps in any interleaving

  /** `meant` records, for each sequence number, the frame its call stands for. */
  datatype Bridge = Bridge(lock: State<Cell, Word>, meant: map<nat, Option<View>>)

  datatype BridgeStep = Publish(p: Publication) | SetVisible(visible: bool) | Shared(step: Step<Cell, Word>)

  predicate BridgeEnabled(b: Bridge, step: BridgeStep) {
    match step
    case Publish(_) => b.lock.writer.Idle?
    case SetVisible(_) => b.lock.writer.Idle? && HasNum(b.lock.memory, Visible)
    case Shared(s) => !s.BeginWrite? && Enabled(b.lock, s)
  }

  ghost function Meant(b: Bridge): Option<View> {
    if b.lock.sequence in b.meant then b.meant[b.lock.sequence] else None
  }

  ghost function ApplyBridge(b: Bridge, step: BridgeStep): Bridge
    requires BridgeEnabled(b, step)
  {
    match step
    case Publish(p) =>
      if PublishError(p).Some? then b
      else Bridge(Apply(b.lock, BeginWrite(PublishStores(p), true)),
                  b.meant[NextPublished(b.lock.sequence) := Some(ViewOf(p))])
    case SetVisible(visible) =>
      if b.lock.memory[Visible] == VisibleStore(visible).value then b
      else Bridge(Apply(b.lock, BeginWrite([VisibleStore(visible)], true)),
                  b.meant[NextPublished(b.lock.sequence) := WithVisible(Meant(b), visible)])
    case Shared(s) => b.(lock := Apply(b.lock, s))
  }

  /** The header just after a writer has initialised it: even number, empty frame. */
  ghost predicate Fresh(b: Bridge) {
    && Initial(b.lock) && HeaderCopied(b.lock.memory) && b.lock.memory[Width].n == 0
    && b.meant == map[b.lock.sequence := None]
  }

  ghost predicate BridgeInv(b: Bridge) {
    && Inv(b.lock) && Unbroken(b.lock)
    && HasNum(b.lock.memory, Visible)
    && (forall n :: n in b.lock.published ==> n in b.meant && Decode(b.lock.published[n]) == b.meant[n])
    && (b.lock.writer.Storing? ==>
          && b.lock.sequence + 1 in b.meant
          && Decode(ApplyStores(b.lock.memory, b.lock.writer.todo)) == b.meant[b.lock.sequence + 1]
          && NumericVisibility(b.lock.writer.todo))
  }

  ghost predicate NumericVisibility(todo: seq<Store<Cell, Word>>) {
    forall i :: 0 <= i < |todo| && todo[i].cell == Visible ==> todo[i].value.Num?
  }

  lemma FreshHasInv(b: Bridge)
    requires Fresh(b)
    ensures BridgeInv(b)
  {
  }

  lemma VisibleStoresAreNumbers(p: Publication)
    requires PublishError(p).None?
    ensures NumericVisibility(PublishStores(p))
  {
    var todo := PublishStores(p);
    forall i | 0 <= i < |todo| && todo[i].cell == Visible
      ensures todo[i].value.Num?
    {
      if i < 10 { assert todo[i] == HeaderStores(p)[i]; }
    }
  }

  lemma BegunCallKeepsInv(b: Bridge, todo: seq<Store<Cell, Word>>, view: Option<View>, c: Bridge)
    requires BridgeInv(b) && b.lock.writer.Idle? && NumericVisibility(todo)
    requires Decode(ApplyStores(b.lock.memory, todo)) == view
    requires c == Bridge(Apply(b.lock, BeginWrite(todo, true)), b.meant[NextPublished(b.lock.sequence) := view])
    ensures BridgeInv(c)
  {
    StepKeepsInv(b.lock, BeginWrite(todo, true));
  }

  lemma PublishKeepsInv(b: Bridge, p: Publication)
    requires BridgeInv(b) && BridgeEnabled(b, Publish(p))
    ensures BridgeInv(ApplyBridge(b, Publish(p)))
  {
    if PublishError(p).None? {
      PublicationReadsBack(b.lock.memory, p);
      VisibleStoresAreNumbers(p);
      BegunCallKeepsInv(b, PublishStores(p), Some(ViewOf(p)), ApplyBridge(b, Publish(p)));
    }
  }

  lemma SetVisibleKeepsInv(b: Bridge, visible: bool)
    requires BridgeInv(b) && BridgeEnabled(b, SetVisible(visible))
    ensures BridgeInv(ApplyBridge(b, SetVisible(visible)))
  {
    var todo := [VisibleStore(visible)];
    VisibilityReadsBack(b.lock.memory, visible);
    assert todo[1..] == [];
    assert ApplyStores(b.lock.memory, todo) == b.lock.memory[Visible := VisibleStore(visible).value];
    if b.lock.memory[Visible] != VisibleStore(visible).value {
      BegunCallKeepsInv(b, todo, WithVisible(Meant(b), visible), ApplyBridge(b, SetVisible(visible)));
    }
  }

  lemma SharedKeepsInv(b: Bridge, s: Step<Cell, Word>)
    requires BridgeInv(b) && BridgeEnabled(b, Shared(s))
    ensures BridgeInv(ApplyBridge(b, Shared(s)))
  {
    StepKeepsInv(b.lock, s);
    if s.EndWrite? {
      assert ApplyStores(b.lock.memory, b.lock.writer.todo) == b.lock.memory;
    }
  }

  lemma BridgeStepKeepsInv(b: Bridge, step: BridgeStep)
    requires BridgeInv(b) && BridgeEnabled(b, step)
    ensures BridgeInv(ApplyBridge(b, step))
  {
    match step
    case Publish(p) => PublishKeepsInv(b, p);
    case SetVisible(visible) => SetVisibleKeepsInv(b, visible);
    case Shared(s) => SharedKeepsInv(b, s);
  }

  ghost predicate BridgeRuns(b: Bridge, steps: seq<BridgeStep>, c: Bridge)
    decreases |steps|
  {
    if steps == [] then b == c
    else BridgeEnabled(b, steps[0]) && BridgeRuns(ApplyBridge(b, steps[0]), steps[1..], c)
  }

  lemma {:induction false} BridgeRunKeepsInv(b: Bridge, steps: seq<BridgeStep>, c: Bridge)
    requires BridgeInv(b) && BridgeRuns(b, steps, c)
    ensures BridgeInv(c)
    decreases |steps|
  {
    if steps != [] {
      BridgeStepKeepsInv(b, steps[0]);
      BridgeRunKeepsInv(ApplyBridge(b, steps[0]), steps[1..], c);
    }
  }

  /** Over every interleaving, a frame the reader accepts is, in all its metadata and every
      byte, the frame one single call stands for under that sequence number. */
  lemma AcceptedFramesWerePublished(b: Bridge, steps: seq<BridgeStep>, c: Bridge, a: Accepted<Cell, Word>)
    requires Fresh(b) && BridgeRuns(b, steps, c) && a in c.lock.accepted && Decode(a.copy).Some?
    ensures a.sequence in c.meant && c.meant[a.sequence] == Decode(a.copy)
  {
    FreshHasInv(b);
    BridgeRunKeepsInv(b, steps, c);
    var i :| 0 <= i < |c.lock.accepted| && c.lock.accepted[i] == a;
    DecodeOfPart(a.copy, c.lock.published[a.sequence]);
  }

  /** Same frame up to visibility. */
  predicate SameFrame(v: View, w: View) {
    v == w.(visible := v.visible)
  }

  ghost predicate FromCalls(steps: seq<BridgeStep>, v: View) {
    exists i :: 0 <= i < |steps| && steps[i].Publish? && PublishError(steps[i].p).None?
                && SameFrame(v, ViewOf(steps[i].p))
  }

  /** Every frame on record stems from one accepted publish call of the run. */
  lemma {:induction false} MeantComesFromCalls(b: Bridge, before: seq<BridgeStep>, steps: seq<BridgeStep>, c: Bridge)
    requires BridgeRuns(b, steps, c)
    requires forall n :: n in b.meant && b.meant[n].Some? ==> FromCalls(before, b.meant[n].value)
    ensures forall n :: n in c.meant && c.meant[n].Some? ==> FromCalls(before + steps, c.meant[n].value)
    decreases |steps|
  {
    if steps == [] {
      assert before + steps == before;
    } else {
      var next := ApplyBridge(b, steps[0]);
      forall n | n in next.meant && next.meant[n].Some?
        ensures FromCalls(before + [steps[0]], next.meant[n].value)
      {
        var v := next.meant[n].value;
        if n in b.meant && b.meant[n] == next.meant[n] {
          var i :| 0 <= i < |before| && before[i].Publish? && PublishError(before[i].p).None?
                   && SameFrame(v, ViewOf(before[i].p));
          assert (before + [steps[0]])[i] == before[i];
        } else if steps[0].Publish? {
          assert (before + [steps[0]])[|before|] == steps[0];
        } else {
          var shown := Meant(b).value;
          var i :| 0 <= i < |before| && before[i].Publish? && PublishError(before[i].p).None?
                   && SameFrame(shown, ViewOf(before[i].p));
          assert (before + [steps[0]])[i] == before[i];
        }
      }
      assert before + steps == before + [steps[0]] + steps[1..];
      MeantComesFromCalls(next, before + [steps[0]], steps[1..], c);
    }
  }

  /** Consequence over whole runs: no accepted frame mixes two publish calls. */
  lemma AcceptedFramesAreWhole(b: Bridge, steps: seq<BridgeStep>, c: Bridge, a: Accepted<Cell, Word>)
    requires Fresh(b) && BridgeRuns(b, steps, c) && a in c.lock.accepted && Decode(a.copy).Some?
    ensures FromCalls(steps, Decode(a.copy).value)
  {
    AcceptedFramesWerePublished(b, steps, c, a);
    MeantComesFromCalls(b, [], steps, c);
    assert [] + steps == steps;
  }

  /** The shared-memory steps a bridge run performs. */
  ghost function LockSteps(b: Bridge, steps: seq<BridgeStep>): seq<Step<Cell, Word>>
    decreases |steps|
  {
    if steps == [] || !BridgeEnabled(b, steps[0]) then []
    else
      var rest := LockSteps(ApplyBridge(b, steps[0]), steps[1..]);
      match steps[0]
      case Publish(p) => if PublishError(p).Some? then rest else [BeginWrite(PublishStores(p), true)] + rest
      case SetVisible(visible) =>
        if b.lock.memory[Visible] == VisibleStore(visible).value then rest
        else [BeginWrite([VisibleStore(visible)], true)] + rest
      case Shared(s) => [s] + rest
  }

  lemma {:induction false} BridgeRunIsLockRun(b: Bridge, steps: seq<BridgeStep>, c: Bridge)
    requires BridgeRuns(b, steps, c)
    ensures Runs(b.lock, LockSteps(b, steps), c.lock)
    ensures forall call :: call in CallsOf(LockSteps(b, steps)) ==> call.completes
    decreases |steps|
  {
    if steps != [] {
      BridgeRunIsLockRun(ApplyBridge(b, steps[0]), steps[1..], c);
      var rest, all := LockSteps(ApplyBridge(b, steps[0]), steps[1..]), LockSteps(b, steps);
      assert all == rest || (all != [] && all[1..] == rest && (all[0].BeginWrite? ==> all[0].completes));
    }
  }

  /** A reader that passes back its last sequence number never sees an older or repeated frame. */
  lemma AcceptedFramesIncrease(b: Bridge, steps: seq<BridgeStep>, c: Bridge)
    requires Fresh(b) && BridgeRuns(b, steps, c) && PassesBack(b.lock, LockSteps(b, steps))
    ensures forall i, j :: 0 <= i < j < |c.lock.accepted| ==> c.lock.accepted[i].sequence < c.lock.accepted[j].sequence
  {
    FreshHasInv(b);
    BridgeRunIsLockRun(b, steps, c);
    AcceptedIncrease(b.lock, LockSteps(b, steps), c.lock);
  }

  function Lifted(steps: seq<Step<Cell, Word>>): (r: seq<BridgeStep>)
    ensures |r| == |steps|
  {
    seq(|steps|, i requires 0 <= i < |steps| => Shared(steps[i]))
  }

  lemma {:induction false} ReadsLift(b: Bridge, steps: seq<Step<Cell, Word>>, t: State<Cell, Word>)
    requires Runs(b.lock, steps, t) && OnlyReads(steps)
    ensures BridgeRuns(b, Lifted(steps), b.(lock := t))
    decreases |steps|
  {
    if steps != [] {
      assert steps[0].BeginRead? || steps[0].Load? || steps[0].EndRead?;
      assert Lifted(steps)[1..] == Lifted(steps[1..]);
      ReadsLift(b.(lock := Apply(b.lock, steps[0])), steps[1..], t);
    }
  }

  /** Nothing that was published is lost on the reader: between two calls, a reader that has not
      seen the current number can accept exactly the frame that number stands for. */
  lemma CurrentFrameIsReadable(b: Bridge, last: nat)
    returns (steps: seq<BridgeStep>, c: Bridge, a: Accepted<Cell, Word>)
    requires BridgeInv(b) && b.lock.writer.Idle? && b.lock.reader.Waiting? && b.lock.sequence != 0
             && b.lock.sequence != last
    ensures BridgeRuns(b, steps, c) && c.lock.accepted == b.lock.accepted + [a]
    ensures a.sequence == b.lock.sequence && a.sequence in b.meant && Decode(a.copy) == b.meant[a.sequence]
  {
    var taken, t := QuietReadAccepts(b.lock, last, b.lock.memory.Keys);
    assert Part(b.lock.memory, b.lock.memory.Keys) == b.lock.memory;
    ReadsLift(b, taken, t);
    steps, c, a := Lifted(taken), b.(lock := t), Accepted.Accepted(b.lock.sequence, b.lock.memory);
  }
}
