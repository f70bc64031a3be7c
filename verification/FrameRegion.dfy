/** The shared region as one process sees it: the header fields and the payload buffer, with the
    writer's and the reader's calls run from start to end. */
module FrameRegion {
  import opened Basics
  import opened SeqLock
  import opened FrameBridge

  const DEFAULT_FILTERS := PoiFilters(true, true, false, true, true, false, false, false)

  datatype SharedHeader = SharedHeader(
    width: u32, height: u32, payloadBytes: u32, mode: u32, input: u32, filterBits: bv32,
    opacity: real, visible: u32, displayWidth: u32, displayHeight: u32)

  // ----- the region as the cells of the protocol

  ghost function Cells(n: nat): set<Cell> {
    {Width, Height, PayloadBytes, Mode, Input, FilterBits, Opacity, Visible, DisplayWidth, DisplayHeight}
    + set i | 0 <= i < n :: Payload(i)
  }

  function WordAt(h: SharedHeader, bytes: seq<byte>, c: Cell): Word
    requires c.Payload? ==> c.index < |bytes|
  {
    match c
    case Width => Num(h.width)
    case Height => Num(h.height)
    case PayloadBytes => Num(h.payloadBytes)
    case Mode => Num(h.mode)
    case Input => Num(h.input)
    case FilterBits => Bits(h.filterBits)
    case Opacity => Real(h.opacity)
    case Visible => Num(h.visible)
    case DisplayWidth => Num(h.displayWidth)
    case DisplayHeight => Num(h.displayHeight)
    case Payload(i) => Num(bytes[i])
  }

  ghost function RegionOf(h: SharedHeader, bytes: seq<byte>): Memory {
    map c | c in Cells(|bytes|) :: WordAt(h, bytes, c)
  }

  function HeaderFor(p: Publication): SharedHeader
    requires PublishError(p).None?
  {
    SharedHeader(p.width, p.height, BYTES_PER_PIXEL * |p.pixels|,
                 RawMode(p.meta.displayMode), RawInput(p.meta.inputMode), ToBits(p.meta.filters),
                 Clamp(p.meta.opacity), if p.meta.visible then 1 else 0,
                 p.meta.displayWidth, p.meta.displayHeight)
  }

  /** Position of a header cell among the stores of a publication. */
  function Slot(c: Cell): nat
    requires !c.Payload?
  {
    match c
    case Width => 0
    case Height => 1
    case PayloadBytes => 2
    case Mode => 3
    case Input => 4
    case FilterBits => 5
    case Opacity => 6
    case Visible => 7
    case DisplayWidth => 8
    case DisplayHeight => 9
  }

  lemma HeaderSlot(p: Publication, c: Cell)
    requires PublishError(p).None? && !c.Payload?
    ensures Slot(c) < |HeaderStores(p)| && HeaderStores(p)[Slot(c)] == Store(c, WordAt(HeaderFor(p), [], c))
  {
  }

  lemma HeaderCellsDiffer(p: Publication)
    requires PublishError(p).None?
    ensures forall i :: 0 <= i < |HeaderStores(p)| ==>
              !HeaderStores(p)[i].cell.Payload? && Slot(HeaderStores(p)[i].cell) == i
  {
  }

  /** The cells of both memories are the same, with the same words. */
  ghost predicate SameAt(a: Memory, b: Memory, c: Cell) {
    (c in a <==> c in b) && (c in a && c in b ==> a[c] == b[c])
  }

  lemma SameEverywhere(a: Memory, b: Memory)
    requires forall c: Cell :: SameAt(a, b, c)
    ensures a == b
  {
    forall c: Cell
      ensures c in a.Keys <==> c in b.Keys
      ensures c in a ==> c in b && a[c] == b[c]
    {
      assert SameAt(a, b, c);
    }
  }

  lemma StoreAt(memory: Memory, todo: seq<Store<Cell, Word>>, i: nat)
    requires i < |todo| && forall i, j :: 0 <= i < j < |todo| ==> todo[i].cell != todo[j].cell
    ensures todo[i].cell in ApplyStores(memory, todo) && ApplyStores(memory, todo)[todo[i].cell] == todo[i].value
  {
    DistinctStores(memory, todo);
  }

  lemma StoreElsewhere(memory: Memory, todo: seq<Store<Cell, Word>>, c: Cell)
    requires forall i, j :: 0 <= i < j < |todo| ==> todo[i].cell != todo[j].cell
    requires forall i :: 0 <= i < |todo| ==> todo[i].cell != c
    ensures SameAt(ApplyStores(memory, todo), memory, c)
  {
    DistinctStores(memory, todo);
  }

  lemma HeaderReplaced(h: SharedHeader, bytes: seq<byte>, p: Publication)
    requires PublishError(p).None?
    ensures ApplyStores(RegionOf(h, bytes), HeaderStores(p)) == RegionOf(HeaderFor(p), bytes)
  {
    var todo, before, after := HeaderStores(p), RegionOf(h, bytes), RegionOf(HeaderFor(p), bytes);
    HeaderCellsDiffer(p);
    forall c: Cell
      ensures SameAt(ApplyStores(before, todo), after, c)
    {
      if c.Payload? {
        StoreElsewhere(before, todo, c);
      } else {
        HeaderSlot(p, c);
        StoreAt(before, todo, Slot(c));
      }
    }
    SameEverywhere(ApplyStores(before, todo), after);
  }

  lemma PayloadReplaced(h: SharedHeader, bytes: seq<byte>, raster: seq<byte>)
    requires |raster| <= |bytes|
    ensures ApplyStores(RegionOf(h, bytes), PayloadStores(raster)) == RegionOf(h, raster + bytes[|raster|..])
  {
    var todo, before, after := PayloadStores(raster), RegionOf(h, bytes), RegionOf(h, raster + bytes[|raster|..]);
    forall c: Cell
      ensures SameAt(ApplyStores(before, todo), after, c)
    {
      if c.Payload? && c.index < |raster| {
        StoreAt(before, todo, c.index);
      } else {
        StoreElsewhere(before, todo, c);
      }
    }
    SameEverywhere(ApplyStores(before, todo), after);
  }

  /** Replacing the header and the front of the payload is what the stores of a publication do. */
  lemma PublicationReplaces(h: SharedHeader, bytes: seq<byte>, p: Publication, after: seq<byte>)
    requires PublishError(p).None? && |Raster(p)| <= |bytes|
    requires after == Raster(p) + bytes[|Raster(p)|..]
    ensures RegionOf(HeaderFor(p), after) == ApplyStores(RegionOf(h, bytes), PublishStores(p))
    ensures Decode(RegionOf(HeaderFor(p), after)) == Some(ViewOf(p))
  {
    ApplyStoresConcat(RegionOf(h, bytes), HeaderStores(p), PayloadStores(Raster(p)));
    HeaderReplaced(h, bytes, p);
    PayloadReplaced(HeaderFor(p), bytes, Raster(p));
    PublicationReadsBack(RegionOf(h, bytes), p);
  }

  lemma VisibilityReplaced(h: SharedHeader, bytes: seq<byte>, show: bool)
    ensures var shown := h.(visible := if show then 1 else 0);
            && RegionOf(shown, bytes) == ApplyStores(RegionOf(h, bytes), [VisibleStore(show)])
            && Decode(RegionOf(shown, bytes)) == WithVisible(Decode(RegionOf(h, bytes)), show)
  {
    var before, store := RegionOf(h, bytes), VisibleStore(show);
    assert RegionOf(h.(visible := if show then 1 else 0), bytes) == before[Visible := store.value];
    assert ApplyStores(before, [store]) == before[Visible := store.value] by { assert [store][1..] == []; }
    VisibilityReadsBack(before, show);
  }

  lemma RegionDecodes(h: SharedHeader, bytes: seq<byte>)
    ensures var m := RegionOf(h, bytes);
            && HeaderCopied(m)
            && m[Width].n == h.width && m[Height].n == h.height && m[PayloadBytes].n == h.payloadBytes
            && m[Mode].n == h.mode && m[Input].n == h.input && m[FilterBits].bits == h.filterBits
            && m[Opacity].r == h.opacity && m[Visible].n == h.visible
            && m[DisplayWidth].n == h.displayWidth && m[DisplayHeight].n == h.displayHeight
            && forall n: nat :: n <= |bytes| ==> PayloadCopied(m, n) && PayloadOf(m, n) == bytes[..n]
  {
  }

  // ----- the calls

  class Region {
    var sequence: nat
    var header: SharedHeader
    var searchSequence: nat
    var searchCount: nat
    const payload: array<byte>

    /** A new mapping, all zero. */
    constructor ()
      ensures fresh(payload) && Sized() && sequence == 0
    {
      sequence, searchSequence, searchCount := 0, 0, 0;
      header := SharedHeader(0, 0, 0, 0, 0, 0, 0.0, 0, 0, 0);
      payload := new byte[MAX_PAYLOAD_BYTES](_ => 0);
    }

    ghost predicate Sized() {
      payload.Length == MAX_PAYLOAD_BYTES
    }

    ghost function Contents(): Memory
      reads this, payload
    {
      RegionOf(header, payload[..])
    }

    /** A starting writer leaves an even number, no frame and an empty catalogue under number
        zero, whatever an earlier one left. */
    method InitializeHeader()
      modifies this
      ensures sequence % 2 == 0 && sequence == NextPublished(old(sequence)) && sequence > old(sequence)
      ensures Decode(Contents()).None? && header.visible == 0
      ensures searchSequence == 0 && searchCount == 0
    {
      sequence := sequence + 1;
      header := header.(width := 0, height := 0, payloadBytes := 0);
      header := header.(filterBits := ToBits(DEFAULT_FILTERS), input := RawInput(Locked));
      searchSequence, searchCount := 0, 0;
      header := header.(displayWidth := 0, displayHeight := 0);
      header := header.(visible := 0);
      sequence := WithLowBitCleared(sequence + 1);
      RegionDecodes(header, payload[..]);
    }

    /** Stores one frame. The smoothed edge of the round map comes in as `edge`. */
    method PublishRgb(p: Publication, edge: seq<byte>) returns (error: Option<BridgeError>)
      requires Sized()
      requires |edge| == |p.pixels| && forall i :: 0 <= i < |edge| ==> edge[i] == EdgeAlpha(i, p.width, p.height)
      modifies this, payload
      ensures error == PublishError(p)
      ensures error.Some? ==> sequence == old(sequence) && Contents() == old(Contents())
      ensures searchSequence == old(searchSequence) && searchCount == old(searchCount)
      ensures error.None? ==> sequence == NextPublished(old(sequence))
      ensures error.None? ==> Contents() == ApplyStores(old(Contents()), PublishStores(p))
      ensures error.None? ==> Decode(Contents()) == Some(ViewOf(p))
    {
      if CheckedPixelCount(p.width, p.height).None? || p.meta.displayWidth == 0 || p.meta.displayHeight == 0 {
        return Some(InvalidDimensions);
      }
      if |p.pixels| != CheckedPixelCount(p.width, p.height).value {
        return Some(PixelCountMismatch);
      }
      var odd := WithLowBitSet(sequence);
      sequence := sequence + 1;
      header := HeaderFor(p);
      ConvertPixels(p, edge);
      sequence := WithLowBitCleared(odd + 1);
      assert sequence == NextPublished(old(sequence));
      PublicationReplaces(old(header), old(payload[..]), p, payload[..]);
      return None;
    }

    /** Turns the colour words into bytes, four to a pixel. */
    method ConvertPixels(p: Publication, edge: seq<byte>)
      requires Sized() && PublishError(p).None?
      requires |edge| == |p.pixels| && forall i :: 0 <= i < |edge| ==> edge[i] == EdgeAlpha(i, p.width, p.height)
      modifies payload
      ensures |Raster(p)| <= payload.Length && payload[..] == Raster(p) + old(payload[..])[|Raster(p)|..]
    {
      for index := 0 to |p.pixels|
        invariant forall k :: 0 <= k < BYTES_PER_PIXEL * index ==> payload[k] == RasterByte(p, k)
        invariant forall k :: BYTES_PER_PIXEL * index <= k < payload.Length ==> payload[k] == old(payload[k])
      {
        ConvertPixel(p, edge[index], index);
      }
    }

    method ConvertPixel(p: Publication, smooth: byte, index: nat)
      requires index < |p.pixels| && BYTES_PER_PIXEL * |p.pixels| <= payload.Length
      requires smooth == EdgeAlpha(index, p.width, p.height)
      modifies payload
      ensures forall k :: BYTES_PER_PIXEL * index <= k < BYTES_PER_PIXEL * index + BYTES_PER_PIXEL ==>
                payload[k] == RasterByte(p, k)
      ensures forall k :: 0 <= k < payload.Length
                          && !(BYTES_PER_PIXEL * index <= k < BYTES_PER_PIXEL * index + BYTES_PER_PIXEL) ==>
                            payload[k] == old(payload[k])
    {
      var source, at := p.pixels[index], BYTES_PER_PIXEL * index;
      payload[at] := source / 65_536 % 256;
      payload[at + 1] := source / 256 % 256;
      payload[at + 2] := source % 256;
      payload[at + 3] := if p.meta.displayMode == ExpandedMap then 255 else smooth;
    }

    /** Republishes the current frame with another visibility, or does nothing. */
    method SetLogicalVisible(show: bool)
      modifies this
      ensures sequence == if old(header.visible) == VisibleStore(show).value.n
                          then old(sequence) else NextPublished(old(sequence))
      ensures Contents() == ApplyStores(old(Contents()), [VisibleStore(show)])
      ensures searchSequence == old(searchSequence) && searchCount == old(searchCount)
      ensures Decode(Contents()) == WithVisible(old(Decode(Contents())), show)
    {
      var value := if show then 1 else 0;
      VisibilityReplaced(header, payload[..], show);
      if header.visible == value {
        return;
      }
      var odd := WithLowBitSet(sequence);
      sequence := sequence + 1;
      header := header.(visible := value);
      sequence := WithLowBitCleared(odd + 1);
    }

    /** Reads the current frame unless the caller has it already or a write is under way. */
    method ReadLatest(last: nat) returns (frame: Option<(nat, View)>)
      requires Sized()
      ensures frame == if sequence == 0 || sequence % 2 == 1 || sequence == last || Decode(Contents()).None? then None
                       else Some((sequence, Decode(Contents()).value))
    {
      var before, h := sequence, header;
      if before == 0 || before % 2 == 1 || before == last {
        return None;
      }
      RegionDecodes(h, payload[..]);
      var displayMode, inputMode := ModeFromRaw(h.mode), InputFromRaw(h.input);
      if displayMode.None? || inputMode.None? {
        return None;
      }
      var pixels := CheckedPixelCount(h.width, h.height);
      if pixels.None? || h.payloadBytes != BYTES_PER_PIXEL * pixels.value || h.payloadBytes > MAX_PAYLOAD_BYTES {
        return None;
      }
      var rgba: seq<nat> := payload[..][..h.payloadBytes];
      var after := sequence;
      if before != after || after % 2 == 1 {
        return None;
      }
      return Some((after, View(h.width, h.height, Max(h.displayWidth, h.width), Max(h.displayHeight, h.height),
                               displayMode.value, inputMode.value, FromBits(h.filterBits), Clamp(h.opacity),
                               h.visible != 0, rgba)));
    }
  }
}
