/** What a published frame looks like to its reader, bit by bit and in plain numbers. */
module FrameFormat {
  import opened Basics
  import opened SeqLock
  import opened FrameBridge
  import opened FrameRegion

  /** Which publications are refused. */
  lemma RefusedPublications(p: Publication)
    ensures PublishError(p) == Some(InvalidDimensions) <==>
            p.width == 0 || p.height == 0 || p.width * p.height > 1_048_576
            || p.meta.displayWidth == 0 || p.meta.displayHeight == 0
    ensures PublishError(p) == Some(PixelCountMismatch) <==>
            && p.width != 0 && p.height != 0 && p.width * p.height <= 1_048_576
            && p.meta.displayWidth != 0 && p.meta.displayHeight != 0
            && |p.pixels| != p.width * p.height
    ensures PublishError(p).None? ==> |p.pixels| == p.width * p.height
  {
  }

  ghost predicate Published(memory: Memory, p: Publication, view: View)
    requires PublishError(p).None?
  {
    Decode(ApplyStores(memory, PublishStores(p))) == Some(view)
  }

  /** The metadata of the frame a reader gets. */
  lemma MetadataReadsBack(memory: Memory, p: Publication, view: View)
    requires PublishError(p).None? && Published(memory, p, view)
    ensures view.width == p.width && view.height == p.height
    ensures view.displayWidth >= p.width && view.displayWidth >= p.meta.displayWidth
    ensures view.displayWidth == p.width || view.displayWidth == p.meta.displayWidth
    ensures view.displayHeight >= p.height && view.displayHeight >= p.meta.displayHeight
    ensures view.displayHeight == p.height || view.displayHeight == p.meta.displayHeight
    ensures view.displayMode == p.meta.displayMode && view.inputMode == p.meta.inputMode
    ensures view.filters == p.meta.filters && view.visible == p.meta.visible
    ensures 0.2 <= p.meta.opacity <= 1.0 ==> view.opacity == p.meta.opacity
    ensures p.meta.opacity < 0.2 ==> view.opacity == 0.2
    ensures p.meta.opacity > 1.0 ==> view.opacity == 1.0
  {
    PublicationReadsBack(memory, p);
  }

  /** The colours of the frame a reader gets: red, green, blue and alpha of every pixel. */
  lemma ColoursReadBack(memory: Memory, p: Publication, view: View, k: nat, red: byte, green: byte, blue: byte)
    requires PublishError(p).None? && Published(memory, p, view)
    requires k < |p.pixels| && p.pixels[k] % 16_777_216 == red * 65_536 + green * 256 + blue
    ensures |view.rgba| == 4 * |p.pixels|
    ensures view.rgba[4 * k] == red && view.rgba[4 * k + 1] == green && view.rgba[4 * k + 2] == blue
    ensures p.meta.displayMode == ExpandedMap ==> view.rgba[4 * k + 3] == 255
    ensures p.meta.displayMode == MiniMap ==> view.rgba[4 * k + 3] == EdgeAlpha(k, p.width, p.height)
  {
    PublicationReadsBack(memory, p);
    assert view.rgba == Raster(p);
    ColourBytes(p.pixels[k], red, green, blue);
    assert (4 * k) / 4 == k && (4 * k + 1) / 4 == k && (4 * k + 2) / 4 == k && (4 * k + 3) / 4 == k;
    assert (4 * k) % 4 == 0 && (4 * k + 1) % 4 == 1 && (4 * k + 2) % 4 == 2 && (4 * k + 3) % 4 == 3;
  }

  lemma ColourBytes(word: u32, red: byte, green: byte, blue: byte)
    requires word % 16_777_216 == red * 65_536 + green * 256 + blue
    ensures word / 65_536 % 256 == red && word / 256 % 256 == green && word % 256 == blue
  {
    var high := word / 16_777_216;
    assert word == high * 16_777_216 + red * 65_536 + green * 256 + blue;
    assert word / 65_536 == high * 256 + red;
    assert word / 256 == (high * 256 + red) * 256 + green;
  }

  /** Showing or hiding changes that one thing about a frame. */
  lemma VisibilityReadsBackAs(memory: Memory, show: bool, before: View, after: View)
    requires HasNum(memory, Visible) && Decode(memory) == Some(before)
    requires Decode(ApplyStores(memory, [VisibleStore(show)])) == Some(after)
    ensures after.visible == show && SameFrame(after, before) && after.rgba == before.rgba
  {
    assert [VisibleStore(show)][1..] == [];
    VisibilityReadsBack(memory, show);
  }

  /** Which regions a reader takes for a frame, and what it reads from their header. */
  lemma RegionReadsAs(h: SharedHeader, bytes: seq<byte>)
    requires |bytes| == 4_194_304
    ensures Decode(RegionOf(h, bytes)).Some? <==>
            && h.width != 0 && h.height != 0 && h.width * h.height <= 1_048_576
            && h.payloadBytes == 4 * h.width * h.height && h.mode <= 1 && h.input <= 1
    ensures Decode(RegionOf(h, bytes)).Some? ==>
              var v := Decode(RegionOf(h, bytes)).value;
              && v.width == h.width && v.height == h.height && v.rgba == bytes[..h.payloadBytes]
              && (v.displayMode == MiniMap <==> h.mode == 0) && (v.inputMode == Locked <==> h.input == 0)
              && (v.visible <==> h.visible != 0)
              && v.displayWidth == (if h.displayWidth < h.width then h.width else h.displayWidth)
              && v.displayHeight == (if h.displayHeight < h.height then h.height else h.displayHeight)
              && 0.2 <= v.opacity <= 1.0 && (0.2 <= h.opacity <= 1.0 ==> v.opacity == h.opacity)
  {
    RegionDecodes(h, bytes);
  }

  /** The number a call publishes: two more than an even one, one more than an odd one. */
  lemma NextNumber(n: nat)
    ensures NextPublished(n) == if n % 2 == 0 then n + 2 else n + 1
  {
  }

  /** Each filter has its own bit. */
  lemma FilterBits(bits: bv32)
    ensures var f := FromBits(bits);
            && (f.fastTravel <==> bits & 0x01 != 0) && (f.boss <==> bits & 0x02 != 0)
            && (f.wanted <==> bits & 0x04 != 0) && (f.dungeon <==> bits & 0x08 != 0)
            && (f.tower <==> bits & 0x10 != 0) && (f.egg <==> bits & 0x20 != 0)
            && (f.resources <==> bits & 0x40 != 0) && (f.salvage <==> bits & 0x80 != 0)
  {
  }
}
