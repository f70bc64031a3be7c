/** The records of the search catalogue in plain numbers, and which of them a reader takes. */
module CatalogFormat {
  import opened Basics
  import opened SeqLock
  import opened Utf8Prefix
  import opened SearchCatalog

  /** Bytes of a text, as stored words. */
  ghost predicate Spells(words: seq<nat>, text: Text) {
    |words| == |text| && forall i :: 0 <= i < |words| ==> words[i] == text[i]
  }

  lemma SpelledText(words: seq<nat>)
    ensures TextFrom(words).Some? ==> Spells(words, TextFrom(words).value)
    ensures TextFrom(words).None? ==> forall text: Text :: !Spells(words, text)
  {
    if text: Text :| Spells(words, text) {
      assert AsBytes(words) == text;
    }
  }

  /** Which records a reader takes and what it reads: a kind from one to three, a title of 1 to
      72 bytes, a subtitle of up to 72 bytes, both valid UTF-8. */
  lemma RecordReadsAs(image: Image)
    ensures DecodeImage(image).Some? <==>
            && 1 <= image[0] <= 3 && 1 <= image[1] <= 72 && image[2] <= 72
            && (exists title: Text :: Spells(image[3..][..image[1]], title))
            && (exists subtitle: Text :: Spells(image[75..][..image[2]], subtitle))
    ensures DecodeImage(image).Some? ==>
              var e := DecodeImage(image).value;
              && (e.kind == Pal <==> image[0] == 1) && (e.kind == Poi <==> image[0] == 2)
              && Spells(image[3..][..image[1]], e.title) && Spells(image[75..][..image[2]], e.subtitle)
  {
    if image[1] <= 72 && image[2] <= 72 {
      assert image[3..][72..] == image[75..];
      SpelledText(image[3..][..image[1]]);
      SpelledText(image[75..][..image[2]]);
    }
  }

  /** A record in plain numbers: kind, lengths and bytes. */
  lemma RecordWords(e: Entry)
    ensures var image, title, subtitle := ImageOf(e), Cut(e.title, 72), Cut(e.subtitle, 72);
            && (image[0] == 1 <==> e.kind == Pal) && (image[0] == 2 <==> e.kind == Poi)
            && (image[0] == 3 <==> e.kind == Resource) && image[1] == |title| && image[2] == |subtitle|
            && Spells(image[3..][..|title|], title) && Spells(image[75..][..|subtitle|], subtitle)
  {
  }

  /** A list of more than 2048 entries is refused before anything moves, any other begins. */
  lemma LongListsAreRefused(c: Catalog, entries: seq<Entry>)
    requires CatalogEnabled(c, Publish(entries))
    ensures |entries| > 2_048 ==> ApplyCatalog(c, Publish(entries)) == c
    ensures |entries| <= 2_048 ==> ApplyCatalog(c, Publish(entries)).lock.writer.Storing?
  {
  }

  /** A reader takes a catalogue with at most 2048 records, all of them complete. */
  lemma CatalogReadsAs(copy: Memory)
    ensures Decode(copy).Some? ==> Count in copy && copy[Count] <= 2_048 && |Decode(copy).value| == copy[Count]
    ensures Decode(copy).Some? ==>
              forall k :: 0 <= k < copy[Count] ==>
                            RecordCopied(copy, k) && DecodeImage(ImageAt(copy, k)) == Some(Decode(copy).value[k])
    ensures Count in copy && copy[Count] <= 2_048 && Decode(copy).None? ==>
              exists k :: 0 <= k < copy[Count] && !(RecordCopied(copy, k) && DecodeImage(ImageAt(copy, k)).Some?)
  {
    if Count in copy {
      RecordsReadAs(copy, copy[Count]);
    }
  }

  lemma {:induction false} RecordsReadAs(copy: Memory, n: nat)
    ensures DecodeRecords(copy, n).Some? ==>
              && |DecodeRecords(copy, n).value| == n
              && forall k :: 0 <= k < n ==>
                               RecordCopied(copy, k)
                               && DecodeImage(ImageAt(copy, k)) == Some(DecodeRecords(copy, n).value[k])
    ensures DecodeRecords(copy, n).None? ==>
              exists k :: 0 <= k < n && !(RecordCopied(copy, k) && DecodeImage(ImageAt(copy, k)).Some?)
  {
    if n > 0 {
      RecordsReadAs(copy, n - 1);
    }
  }
}
