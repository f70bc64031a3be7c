/** The bounded search catalogue published through the same protocol under its own number. */
module SearchCatalog {
  import opened Basics
  import opened SeqLock
  import opened Utf8Prefix

  const MAX_SEARCH_ENTRIES := 2_048
  const TEXT_BYTES := 72
  const HEADER_WORDS := 3
  const ENTRY_WORDS := HEADER_WORDS + 2 * TEXT_BYTES

  datatype Kind = Pal | Poi | Resource

  datatype Entry = Entry(kind: Kind, title: Text, subtitle: Text)

  /** The shared region word by word: a count, and for each record its kind, its two lengths
      and the bytes of its two texts. */
  datatype Cell = Count | Field(record: nat, word: nat)

  type Memory = map<Cell, nat>

  type Image = s: seq<nat> | |s| == ENTRY_WORDS witness seq(ENTRY_WORDS, _ => 0)

  function RawKind(k: Kind): nat {
    match k case Pal => 1 case Poi => 2 case Resource => 3
  }

  function KindFromRaw(raw: nat): Option<Kind> {
    if raw == 1 then Some(Pal) else if raw == 2 then Some(Poi) else if raw == 3 then Some(Resource) else None
  }

  function EmptyImage(): Image {
    seq(ENTRY_WORDS, _ => 0)
  }

  function Padded(text: seq<byte>): (r: seq<nat>)
    requires |text| <= TEXT_BYTES
    ensures |r| == TEXT_BYTES
    ensures forall i :: 0 <= i < |text| ==> r[i] == text[i]
  {
    seq(TEXT_BYTES, i requires 0 <= i < TEXT_BYTES => if i < |text| then text[i] else 0)
  }

  /** An entry as both sides see it: each text cut to the record's 72 bytes. */
  ghost function Shortened(e: Entry): Entry {
    Entry(e.kind, Cut(e.title, TEXT_BYTES), Cut(e.subtitle, TEXT_BYTES))
  }

  ghost function ImageOf(e: Entry): Image {
    var title, subtitle := Cut(e.title, TEXT_BYTES), Cut(e.subtitle, TEXT_BYTES);
    [RawKind(e.kind), |title|, |subtitle|] + Padded(title) + Padded(subtitle)
  }

  ghost predicate Rejected(e: Entry) {
    |Cut(e.title, TEXT_BYTES)| == 0
  }

  predicate AllBytes(s: seq<nat>) {
    forall i :: 0 <= i < |s| ==> s[i] < 256
  }

  function AsBytes(s: seq<nat>): seq<byte>
    requires AllBytes(s)
  {
    seq(|s|, i requires 0 <= i < |s| => s[i])
  }

  function TextFrom(s: seq<nat>): Option<Text> {
    if AllBytes(s) && Utf8Valid(AsBytes(s)) then Some(AsBytes(s)) else None
  }

  function DecodeImage(image: Image): Option<Entry> {
    var kind, title, subtitle := image[0], image[1], image[2];
    if title == 0 || title > TEXT_BYTES || subtitle > TEXT_BYTES then None
    else
      var texts := image[HEADER_WORDS..];
      var t, u := TextFrom(texts[..title]), TextFrom(texts[TEXT_BYTES..][..subtitle]);
      if KindFromRaw(kind).None? || t.None? || u.None? then None
      else Some(Entry(KindFromRaw(kind).value, t.value, u.value))
  }

  lemma TextRoundTrip(text: Text)
    ensures TextFrom(text) == Some(text)
  {
    assert AsBytes(text) == text;
  }

  /** A record with a title reads back as the entry, shortened. */
  lemma EntryRoundTrip(e: Entry)
    requires !Rejected(e)
    ensures DecodeImage(ImageOf(e)) == Some(Shortened(e))
  {
    var title, subtitle := Cut(e.title, TEXT_BYTES), Cut(e.subtitle, TEXT_BYTES);
    var texts := ImageOf(e)[HEADER_WORDS..];
    assert texts == Padded(title) + Padded(subtitle);
    assert texts[..|title|] == title;
    assert texts[TEXT_BYTES..][..|subtitle|] == subtitle;
    TextRoundTrip(title);
    TextRoundTrip(subtitle);
  }

  /** Only an empty title is rejected, and a text that fits is not changed. */
  lemma ShorteningIsMild(e: Entry)
    ensures Rejected(e) <==> e.title == []
    ensures |e.title| <= TEXT_BYTES && |e.subtitle| <= TEXT_BYTES ==> Shortened(e) == e
  {
    PrefixKeepsEnough(e.title, TEXT_BYTES, PrefixLength(e.title, TEXT_BYTES));
  }

  // ----- the writer

  function RecordStores(record: nat, image: Image): seq<Store<Cell, nat>> {
    seq(ENTRY_WORDS, i requires 0 <= i < ENTRY_WORDS => Store(Field(record, i), image[i]))
  }

  function ClearStores(n: nat): seq<Store<Cell, nat>> {
    if n == 0 then [] else ClearStores(n - 1) + RecordStores(n - 1, EmptyImage())
  }

  /** The records of the first n entries. */
  ghost function RecordsStores(entries: seq<Entry>, n: nat): seq<Store<Cell, nat>>
    requires n <= |entries|
  {
    if n == 0 then [] else RecordsStores(entries, n - 1) + RecordStores(n - 1, ImageOf(entries[n - 1]))
  }

  ghost predicate Completes(entries: seq<Entry>) {
    forall i :: 0 <= i < |entries| ==> !Rejected(entries[i])
  }

  function CountStore(n: nat): Store<Cell, nat> {
    Store(Count, n)
  }

  /** Everything the call stores: a cleared region, the records up to the first rejected
      entry, and the count if there was none. */
  ghost function PublishStores(entries: seq<Entry>): seq<Store<Cell, nat>> {
    if Completes(entries)
    then ClearStores(MAX_SEARCH_ENTRIES) + RecordsStores(entries, |entries|) + [CountStore(|entries|)]
    else
      var n := FirstRejected(entries, 0);
      ClearStores(MAX_SEARCH_ENTRIES) + RecordsStores(entries, n)
  }

  ghost function FirstRejected(entries: seq<Entry>, from: nat): (n: nat)
    requires from <= |entries|
    ensures from <= n <= |entries|
    decreases |entries| - from
  {
    if from == |entries| || Rejected(entries[from]) then from else FirstRejected(entries, from + 1)
  }

  // ----- the reader

  predicate RecordCopied(copy: Memory, record: nat) {
    forall i: nat {:trigger Field(record, i)} :: i < ENTRY_WORDS ==> Field(record, i) in copy
  }

  function ImageAt(copy: Memory, record: nat): Image
    requires RecordCopied(copy, record)
  {
    seq(ENTRY_WORDS, i requires 0 <= i < ENTRY_WORDS => copy[Field(record, i)])
  }

  function DecodeRecords(copy: Memory, n: nat): Option<seq<Entry>> {
    if n == 0 then Some([])
    else
      var before := DecodeRecords(copy, n - 1);
      if before.None? || !RecordCopied(copy, n - 1) then None
      else
        var e := DecodeImage(ImageAt(copy, n - 1));
        if e.None? then None else Some(before.value + [e.value])
  }

  function Decode(copy: Memory): Option<seq<Entry>> {
    if Count !in copy || copy[Count] > MAX_SEARCH_ENTRIES then None else DecodeRecords(copy, copy[Count])
  }

  lemma {:induction false} DecodeRecordsOfPart(copy: Memory, memory: Memory, n: nat)
    requires Agrees(copy, memory) && DecodeRecords(copy, n).Some?
    ensures DecodeRecords(memory, n) == DecodeRecords(copy, n)
  {
    if n > 0 {
      DecodeRecordsOfPart(copy, memory, n - 1);
      assert forall i: nat {:trigger Field(n - 1, i)} :: i < ENTRY_WORDS ==>
        Field(n - 1, i) in copy && memory[Field(n - 1, i)] == copy[Field(n - 1, i)];
      assert ImageAt(memory, n - 1) == ImageAt(copy, n - 1);
    }
  }

  // ----- what a complete call leaves in the region

  ghost predicate HoldsRecord(memory: Memory, record: nat, image: Image) {
    forall i: nat {:trigger Field(record, i)} :: i < ENTRY_WORDS ==>
      Field(record, i) in memory && memory[Field(record, i)] == image[i]
  }

  lemma RecordStored(memory: Memory, record: nat, image: Image)
    ensures HoldsRecord(ApplyStores(memory, RecordStores(record, image)), record, image)
    ensures forall c :: c in memory && (c.Field? ==> c.record != record) ==>
              c in ApplyStores(memory, RecordStores(record, image))
              && ApplyStores(memory, RecordStores(record, image))[c] == memory[c]
  {
    var todo := RecordStores(record, image);
    DistinctStores(memory, todo);
    forall i: nat | i < ENTRY_WORDS
      ensures Field(record, i) in ApplyStores(memory, todo) && ApplyStores(memory, todo)[Field(record, i)] == image[i]
    {
      assert todo[i].cell == Field(record, i);
    }
  }

  lemma {:induction false} RecordsStored(memory: Memory, entries: seq<Entry>, n: nat, k: nat)
    requires k < n <= |entries|
    ensures HoldsRecord(ApplyStores(memory, RecordsStores(entries, n)), k, ImageOf(entries[k]))
  {
    var before := ApplyStores(memory, RecordsStores(entries, n - 1));
    ApplyStoresConcat(memory, RecordsStores(entries, n - 1), RecordStores(n - 1, ImageOf(entries[n - 1])));
    RecordStored(before, n - 1, ImageOf(entries[n - 1]));
    if k < n - 1 {
      RecordsStored(memory, entries, n - 1, k);
      assert forall i: nat {:trigger Field(k, i)} :: i < ENTRY_WORDS ==> Field(k, i) in before;
    }
  }

  ghost function AllShortened(entries: seq<Entry>): seq<Entry> {
    seq(|entries|, i requires 0 <= i < |entries| => Shortened(entries[i]))
  }

  lemma HeldImage(memory: Memory, record: nat, image: Image)
    requires HoldsRecord(memory, record, image)
    ensures RecordCopied(memory, record) && ImageAt(memory, record) == image
  {
  }

  lemma HeldEntryReadsBack(memory: Memory, record: nat, e: Entry)
    requires !Rejected(e) && HoldsRecord(memory, record, ImageOf(e))
    ensures RecordCopied(memory, record) && DecodeImage(ImageAt(memory, record)) == Some(Shortened(e))
  {
    HeldImage(memory, record, ImageOf(e));
    EntryRoundTrip(e);
  }

  lemma {:induction false} RecordsReadBack(memory: Memory, entries: seq<Entry>, n: nat)
    requires n <= |entries| && Completes(entries)
    requires forall k :: 0 <= k < n ==> HoldsRecord(memory, k, ImageOf(entries[k]))
    ensures DecodeRecords(memory, n) == Some(AllShortened(entries)[..n])
  {
    if n > 0 {
      RecordsReadBack(memory, entries, n - 1);
      HeldEntryReadsBack(memory, n - 1, entries[n - 1]);
      assert AllShortened(entries)[..n] == AllShortened(entries)[..n - 1] + [Shortened(entries[n - 1])];
    }
  }

  /** A finished call reads back as its list, every text shortened. */
  lemma CatalogReadsBack(memory: Memory, entries: seq<Entry>)
    requires |entries| <= MAX_SEARCH_ENTRIES && Completes(entries)
    ensures Decode(ApplyStores(memory, PublishStores(entries))) == Some(AllShortened(entries))
  {
    var clear, records := ClearStores(MAX_SEARCH_ENTRIES), RecordsStores(entries, |entries|);
    var count := [CountStore(|entries|)];
    var cleared := ApplyStores(memory, clear);
    var stored := ApplyStores(cleared, records);
    ApplyStoresConcat(memory, clear + records, count);
    ApplyStoresConcat(memory, clear, records);
    assert count[1..] == [];
    var after := ApplyStores(memory, PublishStores(entries));
    assert after == stored[Count := CountStore(|entries|).value];
    forall k | 0 <= k < |entries|
      ensures HoldsRecord(after, k, ImageOf(entries[k]))
    {
      RecordsStored(cleared, entries, |entries|, k);
      assert HoldsRecord(stored, k, ImageOf(entries[k]));
    }
    RecordsReadBack(after, entries, |entries|);
    assert AllShortened(entries)[..|entries|] == AllShortened(entries);
  }

  // ----- the catalogue: publish calls and shared-memory steps in any interleaving

  /** `meant` records, for each sequence number, the list its call was given. */
  datatype Catalog = Catalog(lock: State<Cell, nat>, meant: map<nat, seq<Entry>>)

  datatype CatalogStep = Publish(entries: seq<Entry>) | Shared(step: Step<Cell, nat>)

  predicate CatalogEnabled(c: Catalog, step: CatalogStep) {
    match step
    case Publish(_) => c.lock.writer.Idle?
    case Shared(s) => !s.BeginWrite? && Enabled(c.lock, s)
  }

  ghost function ApplyCatalog(c: Catalog, step: CatalogStep): Catalog
    requires CatalogEnabled(c, step)
  {
    match step
    case Publish(entries) =>
      if |entries| > MAX_SEARCH_ENTRIES then c
      else Catalog(Apply(c.lock, BeginWrite(PublishStores(entries), Completes(entries))),
                   c.meant[NextPublished(c.lock.sequence) := entries])
    case Shared(s) => c.(lock := Apply(c.lock, s))
  }

  ghost predicate CatalogRuns(c: Catalog, steps: seq<CatalogStep>, d: Catalog)
    decreases |steps|
  {
    if steps == [] then c == d
    else CatalogEnabled(c, steps[0]) && CatalogRuns(ApplyCatalog(c, steps[0]), steps[1..], d)
  }

  /** The region just after the header was initialised. */
  ghost predicate Fresh(c: Catalog) {
    && Initial(c.lock) && c.lock.sequence == 0
    && Count in c.lock.memory && c.lock.memory[Count] == 0
    && c.meant == map[0 := []]
  }

  ghost predicate CatalogInv(c: Catalog) {
    && Inv(c.lock)
    && (forall n :: n in c.lock.published ==>
                      n in c.meant && Decode(c.lock.published[n]) == Some(AllShortened(c.meant[n])))
    && (c.lock.writer.Storing? && c.lock.writer.completes ==>
          && c.lock.sequence + 1 in c.meant
          && Decode(ApplyStores(c.lock.memory, c.lock.writer.todo)) == Some(AllShortened(c.meant[c.lock.sequence + 1])))
  }

  /** A call that is not refused up front. */
  predicate Begins(step: CatalogStep) {
    step.Publish? && |step.entries| <= MAX_SEARCH_ENTRIES
  }

  predicate Titled(entries: seq<Entry>) {
    forall i :: 0 <= i < |entries| ==> entries[i].title != []
  }

  /** Every list that begins to be published is titled, except perhaps the last one. */
  ghost predicate TitledButLast(steps: seq<CatalogStep>) {
    forall i, j :: 0 <= i < j < |steps| && Begins(steps[i]) && Begins(steps[j]) ==> Titled(steps[i].entries)
  }

  lemma TitledCompletes(entries: seq<Entry>)
    ensures Completes(entries) <==> Titled(entries)
  {
    forall i | 0 <= i < |entries|
      ensures Rejected(entries[i]) <==> entries[i].title == []
    {
      ShorteningIsMild(entries[i]);
    }
  }

  lemma BegunCallKeepsInv(c: Catalog, todo: seq<Store<Cell, nat>>, completes: bool, entries: seq<Entry>, d: Catalog)
    requires CatalogInv(c) && c.lock.writer.Idle? && c.lock.sequence % 2 == 0
    requires completes ==> Decode(ApplyStores(c.lock.memory, todo)) == Some(AllShortened(entries))
    requires d == Catalog(Apply(c.lock, BeginWrite(todo, completes)),
                          c.meant[NextPublished(c.lock.sequence) := entries])
    ensures CatalogInv(d)
  {
    StepKeepsInv(c.lock, BeginWrite(todo, completes));
  }

  lemma PublishKeepsInv(c: Catalog, entries: seq<Entry>)
    requires CatalogInv(c) && c.lock.writer.Idle? && (Begins(Publish(entries)) ==> Unbroken(c.lock))
    ensures CatalogInv(ApplyCatalog(c, Publish(entries)))
    ensures Titled(entries) && Unbroken(c.lock) ==> Unbroken(ApplyCatalog(c, Publish(entries)).lock)
  {
    TitledCompletes(entries);
    if |entries| <= MAX_SEARCH_ENTRIES {
      if Completes(entries) {
        CatalogReadsBack(c.lock.memory, entries);
      }
      BegunCallKeepsInv(c, PublishStores(entries), Completes(entries), entries, ApplyCatalog(c, Publish(entries)));
    }
  }

  lemma SharedKeepsInv(c: Catalog, s: Step<Cell, nat>)
    requires CatalogInv(c) && CatalogEnabled(c, Shared(s))
    ensures CatalogInv(ApplyCatalog(c, Shared(s)))
    ensures Unbroken(c.lock) ==> Unbroken(ApplyCatalog(c, Shared(s)).lock)
  {
    StepKeepsInv(c.lock, s);
    if s.EndWrite? {
      assert ApplyStores(c.lock.memory, c.lock.writer.todo) == c.lock.memory;
    }
  }

  lemma CatalogStepKeepsInv(c: Catalog, step: CatalogStep)
    requires CatalogInv(c) && CatalogEnabled(c, step) && (Begins(step) ==> Unbroken(c.lock))
    ensures CatalogInv(ApplyCatalog(c, step))
    ensures Unbroken(c.lock) && (Begins(step) ==> Titled(step.entries)) ==> Unbroken(ApplyCatalog(c, step).lock)
  {
    match step
    case Publish(entries) => PublishKeepsInv(c, entries);
    case Shared(s) => SharedKeepsInv(c, s);
  }

  ghost predicate CatalogReady(c: Catalog, steps: seq<CatalogStep>) {
    TitledButLast(steps) && ((exists i :: 0 <= i < |steps| && Begins(steps[i])) ==> Unbroken(c.lock))
  }

  lemma CatalogStepKeepsReady(c: Catalog, steps: seq<CatalogStep>)
    requires CatalogInv(c) && steps != [] && CatalogEnabled(c, steps[0]) && CatalogReady(c, steps)
    ensures CatalogInv(ApplyCatalog(c, steps[0])) && CatalogReady(ApplyCatalog(c, steps[0]), steps[1..])
  {
    CatalogStepKeepsInv(c, steps[0]);
    var later := steps[1..];
    assert forall i :: 0 <= i < |later| ==> later[i] == steps[i + 1];
    if i :| 0 <= i < |later| && Begins(later[i]) {
      assert Begins(steps[i + 1]);
      assert Begins(steps[0]) ==> Titled(steps[0].entries);
    }
  }

  lemma {:induction false} CatalogRunKeepsInv(c: Catalog, steps: seq<CatalogStep>, d: Catalog)
    requires CatalogInv(c) && CatalogRuns(c, steps, d) && CatalogReady(c, steps)
    ensures CatalogInv(d)
    decreases |steps|
  {
    if steps != [] {
      CatalogStepKeepsReady(c, steps);
      CatalogRunKeepsInv(ApplyCatalog(c, steps[0]), steps[1..], d);
    }
  }

  /** Over every interleaving in which only the last list may lack a title, a catalogue the
      reader accepts is one list that was published under that number, each text cut to its
      longest fitting prefix. */
  lemma AcceptedCatalogsWerePublished(c: Catalog, steps: seq<CatalogStep>, d: Catalog, a: Accepted<Cell, nat>)
    requires Fresh(c) && CatalogRuns(c, steps, d) && a in d.lock.accepted && Decode(a.copy).Some?
    requires TitledButLast(steps)
    ensures a.sequence in d.lock.published && a.sequence in d.meant
    ensures Decode(a.copy) == Some(AllShortened(d.meant[a.sequence]))
  {
    assert AllShortened([]) == [];
    CatalogRunKeepsInv(c, steps, d);
    var i :| 0 <= i < |d.lock.accepted| && d.lock.accepted[i] == a;
    assert a.copy[Count] == d.lock.published[a.sequence][Count];
    DecodeRecordsOfPart(a.copy, d.lock.published[a.sequence], a.copy[Count]);
  }

  // ----- without titles the guarantee fails

  /** The sequence number once the call has returned. */
  ghost function NumberAfter(n: nat, entries: seq<Entry>): nat {
    if |entries| > MAX_SEARCH_ENTRIES then n else AfterCall(n, Completes(entries))
  }

  /** A publish call leaves the number readable exactly when it is refused before it starts or
      every entry has a title. */
  lemma PublishLeavesEven(n: nat, entries: seq<Entry>)
    requires n % 2 == 0
    ensures NumberAfter(n, entries) % 2 == 0 <==>
            (|entries| > MAX_SEARCH_ENTRIES || Titled(entries))
  {
    TitledCompletes(entries);
  }

  /** The writer's calls for a series of lists. */
  ghost function CallsFor(lists: seq<seq<Entry>>): seq<Call<Cell, nat>> {
    seq(|lists|, i requires 0 <= i < |lists| => Call(PublishStores(lists[i]), Completes(lists[i])))
  }

  /** A series of lists is published safely, in every interleaving with the reader, exactly when
      it starts at an even number and no list but the last lacks a title. */
  lemma ListsAreSafeExactly(s: State<Cell, nat>, lists: seq<seq<Entry>>)
    requires AtRest(s) && lists != []
    ensures SafeSeries(s, CallsFor(lists)) <==>
            s.sequence % 2 == 0 && forall i :: 0 <= i < |lists| - 1 ==> Titled(lists[i])
  {
    SafeExactly(s, CallsFor(lists));
    forall i | 0 <= i < |lists|
      ensures CallsFor(lists)[i].completes <==> Titled(lists[i])
    {
      TitledCompletes(lists[i]);
    }
  }

  lemma {:induction false} RecordsKeepCount(memory: Memory, entries: seq<Entry>, n: nat)
    requires Count in memory && n <= |entries|
    ensures var after := ApplyStores(memory, RecordsStores(entries, n));
            Count in after && after[Count] == memory[Count]
  {
    if n > 0 {
      var before := ApplyStores(memory, RecordsStores(entries, n - 1));
      RecordsKeepCount(memory, entries, n - 1);
      ApplyStoresConcat(memory, RecordsStores(entries, n - 1), RecordStores(n - 1, ImageOf(entries[n - 1])));
      RecordStored(before, n - 1, ImageOf(entries[n - 1]));
    }
  }

  lemma {:induction false} ClearKeepsCount(memory: Memory, n: nat)
    requires Count in memory
    ensures Count in ApplyStores(memory, ClearStores(n)) && ApplyStores(memory, ClearStores(n))[Count] == memory[Count]
  {
    if n > 0 {
      ClearKeepsCount(memory, n - 1);
      ApplyStoresConcat(memory, ClearStores(n - 1), RecordStores(n - 1, EmptyImage()));
      RecordStored(ApplyStores(memory, ClearStores(n - 1)), n - 1, EmptyImage());
    }
  }

  /** A failed call has cleared the records but not the count. */
  lemma FailedCallKeepsCount(memory: Memory, entries: seq<Entry>)
    requires Count in memory && !Titled(entries)
    ensures var after := ApplyStores(memory, PublishStores(entries));
            Count in after && after[Count] == memory[Count]
  {
    TitledCompletes(entries);
    var n := FirstRejected(entries, 0);
    ClearKeepsCount(memory, MAX_SEARCH_ENTRIES);
    ApplyStoresConcat(memory, ClearStores(MAX_SEARCH_ENTRIES), RecordsStores(entries, n));
    RecordsKeepCount(ApplyStores(memory, ClearStores(MAX_SEARCH_ENTRIES)), entries, n);
  }

  lemma {:induction false} SharedRuns(c: Catalog, steps: seq<Step<Cell, nat>>, t: State<Cell, nat>)
    returns (lifted: seq<CatalogStep>)
    requires Runs(c.lock, steps, t) && CallsOf(steps) == []
    ensures CatalogRuns(c, lifted, c.(lock := t)) && |lifted| == |steps|
    ensures forall i :: 0 <= i < |lifted| ==> lifted[i].Shared?
    decreases |steps|
  {
    if steps == [] {
      lifted := [];
    } else {
      var rest := SharedRuns(c.(lock := Apply(c.lock, steps[0])), steps[1..], t);
      lifted := [Shared(steps[0])] + rest;
      assert lifted[1..] == rest;
    }
  }

  lemma {:induction false} CatalogRunsCompose(a: Catalog, s: seq<CatalogStep>, b: Catalog, t: seq<CatalogStep>,
                                              c: Catalog)
    requires CatalogRuns(a, s, b) && CatalogRuns(b, t, c)
    ensures CatalogRuns(a, s + t, c)
    decreases |s|
  {
    if s == [] {
      assert s + t == t;
    } else {
      assert (s + t)[1..] == s[1..] + t;
      CatalogRunsCompose(ApplyCatalog(a, s[0]), s[1..], b, t, c);
    }
  }

  /** A list published by itself, to the end of its call. */
  lemma PublishRuns(c: Catalog, entries: seq<Entry>) returns (rest: seq<CatalogStep>, d: Catalog)
    requires c.lock.writer.Idle? && |entries| <= MAX_SEARCH_ENTRIES
    ensures CatalogRuns(c, [Publish(entries)] + rest, d) && forall i :: 0 <= i < |rest| ==> rest[i].Shared?
    ensures d.meant == c.meant[NextPublished(c.lock.sequence) := entries] && d.lock.writer.Idle?
    ensures d.lock.memory == ApplyStores(c.lock.memory, PublishStores(entries))
    ensures d.lock.sequence == AfterCall(c.lock.sequence, Completes(entries))
    ensures d.lock.reader == c.lock.reader && d.lock.accepted == c.lock.accepted
  {
    var begun := ApplyCatalog(c, Publish(entries));
    var storing, t := CallReturns(begun.lock);
    rest := SharedRuns(begun, storing, t);
    d := begun.(lock := t);
    assert ([Publish(entries)] + rest)[1..] == rest;
  }

  lemma OddCallBegins(s: State<Cell, nat>, todo: seq<Store<Cell, nat>>, completes: bool)
    requires s.writer.Idle? && s.sequence % 2 == 1
    ensures var begun := Apply(s, BeginWrite(todo, completes));
            && begun.sequence == NextPublished(s.sequence) && begun.sequence % 2 == 0 && begun.sequence != 0
            && begun.memory == s.memory && begun.reader == s.reader && begun.accepted == s.accepted
  {
  }

  lemma EmptyCountRead(s: State<Cell, nat>) returns (steps: seq<Step<Cell, nat>>, t: State<Cell, nat>)
    requires s.reader.Waiting? && s.sequence % 2 == 0 && s.sequence != 0 && Count in s.memory && s.memory[Count] == 0
    ensures Runs(s, steps, t) && CallsOf(steps) == []
    ensures t == s.(accepted := s.accepted + [Accepted.Accepted(s.sequence, map[Count := 0])])
  {
    steps, t := QuietReadAccepts(s, 0, {Count});
    assert Part(s.memory, {Count}) == map[Count := 0];
  }

  /** A list published from an odd number: while its call is at work, a reader accepts the
      number the list is meant for with the count of the list before. */
  lemma ReadDuringCall(c: Catalog, next: seq<Entry>)
    returns (steps: seq<CatalogStep>, d: Catalog, a: Accepted<Cell, nat>)
    requires c.lock.writer.Idle? && c.lock.reader.Waiting? && c.lock.sequence % 2 == 1
    requires Count in c.lock.memory && c.lock.memory[Count] == 0 && |next| <= MAX_SEARCH_ENTRIES
    ensures CatalogRuns(c, [Publish(next)] + steps, d) && forall i :: 0 <= i < |steps| ==> steps[i].Shared?
    ensures d.lock.accepted == c.lock.accepted + [a] && Decode(a.copy) == Some([])
    ensures a.sequence == NextPublished(c.lock.sequence) && d.meant == c.meant[a.sequence := next]
  {
    var begun := ApplyCatalog(c, Publish(next));
    OddCallBegins(c.lock, PublishStores(next), Completes(next));
    var reading, t := EmptyCountRead(begun.lock);
    a := Accepted.Accepted(begun.lock.sequence, map[Count := 0]);
    steps := SharedRuns(begun, reading, t);
    d := begun.(lock := t);
    assert ([Publish(next)] + steps)[1..] == steps;
  }

  /** From any fresh region, for any list that fails and any non-empty list after it: there is a
      run of the two calls in which a reader accepts an empty catalogue under the number the
      second list is meant for. */
  lemma FailedCallExposesNextOne(c: Catalog, failing: seq<Entry>, next: seq<Entry>)
    returns (first: seq<CatalogStep>, second: seq<CatalogStep>, d: Catalog, a: Accepted<Cell, nat>)
    requires Fresh(c) && |failing| <= MAX_SEARCH_ENTRIES && !Titled(failing)
    requires 0 < |next| <= MAX_SEARCH_ENTRIES
    ensures CatalogRuns(c, [Publish(failing)] + first + ([Publish(next)] + second), d)
    ensures forall step :: step in first + second ==> step.Shared?
    ensures a in d.lock.accepted && a.sequence in d.meant && d.meant[a.sequence] == next
    ensures Decode(a.copy) == Some([]) != Some(AllShortened(next))
  {
    var between;
    first, between := PublishRuns(c, failing);
    TitledCompletes(failing);
    FailedCallKeepsCount(c.lock.memory, failing);
    second, d, a := ReadDuringCall(between, next);
    CatalogRunsCompose(c, [Publish(failing)] + first, between, [Publish(next)] + second, d);
    assert d.lock.accepted[|between.lock.accepted|] == a;
  }
}
