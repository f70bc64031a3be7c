# Verified model of the Pal companion

This Dafny project models the parts of the Pal companion whose correctness depends on loops,
interleavings or agreement between components, and proves what they promise.

- **Breeding planner** (`Breeding`, `BreedingSearch`, `BreedingPlanner`, `BreedingGuarantees`,
  with `Ordering`). The search visits all rules pass after pass and lets entries improve after
  others were computed from them. The model follows its loops and is proved against breeding
  trees, an independent notion of what a plan is: minimality, convergence within the generation
  cap, closed plans, the least rule, independence of input order.
- **Fullscreen bridge** (`SeqLock`, `FrameBridge`, `FrameRegion`, `FrameFormat`, `SearchCatalog`,
  `CatalogFormat`, `Utf8Prefix`, `PanLanes`). `SeqLock` is the protocol of one writer and one
  reader as interleaved atomic steps over any cells; `FrameBridge` and `SearchCatalog` put frames,
  visibility changes and catalogues on it and prove that a reader accepts only what one call
  published. `FrameRegion` runs the writer's and the reader's calls on header fields and a byte
  buffer and ties them to the same protocol stores. The parity assumption is explicit:
  `SeqLock.SafeExactly` says exactly which series of calls are safe in every interleaving,
  `SearchCatalog.ListsAreSafeExactly` says it for lists of entries, and
  `SearchCatalog.FailedCallExposesNextOne` and `SeqLock.OddCallTears` give the runs in which the
  others go wrong.
- **Seed compiler** (`ReferenceIndex`, `MapSums`, `QualityReport`, `QualityFindings`,
  `SeedCompiler`, `SeedRows`, `KnowledgeProjection`, `ProjectionRows`, `ReferenceKeys`,
  `RuleNormalisation`). References are counted once while they are resolved and once more by
  relational queries over the compiled tables. The two counts agree exactly when no recipe names a
  blank unlock item: blank text is stored as NULL, which the queries skip and the report still
  counts.
- **Settings** (`OverlaySettings`, `OverlayActions`, `SettingsStore`, `ControlSession`). A
  versioned store with field masks, a reducer and a forced lock on disconnect, shared by any
  number of sessions.
- **Text scanners** (`ChallengeParameters`, `ChallengeGrammar`, `LikePattern`). The parameter list
  of a `WWW-Authenticate` header (sections 5.6.4 and 11.2 of RFC 9110) and the catalogue search
  pattern.
- **Agent** (`AgentPoller`, `AgentHealth`) and **overlay supervisor** (`OverlaySupervisor`).
  Conservation over poll runs, restart timing over tick runs, and when a supervisor has more than
  one live process: a failed wait drops the handle of a child without ending it.

Loops and objects of the source are methods and classes here, each proved against functions of its
inputs or of the old state; what the source promises is then proved about those functions. The
concurrent parts are step machines. `Basics` and `Text` hold shared helpers.

The source maps skills and passives by id, so the lists of their keys hold no key twice;
`Distinct(src.passives)` in the theorems says so for passives, while for skills it is checked, as
in the source, after the namespace is dropped. The rules of `KnowledgeProjection` are any rule
rows; `RuleNormalisation` supplies those of the compiler.

Every function an operation is proved against is pinned once more from outside: by who reads what
it wrote, by the inputs each outcome is given for, or by the literal limits, ids and alphabets of
the source. `FrameFormat`, `CatalogFormat`, `SeedRows`, `ProjectionRows`, `QualityFindings`,
`OverlayActions`, `ChallengeGrammar` and `AgentHealth` hold these statements.

Tables, limits and constants of the source are written out in lemmas of their own, without a
row below: `FieldNumbers`, `KindsMean`, `EmissionsMean`, `LeaseMeans`, `LanesOf`,
`NextNumber`, `FilterBits`, `VisibilityReadsBackAs`, `RecordWords`, `LongListsAreRefused`,
`SeedIds`, `SkillKeys`, `CompileIs`, `BareMeans`, `KeptMeans`, `NumberFaults`, `ActionAnswers`,
`QueriesAreAnswered`, `MissingCandidates`, `StatusesMean`, `TicksMove`, `SpecialCharacters`,
`PlainCharacters`, `WhitespaceIs`, `LowerMeans` and `OrdersMean`.

## Model

| member | source | states |
|---|---|---|
| `BreedingGuarantees.PlannerIsExact` | crates/pal-companion-service/src/breeding.rs:118-182 | without budget exhaustion, Unreachable is returned exactly when no breeding tree from the owned Pals fits under the cap, and a returned generation count is attained by a tree and is the least of any tree |
| `BreedingGuarantees.BudgetSuffices` | crates/pal-companion-service/src/breeding.rs:139-178 | the search is never longer than (cap + 1) × rules visits; BudgetExhausted is returned exactly when the visits it needs exceed the budget; node_visits stays within the budget |
| `BreedingGuarantees.PlanIsClosed` | crates/pal-companion-service/src/breeding.rs:180-197 | the plan lists exactly species the target needs, once each; every bred node applies a given rule and is exactly one generation after the later of two listed parents; every leaf is the least owned instance of its species |
| `BreedingGuarantees.PlanNamesLeastRule` | crates/pal-companion-service/src/breeding.rs:169-176 | of all rules that breed a listed species in its listed generation, the plan names the one with the least (rule id, parent a, parent b) |
| `BreedingGuarantees.OrderDoesNotMatter` | crates/pal-companion-service/src/breeding.rs:112-137 | rearranging owned Pals, rules or required passives changes nothing in the result, errors and node_visits included |
| `BreedingGuarantees.CoverageIsExact` | crates/pal-companion-service/src/breeding.rs:204-216 | the donors of a required passive are exactly the owned instances that carry it, ascending and without repeats |
| `BreedingGuarantees.CoverageIsComplete` | crates/pal-companion-service/src/breeding.rs:199-217 | the entries are exactly the required passives, each once and in ascending order |
| `BreedingGuarantees.WarningsAreExact` | crates/pal-companion-service/src/breeding.rs:218-229 | the missing-donor warning is given exactly when a required passive is carried by no owned Pal, the probability warning exactly when a passive is required, the other two always, and nothing else |
| `BreedingGuarantees.VisitsAreLeastBudget` | crates/pal-companion-service/src/breeding.rs:139-178 | the reported visits are the least budget with which the request is answered, and any larger one gives the same plan |
| `BreedingGuarantees.RefusalsAreExact` | crates/pal-companion-service/src/breeding.rs:286-343 | which requests are refused and as what, in literal limits and alphabets; everything else is searched |
| `BreedingGuarantees.StartIsLeastInstance` | crates/pal-companion-service/src/breeding.rs:112-128 | an owned species is represented by its least instance id |
| `BreedingGuarantees.WithinHasTree` | crates/pal-companion-service/src/breeding.rs:139-178 | a derivation bound n yields an actual breeding tree of height at most n |
| `BreedingGuarantees.TreeIsWithin` | crates/pal-companion-service/src/breeding.rs:139-178 | every breeding tree is a derivation of its own height |
| `BreedingSearch.FinalAfterPass` | crates/pal-companion-service/src/breeding.rs:139-178 | after pass k every species derivable in k generations has its final generation and its final source |
| `BreedingSearch.PassesSettle` | crates/pal-companion-service/src/breeding.rs:139-178 | after pass k every way to breed a species by generation k is matched or beaten, although stored generations may be stale |
| `BreedingSearch.ConvergesByCap` | crates/pal-companion-service/src/breeding.rs:139-178 | the pass after the cap-th changes nothing |
| `BreedingSearch.PassesKeep` | crates/pal-companion-service/src/breeding.rs:141-178 | mid-run invariant: every entry has known parents one generation lower or more, owned species never change, ranks never get worse |
| `BreedingSearch.PassUnchanged` | crates/pal-companion-service/src/breeding.rs:141-178 | a pass ends where it began exactly when no rule can improve that state |
| `BreedingSearch.KnownIsDerivable` | crates/pal-companion-service/src/breeding.rs:151-176 | every stored generation is the height of a derivation, also mid-run |
| `BreedingSearch.FixpointGeneration` | crates/pal-companion-service/src/breeding.rs:157-176 | when the search stops, each bred generation is exactly one more than the larger stored generation of its parents |
| `BreedingSearch.FixpointIsLeast` | crates/pal-companion-service/src/breeding.rs:139-178 | when the search stops, no derivation is shorter than the stored generation |
| `BreedingSearch.FixpointChoosesLeastRule` | crates/pal-companion-service/src/breeding.rs:169-176 | when the search stops, the stored source has the least key among the rules of minimal generation |
| `BreedingPlanner.SolveOwnedBreeding` | crates/pal-companion-service/src/breeding.rs:95-241 | the planner returns the specified plan or error |
| `BreedingPlanner.Search` | crates/pal-companion-service/src/breeding.rs:139-178 | the nested loops end in the first unchanged pass, or run out exactly when its visits exceed the budget |
| `BreedingPlanner.RunPass` | crates/pal-companion-service/src/breeding.rs:143-177 | one pass performs the visits in rule order and flags whether any of them replaced an entry |
| `BreedingPlanner.VisitsShowChange` | crates/pal-companion-service/src/breeding.rs:141-178 | the changed flag is set exactly when the pass ends in a different state, although it looks at single visits |
| `BreedingPlanner.CollectRequiredNodes` | crates/pal-companion-service/src/breeding.rs:243-263 | the recursive collection finds exactly the species reachable from the target over the stored sources |
| `BreedingPlanner.OwnedSpecies` | crates/pal-companion-service/src/breeding.rs:118-128 | the first Pal of a species represents it |
| `SeqLock.StepKeepsInv` | crates/pal-fullscreen-bridge/src/lib.rs:407-453 | as long as calls begin at even numbers, every atomic step of writer and reader keeps: odd number while storing, published snapshots even and final, a reader's copy agrees with the snapshot of its number as long as that number stands |
| `SeqLock.NoTornReads` | crates/pal-fullscreen-bridge/src/lib.rs:657-710 | over every interleaving in which no call begins after a failed one, whatever a reader accepts is part of the one snapshot published under its number |
| `SeqLock.AcceptedIncrease` | crates/pal-fullscreen-bridge/src/lib.rs:662-696 | a reader that passes back its last number sees strictly increasing numbers |
| `SeqLock.SafeExactly` | crates/pal-fullscreen-bridge/src/lib.rs:492-515 | over the protocol's runs: a series of calls, started at rest, lets the reader keep only what was published under the number it kept, in every interleaving however far it gets, if and only if it starts at an even number and no call but the last fails |
| `SeqLock.CallRuns` | crates/pal-fullscreen-bridge/src/lib.rs:497-514 | a call left alone stores all its cells and leaves the number AfterCall says: the next even one, or one higher when it fails |
| `SeqLock.BadSeriesExposed` | crates/pal-fullscreen-bridge/src/lib.rs:497-507 | any other series has a run in which the reader accepts a number nothing was published under |
| `SeqLock.OddCallTears` | crates/pal-fullscreen-bridge/src/lib.rs:497-507 | a call begun at an odd number that changes a cell has a run in which the reader keeps the old value for good, under the very number the new one is published with |
| `SeqLock.DistinctStores` | crates/pal-fullscreen-bridge/src/lib.rs:409-450 | stores to different cells leave each its value and touch no other cell |
| `FrameBridge.FilterBitsRoundTrip` | crates/pal-fullscreen-bridge/src/lib.rs:94-119 | filter flags survive their bit encoding |
| `FrameBridge.PublicationReadsBack` | crates/pal-fullscreen-bridge/src/lib.rs:390-454 | whatever the region held before, a finished publication decodes to its own frame: all metadata, display size raised to at least the raster, opacity clamped, every pixel byte |
| `FrameFormat.ColoursReadBack` | crates/pal-fullscreen-bridge/src/lib.rs:441-450 | of every pixel, the frame a reader gets holds the red, green and blue of the published word in that order, then 255 or the edge byte |
| `FrameFormat.MetadataReadsBack` | crates/pal-fullscreen-bridge/src/lib.rs:408-433 | the frame a reader gets has the published metadata, the display size raised to the raster and the opacity moved to the nearer bound of 0.2 and 1 |
| `FrameFormat.RefusedPublications` | crates/pal-fullscreen-bridge/src/lib.rs:397-406 | which publications are refused, in literal limits |
| `FrameFormat.RegionReadsAs` | crates/pal-fullscreen-bridge/src/lib.rs:658-709 | which header and payload a reader takes for a frame, and what it reads from each field |
| `FrameBridge.VisibilityReadsBack` | crates/pal-fullscreen-bridge/src/lib.rs:530-550 | a visibility store changes the visibility of the current frame and nothing else |
| `FrameBridge.BridgeStepKeepsInv` | crates/pal-fullscreen-bridge/src/lib.rs:390-550 | publish calls, visibility calls and single shared-memory steps all keep the link between numbers and the frames they stand for |
| `FrameBridge.AcceptedFramesWerePublished` | crates/pal-fullscreen-bridge/src/lib.rs:657-710 | over every interleaving, an accepted frame is the one its number stands for |
| `FrameBridge.AcceptedFramesAreWhole` | crates/pal-fullscreen-bridge/src/lib.rs:657-710 | an accepted frame is, up to visibility, the frame of one publish call of the run; no two calls are mixed |
| `FrameBridge.CurrentFrameIsReadable` | crates/pal-fullscreen-bridge/src/lib.rs:657-710 | between two calls, a reader that has not seen the current number can accept exactly the frame it stands for, so the safety theorems are not about runs without frames |
| `SeqLock.QuietReadAccepts` | crates/pal-fullscreen-bridge/src/lib.rs:662-696 | with no writer at work, a reader can copy the whole region and accepts it |
| `FrameBridge.AcceptedFramesIncrease` | crates/pal-fullscreen-bridge/src/lib.rs:662-665 | over bridge runs, a reader that passes back its last number sees strictly increasing ones |
| `FrameBridge.BridgeRunIsLockRun` | crates/pal-fullscreen-bridge/src/lib.rs:407-453 | every bridge run is a run of the sequence-lock protocol with completing calls only |
| `FrameRegion.PublicationReplaces` | crates/pal-fullscreen-bridge/src/lib.rs:407-453 | writing the header fields and the front of the payload buffer is what the protocol's stores do, and it decodes to the published frame |
| `FrameRegion.Region.PublishRgb` | crates/pal-fullscreen-bridge/src/lib.rs:390-454 | a whole call refuses exactly the wrong sizes and changes nothing then; otherwise it leaves the next even number and the new frame, bytes beyond the frame untouched |
| `FrameRegion.Region.ConvertPixels` | crates/pal-fullscreen-bridge/src/lib.rs:441-450 | the pixel loop writes red, green, blue and alpha of each pixel in order and nothing behind the last one |
| `FrameRegion.Region.SetLogicalVisible` | crates/pal-fullscreen-bridge/src/lib.rs:530-550 | the number moves on only if the visibility really changes; the frame is otherwise kept |
| `FrameRegion.Region.ReadLatest` | crates/pal-fullscreen-bridge/src/lib.rs:657-710 | reads the current frame, or nothing for number zero, an odd or already seen number, or an inconsistent header |
| `FrameRegion.Region.InitializeHeader` | crates/pal-fullscreen-bridge/src/lib.rs:568-611 | a starting writer leaves an even number, no readable frame and an empty catalogue under search number zero, from an even or odd number alike |
| `SearchCatalog.EntryRoundTrip` | crates/pal-fullscreen-bridge/src/lib.rs:867-896 | an accepted entry decodes to itself with its texts shortened |
| `SearchCatalog.ShorteningIsMild` | crates/pal-fullscreen-bridge/src/lib.rs:867-906 | an entry is rejected exactly for an empty title, and is unchanged when both texts fit |
| `SearchCatalog.CatalogReadsBack` | crates/pal-fullscreen-bridge/src/lib.rs:492-515 | a finished call decodes to its whole list, every text shortened, whatever the region held |
| `CatalogFormat.RecordReadsAs` | crates/pal-fullscreen-bridge/src/lib.rs:878-896 | which records a reader takes: kind one to three, title of 1 to 72 bytes, subtitle of up to 72, both valid UTF-8; and what it reads |
| `CatalogFormat.CatalogReadsAs` | crates/pal-fullscreen-bridge/src/lib.rs:738-749 | a catalogue is taken exactly when its count is at most 2048 and every record is complete |
| `SearchCatalog.AcceptedCatalogsWerePublished` | crates/pal-fullscreen-bridge/src/lib.rs:729-755 | over every interleaving in which every list but the last is titled, an accepted catalogue is one published list with shortened texts |
| `SearchCatalog.ListsAreSafeExactly` | crates/pal-fullscreen-bridge/src/lib.rs:492-515 | a series of lists is published safely in every interleaving if and only if it starts at an even number and no list but the last has an untitled entry |
| `SearchCatalog.PublishRuns` | crates/pal-fullscreen-bridge/src/lib.rs:492-515 | a publish call left alone leaves its stores in the region and the number PublishLeavesEven speaks of |
| `SearchCatalog.PublishLeavesEven` | crates/pal-fullscreen-bridge/src/lib.rs:493-513 | a call leaves the number even exactly when the list is too long to start or every entry has a title |
| `SearchCatalog.FailedCallExposesNextOne` | crates/pal-fullscreen-bridge/src/lib.rs:497-507 | from any fresh region, for any list that fails and any non-empty list after it: a run of the two calls in which a reader accepts an empty catalogue under the number the second list is meant for |
| `Utf8Prefix.CopyUtf8Prefix` | crates/pal-fullscreen-bridge/src/lib.rs:899-906 | copies the longest prefix within the target that ends on a character boundary and leaves the rest of the target alone |
| `Utf8Prefix.PrefixIsValid` | crates/pal-fullscreen-bridge/src/lib.rs:899-906 | a prefix of valid UTF-8 that ends on a character boundary is valid UTF-8 |
| `Utf8Prefix.PrefixKeepsEnough` | crates/pal-fullscreen-bridge/src/lib.rs:899-906 | a fitting text is kept whole, and a non-empty text keeps at least a character when four bytes are free |
| `PanLanes.PackUnpack` | crates/pal-fullscreen-bridge/src/lib.rs:936-942 | unpacking gives back the packed lanes |
| `PanLanes.UnpackPack` | crates/pal-fullscreen-bridge/src/lib.rs:936-942 | packing gives back every unpacked word |
| `PanLanes.SubmitMovesLane` | crates/pal-fullscreen-bridge/src/lib.rs:944-951 | a submission adds each lane by itself, stopping at 32767 and -32768 |
| `PanLanes.PanIsConserved` | crates/pal-fullscreen-bridge/src/lib.rs:474-480 | over every run of submits and drains, submitted = drained + pending + clipped on each lane, and nothing is clipped while the sums stay in range |
| `PanLanes.PendingIsSinceLastDrain` | crates/pal-fullscreen-bridge/src/lib.rs:794-804 | what is pending is the saturating sum of the submissions since the last drain |
| `ReferenceIndex.NewIndex` | crates/pal-cloud-seed/src/quality.rs:14-24 | the loop builds the index of the ids: each case fold with its ids in ascending order |
| `ReferenceIndex.ResolutionMeans` | crates/pal-cloud-seed/src/quality.rs:26-65 | the outcome in terms of the ids alone: exact, trimmed or namespace-free match first, else the number of ids with the same fold decides |
| `ReferenceIndex.ResolutionsAre` | crates/pal-cloud-seed/src/quality.rs:26-65 | the whole resolution in terms of the ids alone: output, state, method and, for an ambiguous one, all candidates in ascending order |
| `ReferenceIndex.SettledMeansPresent` | crates/pal-cloud-seed/src/quality.rs:26-65 | a reference is settled exactly when its output is a catalogue id; an unsettled one is passed on as it came |
| `QualityReport.ReplayIsTallied` | crates/pal-cloud-seed/src/quality.rs:136-222 | after any series of records the findings add up to the counters, and unresolved + ambiguous equals the recorded references without a target |
| `QualityReport.RecordKeepsTally` | crates/pal-cloud-seed/src/quality.rs:136-198 | recording one reference keeps findings and counters in step and raises the expected errors exactly when it stays without a target |
| `QualityReport.DuplicateKeepsTally` | crates/pal-cloud-seed/src/quality.rs:200-222 | recording a duplicate keeps findings and counters in step |
| `QualityFindings.FindingsCount` | crates/pal-cloud-seed/src/quality.rs:136-222 | every finding counts the records filed under its key and lists their subjects and references |
| `QualityFindings.CountersCount` | crates/pal-cloud-seed/src/quality.rs:136-222 | every counter counts the records of its state |
| `QualityFindings.CausesMean` | crates/pal-cloud-seed/src/quality.rs:392-408 | each cause and severity of a missing target, with the references it stands for |
| `QualityReport.Builder.RecordResolution` | crates/pal-cloud-seed/src/quality.rs:136-198 | the builder's fields are the report of everything recorded so far |
| `QualityReport.Builder.RecordDuplicateReference` | crates/pal-cloud-seed/src/quality.rs:200-222 | the same for duplicates |
| `QualityReport.FindingMovesCounts` | crates/pal-cloud-seed/src/quality.rs:301-319 | one recorded finding moves the sum of its own status by one and no other sum |
| `QualityReport.Builder.Finish` | crates/pal-cloud-seed/src/quality.rs:224-266 | the breakdowns by source, severity and cause each sum to unresolved + ambiguous, and each label shows the sum of its own findings |
| `QualityReport.BreakDown` | crates/pal-cloud-seed/src/quality.rs:233-250 | the loop over the findings groups the open ones by each of the three tags |
| `SeedCompiler.CanonicalizeLearnedSkills` | crates/pal-cloud-seed/src/main.rs:1155-1194 | keeps the first record of each resolved skill, records the others as duplicates, and fails on conflicting records |
| `SeedCompiler.CanonicalizeGuaranteedPassives` | crates/pal-cloud-seed/src/main.rs:1196-1225 | keeps the first of each resolved passive and records the others as duplicates |
| `SeedRows.PassivesAre` | crates/pal-cloud-seed/src/main.rs:1196-1225 | the passives of a species are what its references resolve to, settled or not, each once and in the order of first occurrence; every reference is on record, as resolved or as a duplicate |
| `SeedRows.SkillsAre` | crates/pal-cloud-seed/src/main.rs:1155-1194 | the same for learned skills, under the resolved id and with their details; disagreeing records of one skill are the only reason to fail |
| `SeedRows.SpeciesTableIs` | crates/pal-cloud-seed/src/main.rs:745-840 | one row per species in order, with its skills and passives; the table fails exactly for a bad or repeated id or conflicting skills |
| `SeedRows.RecipeTableIs` | crates/pal-cloud-seed/src/main.rs:1328-1396 | one row per recipe; an unlock item is stored exactly when it is named and not blank, as what it resolves to, and is on record whenever it is named |
| `SeedRows.DropTableIs` | crates/pal-cloud-seed/src/main.rs:1398-1451 | one row and one record per drop, with its item and under the species its reference resolves to |
| `SeedCompiler.SpeciesRows` | crates/pal-cloud-seed/src/main.rs:745-840 | one row per species with valid, new ids, in order, or failure |
| `SeedCompiler.RecipeRows` | crates/pal-cloud-seed/src/main.rs:1328-1396 | one row per recipe; a named unlock item is resolved, recorded, and stored as NULL when blank |
| `SeedCompiler.DropRows` | crates/pal-cloud-seed/src/main.rs:1398-1451 | one row per drop under its resolved species, or failure for bad ids or items |
| `SeedCompiler.GenerateItemSeedRows` | crates/pal-cloud-seed/src/main.rs:1227-1459 | recipes and drops share one report; either failure fails the whole |
| `SeedCompiler.GenerateSeed` | crates/pal-cloud-seed/src/main.rs:731-940 | compiles the sources to tables while the report holds exactly the recorded references |
| `KnowledgeProjection.TwoWayAccounting` | crates/pal-cloud-seed/src/main.rs:1083-1092 | unresolved + ambiguous equals the Error Book rows plus the blank unlock items |
| `KnowledgeProjection.CrossCheckPassesExactly` | crates/pal-cloud-seed/src/main.rs:1083-1092 | the final check passes exactly when no recipe names a blank unlock item; so with non-blank ids it cannot fire |
| `KnowledgeProjection.CrossCheckCanFire` | crates/pal-cloud-seed/src/main.rs:1083-1092 | a concrete source that compiles although its blank unlock item makes the final check fire |
| `SeedRows.BlankStaysUnsettled` | crates/pal-cloud-seed/src/main.rs:1525-1529 | a blank reference never resolves to an item, and nothing else resolves to blank text |
| `KnowledgeProjection.LearnedGaps` | crates/pal-cloud-seed/src/knowledge.rs:142-165 | the skill gaps of one species are as many as its recorded skill references without a target |
| `KnowledgeProjection.PassiveGaps` | crates/pal-cloud-seed/src/knowledge.rs:166-188 | the same for guaranteed passives |
| `KnowledgeProjection.RecipeGaps` | crates/pal-cloud-seed/src/knowledge.rs:209-231 | the unlock gaps and the blank unlock items together are as many as the recorded unlock references without a target |
| `KnowledgeProjection.DropGaps` | crates/pal-cloud-seed/src/knowledge.rs:189-208 | the same for drops, without blanks |
| `KnowledgeProjection.EndpointRows` | crates/pal-cloud-seed/src/knowledge.rs:233-329 | the endpoint of a reference has as many node rows as its catalogue entry has rows |
| `KnowledgeProjection.EdgeOrGap` | crates/pal-cloud-seed/src/knowledge.rs:140-478 | each reference yields exactly one edge or exactly one Error Book row |
| `KnowledgeProjection.EdgesAndGapsPartition` | crates/pal-cloud-seed/src/knowledge.rs:140-480 | edges and Error Book rows together are as many as the references |
| `ProjectionRows.ReferencesAre` | crates/pal-cloud-seed/src/knowledge.rs:140-478 | the references are every skill and passive of a species, every drop and every stored unlock item, and no others |
| `ProjectionRows.NodesAre` | crates/pal-cloud-seed/src/knowledge.rs:233-329 | the graph has a node for every row of every catalogue, for every recipe and every rule, and no others |
| `ProjectionRows.PageNodesAre` | crates/pal-cloud-seed/src/knowledge.rs:546-589 | every node that is not a rule has a page, and every page a node of its own |
| `KnowledgeProjection.CompiledIsWellKeyed` | crates/pal-cloud-seed/src/main.rs:734-760 | compiled tables have unique keys and name only known output items |
| `KnowledgeProjection.PredictedCountsHold` | crates/pal-cloud-seed/src/main.rs:984-1001 | the node and page statements insert as many rows as predicted from the table sizes |
| `ReferenceKeys.CompiledReferencesSplit` | crates/pal-cloud-seed/src/knowledge.rs:140-480 | after a successful compilation every reference is in exactly one of edges and Error Book, and no two rows of either share a key |
| `ReferenceKeys.ReferencesAreKeyed` | crates/pal-cloud-seed/src/main.rs:1155-1225 | the compiled tables hold every reference once |
| `RuleNormalisation.NormaliseRules` | crates/pal-cloud-seed/src/main.rs:942-969 | every source rule is counted as skipped for one reason or represented by a row with its parents in order; no row represents anything else |
| `RuleNormalisation.OneRowPerRule` | crates/pal-cloud-seed/src/main.rs:955-968 | swapped pairs and duplicates merge into one row |
| `RuleNormalisation.NormalisationKeepsGenerations` | crates/pal-cloud-seed/src/main.rs:942-969 | planning with the normalised rows breeds every species in the same least generation as planning with the kept source rules |
| `RuleNormalisation.SameLeastGenerations` | crates/pal-companion-service/src/breeding.rs:139-178 | rule sets that cover each other up to parent order give the same species and generations |
| `RuleNormalisation.CompiledCountsHold` | crates/pal-cloud-seed/src/knowledge.rs:546-589 | for a whole compilation, nodes and pages come out as predicted |
| `LikePattern.PatternMeansSubstring` | crates/pal-cloud-worker/src/runtime.rs:2780-2786 | the pattern, read with ESCAPE backslash, matches exactly the texts in which the query occurs as a literal substring, for any character equality |
| `LikePattern.EscapedByCharacter` | crates/pal-cloud-worker/src/runtime.rs:2781-2784 | the three chained replaces escape each special character once and nothing else |
| `ChallengeGrammar.HeaderRoundTrip` | crates/pal-cloud-client/src/oauth_discovery.rs:59-143 | printing any non-empty list with distinct token names and parsing it gives the list back, whatever the values hold |
| `ChallengeGrammar.ParseAcceptsExactly` | crates/pal-cloud-client/src/oauth_discovery.rs:59-143 | a value is parsed to a list exactly when it is a comma-separated list of name = quoted text with whitespace around each, the quoted bodies spelling the values and the names distinct ignoring case |
| `ChallengeGrammar.DecodeMeansSpelling` | crates/pal-cloud-client/src/oauth_discovery.rs:124-143 | the decoder accepts exactly the bodies of plain characters and backslash pairs, as the text they spell |
| `ChallengeGrammar.ParseYieldsWellFormed` | crates/pal-cloud-client/src/oauth_discovery.rs:59-87 | the lists the parser can return are exactly the non-empty lists of token names distinct ignoring case |
| `ChallengeGrammar.DecodeUndoesEscape` | crates/pal-cloud-client/src/oauth_discovery.rs:124-143 | decoding undoes the escaping of any value |
| `ChallengeGrammar.JoinedIsSplit` | crates/pal-cloud-client/src/oauth_discovery.rs:89-122 | written parameters are split exactly where they were joined, whatever commas, equals signs and quotes their texts hold |
| `ChallengeGrammar.ScanWritten` | crates/pal-cloud-client/src/oauth_discovery.rs:89-122 | a written parameter is scanned as one piece, whatever follows it |
| `ChallengeParameters.SplitQuoted` | crates/pal-cloud-client/src/oauth_discovery.rs:89-122 | the scanner loop computes the specified split or refuses |
| `ChallengeParameters.DecodeQuoted` | crates/pal-cloud-client/src/oauth_discovery.rs:124-143 | the decoder loop computes the specified value or refuses |
| `ChallengeParameters.ParseParameters` | crates/pal-cloud-client/src/oauth_discovery.rs:59-87 | the parser loop computes the specified list or refuses |
| `OverlaySettings.ReducerKeepsValid` | crates/pal-domain/src/settings.rs:326-371 | from valid settings an action gives valid settings unless it would exceed 64 layers, and then fails for that reason only |
| `OverlayActions.SettingActions` | crates/pal-domain/src/settings.rs:329-342 | showing, hiding, locking, entering and leaving and the two display actions: what holds afterwards, and that no other field moves |
| `OverlayActions.ToggleActions` | crates/pal-domain/src/settings.rs:331-350 | the visibility and rotation toggles really change their field, no other, and undo themselves |
| `OverlayActions.FlagActions` | crates/pal-domain/src/settings.rs:351-356 | each filter flag toggle moves its own flag only and undoes itself |
| `OverlayActions.ZoomActions` | crates/pal-domain/src/settings.rs:343-344 | zooming moves by a quarter inside 0.5 and 4, stops at the bounds, and in and out undo each other away from them |
| `OverlayActions.LayerActions` | crates/pal-domain/src/settings.rs:357-387 | each layer action removes its own literal ids when one of them is enabled and adds them all otherwise; the other ids stay, in order |
| `OverlayActions.ValidMeans` | crates/pal-domain/src/settings.rs:265-323 | which settings are valid, in literal bounds |
| `OverlayActions.HotkeyFaults` | crates/pal-domain/src/settings.rs:413-444 | a hotkey fault names the first binding at fault and its reason |
| `OverlayActions.FilterFaults` | crates/pal-domain/src/settings.rs:303-320 | which filter fault is named for which lists |
| `OverlayActions.LockingEndsLocked` | crates/pal-core-win/src/settings_store.rs:137-154 | through the store, a locking action on valid settings always ends locked |
| `OverlaySettings.ToggleMeans` | crates/pal-domain/src/settings.rs:373-387 | a toggle removes the group when some of it is selected and otherwise adds it, keeps the other ids and never introduces duplicates |
| `OverlaySettings.ToggleThriceIsOnce` | crates/pal-domain/src/settings.rs:379-387 | three toggles of a group select the same ids as one |
| `OverlaySettings.SelectedMeans` | crates/pal-domain/src/settings.rs:373-377 | a group counts as selected when it shares an id with the enabled ones |
| `OverlaySettings.ValidateMapFilterIds` | crates/pal-domain/src/settings.rs:389-411 | the loop accepts exactly short enough lists of distinct well-formed ids, and names the first fault |
| `OverlaySettings.LayersAccepted` | crates/pal-domain/src/settings.rs:265-323 | what the filter validation accepts, in full |
| `SettingsStore.Store.ApplyPatch` | crates/pal-core-win/src/settings_store.rs:101-135 | the patch operation keeps the settings valid and answers and moves as specified |
| `SettingsStore.Store.ApplyAction` | crates/pal-core-win/src/settings_store.rs:137-154 | the same for actions |
| `SettingsStore.Store.ForceLocked` | crates/pal-core-win/src/settings_store.rs:156-172 | the same for the forced lock |
| `SettingsStore.ValidateFields` | crates/pal-core-win/src/settings_store.rs:193-208 | the loop names the first fault of a field mask |
| `SettingsStore.PatchTouchesOnlyMasked` | crates/pal-core-win/src/settings_store.rs:101-135 | an applied patch takes exactly the masked fields from the candidate |
| `SettingsStore.CopyFieldsMeans` | crates/pal-core-win/src/settings_store.rs:210-237 | the copy loop takes masked fields from the candidate and leaves all others |
| `SettingsStore.MixIsValid` | crates/pal-core-win/src/settings_store.rs:122-130 | settings mixed field by field from two valid settings are valid |
| `SettingsStore.ValidPatchApplies` | crates/pal-core-win/src/settings_store.rs:101-135 | with a valid candidate and the current version, a patch is applied exactly when its mask is well formed |
| `SettingsStore.PatchAnswers` | crates/pal-core-win/src/settings_store.rs:101-135 | each answer to a patch, with the requests it is given to; only an applied one changes anything |
| `SettingsStore.MaskFaults` | crates/pal-core-win/src/settings_store.rs:193-208 | the first bad entry of a mask decides: unspecified, unknown, or listed before |
| `SettingsStore.ActionRefusals` | crates/pal-core-win/src/settings_store.rs:137-154 | an action on valid settings is refused exactly for version overflow or a full layer list |
| `SettingsStore.ForceLockLocks` | crates/pal-core-win/src/settings_store.rs:156-172 | a forced lock fails exactly for version overflow and otherwise only locks the input |
| `ControlSession.Connection.HandleEnvelope` | crates/pal-core-win/src/control_session.rs:92-255 | a message moves session and store and is answered as specified |
| `ControlSession.FirstMessages` | crates/pal-core-win/src/control_session.rs:96-101 | a hello establishes the session in its role without an answer; any other first message is refused; the settings stay |
| `ControlSession.RefusalsMean` | crates/pal-core-win/src/control_session.rs:102-218 | each protocol error, with the messages it is given for; none of them touches the settings |
| `ControlSession.CommandsAreCarriedOut` | crates/pal-core-win/src/control_session.rs:125-194 | a command for the current version that changes something and fits is applied, and answered with the new settings |
| `ControlSession.PatchesAreCarriedOut` | crates/pal-core-win/src/control_session.rs:196-255 | a patch for the current version with a valid candidate and a well-formed mask is applied to the masked fields, and answered with the result |
| `ControlSession.Connection.Disconnect` | crates/pal-core-win/src/control_session.rs:82-90 | a disconnect of an established session forces the lock |
| `ControlSession.Connection.Respond` | crates/pal-core-win/src/control_session.rs:280-299 | responses take the next id, or overflow without change |
| `ControlSession.VersionsCountChanges` | crates/pal-core-win/src/control_session.rs:82-255 | over any interleaving of sessions, the version is 1 + the number of applied changes and the settings stay valid |
| `ControlSession.VersionNamesOneSettings` | crates/pal-core-win/src/settings_store.rs:101-172 | over any run versions never decrease and no version names two settings |
| `ControlSession.OneWinnerPerVersion` | crates/pal-core-win/src/settings_store.rs:101-154 | at most one request that expects a given version is applied |
| `ControlSession.AnswerMoves` | crates/pal-core-win/src/control_session.rs:82-255 | refusals change nothing; an applied change raises the version by one and leaves valid settings |
| `ControlSession.OverlayPatchesOnlyFilters` | crates/pal-core-win/src/control_session.rs:210-218 | a patch of an overlay session changes nothing but the filters |
| `ControlSession.CloseLocks` | crates/pal-core-win/src/control_session.rs:82-90 | after an established session closes, the input is locked, unless the version is exhausted |
| `ControlSession.ResponsesAreNumbered` | crates/pal-core-win/src/control_session.rs:280-299 | each session's responses carry the ids 1, 2, 3, … over any run |
| `AgentPoller.RunPoller` | crates/pal-agent/src/poller.rs:216-257 | the loop moves agent and exit as specified, turn by turn |
| `AgentPoller.RunConserves` | crates/pal-agent/src/poller.rs:216-257 | over every run, each sample delivered between two passed trust checks is either published under the next number or counted as a publish failure |
| `AgentPoller.TakeConserves` | crates/pal-agent/src/health.rs:58-82 | one turn keeps polls = emitted + failed, the numbers 1, 2, 3, … and the capped counters in step, counts a poll exactly for a delivered sample, and shows an error exactly while degraded |
| `AgentPoller.CountersAddUp` | crates/pal-agent/src/health.rs:58-82 | after a boot and any run too short to saturate a counter, successful polls = emitted samples + publish failures, next sequence = 1 + emitted samples, and the published numbers are 1, 2, 3, … |
| `AgentPoller.PublishesOnlyBetweenTrustChecks` | crates/pal-agent/src/poller.rs:229-253 | every number a run publishes comes from a turn of its own that delivered the subject's sample between its own two passed trust checks, in the order of the turns and without a gap |
| `AgentPoller.NothingAfterTrustLost` | crates/pal-agent/src/poller.rs:229-246 | a lost trust check ends the run and nothing is published in that turn or later |
| `AgentHealth.ExitsMean` | crates/pal-agent/src/poller.rs:219-246 | which turns end the loop as trust lost and which as shut down |
| `AgentHealth.RunStopsAtExit` | crates/pal-agent/src/poller.rs:216-257 | a run ends with the first turn that ends the loop, and only then |
| `AgentHealth.HealthShowsRun` | crates/pal-agent/src/health.rs:59-96 | after any run the report counts the failures since the last successful poll and names the last of them |
| `AgentHealth.FailedPollsAreCounted` | crates/pal-agent/src/health.rs:66-71 | failed polls are the failed fetches between two passed trust checks, up to saturation |
| `AgentPoller.AgentPipeline.EmitInner` | crates/pal-agent/src/pipeline.rs:84-145 | publishes under the next sequence number and advances it, or changes nothing |
| `AgentPoller.AgentPipeline.EmitSample` | crates/pal-agent/src/pipeline.rs:73-82 | counts a failed publication |
| `AgentPoller.AdmissionIsBacked` | crates/pal-agent/src/poller.rs:87-100 | whenever a remote request is admitted, the server's identity was confirmed less than thirty seconds before or by this very request |
| `AgentPoller.RemoteIdentityCheck.RevalidateIfDue` | crates/pal-agent/src/poller.rs:87-100 | a due check is renewed only by the expected identity |
| `AgentPoller.RemoteIdentityCheck.Confirm` | crates/pal-agent/src/poller.rs:173-179 | another identity is refused and leaves the time of the last confirmation |
| `OverlaySupervisor.Supervisor.DoTick` | crates/pal-core-win/src/overlay_supervisor.rs:90-138 | one tick moves the supervisor and reports as specified |
| `OverlaySupervisor.DelayIsCappedPower` | crates/pal-core-win/src/overlay_supervisor.rs:160-163 | the delay after n failures is min(2^(n-1), 30) seconds, hence between 1 and 30 |
| `OverlaySupervisor.AttemptsBackOff` | crates/pal-core-win/src/overlay_supervisor.rs:90-138 | without a stable child, attempt n + 1 comes at least the sum of the first n delays after the first |
| `OverlaySupervisor.AttemptsAreSpaced` | crates/pal-core-win/src/overlay_supervisor.rs:90-138 | with stable resets too, attempts are at least one second apart |
| `OverlaySupervisor.AttemptsBackOffAgain` | crates/pal-core-win/src/overlay_supervisor.rs:90-138 | with stable resets, the attempts after the latest reset back off from its time on: the nth comes at least the sum of the first n delays after it, and the waits between them grow the same way |
| `OverlaySupervisor.OneProcessExactly` | crates/pal-core-win/src/overlay_supervisor.rs:91-107 | at most one process lives, however the run goes on from any of its points, if and only if no wait fails on a live child |
| `OverlaySupervisor.AtMostOneExactly` | crates/pal-core-win/src/overlay_supervisor.rs:118-131 | a run has at most one process at every time if and only if no start happens while a forgotten child still lives |
| `OverlaySupervisor.TwoProcesses` | crates/pal-core-win/src/overlay_supervisor.rs:101-106 | a concrete run with two live processes: a failed wait drops the handle of a live child without ending it, and a second later another is started |

## Left out

- The bridge assumes sequentially consistent atomic steps; weak memory, wrap-around of the 64-bit number, a writer that dies inside a call and a new writer beside a live reader are not modelled.
- The search catalogue's writer and reader appear as protocol steps only, not as methods over a buffer; so does the interleaving of frame calls, whose sequential form is `FrameRegion.Region`.
- Heartbeats, consumer actions, recentring, search selection, the compatibility check of the header and the mapping itself are left out of the bridge.
- `frame_alpha` is an uninterpreted byte per position and size; opacity and zoom are reals, so NaN does not occur; pan deltas start after quantisation.
- FrameRegion.Region.InitializeHeader: states what a start leaves behind; a live reader beside a writer that starts at an odd number may be shown what `SeqLock.OddCallExposed` describes.
- SQL and JSON are read as sequences of typed rows; concatenated text keys are tuples; localisation, aliases, ingredients, quantities and evidence columns carry no reference and are left out, as are the edges of recipe products, ingredients, breeding rules and pages.
- The gate on item catalogue identity and the expected counts, the limits on quantities, and the file, hash and manifest output of the compiler are left out.
- QualityReport.Builder.Finish: does not state the samples of a finding and the summary's derived totals, which are plain sums of the counters.
- RuleNormalisation.NormalisationKeepsGenerations: compares generations and not chosen rule ids, because the source's rules have no ids before they are stored.
- The plan's two constant text fields are left out of `Breeding.Plan`.
- `DiscoveryChallenge::parse`, the scan for a second challenge and the work-suitability pattern are one-branch checks around the modelled functions.
- The protocol gate, protobuf decoding and the encoding of answers are verdicts on a message (`ControlSession.Envelope`); the mutex is the atomicity of each event.
- The telemetry publisher, clocks and random source are inputs of a turn (`AgentPoller.Turn`); heading and coordinates are not part of this model.
- OverlaySupervisor.AttemptsBackOff: covers runs of ticks without an explicit shutdown, which ends the supervisor; spawning, the answer about the child and the end of forgotten processes are inputs of a tick.
- Cloud request handlers, the OAuth network flow, catalogue scoring, server profiles, cursors and entity tags would only add single-branch members.
