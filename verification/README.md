# A verified model of the SIEM's core

This project models the hardest logic of a security event store in Dafny and proves what that
logic is for. It covers the path an event takes (ingest actions, the ingest queue, the chunked
writer), what is derived from stored events (kill chains, backfills of derived columns), the lookups
that have a fast form and a simple meaning (IP resolution, data-model membership), content packs,
and the scanners and printers at the edges. `dafny verify dfyconfig.toml` checks everything.

Code that the program runs by changing state is imperative here (classes, loops with invariants),
each proved equal to a function; the main results are statements about those functions, over every
input, every run or every interleaving. What such a function computes is stated on its own as well,
in terms of the events, rows and rules it is given (the lemmas whose names end in `Means`, and others
listed below).

| module | program file | subject |
|---|---|---|
| `Prelude`, `Sorting` | (shared) | sequences, and `list.sort` as a stable sort |
| `DisjointSets`, `Alerts`, `KillChain` | app/killchain.py | union-find with path compression computes connected components |
| `Backfills` | app/db.py | one chunked, resumable re-derivation loop with its stamp |
| `DerivedContext` | app/db.py, app/enrich/geo.py | the three jobs run through it and the column two of them share |
| `AssetIndexes` | app/assets/index.py | memoised longest-prefix match |
| `CimSpec`, `CimMatch` | app/cim/spec.py, app/cim/match.py | compiled membership against the reference walk |
| `PackCim` | app/contentpack.py | the additive registry merge |
| `ContentPacks` | app/contentpack.py, app/db.py | planning, applying, and the lifecycle invariant |
| `IngestQueues` | app/streaming.py | queue, workers and counters under every schedule |
| `WriteStreams` | app/pipeline.py, app/db.py | chunked writing against per-event writing |
| `Scrubbing` | app/ingest_actions.py | replacing literal values in text |
| `IngestEvents`, `IngestActions` | app/ingest_actions.py | masks, routes and the rule evaluator |
| `JsonDepth` | app/util.py | the nesting guard against the JSON grammar of RFC 8259 (sections 2 to 7) |
| `SqlSplit` | app/db.py | the statement splitter |
| `LineChunker` | clients/logocean_import.py | the greedy chunker |
| `CsvCells`, `AssetCsv` | app/assets/csvio.py | registry export and import |
| `AssetImports` | app/db.py, schema.sql | the import transaction and alias ownership |

Parameters stand for what the program calls but this model does not contain: lower-casing and
stripping (`fold`), address parsing, alias normalisation, flattening and rule matching, registry, geo
and membership resolution, detection and threat intelligence, the set of non-ASCII alphanumerics, and
the clock (the fallback time).

## What the proofs turned up

Where the code does not do what its documentation promises, the model follows the code, a lemma or
method shows an input, and another says exactly when the promise holds.

- **`events_lost` also counts events that are stored.** A group whose write raises after its commit
  (in the alert dispatch, the row count or the batch update, app/streaming.py:76-87) is in the table
  and in `events_lost`, and its rows are missing from `written`, against app/streaming.py:155 and
  app/streaming.py:47. `StoredAndCountedLost` is an instance; `EventsBalance` and `RowsStored` say by
  how much the counters are off, and that they balance exactly when no group has raised after its
  commit.
- **A replacement can rebuild what it replaced**, and so can a later pair's. `RebuildsExactly` decides
  it for every value and replacement from their edges alone, `ApartExactly` does for other pairs'
  replacements, and `ReplacementCanRebuild` is an instance.
- **Short values can survive scrubbing** in the same way, and in one more: a value under eight
  characters with one non-ASCII alphanumeric end and an ASCII word character at the other can be left
  standing as a whole token (`LeakWitness` builds the text). `ShortValueIsGone` gives the exact
  condition; with a replacement apart from the value only the second way is left (`ApartOnlyLeaks`).
- **An identity's `email` field does not survive export.** `email` is both a column and an alias kind,
  and both write one cell, so the alias list overwrites the field, against the round trip promised at
  app/assets/csvio.py:182-185. `EmailIsLost` is an instance, `IdentityFieldsReturn` the exact
  condition. An empty registry does not round-trip either: its export is refused for having no rows
  (`ExportThenImport`); and a NULL comes back as what an empty cell is read as (`FieldIsReturned`).
- **An upgrade can miss a rule's new title or enabled flag.** A rule counts as unchanged on its YAML
  text alone (app/contentpack.py:1462): `NewTitleIsMissed` is an instance, and `UpgradeIsReinstall`
  says exactly which rows differ.
- **Overwriting breaks ownership** exactly when it overwrites anything: when the dry run without it
  has a conflict (`OverwriteKeepsSound`, `HistoryIsSound`). After that an upgrade can delete another
  pack's object, because its deletions do not ask for the owner (app/contentpack.py:1476-1489):
  `UpgradeDeletesAnothers` says exactly when, `OverwriteDeletesAnothersRule` is an instance.
- **Moving an alias within one import file depends on row order** (app/db.py:3353-3361):
  `MovingAnAliasNeedsTheOldOwnerFirst` shows both orders, and `ImportAccepted` is the exact condition.
- **`done` is false when the bound equals the number of rows** (app/db.py:970-973), though nothing is
  left to visit: `ExactBoundIsNotDone` is an instance, `DoneMeans` the exact condition.

Other things hold as promised, or better. A full pass that is done leaves no stale row, ids being
above zero (`FullPassLeavesNothingStale`; `StampIsTrue` is the condition without that). Membership
resolved once and threaded into both consumers is what each would have derived, tags being distinct
(`DistinctTagsThread`; `ThreadedTagsAgree` without that). Kill chains need no distinct alert ids:
`BuildChains` holds without. And the splitter reads a dash directly before a comment as part of the
comment, as the database does, so `SplitInvertsJoin` needs no exception for it; `DashAgainstComment`
says which statements vanish.

## Model

| member | source | states |
|---|---|---|
| `DisjointSets.DisjointSet.Add` | app/killchain.py:116-117 | a new element starts as its own representative; a known one changes nothing |
| `DisjointSets.DisjointSet.Find` | app/killchain.py:119-125 | the search ends, returns the element's representative, and compressing the path changes no element's representative |
| `DisjointSets.DisjointSet.Union` | app/killchain.py:127-130 | the two classes become one under the second root, and no other element moves |
| `DisjointSets.RepIsEndOfParentLinks` | app/killchain.py:119-125 | the representative kept by the proof is the element the parent links really end in |
| `KillChain.NeighboursReachFar` | app/killchain.py:163-167 | on a time-sorted timeline, joining neighbours within the gap joins every pair within the gap |
| `KillChain.TimelineComplete` | app/killchain.py:156-167 | so after one entity's walk every linked pair on that entity shares a representative |
| `KillChain.RepsAreComponents` | app/killchain.py:141-143 | a sound and complete union-find puts two ids in one class exactly when a path of links joins them |
| `KillChain.LinkTimeline` | app/killchain.py:163-167 | one entity's walk keeps every earlier join, joins only linked ids and completes that entity |
| `KillChain.WalkTimeline` | app/killchain.py:165-167 | the loop over neighbours joins every close pair, joins only linked ids and separates nothing |
| `KillChain.LinkAll` | app/killchain.py:149-167 | all walks together: two ids have one representative exactly when they are connected under the all-pairs relation |
| `KillChain.ChainsShareNothing` | app/killchain.py:141-146 | two chains with an alert id in common are the same chain |
| `KillChain.BuildChains` | app/killchain.py:133-180 | the result is exactly the connected components that span enough distinct stages of the kill chain, disjoint by id, by size and then earliest activity; ids need not be distinct |
| `KillChain.SharedHostIsStory` | app/killchain.py:163-176 | two alerts of one host within the gap and in different stages are in one component with at least two stages |
| `Alerts.TacticsAreStages` | app/killchain.py:175-175 | the stages of a group are those of all its alerts together: every known stage some tactic of some alert stands for |
| `Alerts.StageOfLabel` | app/killchain.py:50-59 | a label stands for a stage exactly when it spells its key, underscores or blanks for hyphens, behind at most one `attack.` |
| `Alerts.EntitiesMean` | app/killchain.py:80-87 | an alert's actors are exactly its non-empty user, host and address |
| `Alerts.TimeOfLast` | app/killchain.py:105-107 | an id's time is that of its last alert: the event time unless missing or zero, else the creation time, else zero |
| `Alerts.EarliestIsLeast` | app/killchain.py:179-179 | the earliest activity is the time of one of the alerts, and none is earlier |
| `Alerts.ItemsMean` | app/killchain.py:149-149 | taking part are exactly the alerts that carry an id, under that id |
| `Backfills.PageCovers` | app/db.py:918-939 | a keyset page is exactly the matching rows after the cursor up to its own last id, and the rest follows it |
| `Backfills.WritesRederive` | app/db.py:942-1058 | updating by (id, time) the rows of a page that differ re-derives exactly that stretch and nothing else |
| `Backfills.CollectWrites` | app/db.py:942-1058 | the comparison loop binds one write per row whose stored value differs from its derivation |
| `Backfills.CommitPage` | app/db.py:942-1058 | one commit re-derives exactly the page's stretch of ids and counts its stale rows |
| `Backfills.RederivedResumes` | app/db.py:962-968 | stopping at a committed id and resuming from it gives the table of one run |
| `Backfills.RederivedTwice` | app/db.py:962-968 | a second run changes nothing and finds no stale row |
| `Backfills.Sweep` | app/db.py:942-1058 | every row ahead of the cursor is visited once, whatever the page size, bound, kill or row whose derivation raises |
| `Backfills.Backfill` | app/db.py:942-1058 | any chunk size, bound, kill or raising row: the table is re-derived up to the returned cursor, the counts are those of that stretch, the run finishes exactly when no row it had to visit raises (with no bound and no kill), `done` says exactly that fewer rows than the bound were there, and only a done full pass moves the stamp |
| `Backfills.DoneMeans` | app/db.py:970-973 | `done` holds exactly when there was no bound or fewer matching rows than the bound |
| `Backfills.ExactBoundIsNotDone` | app/db.py:970-973 | an instance: one row and a bound of one, the row brought up to date, nothing left to visit, and the run not done |
| `Backfills.StampIsTrue` | app/db.py:970-973 | after a full pass nothing is stale exactly when the rows whose id is not above zero were current |
| `Backfills.FullPassLeavesNothingStale` | app/db.py:970-973 | ids being above zero (schema.sql:26), a full pass that is done leaves no stale row |
| `DerivedContext.CanonicalTagsFacts` | app/enrich/geo.py:152-170 | the canonical labels are sorted, without repetition, and exactly the folded non-blank ones |
| `DerivedContext.CanonicalTagsBySet` | app/enrich/geo.py:152-170 | labels that are equal as sets have one canonical array |
| `DerivedContext.NoLabelLost` | app/db.py:449-485 | at ingest and by either backfill the column holds exactly the folded labels the two resolvers give, sorted and once each, and NULL exactly when they give none |
| `DerivedContext.ColumnsAreResolved` | app/db.py:346-357 | the other columns are what the resolvers say: the registry's when it knows an asset, an identity or a label, the geo layer's when it knows a country, an ASN or a label, membership whenever it can be evaluated, NULL otherwise |
| `DerivedContext.JobsWriteTheirOwn` | app/db.py:387-397 | each backfill writes its own columns and the shared one as ingest would, and leaves the others |
| `DerivedContext.ProducersSymmetric` | app/db.py:449-485 | the merged column does not depend on which producer is listed first |
| `DerivedContext.JobsSettle` | app/db.py:449-485 | re-deriving a row a run has just derived gives the same row, for all three backfills |
| `DerivedContext.AssetsAndGeoCommute` | app/db.py:2887-3003 | assets then geo, and geo then assets, end in one table |
| `DerivedContext.RepeatingIsFree` | app/db.py:3197-3305 | repeating either after both changes nothing and finds nothing to write |
| `DerivedContext.AnyInterleavingConverges` | app/db.py:2952-2973 | after any interleaving of committed pages of the three runs, with any time windows, each row is settled by exactly the runs that reached it |
| `DerivedContext.SameReachSameTable` | app/db.py:3252-3274 | two histories that reach the same rows end in the same table, whatever their order and windows |
| `DerivedContext.HistoryMeetsIngest` | app/db.py:508-566 | a row all three runs reached, in whatever pages and windows, holds what ingest would store for it |
| `DerivedContext.UnresolvedIsStored` | app/db.py:326-363 | an event whose registry context cannot be resolved is stored without it, its geo context and labels kept |
| `DerivedContext.IngestedNotStale` | app/db.py:508-566 | a freshly ingested row is left alone by all three backfills |
| `DerivedContext.BackfillGeo` | app/db.py:3197-3305 | refused exactly when the asset index is empty while entries are declared, and then nothing changes; otherwise the run with its counts, `done` and stamp, ended early by a row whose registry context raises |
| `AssetIndexes.SameLengthSameNetwork` | app/assets/index.py:105-108 | two networks of one prefix length around one address are equal |
| `AssetIndexes.LongerIsInside` | app/assets/index.py:54-57 | of two networks around one address the longer lies inside the shorter |
| `AssetIndexes.LongestIsLongest` | app/assets/index.py:54-57 | longest-prefix match finds a network exactly when one contains the address, and none is longer |
| `AssetIndexes.LongestOwner` | app/assets/index.py:54-57 | with each network owned once the answer names that owner |
| `AssetIndexes.SortedScanIsLongest` | app/assets/index.py:66-67 | the first hit of the list sorted most specific first is the longest-prefix match, duplicates included |
| `AssetIndexes.AssetIndex.constructor` | app/assets/index.py:39-70 | builds both alias tables and the sorted networks from aliases of enabled assets and identities only |
| `AssetIndexes.AssetIndex.IdentityForAlias` | app/assets/index.py:76-77 | an identity found by alias is always an enabled one |
| `AssetIndexes.AssetIndex.Tables` | app/assets/index.py:49-65 | the alias dictionary and the readable networks, entry by entry, all owned by enabled assets |
| `AssetIndexes.AssetIndex.AssetForIp` | app/assets/index.py:79-112 | after any lookups and memo clears the answer is that of `ResolveMeans`; the owner is enabled and the memo stays within its bound |
| `AssetIndexes.ResolveMeans` | app/assets/index.py:79-112 | an address is answered by its own alias, else by the owner of a declared network around it than which none is more specific, else not at all |
| `AssetIndexes.ContainsIsRange` | app/assets/index.py:103-108 | a network contains exactly the addresses of its range, 2 to the power of 32 or 128 less its prefix length, of its own version |
| `AssetIndexes.AliasMapMeans` | app/assets/index.py:45-48 | an alias is found exactly under its kind and value |
| `AssetIndexes.DeclaredMeans` | app/assets/index.py:57-64 | the declared networks are exactly the readable `cidr` aliases |
| `AssetIndexes.LiveMeans` | app/assets/index.py:45-48 | an alias is live exactly when its owner is enabled |
| `AssetIndexes.SubnetsAreOrdered` | app/assets/index.py:66-66 | networks are sorted by falling prefix length and then by text |
| `CimMatch.CompileFailsOnMalformed` | app/cim/match.py:245-262 | compilation fails exactly when some term lists no value, names a column that is not allowed, has no raw path, or reads a constant or expression |
| `CimMatch.NarrowingIsHarmless` | app/cim/match.py:172-195 | coercing only the columns some term reads decides every term as coercing all of them does |
| `CimMatch.ClauseAgrees` | app/cim/match.py:285-295 | a compiled clause hits exactly when the reference walk says the clause matches |
| `CimMatch.ModelAgrees` | app/cim/match.py:298-305 | a compiled model hits exactly when the reference walk says the model matches |
| `CimMatch.TermMeans` | app/cim/match.py:115-156 | a term matches exactly when the column, or the first path of `raw` that leads to a value, holds a text, bytes, number, boolean or other value whose rendering is listed; null, objects and arrays never match |
| `CimMatch.FirstPathDecides` | app/cim/match.py:205-228 | the value read off `raw` is the one at the first path, walked object by object, that leads to anything but null |
| `CimMatch.SomePathDecides` | app/cim/match.py:205-228 | and there is a value only if some path leads to one |
| `CimMatch.ModelMeans` | app/cim/match.py:298-305 | a model matches exactly when all terms of some non-empty clause have what they want |
| `CimMatch.NumbersMeetText` | app/cim/match.py:115-138 | a number in `raw` meets the listed text: an integer event id is recognised |
| `CimMatch.WellFormedMeans` | app/cim/match.py:245-262 | well formed are exactly the registries whose terms list a value and read an allowed column or some path |
| `CimMatch.ClauseHits` | app/cim/match.py:384-415 | the for/else over a clause: it hits exactly when the clause is not empty and no term fails |
| `CimMatch.ModelHits` | app/cim/match.py:384-415 | the loop over clauses with its early exit hits exactly when some clause does |
| `CimMatch.HitTags` | app/cim/match.py:384-415 | the tags appended are those of the models that hit, in registry order |
| `CimMatch.PlanMeansReference` | app/cim/match.py:330-340 | the compiled plan gives the tags of exactly the models the reference walk matches |
| `CimMatch.PlanCache.PlanFor` | app/cim/match.py:343-376 | in every reachable cache state, after eviction and identity reuse, the plan returned is the compilation of the registry asked for |
| `CimMatch.PlanCache.Clear` | app/cim/match.py:379-381 | clearing leaves a valid, empty cache |
| `CimMatch.TagsFor` | app/cim/match.py:384-415 | succeeds exactly on a well-formed registry and returns the sorted tags of the models that match by the reference walk |
| `CimMatch.MatchingTagsFacts` | app/cim/match.py:298-305 | a tag is returned exactly when a model of that tag matches |
| `CimMatch.TagsForIsTheSortedSet` | app/cim/match.py:384-415 | with distinct tags the result is the one sorted, repetition-free list of the matching tags |
| `CimMatch.ThreadedTagsAgree` | app/cim/match.py:418-446 | a frozen set of the tags, sorted again, is the derived list exactly when that list has no repetition |
| `CimMatch.DistinctTagsThread` | app/cim/registry.py:283-285 | with distinct tags, which the registry loader demands, threading membership always stores what deriving it would |
| `PackCim.AppendEntry` | app/contentpack.py:1553-1562 | one entry's clauses and fields are appended, or the merge fails on an unreadable clause or a field name already there |
| `PackCim.ExtendModel` | app/contentpack.py:1550-1567 | a model with its entries appended in order |
| `PackCim.ByModel` | app/contentpack.py:1532-1540 | entries are collected under their model's tag in order, or the merge fails on an unknown model |
| `PackCim.MergeCim` | app/contentpack.py:1517-1568 | the loops compute the merged registry or fail as a whole |
| `PackCim.TargetMeans` | app/contentpack.py:1533-1537 | an entry is aimed at the model with its tag if there is one, else at the last of that name, else at none |
| `PackCim.MergeAccepted` | app/contentpack.py:1532-1563 | a merge succeeds exactly when every entry is aimed at a model, every clause and field can be read, and the new field names differ from the model's and from each other |
| `PackCim.MergedHolds` | app/contentpack.py:1548-1567 | a merged model holds exactly its own clauses and fields and those the entries aimed at it spell |
| `PackCim.MergeKeepsWhatWasThere` | app/contentpack.py:1520-1530 | model order, names and tags stay, old clauses and fields are a prefix, field names stay unique, and the version rises exactly when fields were added |
| `PackCim.ModelAfterMerge` | app/contentpack.py:1524-1526 | a merged model matches exactly when it did or one of its entries' clauses does |
| `PackCim.MergeIsAdditive` | app/contentpack.py:1517-1568 | an event carries a tag under the merged registry exactly when it did before or an entry aimed at that model has a matching clause |
| `PackCim.MergedIsWellFormed` | app/contentpack.py:1517-1568 | merging into a well-formed registry gives a well-formed one, so evaluating it never fails |
| `PackCim.OverlayMeans` | app/contentpack.py:1805-1822 | under the overlay an event carries a tag exactly when it did as shipped or an entry aimed at it has a matching clause; entries that do not all merge leave the shipped registry as it is |
| `PackCim.OverlayIsSafe` | app/contentpack.py:1805-1822 | the overlay can always be evaluated and loses no membership, whether the packs merge or not |
| `ContentPacks.PlanInstallChanges` | app/contentpack.py:1421-1492 | the loops list the pack row, one change per object with its verb, then the deletions of what this version dropped |
| `ContentPacks.Database.ApplyContentPack` | app/db.py:2449-2503 | the transaction upserts, then deletes, then replaces or removes the pack row, which becomes the newest |
| `ContentPacks.ApplyPlan` | app/contentpack.py:1684-1735 | a plan with a problem or a conflict is refused and the database is as it was; otherwise everything staged is committed at once |
| `ContentPacks.InstallAccepted` | app/contentpack.py:1408-1418 | a plan is accepted exactly when there is no problem and, unless it may overwrite, every object already there is the pack's own |
| `ContentPacks.RowMeans` | app/contentpack.py:1669-1682 | an object is written column by column, empty optional texts as NULL |
| `ContentPacks.UnchangedExactly` | app/contentpack.py:1400-1405 | a stored parser reads as unchanged exactly when it was written from the same entry, a rule exactly when the YAML text is the same |
| `ContentPacks.InstalledEntry` | app/contentpack.py:1446-1464 | after an accepted install an object is the document's, or the old row if it read as unchanged; without overwrite a row already there was the pack's own |
| `ContentPacks.InstalledElsewhere` | app/contentpack.py:1476-1489 | other rows stay, except those the previous version of the pack listed, which go |
| `ContentPacks.UninstalledRows` | app/contentpack.py:1495-1511 | a removal is always accepted, deletes the pack's objects it owns or nobody owns, and nothing else |
| `ContentPacks.OwnerIsHolder` | app/contentpack.py:1738-1753 | while packs are disjoint the recorded owner is the one pack that lists the object, or nobody |
| `ContentPacks.SameIsSettled` | app/contentpack.py:1400-1405 | a stored row that reads as the new entry is the row the new entry would write |
| `ContentPacks.InstallKeepsSound` | app/contentpack.py:1421-1492 | an accepted install or upgrade without overwrite keeps packs disjoint, their objects as documented, hand-authored rows untouched, and no stray rows |
| `ContentPacks.UninstallKeepsSound` | app/contentpack.py:1495-1511 | a removal keeps the same invariant |
| `ContentPacks.StepKeepsSound` | app/contentpack.py:1684-1735 | one operation keeps the invariant exactly when it overwrites nothing that its dry run without overwrite would call a conflict |
| `ContentPacks.HistoryIsSound` | app/contentpack.py:1684-1753 | over every history of installs, upgrades, overwrites, refused plans and removals from any hand-authored start, the invariant holds throughout exactly when every overwriting import is one the dry run without overwrite accepts |
| `ContentPacks.PlainHistoryIsSound` | app/contentpack.py:1421-1511 | so it always holds without overwrite |
| `ContentPacks.RowsComeFromDocuments` | app/contentpack.py:1460-1467 | every row not authored by hand is, title and enabled flag included, what some document of the history wrote for that object |
| `ContentPacks.InstallThenUninstall` | app/contentpack.py:1495-1511 | installing a pack that was not there and removing it restores tables and packs exactly |
| `ContentPacks.UpgradeIsReinstall` | app/contentpack.py:1421-1492 | an upgrade ends like removal and fresh install, except exactly for a rule with the same YAML text under another title or enabled flag, which keeps its old row |
| `ContentPacks.NewTitleIsMissed` | app/contentpack.py:1460-1467 | an instance: version 2 of a pack gives its rule a new title, is accepted, and the stored row keeps the old one |
| `ContentPacks.OverwriteDeletesAnothersRule` | app/contentpack.py:1476-1489 | with overwrite, a later upgrade of the first owner deletes a rule the second pack owns |
| `ContentPacks.OverwriteKeepsSound` | app/contentpack.py:1408-1418 | importing with overwrite keeps the invariant exactly when the plan without it has no conflict |
| `ContentPacks.UpgradeDeletesAnothers` | app/contentpack.py:1476-1489 | an upgrade deletes a row another pack owns exactly when its previous version lists the object, the new one does not, and the recorded owner is another pack |
| `ContentPacks.DisjointDropsOwn` | app/contentpack.py:1476-1489 | which never happens while packs are disjoint |
| `IngestQueues.GroupItems` | app/streaming.py:57-64 | one group per source, holding exactly that source's events in order |
| `IngestQueues.GroupedCounts` | app/streaming.py:57-64 | grouping neither loses nor adds an event |
| `IngestQueues.GroupedOrder` | app/streaming.py:57-64 | grouping keeps the order within a source |
| `IngestQueues.IngestQueue.Submit` | app/streaming.py:102-110 | accepts and counts, or drops and counts exactly when the queue is full |
| `IngestQueues.IngestQueue.Take` | app/streaming.py:127-137 | a worker buffers the oldest item and starts a flush once its buffer reaches the limit |
| `IngestQueues.IngestQueue.Timeout` | app/streaming.py:138-140 | a worker whose wait times out flushes what it holds |
| `IngestQueues.IngestQueue.WriteGroup` | app/streaming.py:146-178 | one group is skipped when empty, counted as written when its write returns, or moves both error counters when its write raises, before or after the commit; after the last one the buffer is empty |
| `IngestQueues.EverySchedule` | app/streaming.py:91-178 | for any workers and any interleaving: every accepted event is queued, held, committed or discarded; the queue keeps its bound, is served first in first out, every worker's count is its buffer's size and below the limit between flushes, each worker keeps each source's order; `written` is the rows of groups whose write returned, `flush_errors` the groups whose write raised, `events_lost` their events, discarded or not |
| `IngestQueues.RefusedExactlyWhenFull` | app/streaming.py:102-110 | in every reachable state an item is refused exactly when the queue is bounded and holds that many items; otherwise it is queued last and counted |
| `IngestQueues.LimitsAreKept` | app/streaming.py:91-101 | bound, flush limit and number of workers stay as given, at least one for the last two |
| `IngestQueues.FlushStartsAtLimit` | app/streaming.py:127-137 | in every reachable state taking an item starts a flush exactly when the buffer then holds at least the limit in events, and the flush is all of it, one group for each source, in order |
| `IngestQueues.TimeoutFlushesAll` | app/streaming.py:138-140 | a timeout flushes all the worker holds |
| `IngestQueues.EventsBalance` | app/streaming.py:43-49 | in numbers: accepted, plus the events of groups that raised after their commit, is queued + held + committed + `events_lost`; so the plain balance holds exactly when no group has raised after its commit |
| `IngestQueues.RowsStored` | app/streaming.py:47-47 | the rows in the table are those `written` counts and those of groups that raised after their commit |
| `IngestQueues.StoredAndCountedLost` | app/streaming.py:67-88 | an instance: one event, one worker, a write that raises after its commit; the event is stored and counted as lost |
| `IngestQueues.OneWorkerIsFifo` | app/streaming.py:127-178 | with one worker each source's events are dealt with in exactly the order submitted |
| `IngestQueues.EveryStepDrains` | app/streaming.py:127-178 | without new items every step of a worker brings the system strictly closer to rest, in any order |
| `IngestQueues.NeverStuck` | app/streaming.py:127-140 | while anything is queued or held some worker can step |
| `IngestQueues.AtRest` | app/streaming.py:146-164 | at rest every accepted event has been committed or discarded, never both, and the counters are off by exactly the events of groups that raised after their commit |
| `WriteStreams.Store.InsertEvents` | app/db.py:568-597 | refuses membership that is not index-aligned; else rows are inserted once per identity, with the membership threaded in or, where there is none, their own |
| `WriteStreams.AlignedRows` | app/db.py:576-590 | threading each row its own membership stores what deriving it would |
| `WriteStreams.Store.InsertAlerts` | app/db.py:1232-1256 | alerts are inserted once per rule and event, and the new ones are reported when asked for |
| `WriteStreams.Store.UpsertBaselines` | app/pipeline.py:70-91 | aggregating a chunk and upserting it is upserting every sighting |
| `WriteStreams.AggregateThenUpsert` | app/db.py:1595-1611 | merging an aggregate by least, greatest and sum is merging its sightings one by one |
| `WriteStreams.SeeMeans` | app/db.py:1595-1611 | a baseline row holds the earliest and latest of its old value and all sightings, and the number of them |
| `WriteStreams.Queue` | app/pipeline.py:145-152 | each alert is queued with the suppression that fired, and the counters are those of the queue |
| `WriteStreams.Store.Flush` | app/pipeline.py:154-167 | one flush writes the chunk, its alerts, its suppression counts and its baselines |
| `WriteStreams.ChunksCompose` | app/pipeline.py:154-167 | writing two chunks in turn is writing their concatenation, in all five tables |
| `WriteStreams.WriteStream` | app/pipeline.py:103-239 | for every chunk size the tables end as if each kept event had been written alone, tags stay aligned, total = kept + dropped, and the alerts returned are the new ones not suppressed |
| `WriteStreams.RowsMean` | app/db.py:568-597 | every kept event is stored, old rows stay, and every new row is a kept event with its own tags |
| `WriteStreams.AlertsMean` | app/db.py:1232-1256 | an alert is stored exactly when it was or some kept event raises it, a new one with the suppression that matches it |
| `WriteStreams.ReportedMean` | app/pipeline.py:236-239 | handed back are exactly the alerts that some kept event raises, were not stored and are not suppressed |
| `WriteStreams.HitsMean` | app/pipeline.py:145-152 | a suppression's counter rises by the number of alerts it hides |
| `WriteStreams.NodeSightings` | app/risk.py:54-63 | an entity's sightings are the times of exactly the kept events that name it as user, host or source address |
| `WriteStreams.LinkSightings` | app/risk.py:66-79 | and a link's those of the events that name both its ends |
| `WriteStreams.BaselinesMean` | app/pipeline.py:70-91 | with baselines on, each entity and link row holds the earliest and latest of its old value and the kept events that name it, and counts them; with baselines off none moves |
| `WriteStreams.FallbackOnlyWhereMissing` | app/pipeline.py:94-100 | an arrival without a time is treated as one at the fallback time |
| `WriteStreams.TimesAreKept` | app/pipeline.py:94-100 | and no other arrival depends on it |
| `WriteStreams.NewMeansNew` | app/db.py:1232-1256 | an alert is reported new exactly when its rule and event were not stored before, and once |
| `WriteStreams.StreamsCompose` | app/pipeline.py:103-239 | however a stream is cut into writes, the tables end the same |
| `WriteStreams.WriteAgain` | app/pipeline.py:94-100 | writing a stream of timestamped events again stores nothing and raises nothing |
| `Scrubbing.ScrubText` | app/ingest_actions.py:549-561 | the loop applies the pairs in order, long ones as substrings and short ones as tokens |
| `Scrubbing.LeftmostIsReplaced` | app/ingest_actions.py:553-555 | a long value is replaced at its first occurrence, what is before it is copied, and the rest goes on alike |
| `Scrubbing.FirstTokenIsReplaced` | app/ingest_actions.py:500-512 | the same for the first whole token of a short value |
| `Scrubbing.WordMeans` | app/ingest_actions.py:500-512 | word characters are the ASCII letters, digits and the underscore; an end is guarded when it is one or a non-ASCII alphanumeric |
| `Scrubbing.NoTokenNoChange` | app/ingest_actions.py:536-543 | a short value inside a longer word is left alone |
| `Scrubbing.ScrubLeavesOthers` | app/ingest_actions.py:549-561 | a text that holds none of the originals comes out as it went in |
| `Scrubbing.WholeValueIsReplaced` | app/ingest_actions.py:549-552 | a text that is the value as a whole becomes its replacement |
| `Scrubbing.LongValueIsGone` | app/ingest_actions.py:515-561 | an original of eight or more characters is in no text after the whole scrubber, whatever the pairs before it, when its own replacement does not rebuild it and the later ones are apart from it |
| `Scrubbing.ApartIsEnough` | app/ingest_actions.py:515-561 | one condition for both: it is gone when its own replacement and all later ones are apart from it |
| `Scrubbing.RebuildsExactly` | app/ingest_actions.py:553-555 | for every value and every replacement, empty ones included: no text keeps the value after replacing it exactly when the replacement does not rebuild it, which is decided by comparing their edges |
| `Scrubbing.OneLongPair` | app/ingest_actions.py:549-560 | the same for the scrubber with one long pair |
| `Scrubbing.ApartExactly` | app/ingest_actions.py:549-560 | replacing other values never makes this one appear exactly when the replacement is apart from it: no shared edge, neither inside the other (given some character the value lacks) |
| `Scrubbing.WithoutOverlap` | app/ingest_actions.py:553-555 | for a value that does not overlap itself, rebuilding is exactly not being apart |
| `Scrubbing.DisjointIsApart` | app/ingest_actions.py:515-561 | a non-empty replacement sharing no character with a value is apart from it |
| `Scrubbing.ReplacementCanRebuild` | app/ingest_actions.py:553-555 | an instance: replacing deadbeef by f in deadbeedeadbeef leaves deadbeef |
| `Scrubbing.ShortValueIsGone` | app/ingest_actions.py:503-561 | for a single short original and any replacement: no text keeps it as a whole token exactly when the pair does not rebuild the token, by leaking at a non-ASCII end, from inside the replacement, or in front of it |
| `Scrubbing.ApartOnlyLeaks` | app/ingest_actions.py:503-512 | with a replacement apart from the value, leaking at a non-ASCII end is the only way |
| `Scrubbing.AsciiNeverLeaks` | app/ingest_actions.py:500-512 | a short original without non-ASCII alphanumeric ends never leaks |
| `IngestEvents.WalkUnchanged` | app/ingest_actions.py:474-497 | a walk that reports no change made none |
| `IngestEvents.WalkReports` | app/ingest_actions.py:474-497 | a walk raises exactly when the rewriting fails on some string in reach, and otherwise reports a change exactly when there is one |
| `IngestEvents.WalkEstablishes` | app/ingest_actions.py:474-497 | a property of every rewritten string holds of every string within the walk's depth |
| `IngestEvents.WalkedAt` | app/ingest_actions.py:474-497 | path by path: strings within reach are rewritten, deeper ones not, other values stay, and no key appears or goes |
| `IngestEvents.RawSetMeans` | app/ingest_actions.py:442-471 | a path can be set exactly where there is something; then it holds the new value and every diverging path what it held |
| `IngestActions.MaskHonest` | app/ingest_actions.py:865-917 | a mask that reports no change and does not raise left the event as it was |
| `IngestActions.RouteHonest` | app/ingest_actions.py:934-947 | a route that reports no change left the event as it was |
| `IngestActions.LongOriginalsAreGone` | app/ingest_actions.py:865-931 | when a masked column of the event holds eight or more characters that what stands for them does not rebuild, and what stands for the columns masked after it is apart from them, that text is in no maskable text column (`vendor` is not one) and no string of `raw` in reach |
| `IngestActions.ShortOriginalIsGone` | app/ingest_actions.py:865-931 | a masked column's shorter text, the only one the mask finds, is left as a token nowhere the sweep reaches, if what stands for it does not rebuild it |
| `IngestActions.MaskColumns` | app/ingest_actions.py:847-862 | each non-blank field is masked in place and paired for scrubbing, as `MaskedColumns` and `PairsAreOfTheEvent` say |
| `IngestActions.MaskedColumns` | app/ingest_actions.py:847-862 | exactly the named non-blank columns change, each by its type: numbers to a number or NULL, addresses to an address or NULL, texts to a text; only hashing reads the old value |
| `IngestActions.PairsAreOfTheEvent` | app/ingest_actions.py:847-873 | the pairs to scrub are, field by field, the text the event held and what the column shows afterwards, or the text replacement when it is cleared |
| `IngestActions.ShownMeans` | app/ingest_actions.py:862-862 | a column is scrubbed for as its text, or its number written out |
| `IngestActions.MaskedKeys` | app/ingest_actions.py:875-883 | keys of `raw` on diverging paths are masked each for itself where there is something to mask, and other paths stay |
| `IngestActions.MaskWithoutSweep` | app/ingest_actions.py:865-884 | without sweep and patterns the mask does this and nothing else, and reports a change exactly when some field or key had something to mask |
| `IngestActions.PatternOnColumnMeans` | app/ingest_actions.py:885-892 | a pattern rewrites its column's text and nothing else, raises exactly when that does, and reports a change exactly when there is one |
| `IngestActions.PatternOnRawMeans` | app/ingest_actions.py:893-898 | the same for a text on a path of `raw` |
| `IngestActions.SweptColumns` | app/ingest_actions.py:920-931 | the sweep scrubs each non-empty text column it is given, touches nothing else, and reports no change without one |
| `IngestActions.WalkRawReports` | app/ingest_actions.py:909-916 | the sweep over `raw` raises exactly when its rewriting does, and reports a change exactly when there is one |
| `IngestActions.PatternRedactsEverywhere` | app/ingest_actions.py:885-917 | an idempotent pattern on a column leaves nothing to redact in the column and in any string of `raw` in reach |
| `IngestActions.ApplyMask` | app/ingest_actions.py:865-931 | the mask in place: columns, keys of `raw`, patterns, then the sweep; what it returns and leaves is the mask's effect, also when a pattern raises |
| `IngestActions.ApplyRoute` | app/ingest_actions.py:934-947 | the route in place, with its change report |
| `IngestActions.RouteMeans` | app/ingest_actions.py:934-947 | a route sets the routable columns it names and the index key of an object `raw`, leaves everything else, and reports a change exactly when there is one |
| `IngestActions.StampMeans` | app/ingest_actions.py:1019-1040 | a stamp adds the rule once behind the marks already there and touches nothing else |
| `IngestActions.Decide` | app/ingest_actions.py:970-1016 | every rule has its turn, in order, on the event the rules before it left, up to the first that matches and drops or samples out; the decision names that rule, `applied` is exactly the rules that matched at their turn, `errors` exactly those that raised, and the snapshot rebuilt lazily is never stale |
| `IngestActions.DecidedOnce` | app/ingest_actions.py:970-977 | rules and event leave one possible decision and one resulting event |
| `IngestActions.FirstDropDecides` | app/ingest_actions.py:985-995 | behind rules that are disabled or do not match, the first rule that matches and drops decides, and the event is as it came |
| `IngestActions.NoRuleNoChange` | app/ingest_actions.py:985-992 | when no rule matches, the event is kept as it came |
| `JsonDepth.ExceedsJsonDepth` | app/util.py:231-253 | the loop computes the scanner's verdict |
| `JsonDepth.ValueDepth` | app/util.py:231-253 | scanning a printed value from any level reports an excess exactly when its containers nest beyond the limit, and otherwise returns to that level |
| `JsonDepth.GuardIsNesting` | app/util.py:231-253 | for any stream of JSON documents the guard fires exactly when some document nests deeper than the limit |
| `SqlSplit.SplitStatements` | app/db.py:128-161 | the loop computes the statements of the scanner |
| `SqlSplit.SpaceMeans` | app/db.py:128-161 | blanks are the characters `isspace` knows |
| `SqlSplit.OutputsAreStatements` | app/db.py:128-161 | for any script, every output is itself one whole statement: it splits into just itself |
| `SqlSplit.SplitInvertsJoin` | app/db.py:128-161 | joining statements of code, escaped literals and comments with semicolons and splitting gives exactly the stripped statements that have code; a dash directly before a comment is part of it |
| `SqlSplit.KeptAll` | app/db.py:128-161 | with code in every statement none is dropped |
| `SqlSplit.DashAgainstComment` | app/db.py:146-148 | a statement vanishes exactly when it is blanks, comments and dashes directly before a comment |
| `LineChunker.ChunkLines` | clients/logocean_import.py:49-65 | the generator's chunks are the greedy grouping of the completed lines |
| `LineChunker.GreedyIsPartition` | clients/logocean_import.py:50-52 | the groups are consecutive, lose nothing, split no line, and fit unless they are one oversized line |
| `LineChunker.ChunkBytes` | clients/logocean_import.py:58-63 | a chunk's size in UTF-8 is the sum of its lines' |
| `LineChunker.CharBytesAreUtf8` | clients/logocean_import.py:58-58 | the bytes counted for a character are those of its UTF-8 encoding, which decodes to it (section 3 of RFC 3629) |
| `LineChunker.CompletedMeans` | clients/logocean_import.py:56-57 | a line ends in a newline, which is added only when it had none |
| `LineChunker.GreedyIsOptimal` | clients/logocean_import.py:49-65 | no order-preserving grouping under the same rules has fewer chunks |
| `CsvCells.SplitUndoesJoin` | app/assets/csvio.py:59-72 | joined items split back exactly when no item holds a semicolon and a lone item holds no other separator |
| `CsvCells.AnySeparatorReturns` | app/assets/csvio.py:59-72 | stored items joined by semicolons, bars or commas come back when none holds that separator or one that comes before it |
| `CsvCells.ListReturns` | app/assets/csvio.py:59-72 | items of any kind come back from the joined cell exactly when they are stored text and split back |
| `AssetCsv.ReadFile` | app/assets/csvio.py:100-162 | the loop reads the plan: header errors, blank rows, empty and repeated ids, bad aliases, and the rows |
| `AssetCsv.EveryLineIsAnswered` | app/assets/csvio.py:120-158 | a line without id is an error unless blank, a line with an id given before is an error naming the first line with it, and any other is a row of the plan or its first bad alias is an error |
| `AssetCsv.NothingElseIsAnswered` | app/assets/csvio.py:120-158 | there are exactly as many rows and errors as lines that say anything |
| `AssetCsv.ReadIdsAreDistinct` | app/assets/csvio.py:127-134 | no id is read twice |
| `AssetCsv.ReadKindMeans` | app/assets/csvio.py:90-97 | an alias column is read value by value, or fails at its first value that cannot be normalised |
| `AssetCsv.CellsMean` | app/assets/csvio.py:121-121 | a cell is found under its folded name, the last of a name counting |
| `AssetCsv.FlagsAndLevels` | app/assets/csvio.py:75-79 | a flag is off only where the cell says so, and a level is always a known one, the cell's own if it is one |
| `AssetCsv.WriteFile` | app/assets/csvio.py:178-211 | the loops write one cell per column and kind, kinds overwriting columns of the same name |
| `AssetCsv.ExportThenImport` | app/assets/csvio.py:178-211 | reading an export returns every row in order without errors, and an empty export is refused |
| `AssetCsv.FieldIsReturned` | app/assets/csvio.py:193-200 | a field returns exactly when it is not NULL; a NULL returns as what an empty cell is read as |
| `AssetCsv.FieldReturnsExactly` | app/assets/csvio.py:146-157 | a value of any kind returns from its cell exactly when it is not NULL and is what its column holds: trimmed text, a known level, a flag, or stored labels that split back |
| `AssetCsv.RowFieldReturns` | app/assets/csvio.py:178-211 | the same for a column of a whole row, whatever its other fields, its id and its aliases are |
| `AssetCsv.FieldsAreReturned` | app/assets/csvio.py:146-157 | where no column is also an alias kind the whole row returns exactly when no field is NULL |
| `AssetCsv.AssetColumnsAreNotKinds` | app/assets/csvio.py:29-30 | which is so for assets |
| `AssetCsv.IdentityFieldsReturn` | app/assets/csvio.py:178-211 | for identities all fields but `email` return unless NULL, and `email` returns exactly when it is the email aliases joined |
| `AssetCsv.EmailIsLost` | app/assets/csvio.py:193-209 | an instance: an identity with any e-mail address and no alias reads back with an empty one |
| `AssetCsv.AliasesUpToOrder` | app/assets/csvio.py:201-209 | the aliases return as often as listed, regrouped by kind |
| `AssetCsv.PartitionUndoes` | app/assets/csvio.py:205-207 | an alias is taken apart at the colon after its kind, whatever the value holds |
| `AssetImports.AliasesWritten` | app/db.py:2695-2726 | an alias list is accepted exactly when every alias is well formed and free or the owner's own; then it is added and nothing else moves |
| `AssetImports.AssetStore.InsertAliases` | app/db.py:2695-2726 | the loop with its three errors |
| `AssetImports.AssetStore.ApplyAssetImport` | app/db.py:3332-3363 | all or nothing: the imported registry with the numbers written and removed, or the error and the tables as they were |
| `AssetImports.ImportMeans` | app/db.py:3332-3363 | each named asset holds exactly its last row's normalised aliases and fields; the others are untouched, or gone when replacing |
| `AssetImports.RemovedMeans` | app/db.py:3349-3352 | the number of removed assets is the number of those that were there and are gone |
| `AssetImports.LastRowDecides` | app/db.py:3353-3356 | an asset's fields are those of the last row with its id |
| `AssetImports.LastListDecides` | app/db.py:3357-3361 | and its aliases those of the last such row that lists any |
| `AssetImports.CanonMeans` | app/db.py:2706-2715 | an alias is stored under its folded kind, which must be known, and its non-empty normalised value |
| `AssetImports.ImportAccepted` | app/db.py:3353-3361 | an import is accepted exactly when each row's aliases are well formed and free in its turn |
| `AssetImports.MovingAnAliasNeedsTheOldOwnerFirst` | app/db.py:2716-2722 | moving an alias within one file is refused or accepted by the order of the rows |
| `AssetImports.ImportKeepsReferential` | schema.sql:546-551 | no alias is left without its asset |

## Left out

- HTTP routes, templates, authentication, health pages, logging and progress callbacks: plumbing.
- SQL execution: tables are maps or sequences, conflict clauses are insert-if-absent or merge, and a
  transaction is apply-or-nothing. Partitions, locks and concurrent writers are not modelled; a
  backfill runs over a fixed table.
- The detection engine, the geo and registry resolvers, the parsers and the CIM registry loader are
  not part of this model; they are functions passed in.
- Hashing, HMAC, YAML, gzip, the quoting layer of CSV and the regular-expression engine. Token
  matching is written out; patterns of a mask are functions on text that may raise.
- Unicode lower-casing and stripping are parameters where a proof does not need to look inside.
- `raw` is a value, not aliased nested dictionaries; the event that holds it is an object.
- Stopping the ingest queue and cancelling a worker during a flush (app/streaming.py:117-125, 141-144).
- `WriteStreams` threads membership as it was resolved; that sorting it again changes nothing is
  `DistinctTagsThread`.
- Batch rows and alert dispatch around one group's write (app/streaming.py:67-88): a group's write is
  one step that returns the rows it stored, fails before its commit, or raises after it.
- A history of backfill pages may hold pages the program could not commit, because a row in them raises;
  the results on histories say more than the program can do.
- Memory-model races on the plan cache and the IP memo: cache steps are sequential.
- Compatibility, framework and model problems of a pack enter a plan as given problems.
- ContentPacks.PlanInstallChanges: the `cim` and `compliance` changes of a plan are left out, because
  they write no table.
- Installed packs that no longer parse, and two packs installed at the same instant.
- ContentPacks.Database.ApplyContentPack: does not delete a removed rule's compiled row in
  `detection_rules` (app/db.py:2488-2492), a table nothing else here reads or writes.
- AssetIndexes.AssetIndex.constructor: does not compute the fingerprint, which is a hash.
- Sorting of aliases by the database and the order of `list_assets`: the round trip takes rows as listed.
- Coverage, compliance, severity and risk weights, saved searches, format detection, the upload and
  retry loops, and the guard against expensive patterns, which the code calls a heuristic.
- ContentPacks.HistoryIsSound: for an unchanged rule the invariant fixes the YAML text only, because
  the code keeps the old title and enabled flag; `RowsComeFromDocuments` says where those come from.
- Scrubbing.ShortValueIsGone: stated for one pair, because a later long replacement can turn a
  fragment into a token.
- IngestActions.ShortOriginalIsGone: for one text, for the same reason.
- IngestActions.LongOriginalsAreGone: with several masked columns the condition is sufficient; for one pair it
  is exact (`OneLongPair`). It and the other results on a mask's columns are for a mask that names no column
  twice, and for masks without patterns, whose substitutions are arbitrary functions.
- IngestQueues.OneWorkerIsFifo: stated for one worker, because several workers commit groups of one
  source in no fixed order; for any number of workers each keeps the order it took.
