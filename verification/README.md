# Verified models of the suite

A Dafny model of the parts of this repository where correctness is hardest to see, with proofs.
`dafny verify dfyconfig.toml` checks all of it. The files follow the programs:

| file | program part |
|---|---|
| `LruList.dfy`, `ObjCaches.dfy`, `ReadObject.dfy` | depot's byte-budgeted object cache and delta resolution through it |
| `ObjectIndex.dfy` | depot's object index, folded from pack indexes, and reachability in it |
| `World.dfy`, `Runs.dfy`, `Ledger.dfy`, `Standing.dfy`, `LateLink.dfy`, `Forgotten.dfy` | a stored repository as a compare-and-swap register, and every interleaving of writes to it |
| `Storage.dfy`, `Servers.dfy`, `Collector.dfy`, `Rewrites.dfy`, `Sweeps.dfy`, `Estimate.dfy` | one depot server: its copy of a repository, collection, restore, prune, sweep, memo caches |
| `RefNames.dfy`, `Globs.dfy`, `RefUpdates.dfy`, `Ancestry.dfy`, `Pushes.dfy`, `Reloads.dfy` | depot's push: judging ref updates, the search behind fast-forwards, what updates leave, the check and the commit, and what a reload does to the check |
| `LogWalk.dfy`, `DiffPaths.dfy` | depot's commit log walk and tree diff |
| `PackSeal.dfy` | packs sealed in chunks as they stream, and the export script that opens them |
| `Ballots.dfy`, `BallotRecords.dfy`, `Sealed.dfy`, `BallotServer.dfy`, `BallotRuns.dfy` | ballot: what polls promise over whole histories, and the server that keeps running counts |
| `IrcWords.dfy`, `Decimals.dfy`, `IrcModes.dfy`, `IrcNames.dfy`, `IrcState.dfy`, `IrcRecords.dfy`, `IrcServer.dfy` | the IRC server: MODE, the three maps, what each command leaves of them, the handlers |
| `ChunkedCoding.dfy`, `ChunkGrammar.dfy`, `ReadChunked.dfy`, `ChunkArrival.dfy`, `HttpParse.dfy`, `HttpWrite.dfy`, `HttpGrammar.dfy`, `Arrival.dfy`, `Polling.dfy`, `Percent.dfy`, `UrlTemplate.dfy`, `UrlParts.dfy` | wire formats: chunked bodies, the request parser, URL templates and query decoding |
| `Halls.dfy`, `HallRecords.dfy`, `Backchannel.dfy`, `Shelves.dfy`, `ShelfRecords.dfy`, `DeadDrop.dfy` | the two message stores |
| `Common.dfy`, `Ascii.dfy`, `Utf8.dfy`, `ByteText.dfy`, `SetSize.dfy`, `MapSum.dfy`, `Git.dfy` | shared types, texts and their sizes, sums over maps, sizes of sets, object kinds and ref names |

Code that changes state is a class or a method with loops, proved against functions on values; the
properties are lemmas about those functions, over every input, run or interleaving. The `Records` files say
of each answer what the log of the requests before it makes of it, without those functions. Clocks, network
outcomes, other servers, hashes and ciphers are inputs, arbitrary but for what is stated of them.

## What the proofs found

- **A collection can lose an object that a later push names.** `depot/src/gc.rs:18-22` says that a
  push which built on an object the collection leaves out fails its own commit. That covers a push
  that commits after the collection. A push that commits *before* it, whose pack holds an object
  nothing refers to yet and which links to one the plan leaves out, passes every check, and so does
  the collection; a later push may then name that object, because connectivity is checked one link
  deep (`depot/src/git/receive.rs:230-240`). `LateLink.ARunThatLosesAnObject` is the run;
  its three pushes are ones `judge` accepts. `Runs.EveryRunIsSafe` proves safety of every run without
  such a link, and `Runs.LateLinkDecides` that the condition is exact.
- **A reload can pass off a push's check as made against the new index.** A push is checked before
  its pack is uploaded, and the commit repeats the check when the repository's generation has
  changed; but a repository forgotten and loaded anew counts from 0 again. The old check is taken as
  current with a link missing exactly when the copy was reloaded and then rebuilt as often as the
  first one had been (`Reloads.StaleIsTrustedIff`); `Reloads.AReloadThatLosesAnObject` is a push so
  accepted that leaves a ref's closure unstored. Without it each write of a push is one whose objects
  link only to stored or incoming ones (`Pushes.CommitPush`).
- **The sweep of retired records can undo what retries rely on.** A server that was not told whether
  its write landed looks for its pack among the packs and the retired records. `depot/src/maint.rs:516-570`
  drops those records after a grace period, an hour unless set to another number of seconds. A push
  that landed, and whose pack was then replaced, deleted and forgotten, is made again and lists the
  deleted pack (`Forgotten.APackReturns`); a collection in that place fails its check though it landed
  (`Forgotten.ALandedCollectionFails`, `Runs.LandedLooksChanged`). A pack enters the manifest twice only
  so (`Runs.EntersOnceUnlessForgotten`), and no deleted pack is served exactly if none returns
  (`Runs.DeletedIsUnservedIff`); as long as the record stays, at most one write lands and no answer
  contradicts it (`Collector.Commit`, `Pushes.CommitPush`).
- **A push can leave two refs git cannot store together.** A command that deletes a ref already gone
  is accepted as a repeat, and takes that name out of the refs `judge` looks for clashes in, though
  the same push creates it (`RefUpdates.ClashSlipsIn`). It happens exactly when two such names clash,
  which the push, the refs and the objects at hand tell beforehand (`RefUpdates.StaysClashFreeIff`), so
  never where no name comes twice, as git sends them (`RefUpdates.DistinctNamesStayClashFree`).
- **The cache's queue bound holds after a put exactly if the put was admitted or it held before**
  (`ObjCaches.ObjCache.Put`): a put refused for its size returns before the queue is compacted, and
  under any budget the queue can be over its bound then (`ObjCaches.RefusedPutLeavesTheQueueLong`).
- **Pages of `log` compose only within its caps**: 200 commits a page and 100000 skipped; and `n=0`
  answers one commit (`LogWalk.PagesComposeIff`).
- **`diff_paths` prints two paths alike exactly when they split at slashes alike**
  (`DiffPaths.PathsPrintAlikeIff`): any name with a slash can collide (`DiffPaths.SlashedNamesCollide`),
  but no two changes between trees of plain names (`DiffPaths.ChangesPrintApart`).
- **A request head whose blank line begins in the last three places the limit allows** is taken
  whole and refused piecemeal (`Arrival.ArrivalDoesNotMatterIff`). A stream longer than a buffer may
  be is refused if it comes at once; if it comes in parts it is served, or refused for another reason,
  exactly when as much of it as fits holds a request or such a reason, or its first head is on that
  brink (`Polling.PollingMattersIff`).
- **A chunk size line past 1023 bytes** may be refused or not, as its bytes arrive, unless not even a
  full read on top of the guard holds it (`ChunkArrival.ArrivalMattersIff`).
- **The readers take more than RFC 9112 writes**: what stands where the line break behind a chunk's
  data should is not looked at, a size or a length may begin with a plus sign, a header line without a
  colon is skipped, and a request line may have a fourth part. `ChunkGrammar.EveryStreamIsRead` and
  `HttpGrammar.EveryBufferIsRead` give the grammars taken, exactly.
- **A channel key with a space, a channel name with a tab, or a line too long,** is told to the channel
  in a line that does not read back (`IrcModes.ToldAsTextIff`, `IrcModes.SpacedKeyIsLost`,
  `IrcState.TabbedNameIsLost`).
- **A URL template with a `#`** outside the names it fills puts leftover arguments behind it, outside
  the query (`UrlTemplate.LeftoversReachTheQueryIff`).
- **An expired drop found by a lookup stays on dead-drop's byte count** until a sweep removes
  something, and new drops are refused for it (`Shelves.LeakStays`): a shelf that holds nothing can
  refuse every drop (`Shelves.AnEmptyShelfIsFull`).

## Model

| member | source | states |
|---|---|---|
| `LruList.InsertKeepsNewest` | depot/src/app.rs:117-142 | An admitted put leaves its object as the most recent, fits the budget, and drops only the least recently used others, none that could have stayed |
| `LruList.EvictIsLeast` | depot/src/app.rs:127-135 | Eviction removes a shortest prefix of least recently used items, never the newest |
| `LruList.NothingInvented` | depot/src/app.rs:109-142 | Neither a read nor a put makes an item that was not there or put; a read loses none |
| `LruList.WithoutTotal` | depot/src/app.rs:122-125 | Replacing an object takes exactly its old size off the total |
| `ObjCaches.LiveAfterBump` | depot/src/app.rs:109-116 | Giving an object a fresh tick makes its old queue record dead and leaves all others as they were |
| `ObjCaches.LiveIsTheMap` | depot/src/app.rs:91-142 | Among the queue's records there is exactly one live one per cached object, with its data |
| `ObjCaches.LiveCount` | depot/src/app.rs:91-142 | There are as many live records as entries |
| `ObjCaches.LiveAfterRetain` | depot/src/app.rs:136-140 | Compacting the queue loses no live record |
| `ObjCaches.Recorded` | depot/src/app.rs:121-126 | Storing under a fresh tick makes the object the most recent item and moves the byte total by the difference in size |
| `ObjCaches.HeadGoes` | depot/src/app.rs:127-135 | Popping a queue record removes the least recently used item if it is live, and nothing if it is not |
| `ObjCaches.LookupIsFind` | depot/src/app.rs:109-116 | A map lookup is a lookup in the recency list |
| `ObjCaches.ReadIsTouch` | depot/src/app.rs:109-116 | Recording a read under a fresh tick is moving the object to the recent end of the list, and changes no total |
| `ObjCaches.ObjCache.ContentsAreEntries` | depot/src/app.rs:91-142 | The list the cache stands for holds each cached object once, with its data |
| `ObjCaches.ObjCache.Get` | depot/src/app.rs:109-116 | A read answers what the list holds and moves the object to its recent end |
| `ObjCaches.ObjCache.Put` | depot/src/app.rs:117-142 | A put is insertion into the recency list; the byte count stays the exact sum within the budget; the queue is at most four records per entry and 1024 afterwards exactly if the put was admitted or it was so before |
| `ObjCaches.ObjCache.EvictToBudget` | depot/src/app.rs:127-135 | The eviction loop never runs out of queue while over budget, and evicts just what the list says |
| `ObjCaches.ObjCache.Compact` | depot/src/app.rs:136-140 | Compaction keeps the contents and leaves one record per entry |
| `ObjCaches.RefusedPutLeavesTheQueueLong` | depot/src/app.rs:117-120 | Under any budget a refused put can leave the queue over its bound |
| `ReadObject.ReadObj` | depot/src/app.rs:437-477 | With any faithful cache a value is what the stored entries resolve to; too deep is reported just when the first 10001 links all miss the cache; the cache stays faithful |
| `ReadObject.Collect` | depot/src/app.rs:446-463 | The chain is collected down to a cached object or a whole entry, or given up on exactly when it is too long and cold |
| `ReadObject.Rebuild` | depot/src/app.rs:464-476 | Applying the chain backwards yields what recursion yields, fails only where no depth would resolve, and caches only true values |
| `ReadObject.CycleIsUnresolvable` | depot/src/app.rs:449-463 | A cyclic chain of bases resolves at no depth |
| `ReadObject.StoredIsRead` | depot/src/app.rs:437-477 | Objects stored whole or as deltas that the decoder turns into them are read as what was stored, if the chain ends within the depth |
| `ReadObject.NothingElseIsRead` | depot/src/app.rs:437-477 | and as nothing else |
| `ReadObject.Deterministic` | depot/src/app.rs:437-477 | Resolution gives one value whatever the depth allowed |
| `ReadObject.ColdChainIsTooLong` | depot/src/app.rs:460-462 | A chain given up on as too deep does not resolve within that depth from stored entries |
| `ReadObject.OtherIndexesStayFaithful` | depot/src/app.rs:416-433 | Reading one repository keeps the shared cache faithful to every other that agrees on content |
| `ObjectIndex.AddPackGrows` | depot/src/git/repo.rs:88-142 | Adding a pack extends the index: old positions keep their objects and links, new ids are exactly the pack's unknown ones, and a refused pack has still grown it |
| `ObjectIndex.FoldExtends` | depot/src/git/repo.rs:88-142 | The index of a longer pack list extends that of its prefix |
| `ObjectIndex.FoldHolds` | depot/src/git/repo.rs:88-142 | An index names exactly the objects its packs hold |
| `ObjectIndex.FoldStable` | depot/src/git/repo.rs:88-142 | New stored pack indexes leave the fold of a pack list alone |
| `ObjectIndex.FoldById` | depot/src/git/repo.rs:88-142 | The fold depends on pack ids only |
| `ObjectIndex.FoldIsTrue` | depot/src/git/repo.rs:88-142 | Where entries are content addressed, every object of the index has the kind, size and time of its id, and every resolved link leads to the object the id names |
| `ObjectIndex.FoldPlaces` | depot/src/git/repo.rs:88-142 | Every object of the index is found in one of its packs where an entry of that pack puts it, as long and stored as told there |
| `ObjectIndex.FoldResolves` | depot/src/git/repo.rs:88-142 | A link is resolved exactly when its target comes in the same pack or an earlier one; a target that comes later stays unresolved |
| `ObjectIndex.StandingFolds` | depot/src/git/repo.rs:88-142 | Packs whose deltas have their bases inside are never refused |
| `ObjectIndex.Closure` | depot/src/git/walk.rs:362-373 | The closure holds its tips and everything they link to |
| `ObjectIndex.ClosureIsLeast` | depot/src/git/walk.rs:362-373 | and is the least such set |
| `ObjectIndex.ComputeClosure` | depot/src/git/walk.rs:362-373 | The marking loop computes the closure |
| `World.PushKeeps` | depot/src/push.rs:540-607 | A push whose objects link to stored or brought objects keeps the packs closed and every root stored |
| `World.RestoreKeeps` | depot/src/api.rs:475-500 | A restore of a stored object keeps the invariant |
| `World.PruneKeeps` | depot/src/gc.rs:415-418 | A prune keeps it |
| `World.MergeKeeps` | depot/src/maint.rs:428-459 | A merge of a run of packs keeps it and the very same objects |
| `World.CollectedObjects` | depot/src/gc.rs:376-387 | After a collection the packs hold the kept objects and those of packs pushed since, and no others |
| `World.NeededSurvives` | depot/src/gc.rs:347-375 | Whatever is needed when the collection commits is held after it |
| `World.CollectKeepsRoots` | depot/src/gc.rs:327-401 | A collection keeps the object of every ref and every retained dropped value, whatever was pushed meanwhile |
| `World.CollectIsSafe` | depot/src/gc.rs:327-401 | A collection over an index with no link missing keeps the full closure of every root |
| `World.CollectKeepsClosedIff` | depot/src/gc.rs:327-401 | It keeps the packs closed under links exactly when no pack pushed since the plan links to an object left out |
| `World.StepKeeps` | depot/src/gc.rs:327-401 | Every write keeps the invariant, if no collection lands against such a link |
| `Runs.EveryRunIsSafe` | depot/src/gc.rs:327-401 | In every interleaving of pushes, restores, prunes, merges, sweeps of records and collections without a late link, the packs hold the full closure of every ref and retained dropped value |
| `Standing.EveryObjectIsTold` | depot/src/git/repo.rs:88-142 | In every run from an empty repository no pack is refused, and the index says of every object held the kind, size, time and links that its id names |
| `Standing.KindsStay` | depot/src/gc.rs:297-325 | So between any two moments of a run, whatever collections and merges come between, an object held at both keeps its kind, size, time and resolved links |
| `Standing.MergeKeepsLinks` | depot/src/maint.rs:428-459 | A merge puts its pack where the old ones were, so no link that was resolved comes undone |
| `Standing.KeptAreWhole` | depot/src/gc.rs:376-387 | A collection leaves every link of a kept object resolved |
| `Ledger.RefsAreTold` | depot/src/store.rs:103-106 | In every run the refs are those last pushed, and those restored since: nothing else ever touches one |
| `Ledger.DroppedAreTold` | depot/src/gc.rs:62-74 | and a value is listed as dropped exactly if the last push listed it and no cutoff since has passed it |
| `Ledger.RecordsAreTold` | depot/src/maint.rs:516-570 | and a record of a retired pack is there, with the time of the write that replaced the pack, from that write until a sweep drops it |
| `Runs.ListedUntilForgotten` | depot/src/store.rs:103-106 | A pack in the manifest stays listed, served or retired, through every write but a sweep that drops its record |
| `Runs.EntersOnceUnlessForgotten` | depot/src/gc.rs:334-336 | In any run, whoever writes and however often they retry, a pack enters the manifest a second time only after its record was dropped |
| `Runs.RetiredUntilForgotten` | depot/src/maint.rs:535-538 | A pack seen retired and not served is not served later unless its record was dropped in between, so it can be deleted |
| `Runs.ServedAgain` | depot/src/maint.rs:535-556 | If one is served again, its record was dropped and then the pack brought in anew, in that order |
| `Runs.DeletedIsUnservedIff` | depot/src/maint.rs:535-541 | In any run, no pack that was ever free to be deleted is served from then on, exactly if no pack is brought in that was retired before |
| `Runs.LandedLooksChanged` | depot/src/gc.rs:334-342 | Once a collection landed its sources are no prefix of the packs again unless the first is brought in anew, so a retry that does not find its pack listed answers that the packs changed |
| `Forgotten.APackReturns` | depot/src/maint.rs:516-570 | A run from an empty repository, the push accepted both times, in which a pack is pushed, replaced, free to be deleted, forgotten, and listed again by the retry |
| `Forgotten.ALandedCollectionFails` | depot/src/gc.rs:334-342 | A run in which a collection lands, after which its pack is not listed and its sources are gone, so that a retry fails its check |
| `Runs.ClosedIffNamingIsSafe` | depot/src/git/receive.rs:230-240 | Naming any stored object is harmless exactly while the packs are closed under links |
| `Runs.LateLinkDecides` | depot/src/gc.rs:18-22 | After a collection in any sound repository, every naming push is harmless if and only if there was no late link |
| `LateLink.ARunThatLosesAnObject` | depot/src/gc.rs:18-22 | A run from an empty repository, every step allowed and every push accepted by the judgement of its one command, after which a ref's closure is not stored |
| `LateLink.PushesAreAllowed` | depot/src/git/receive.rs:295-376 | Its pushes create well-named tags on objects at hand, which are accepted whatever is protected |
| `Storage.Store.LoadManifest` | depot/src/store.rs:405-432 | A load answers the stored manifest with its ETag, or that the given one is current |
| `Storage.Store.SaveManifest` | depot/src/store.rs:336-370 | A conditional write lands only over the manifest it was read from; success means it landed; a conflict can still mean it landed and was built upon |
| `Storage.ReachesIsLater` | depot/src/store.rs:434-450 | Whatever other servers do, versions and revisions grow together, one names one manifest, and stored indexes stay |
| `Servers.Server.BuildIndex` | depot/src/app.rs:265-278 | A built index is the fold of the manifest's packs |
| `Servers.Server.Extend` | depot/src/app.rs:381-393 | Extending reads all new pack indexes before it adds any; on success the index is the fold; on failure it is untouched or the copy is stale |
| `Servers.Server.Rebuild` | depot/src/app.rs:394-406 | A rebuild replaces the index by the fold and starts a new generation, or changes nothing |
| `Servers.Server.Apply` | depot/src/app.rs:370-413 | After success the copy is exact; after failure manifest, refs and ETag are as before, and the copy is stale if its index was touched; revisions never go back |
| `Servers.Server.MarkStale` | depot/src/app.rs:320-325 | A stale copy forgets its ETag |
| `Servers.Server.Revalidate` | depot/src/app.rs:345-366 | A forced success means the copy was the stored manifest with an exact index; a failure keeps manifest and refs |
| `Servers.Load` | depot/src/app.rs:280-316 | A loaded repository is not stale and its index is exact |
| `Servers.Server.MatchIsSame` | depot/src/app.rs:320-325 | A copy whose conditional write can land is the stored manifest and is not stale |
| `Collector.ExtendsKeepsPositions` | depot/src/gc.rs:199-203 | The test is true only if every planned position still names the same object with the same links |
| `Collector.TipsOf` | depot/src/gc.rs:62-74 | The tips are the positions of the refs and live dropped values, unknown ones passed over |
| `Collector.Start` | depot/src/gc.rs:138-195 | A plan keeps everything the refs and live dropped values reach, is closed under links, and is refused when a kept link is missing |
| `Collector.PlanIsSound` | depot/src/gc.rs:142-157 | and its kept set is closed under the true links |
| `Collector.Entries` | depot/src/gc.rs:297-325 | The new pack's index fills the pack without gaps and tells each object as its id does, or there is a link the index does not hold |
| `Collector.EntriesAreKept` | depot/src/gc.rs:297-325 | It is content addressed, needs no other pack, holds exactly the kept ids, and its entries lie one behind the other from the header to the checksum |
| `Collector.EntryIsTrue` | depot/src/gc.rs:297-325 | A true index gives each entry the kind, size, time and links of its id, its place, and a length up to the next |
| `Collector.WritePack` | depot/src/gc.rs:282-289 | The written pack holds the plan, or the write failed or the index was rebuilt |
| `Collector.CheckNeeded` | depot/src/gc.rs:356-375 | The commit's loop passes only if everything needed is kept or in a later pack, and names an object that is neither otherwise |
| `Collector.CommitIsEnabled` | depot/src/gc.rs:339-375 | What the checks establish is what a safe swap needs |
| `Collector.Check` | depot/src/gc.rs:337-375 | Each refusal means what it says |
| `Collector.TryCommit` | depot/src/gc.rs:330-398 | One attempt lands, finds the pack already listed, retries or fails, and a failed check changed nothing |
| `Collector.Commit` | depot/src/gc.rs:327-401 | Whatever the network and the others do, as long as nobody drops the new pack's record before the answer: at most one write of a commit lands, success means the pack is listed, and a failure after a landing is never a failed check |
| `Rewrites.TryPrune` | depot/src/gc.rs:408-426 | One attempt leaves no expired dropped value or is told why not |
| `Rewrites.Prune` | depot/src/gc.rs:405-429 | On success no expired dropped value is left |
| `Rewrites.LooksStored` | depot/src/api.rs:475-482 | The object is stored with everything it reaches, or the answer says which of the two is not so |
| `Rewrites.Examine` | depot/src/api.rs:475-496 | An attempt goes on exactly when the object is stored, nothing it reaches is missing, and the judgement of the new ref accepts it, so that it is well named, free or already there, and clashes with no ref |
| `Rewrites.TryRestore` | depot/src/api.rs:467-521 | A successful attempt leaves the ref on the object with its full closure stored |
| `Rewrites.RestoredIsComplete` | depot/src/api.rs:478-482 | With nothing missing from an exact index the object's whole history is stored |
| `Rewrites.Restore` | depot/src/api.rs:466-522 | The retry loop succeeds only so |
| `Sweeps.Due` | depot/src/maint.rs:526-535 | What a sweep picks is retired by the cutoff, not served, and not held by a fetch here |
| `Sweeps.TryForget` | depot/src/maint.rs:542-567 | One attempt leaves none of the deleted packs' records or is told why not |
| `Sweeps.Sweep` | depot/src/maint.rs:516-570 | Every pack deleted was due in a manifest stored on the way; without a failure all that were due are deleted |
| `RefNames.RefnameIff` | depot/src/git/mod.rs:158-174 | A ref name passes exactly if it is refs and parts behind slashes, each of allowed characters, neither begun by a dot nor ended by .lock, without two dots or @{, the last not ended by a dot, of at most 1024 bytes |
| `Globs.Glob` | depot/src/git/mod.rs:176-203 | The loop that comes back to the last star takes a text exactly if some runs in the places of the stars make it of the pattern |
| `Globs.IsNamed` | depot/src/config.rs:397-399 | A name is protected exactly if one of the patterns says it |
| `Globs.FitsIff` | depot/src/git/mod.rs:176-203 | A pattern filled with runs is the same as one matched piece by piece |
| `RefUpdates.FirstFrom` | depot/src/git/receive.rs:386-387 | The first name of the map from a place on |
| `RefUpdates.DirectoryIsARun` | depot/src/git/receive.rs:385-390 | If any ref lies in a directory, so does the first one from the directory on |
| `RefUpdates.DfConflict` | depot/src/git/receive.rs:379-391 | One look per directory above the name and one below it find a clashing ref exactly when there is one |
| `RefUpdates.Judge` | depot/src/git/receive.rs:342-376 | A command is accepted exactly when it passes by itself and clashes with nothing the passing commands would leave; a refusal gives its own fault or a ref it clashes with |
| `RefUpdates.PassesIff` | depot/src/git/receive.rs:295-336 | A command passes by itself exactly if it is well named and either already done, or made on the ref's present value and lawful: a new value is at hand, a head's is a commit, a protected ref is neither deleted nor moved but forward, and nothing is not made nothing |
| `RefUpdates.RefusalTellsWhy` | depot/src/git/receive.rs:295-336 | Each refusal states a true fault of its command |
| `RefUpdates.GuardedOnlyAdvance` | depot/src/git/receive.rs:318-334 | Whatever the commands, a protected ref stays, at its old value or at a fast-forward of it |
| `RefUpdates.HeadsAreCommits` | depot/src/git/receive.rs:324-326 | After any push a ref holds its old value, or is well named and, if it is a head, on a commit |
| `Ancestry.IsAncestorStored` | depot/src/git/walk.rs:441-457 | The search of the index finds an object exactly if parent links of stored commits lead to it |
| `Ancestry.IsAncestor` | depot/src/git/receive.rs:266-291 | The search of a push finds an object exactly if links of incoming objects lead to it, or to a stored one from which parent links do |
| `Ancestry.FoundIsBehind` | depot/src/git/receive.rs:266-291 | What is found lies in the history that the ids name, if what the push brings has commits for parents of commits |
| `Ancestry.BehindIsFound` | depot/src/git/receive.rs:266-291 | and with no parent missing all of that history is found |
| `Ancestry.ProtectedKeepsItsHistory` | depot/src/git/receive.rs:318-334 | Whatever a push asks for, the old value of a protected ref lies in the true history of its new one |
| `Ancestry.NoHistoryIsLost` | depot/src/push.rs:574-597 | and that of any ref does, or is kept among the dropped values |
| `RefUpdates.Update` | depot/src/push.rs:574-597 | The loop makes the accepted updates not made yet, and keeps what they overwrite |
| `RefUpdates.ValuesAreKnown` | depot/src/git/receive.rs:321 | After any push every ref holds a value refs held before or an object incoming or stored |
| `RefUpdates.DroppedWereRefs` | depot/src/push.rs:580-587 | What is recorded as dropped was its ref's value |
| `RefUpdates.NothingIsLost` | depot/src/push.rs:576-593 | After any commands a ref's old value is still its value, is recorded as dropped, or is an ancestor of the new one |
| `RefUpdates.NothingIsLostToTheCap` | depot/src/push.rs:594-597 | Nor does the cap on dropped values take what this push dropped |
| `RefUpdates.EffectIsExact` | depot/src/git/receive.rs:303-313 | With no name twice, an accepted command's ref ends as the command asks, even if it was a repeat, and every other ref as it was |
| `RefUpdates.ClashIsOverlooked` | depot/src/git/receive.rs:358-374 | A clash left behind is one between two names the judgement overlooked |
| `RefUpdates.OverlookedIsForgotten` | depot/src/git/receive.rs:303-374 | The names left that the judgement did not look at are exactly the new ones that a passing command creates, that clash with nothing the passing commands leave, and that the last passing command deletes |
| `RefUpdates.StaysClashFreeIff` | depot/src/git/receive.rs:338-376 | Refs git can store stay so exactly when no two of the names that the push will have judged as gone clash, told from the commands, the refs and the objects at hand |
| `RefUpdates.ForgottenComesTwice` | depot/src/git/receive.rs:309-311 | Such a name is created by one command and deleted by another |
| `RefUpdates.DistinctNamesStayClashFree` | depot/src/git/receive.rs:338-341 | A push in which no name comes twice never makes a repository unclonable |
| `RefUpdates.ClashSlipsIn` | depot/src/git/receive.rs:306-312 | Any two clashing names, each created and deleted as if gone, are both accepted and both left |
| `Pushes.IsConnected` | depot/src/git/receive.rs:230-246 | The connectivity check passes exactly when every link of an incoming object leads to one incoming or stored |
| `Pushes.FirstCheck` | depot/src/push.rs:343-356 | The check before the upload, and what it stands for while the index only grows |
| `Pushes.CheckedLasts` | depot/src/push.rs:559-564 | While a copy stays loaded, a check made at one generation of its index holds as long as the generation does; one made against no repository, always |
| `Pushes.CheckAgain` | depot/src/push.rs:559-564 | It is repeated just when the generation differs |
| `Pushes.PushIsEnabled` | depot/src/push.rs:540-607 | What an attempt checks on its own copy makes its write a connectivity-checked push of the manifest it replaces |
| `Pushes.AdoptPush` | depot/src/push.rs:608-623 | Adding the pushed pack to the index cannot fail, and leaves the copy exact |
| `Pushes.WritePush` | depot/src/push.rs:574-632 | A committed write leaves the refs, the dropped values and the packs the judgement asks for |
| `Pushes.PushedIsAsked` | depot/src/push.rs:574-607 | Such a manifest holds the old packs and the push's behind them, and of every ref the old value, a descendant of it or a record that it was dropped; a protected one is nowhere but forward |
| `Pushes.TryPush` | depot/src/push.rs:540-632 | A retry that finds its pack listed is a push that committed, and one that does not had not landed, unless its record was dropped |
| `Pushes.CommitPush` | depot/src/push.rs:512-634 | Given a check that is not wrongly taken as current: whatever the other servers and the network do, every write is a connectivity-checked push; as long as nobody drops the pack's record before the answer, at most one with the pack lands, success means it is listed and a refusal that nothing of it landed. Success leaves a manifest written over one that the commands were judged against, or lists the pack; a refusal tells the judgement of the copy at hand, which is not good enough, or a link that copy lacks |
| `Reloads.Revalidate` | depot/src/app.rs:345-365 | Looking at storage again is a move that adds to the generation, or only grows the index |
| `Reloads.Reload` | depot/src/app.rs:280-337 | Loading anew is a move back to generation 0 |
| `Reloads.GenerationIs` | depot/src/app.rs:280-318 | After any moves the generation stands still only if the index grew, or counts the rebuilds since the last reload |
| `Reloads.StaleIsTrustedIff` | depot/src/push.rs:559-564 | A check is wrongly taken as current exactly when the copy was reloaded, rebuilt since as often as the first had been, and lacks a link |
| `Reloads.AReloadThatLosesAnObject` | depot/src/push.rs:559-564 | A run from an empty repository to a sound one, and a push checked on the way and so accepted there, after which a ref is not safe |
| `Estimate.KeptIsNested` | depot/src/gc.rs:62-74 | Dropped values live at a later cutoff are among those live at an earlier one |
| `Estimate.SameCountSameKept` | depot/src/gc.rs:77-81 | Equally many live ones are the same ones, which is why their number can be a cache key |
| `Estimate.GarbageIsWhatGoes` | depot/src/gc.rs:76-102 | Where packs are filled and hold no object twice, the bytes reported as garbage are just those of the objects a collection would leave out |
| `Estimate.Memos.Assess` | depot/src/gc.rs:76-102 | The memoized estimate is that of a fresh closure for this cutoff, whichever cutoff filled it |
| `Estimate.Memos.Reach` | depot/src/app.rs:60-75 | The memoized reachable set is that of a fresh closure |
| `Estimate.Memos.StaysValid` | depot/src/app.rs:60-75 | Nothing a loaded repository does makes a memo lie |
| `LogWalk.LogVisitsAll` | depot/src/api.rs:658-681 | The walk visits every commit reachable by stored parent links, once each |
| `LogWalk.LogFollowsChildren` | depot/src/api.rs:676-680 | Every commit but the start comes after one of its children |
| `LogWalk.LogIsNewestFirst` | depot/src/api.rs:658-681 | Where no parent is younger than its child the walk is newest first |
| `LogWalk.PagesComposeIff` | depot/src/api.rs:643-674 | Two consecutive pages are one longer page exactly when the second begins past the end, or neither is asked for with size 0, the second begins within the cap on skipping and the longer is within the cap on sizes or reaches the end |
| `LogWalk.LogPagesComposeIff` | depot/src/api.rs:643-681 | So it is for the history of any commit, by its size |
| `LogWalk.ParentsAre` | depot/src/api.rs:676-680 | What the walk goes on to are the resolved links of an object but the first |
| `LogWalk.LogVisitsTheHistory` | depot/src/api.rs:658-681 | So it visits exactly the start and what lies behind it, going from parent to parent |
| `LogWalk.LogIsOfCommits` | depot/src/api.rs:658-681 | and only commits, where commits link to commits behind their trees |
| `LogWalk.Log` | depot/src/api.rs:643-681 | The sizes asked for are capped, and the loop picks that page of the walk: at most 200 objects of the history asked for |
| `LogWalk.PushParents` | depot/src/api.rs:676-680 | The guard lets each commit into the heap once |
| `DiffPaths.NoChangeFromItself` | depot/src/api.rs:952-952 | No path changes between a tree and itself, which is why equal entries can be skipped |
| `DiffPaths.KindsMean` | depot/src/api.rs:950-961 | Where neither tree has a file on the way, added is a file where nothing was, deleted nothing where a file was, and modified another entry, unless both are directories |
| `DiffPaths.DifferenceIsAChange` | depot/src/api.rs:930-963 | Wherever the files of two trees differ there is a change, at the path or above it |
| `DiffPaths.ChangedBelow` | depot/src/api.rs:953-957 | A change below a name is a change between the directories of that name, a missing one counting as empty |
| `DiffPaths.ListedIffChanged` | depot/src/api.rs:930-963 | The pruned walk lists a path with a kind if and only if the full comparison of the two trees changes it so |
| `DiffPaths.ListedOnce` | depot/src/api.rs:930-963 | and each path once |
| `DiffPaths.StepIsLower` | depot/src/api.rs:953-957 | Each pair pushed is lower in the content order, so the walk ends |
| `DiffPaths.LookAt` | depot/src/api.rs:934-962 | One pair of trees turns into exactly its reports and the pairs below it |
| `DiffPaths.DiffPaths` | depot/src/api.rs:909-966 | Whatever is reported is a change of that kind, no path twice; below 500 nothing is missing; it fails only on an unreadable tree |
| `DiffPaths.PathsPrintAlikeIff` | depot/src/api.rs:946-950 | Two paths print alike exactly when they split at slashes into the same parts, leading empty names aside |
| `DiffPaths.ChangesPrintApart` | depot/src/api.rs:909-966 | Between trees whose entry names hold no slash and are not empty, different changes print differently |
| `DiffPaths.PlainPathsPrintApart` | depot/src/api.rs:946-950 | Paths of names that hold no slash and are not empty print differently |
| `DiffPaths.SlashedNamesCollide` | depot/src/api.rs:946-950 | For any name with a slash, two different changes between two trees that print as one path |
| `PackSeal.SealedInTwo` | depot/src/store.rs:497-510 | Sealing what came first and then the rest is sealing it all |
| `PackSeal.Upload.SealPending` | depot/src/store.rs:497-510 | A batch is sealed chunk by chunk at its own positions, with the last flag on the final chunk of the final batch only |
| `PackSeal.Upload.Step` | depot/src/store.rs:514-528 | A full part goes out only when more data waits behind it |
| `PackSeal.Upload.Finish` | depot/src/store.rs:532-545 | However the data came in, the object is the sealing of all of it |
| `PackSeal.OpenedUndoesSealed` | depot/src/seal.rs:156-181 | Opening chunk by chunk undoes sealing |
| `PackSeal.OpenedWasSealed` | depot/src/seal.rs:156-181 | and what opens was sealed so: the object begins with the sealing of just what comes out |
| `PackSeal.EdgeNext` | depot/scripts/depot-export.py:101-110 | Each chunk ends where the next begins, and the last where the object ends |
| `PackSeal.OpenRange` | depot/scripts/depot-export.py:106-112 | The inner loop opens its chunks at their own positions, the last flag on the final one only, and uses up the range exactly |
| `PackSeal.ExportPack` | depot/scripts/depot-export.py:91-113 | The ranged reads tile the sealed object without gap or overlap, and the output is what opening it gives |
| `PackSeal.ExportUndoesUpload` | depot/scripts/depot-export.py:91-113 | An uploaded pack is exported as it was, for every content and chunk size |
| `Sealed.OnlyTalliesShow` | ballot/src/main.rs:282-311 | Two histories that differ only in valid choices in sealed open polls, with equal tallies at every close, give the same answers, events and totals throughout |
| `Sealed.SealHoldsUntilClose` | ballot/src/main.rs:1-24 | Until a sealed poll is closed nothing anyone is told depends on how its ballots were cast |
| `Sealed.CloseTellsTally` | ballot/src/main.rs:369-393 | The close tells two such histories apart exactly if their tallies differ |
| `Sealed.VotingAlike` | ballot/src/main.rs:321-367 | A vote in a sealed poll is answered and broadcast alike whatever is chosen |
| `Sealed.SweepingAlike` | ballot/src/main.rs:97-129 | A sweep and its totals do not depend on choices |
| `Sealed.OnePoll` | ballot/src/main.rs:321-393 | A request changes a poll only by one ballot or by its close |
| `BallotServer.TallyAfterVote` | ballot/src/main.rs:345-348 | One pile less and one more is the recount after a ballot moved, and the pile it left was not empty |
| `BallotServer.App.Recounted` | ballot/src/main.rs:345-348 | The running counts stay a recount of the voters |
| `BallotServer.App.ReadCreate` | ballot/src/main.rs:181-225 | A creation is refused exactly when it is ill formed |
| `BallotServer.App.ApiCreate` | ballot/src/main.rs:181-257 | A poll is opened, or refused for its form, for want of room or for its id |
| `BallotServer.App.LivePoll` | ballot/src/main.rs:260-274 | A poll that may be addressed is found; an open one that ran out is dropped and counted |
| `BallotServer.App.ApiPoll` | ballot/src/main.rs:290-319 | The state shown is that of the voters, with the recount only when the tally is public |
| `BallotServer.App.ApiVote` | ballot/src/main.rs:321-367 | A vote inserts or moves the token's ballot, with what it answers and broadcasts |
| `BallotServer.App.ApiClose` | ballot/src/main.rs:369-393 | The right token closes once and is told the recount every time |
| `BallotServer.App.CountBallots` | ballot/src/main.rs:150-150 | The total is the number of ballots held |
| `BallotServer.App.SweepPolls` | ballot/src/main.rs:97-129 | A sweep keeps open polls not yet run out and closed ones that linger, and counts the lapsed |
| `BallotServer.App.Route` | ballot/src/main.rs:134-171 | The server does request by request what the histories are about |
| `BallotRuns.EveryBoardIsSound` | ballot/src/main.rs:44-60 | After any history the caps hold, every ballot names an option, and polls created are open, closed or expired |
| `BallotRuns.FromNothing` | ballot/src/main.rs:44-60 | In particular from the empty board |
| `BallotRecords.EveryAnswerIsTruthful` | ballot/src/main.rs:134-393 | In any history of a server that begins empty, each answer and event is what the log before it makes it: a poll asked for as live always shows its counts and any other none until it is closed, counts are of each voter's last choice, only the token it was made with closes it, it runs as long as asked, and refusals have their cause |
| `BallotRecords.TotalsAreOfTheLog` | ballot/src/main.rs:134-171 | The totals told are the polls made, votes taken and polls closed by the log |
| `BallotRecords.FormIff` | ballot/src/main.rs:174-225 | A creation is well formed exactly by the limits on its name, lines, options, mode, time and token |
| `BallotRecords.FullIff` | ballot/src/main.rs:226-257 | One that is well formed is refused for want of room exactly if as many polls as may be are held |
| `IrcWords.SpacedReadsBackIff` | IRC/src/message.rs:13-31 | Parameters printed with spaces read back as themselves exactly when each is a word and none but the first begins with a colon |
| `IrcWords.LineReadsBackIff` | IRC/src/message.rs:13-31 | A line with a prefix, cut to size, reads back as its words exactly when they are printable and it fits |
| `Decimals.PrintReadsBack` | IRC/src/server.rs:1059-1068 | A printed limit reads back as itself |
| `IrcModes.AskedAreLegal` | IRC/src/server.rs:1041-1079 | Every change asked for is one the channel can make |
| `IrcModes.ToldReadsBack` | IRC/src/server.rs:1089-1136 | The sign-compressed letters and arguments told, asked again, give the same changes and no error |
| `IrcModes.BroadcastReplays` | IRC/src/server.rs:1033-1142 | Doing what is told turns the old channel into the new one |
| `IrcModes.ModeStringReadsBack` | IRC/src/server.rs:140-164 | The mode string asked of a channel without modes gives the modes it was taken from |
| `IrcModes.ApplyKeeps` | IRC/src/server.rs:1099-1135 | Modes change neither members nor name nor topic |
| `IrcModes.Validate` | IRC/src/server.rs:1033-1080 | The validation loop computes the changes and errors asked for |
| `IrcModes.ApplyAll` | IRC/src/server.rs:1088-1136 | The second loop changes the channel and builds what is told |
| `IrcModes.ToldAsTextIff` | IRC/src/server.rs:1137-1143 | As text, cut to size as it is sent, the line reads back exactly when the channel's name, the letters and the arguments are words that begin with no colon and it fits in 510 bytes |
| `IrcModes.SpacedKeyIsLost` | IRC/src/server.rs:1049-1058 | A key with a space does not |
| `IrcNames.Lines` | IRC/src/server.rs:839-868 | The names of a channel are all told, once, in order, in lines of at most 380 bytes |
| `IrcState.TabbedNameIsLost` | IRC/src/message.rs:53-58 | A channel name may hold a tab and be joined by it, and then a change of modes is told in a line that does not read back |
| `IrcState.LeaveKeeps` | IRC/src/server.rs:712-725 | Leaving channels keeps the maps consistent |
| `IrcState.EnterKeeps` | IRC/src/server.rs:692-697 | Entering one does |
| `IrcState.JoinKeeps` | IRC/src/server.rs:643-710 | A JOIN of any list does |
| `IrcState.RenameKeeps` | IRC/src/server.rs:551-559 | A new nick does |
| `IrcState.RegisterKeeps` | IRC/src/server.rs:586-599 | Registration does |
| `IrcState.ModesKeep` | IRC/src/server.rs:1088-1135 | Mode changes do |
| `IrcState.ReapKeeps` | IRC/src/server.rs:331-373 | Reaping does, and leaves the dead in no channel |
| `IrcState.HandleKeeps` | IRC/src/server.rs:452-501 | Every command does |
| `IrcState.EveryNetIsConsistent` | IRC/src/server.rs:173-179 | Whatever clients connect, say and leave, a client lists a channel iff it is on its list, nicks map one to one, no channel is empty or misnamed, members are registered, and the caps hold |
| `IrcState.NickIsHeldOnce` | IRC/src/server.rs:540-545 | No two clients hold one nick, in whatever case |
| `IrcState.Authority` | IRC/src/server.rs:643-725 | Nobody is taken out of a channel but by themselves or an operator's kick, nobody brought in but by themselves past key and limit, nobody made operator but by one or by opening the channel |
| `IrcRecords.LettersAskInTurn` | IRC/src/server.rs:1033-1080 | Each letter asks under the last sign before it, and for the next argument nobody before it had, whether what was asked before was granted or not |
| `IrcRecords.LetterIsAnswered` | IRC/src/server.rs:1041-1079 | A letter asks for one change or is answered with one error, each for its cause |
| `IrcRecords.LastWordCounts` | IRC/src/server.rs:1088-1135 | Of any list of changes the last about each mode, and about each member's two privileges, counts, and nothing else differs |
| `IrcRecords.SeatsAfter` | IRC/src/server.rs:452-501 | What any command leaves of every seat in every channel, but the seat a JOIN may take |
| `IrcRecords.JoinsIff` | IRC/src/server.rs:643-710 | After a JOIN a client is in a channel exactly if it was, or a name among the first twelve opens it, unless the client is in as many as it may be; it operates those it opened |
| `IrcRecords.ChannelsAfter` | IRC/src/server.rs:801-837 | What any command leaves of a channel: the topic is the longest beginning that fits of the text set, or none, under the setter's nick, and only by a member, an operator where it is locked; modes are the last asked by an operator, whatever the guards on hashes and ban lists |
| `IrcRecords.OpenedBy` | IRC/src/server.rs:673-709 | A channel comes to be by a JOIN only, under the name given, topic-locked, closed to outside messages, and otherwise blank |
| `IrcRecords.ThereIff` | IRC/src/server.rs:712-725 | A channel is there exactly as long as somebody is in it |
| `IrcRecords.ConnsAfter` | IRC/src/server.rs:505-599 | What any command leaves of every client's nick, user name and negotiation |
| `IrcRecords.RegisteredIff` | IRC/src/server.rs:586-599 | In every run a client is registered exactly when it has both names and no negotiation is open |
| `IrcRecords.ReapLeaves` | IRC/src/server.rs:331-373 | Reaping takes one client from everywhere and touches nobody else |
| `IrcRecords.AcceptAdds` | IRC/src/server.rs:194-212 | One accepted is new, nobody yet, and leaves all others as they were |
| `IrcServer.PushLine` | IRC/src/server.rs:87-101 | A line cut to size in whole characters is queued, or the full queue marks the client to go; the queue never exceeds its cap |
| `IrcServer.LeaveMore` | IRC/src/server.rs:343-357 | Leaving some channels and then others is leaving them all |
| `IrcServer.Server.Accept` | IRC/src/server.rs:194-212 | A connection is taken up to the cap |
| `IrcServer.Server.DoPart` | IRC/src/server.rs:712-725 | The channel and the client forget each other, and an empty channel goes |
| `IrcServer.Server.LeaveEvery` | IRC/src/server.rs:647-658 | JOIN 0 leaves every channel, in any order |
| `IrcServer.Server.JoinName` | IRC/src/server.rs:660-709 | One name is joined exactly when name, number of channels, key and limit allow |
| `IrcServer.Server.CmdJoin` | IRC/src/server.rs:643-710 | The first twelve names are joined in turn, each with the key in its place |
| `IrcServer.Server.CmdPart` | IRC/src/server.rs:727-746 | The first twelve names are left in turn, where the client is on them |
| `IrcServer.Server.CmdNick` | IRC/src/server.rs:533-566 | A nick is taken unless it is ill formed or another's |
| `IrcServer.Server.CmdUser` | IRC/src/server.rs:568-584 | A user name is kept, once, and may complete registration |
| `IrcServer.Server.CmdCap` | IRC/src/server.rs:505-531 | Negotiation holds registration up until it ends |
| `IrcServer.Server.CmdTopic` | IRC/src/server.rs:801-837 | Members set the topic, only operators where it is locked |
| `IrcServer.Server.CmdMode` | IRC/src/server.rs:994-1144 | An operator's valid changes are made, and nothing else |
| `IrcServer.Server.CmdKick` | IRC/src/server.rs:1146-1181 | An operator takes a member out |
| `IrcServer.Server.HandleLine` | IRC/src/server.rs:452-501 | Each command does what it says to the maps, and keeps them consistent |
| `IrcServer.Server.ReapOne` | IRC/src/server.rs:343-373 | A dead connection goes from its channels, the nicks and the connections |
| `IrcServer.Server.Reap` | IRC/src/server.rs:331-374 | Just the connections marked to go are gone, from everywhere, and everyone else is where they were |
| `ChunkedCoding.ChunkReads` | depot/src/client.rs:366-394 | A written chunk is read as its data, or refused if it is too much |
| `ChunkedCoding.DecodeUndoesChunks` | depot/src/client.rs:335-400 | Chunks written and ended are read back as their concatenation if it fits, and refused if not, whatever follows |
| `ChunkedCoding.ChunksHaveShortLines` | backchannel/src/httpd.rs:424-428 | Nothing the writer makes has a long size line |
| `ChunkedCoding.SizeReadsBack` | backchannel/src/httpd.rs:424-428 | A size printed in hexadecimal is read as itself |
| `ChunkGrammar.SizeIff` | depot/src/client.rs:366-368 | A line is read as a size exactly if it is spaces, a plus sign or none, hexadecimal digits in any case, spaces, and anything behind a semicolon, and the number fits |
| `ChunkGrammar.EndedIff` | depot/src/client.rs:370-382 | Trailers end exactly if they are unbroken lines up to a blank one |
| `ChunkGrammar.PiecesAreRead` | depot/src/client.rs:335-400 | Chunks by that grammar that fit are read as what they hold, whatever comes behind |
| `ChunkGrammar.EveryStreamIsRead` | depot/src/client.rs:335-400 | Any stream is such chunks and a rest where none fits, and each result, a body or one of four failures, has just its cause in that rest |
| `ReadChunked.LineIsFound` | depot/src/client.rs:357-365 | Where a line's end is found does not depend on how it arrives, but for the guard on lines of 1024 bytes and more |
| `ReadChunked.LongLineHeldBack` | depot/src/client.rs:361-363 | On those it does |
| `ReadChunked.ReadLine` | depot/src/client.rs:357-365 | The loop finds the end of the line and loses no byte |
| `ReadChunked.SkipTrailers` | depot/src/client.rs:370-382 | The trailers end with a blank line or not at all |
| `ReadChunked.ReadAllIs` | depot/src/client.rs:335-400 | Whatever the pieces, the answer is what the whole stream says, but for size lines past the guard |
| `ChunkArrival.HarshReads` | depot/src/client.rs:361-363 | A stream with such a line is refused in some run of reads |
| `ChunkArrival.GentleReads` | depot/src/client.rs:335-400 | and in some run of reads gives what the whole stream says, unless the line is longer than the guard and a full read of 64 KiB |
| `ChunkArrival.HugeLineIsRefused` | depot/src/client.rs:361-363 | A line longer than that is refused in every run of reads |
| `ChunkArrival.ArrivalMattersIff` | depot/src/client.rs:335-400 | Over reads of at most 64 KiB, how a stream arrives makes a difference exactly when it has a line past the guard, none past the guard and a full read, and is not refused for a line in any case |
| `ReadChunked.ReadBody` | depot/src/client.rs:335-400 | The loops, with their draining of the buffer, answer what the reader answers piece by piece; the body never exceeds its maximum |
| `ReadChunked.ReadWhatWasWritten` | depot/src/client.rs:335-400 | What was written is read back, in whatever pieces |
| `HttpParse.ReadLines` | backchannel/src/httpd.rs:461-478 | The header loop computes the fields, the last length and whether a transfer coding was named |
| `HttpParse.Decode` | backchannel/src/httpd.rs:517-540 | The decoding loop computes percent and plus decoding |
| `HttpParse.ParseBuffer` | backchannel/src/httpd.rs:436-499 | The parser takes a whole request off the buffer, and with part of one leaves it alone |
| `HttpGrammar.EveryBufferIsRead` | backchannel/src/httpd.rs:436-540 | Whatever a buffer holds, the answer has its cause in it: a request is what the grammar of heads, lines, fields, lengths and escapes makes of the bytes, and a partial one or each refusal has just what is missing or wrong |
| `HttpGrammar.DecodesIff` | backchannel/src/httpd.rs:517-540 | A path decodes exactly if it is plain bytes and whole pairs of hexadecimal digits, to what they say |
| `HttpGrammar.LinesAreRead` | backchannel/src/httpd.rs:461-478 | Header lines are read as the fields they hold, trimmed and lowered, the last length told, and whether a coding is named, or one length is no number |
| `HttpGrammar.TellsIff` | backchannel/src/httpd.rs:469-472 | A length is a number exactly if it is a plus sign or none and decimal digits, and fits |
| `HttpWrite.WrittenIsRead` | backchannel/src/httpd.rs:436-499 | Any request written out, its path escaped, its headers of any case and its lengths in decimal, is read as itself with the next bytes left over, or refused for its size, an oversized length or a transfer coding |
| `HttpWrite.HeadIsRead` | backchannel/src/httpd.rs:446-484 | Its head gives back verb, path, query, fields and length |
| `HttpWrite.HeadersAreRead` | backchannel/src/httpd.rs:461-478 | The fields come back lowered and in order, the last length counts, and any transfer coding is noticed |
| `HttpWrite.EscapedReadsBack` | backchannel/src/httpd.rs:517-540 | A path with plus signs for spaces and hexadecimal pairs decodes to itself |
| `HttpWrite.LengthReadsBack` | backchannel/src/httpd.rs:469-472 | A length printed in decimal reads as itself if it fits |
| `Arrival.CompleteStays` | backchannel/src/httpd.rs:485-498 | A whole request stays the same request on every extension, with the extra bytes left over |
| `Arrival.BadStays` | backchannel/src/httpd.rs:437-484 | A refusal stays one too, off the brink of the head limit |
| `Arrival.DrainInTwo` | backchannel/src/httpd.rs:436-499 | Parsing now and later is parsing once |
| `Arrival.FeedIsDrain` | backchannel/src/httpd.rs:436-499 | Feeding a stream in pieces gives the requests of the whole |
| `Arrival.BrinkBreaks` | backchannel/src/httpd.rs:437-445 | On the brink a head is taken whole and refused cut short |
| `Arrival.BrinkShows` | backchannel/src/httpd.rs:437-445 | Any head on the brink has a cut that makes a difference |
| `Arrival.ArrivalDoesNotMatterIff` | backchannel/src/httpd.rs:436-503 | Parsed after each piece, pipelined requests come out the same for every way of cutting the stream exactly when no head is on the brink |
| `Polling.ServedAgrees` | backchannel/src/httpd.rs:214-265 | However a connection is polled, its requests are those of the stream, or the first of them and a refusal where the buffer overflows |
| `Polling.PollingMattersIff` | backchannel/src/httpd.rs:214-265 | Two ways for a stream to come to the polls are served differently exactly when, if it is within the cap, some head is on the brink, and if it is not, its first bytes up to the cap hold a request or a fault other than size, or its first head is on the brink and bodies are allowed |
| `Percent.UnpctUndoesPct` | api-mcp-adapter/src/lib.rs:364-380 | Decoding undoes encoding |
| `Percent.PctIsInert` | api-mcp-adapter/src/engine.rs:915-926 | Encoded text is unreserved characters and percent signs |
| `Percent.Encoded` | api-mcp-adapter/src/engine.rs:915-926 | The encoding loop |
| `Percent.Decoded` | api-mcp-adapter/src/lib.rs:364-380 | The decoding loop, with its failures |
| `UrlTemplate.SubstituteKeepsAuthority` | api-mcp-adapter/src/engine.rs:568-591 | With no placeholder in the template's host, no arguments change the host |
| `UrlTemplate.SubstituteAddsNone` | api-mcp-adapter/src/engine.rs:833-855 | Arguments bring no slash, question mark, hash or ampersand of their own |
| `UrlTemplate.Substituted` | api-mcp-adapter/src/engine.rs:833-855 | The substitution loop, with the names consumed |
| `UrlTemplate.LeftoversReadBack` | api-mcp-adapter/src/lib.rs:346-358 | The query of the final URL reads as that of the substituted one followed by exactly the arguments left over |
| `UrlTemplate.LeftoversReachTheQueryIff` | api-mcp-adapter/src/engine.rs:600-613 | By the URI syntax they are in the query exactly when every hash of the template is in the name of a placeholder that an argument fills |
| `UrlTemplate.WriteQuery` | api-mcp-adapter/src/engine.rs:600-613 | The loop that writes them, with its choice of the first mark |
| `UrlTemplate.PlanUrl` | api-mcp-adapter/src/engine.rs:552-613 | The second host guard never fires, and every URL planned goes to the host of the expanded template |
| `UrlParts.EveryTemplateHasParts` | api-mcp-adapter/src/engine.rs:833-855 | Any template is texts and holes in turn, and a rest without a hole |
| `UrlParts.HolesAreFilled` | api-mcp-adapter/src/engine.rs:833-855 | Each hole is filled with what decodes to the argument of its name, or stands as it was if there is none; exactly the names so used are consumed |
| `UrlParts.LeftoversAre` | api-mcp-adapter/src/engine.rs:593-599 | The arguments left over are those neither used nor reserved, in their order |
| `UrlParts.EveryArgumentGoesOnce` | api-mcp-adapter/src/engine.rs:552-613 | An argument that is not reserved fills its holes or is a pair of the query, never both and never neither |
| `UrlParts.AuthorityIsBetween` | api-mcp-adapter/src/engine.rs:568-591 | The host is what stands between the scheme and the first slash, question mark or hash |
| `Halls.TailGrows` | backchannel/src/main.rs:247-272 | A full ring gives up its oldest message for the new one |
| `Halls.StepIsSound` | backchannel/src/main.rs:136-276 | Every request keeps the caps, the numbering and the lifetime count |
| `Halls.EveryHallIsSound` | backchannel/src/main.rs:136-293 | After any history the bytes kept fit the cap, rooms opened are there or expired, and a room shows its last 200 messages, numbered up to its count |
| `HallRecords.EveryAnswerIsTruthful` | backchannel/src/main.rs:136-293 | In any history of a server that begins empty, each answer is what the log before it makes it: a room shows the last 200 messages it took as they were sent, with number and time, lives two hours from its last message, and refusals have their cause |
| `HallRecords.TotalsAreOfTheLog` | backchannel/src/main.rs:136-171 | The totals told are the rooms opened and messages relayed by the log |
| `HallRecords.RefusedIffTooMuch` | backchannel/src/main.rs:247-262 | A message is refused for its size exactly if keeping it, and dropping what the ring then drops, were over the cap |
| `HallRecords.FullIff` | backchannel/src/main.rs:183-211 | A room is refused for want of room exactly at the cap |
| `Backchannel.App.ApiRooms` | backchannel/src/main.rs:183-211 | A room is opened, or refused for its id, for want of room or because it exists |
| `Backchannel.App.LiveRoom` | backchannel/src/main.rs:215-230 | A dead room is dropped with its bytes, and the count is still the exact sum |
| `Backchannel.App.ApiMsg` | backchannel/src/main.rs:232-276 | The ring is the last 200 messages of the log, the byte count the exact sum |
| `Backchannel.App.ApiHistory` | backchannel/src/main.rs:278-293 | A room shows the tail of its log |
| `Backchannel.App.SweepRooms` | backchannel/src/main.rs:102-115 | A sweep drops the dead rooms, counts them and adds the bytes up anew |
| `Backchannel.App.Route` | backchannel/src/main.rs:136-171 | The server does request by request what the histories are about |
| `Shelves.StepIsSound` | dead-drop/src/main.rs:112-290 | Every request keeps a read left in every drop held, the byte cap, and drops created equal to those held, consumed, expired and burned |
| `Shelves.StepSpendsReads` | dead-drop/src/main.rs:229-251 | A request that reveals a drop spends one of its reads, and reveals what was dropped |
| `Shelves.ReadsAreSpent` | dead-drop/src/main.rs:229-251 | Over any run reveals and reads left add up while the drop is held, and never exceed the reads it had |
| `Shelves.AtMostItsReads` | dead-drop/src/main.rs:229-251 | A drop made with N reads is revealed at most N times until its id is made anew |
| `Shelves.LeakStays` | dead-drop/src/main.rs:212-227 | Bytes of drops found expired stay counted until a sweep removes something, and a drop that fits is refused exactly when they stand in its way |
| `Shelves.AnEmptyShelfIsFull` | dead-drop/src/main.rs:212-227 | Requests anybody can make lead to a shelf that holds nothing and refuses every drop |
| `Shelves.EveryShelfIsSound` | dead-drop/src/main.rs:112-290 | All this holds after any run |
| `ShelfRecords.EveryAnswerIsTruthful` | dead-drop/src/main.rs:112-290 | In any history of a server that begins empty, each answer is what the log before it makes it: a drop is revealed as it was dropped, as often as asked and until its time, only its token burns it, and refusals have their cause |
| `ShelfRecords.TotalsAreOfTheLog` | dead-drop/src/main.rs:112-143 | The totals told are those of the log |
| `ShelfRecords.FullIff` | dead-drop/src/main.rs:186-199 | A well formed drop is refused for want of room exactly by the number of drops and the bytes counted |
| `DeadDrop.App.ApiDrop` | dead-drop/src/main.rs:152-208 | A drop is made, or refused for its form, for want of room or for its id |
| `DeadDrop.App.LiveId` | dead-drop/src/main.rs:212-227 | A drop found expired goes and leaves the byte count high by its size |
| `DeadDrop.App.ApiTake` | dead-drop/src/main.rs:229-251 | A take spends a read, the last one removes the drop, and no count underflows |
| `DeadDrop.App.ApiPeek` | dead-drop/src/main.rs:253-270 | A peek spends none |
| `DeadDrop.App.ApiBurn` | dead-drop/src/main.rs:272-290 | The right token removes the drop |
| `DeadDrop.App.SweepDrops` | dead-drop/src/main.rs:84-92 | A sweep that removes something makes the byte count exact again |
| `DeadDrop.App.Route` | dead-drop/src/main.rs:112-143 | The server does request by request what the runs are about |

## Left out

- Sockets, TLS, timers and sleeps: a read is an arbitrary non-empty piece, a clock reading an input. Keep-alive and `Expect` are not modelled.
- Cryptography: SHA-1, SHA-256 and the cipher are functions; of the cipher it is stated that opening undoes sealing at the same place and nothing else opens. Content addressing is stated as links that an id determines.
- JSON, HTML, headers and log lines: answers are datatypes. Widths of integers other than parsed `usize` values are not modelled: counters and sums are unbounded.
- UTF-8 is a predicate on bytes where the source checks it; white space is trimmed as ASCII only, so a chunk size, header value or name padded with other Unicode spaces is read differently.
- depot: ids are numbers rather than hexadecimal text; a deleted pack's index stays readable in the model, so what a server does that still reads it is not modelled, nor is the sweep of orphans, nor `head` and its repair. `App::held` is an input.
- depot's push: parsing the request, indexing the pack, registering a first push, hooks and reports are not modelled; judging takes protection as a function of names, and `Globs` models the patterns it comes from; the kind a link claims is not kept, so a push may also be refused for those, and `Ancestry` takes what that check establishes as `Typed`. Judging takes descent as an input, which `Ancestry.Asks` ties to the search. A push without a pack may land more than once, as nothing marks it.
- Pushes.CommitPush: promises nothing of a push whose check is wrongly taken as current after a reload; `Reloads.StaleIsTrustedIff` says exactly when one is. Of a push whose pack's record is dropped before the answer it promises only that each write is a connectivity-checked push; `Forgotten.APackReturns` is why.
- depot's pack generator is taken to place exactly the kept set, each delta after its base; `delta::apply` and `inflate` are functions.
- depot's witness store and rollback of storage to an older manifest are not modelled: the register never goes back.
- `log`'s reading of each picked commit is left out; so is the order `diff_paths` sorts its output into.
- Collector.Commit: a write whose outcome stays unknown is reported as a failure although it may have landed; that is the code's behaviour, and the contract says so. If the new pack's record is dropped before the answer, more may be false of it: `Forgotten.ALandedCollectionFails`.
- DiffPaths.DiffPaths: at 500 reports and more it promises only that what is reported is right.
- The checksum and `git` steps of the export script, and its manifest reading, are not modelled.
- ballot, backchannel and dead-drop: forms and headers come taken apart; presence counts, leave signals and server-sent event framing are left out. Ballot's `counts` array is a sequence the handlers reassign.
- The IRC server's output side is kept in a map of its own, and what its lines say is told of MODE and NAMES only; PRIVMSG, WHO, WHOIS, LIST, INVITE, AWAY and the like change none of the three maps; times of topics and channels are not kept. Only ASCII is lowered, as in the source.
- `expand` of secrets, `fill_template` and `prune_unfilled`, headers and bodies of planned calls are left out.
