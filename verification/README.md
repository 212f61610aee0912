# Mannaiah: verified model of the concurrent, storage, hierarchy, search and analytics logic

This project models the parts of the Mannaiah back end where behaviour is hard to see from one function alone, and
proves what they promise. `dafny verify dfyconfig.toml` checks all of it.

| files | part of the system |
|---|---|
| `KeyedLock.dfy` | the reference-counted lock per key, as a step system over any number of threads and as the locker class that follows it |
| `WorkerPool.dfy`, `OrderItems.dfy` | the bounded worker pool that resolves order items |
| `AssetKeys.dfy`, `AssetSaga.dfy`, `AssetService.dfy` | object keys, and creation, deletion and JPG conversion over an object store and a metadata store that can each fail |
| `SoftBounce.dfy` | SES notifications, the status timeline and the soft-bounce retry gate |
| `FolderHierarchy.dfy`, `FolderTree.dfy`, `FolderSlug.dfy` | folder parents, the folder tree and folder slugs |
| `SearchLike.dfy`, `SearchPages.dfy`, `SearchQuery.dfy`, `SearchCache.dfy` | the text search, paging, filters, sorting and the cache in front of them |
| `SeedLoops.dfy`, `OrderFacts.dfy` | analytics seeding and order facts |
| `SwaggerMerge.dfy`, `Permissions.dfy`, `ShippingMark.dfy` | merging of OpenAPI specs, permission checks, normal form of shipping marks |
| `Basics.dfy`, `Text.dfy` | result types, and the Go string operations that the modelled code calls |

Threads, goroutines, crashes and failing calls are nondeterministic choices: a step system lists the atomic steps and a
theorem speaks about every sequence of them. A call that can fail is given as an outcome (`Done`, `Refused`, or `Lost`
when the effect took place but the caller is told that it failed) or as a flag; a theorem speaks about all of them.
Database, object store, hash, JSON, image encoding, clock and generated identifiers are parameters or plain maps.
Hashing is collision-free and decoding undoes encoding only where a `requires` says so (`SearchCache.Faithful`).
White-space trimming is an arbitrary function `trim` where nothing depends on what it does.

## What the proofs found

* The asset repository commits a row and then reads it back (`module/assets/adapter/store/repository_asset.go:15-44`,
  `module/assets/adapter/store/repository_asset_worker.go:21-68`). If the read fails, the caller sees a failure and
  removes the object of a row that exists. `AssetRuns.CreationResult` and `AssetRuns.ConversionLosesObjectExactly` say
  exactly which failures leave a row without its object; all others keep it.
* A conversion whose new key is the old one overwrites the original before the row is updated, and nothing undoes that
  (`module/assets/application/service_jpg_worker.go:103-122`). An image of another type uploaded under a name that ends
  in .jpg has such a key (`AssetRuns.JPGNamesAreMislabelled`); if its row cannot be updated, the conversion fails and
  the row still describes the image that is gone (`AssetRuns.MislabelledIsOverwritten`).
  `AssetRuns.OriginalKeptExactly` has the exact condition, which also covers a failed publication.
* `escapeLike` leaves backslashes alone. The search means "contains" for exactly the terms without a backslash
  (`SearchLike.MeansContainsExactly`). A malformed escape is modelled as selecting nothing.
* A search that read the data before they changed can write its answer to the cache after the invalidation.
  The cache stays right if and only if no search under way holds such an answer (`SearchCache.StaysCurrentExactly`).
* List filters do not separate their elements in the cache key, and ranges do not separate their bounds.
  `SearchKeys.ListHasTwinExactly` and `SearchKeys.RangeHasTwinExactly` say exactly which ones share their text with
  another; lists of non-empty elements without spaces are told apart from each other.
* Sorting has no tie-breaker, so that pages can show one row twice and another one not at all. Turning the pages shows
  everything exactly for results without ties (`SearchQuery.TurningPagesExactly`).
* A seed loop whose first batch ends in a zero cursor reads that batch again and again until the context ends;
  `KeysetPages.SeedsRows` has the exact condition.
* Normalizing a shipping mark twice can differ from normalizing it once;
  `ShippingMarks.NormalizeIsIdempotentExactly` gives the marks for which it does not.
* When several order items fail, the pool can return the error of a later one. The errors it can return are exactly
  those of the commands before which fewer commands fail than there are workers (`WorkerPool.ReturnedErrorsExactly`).
* The folder tree leaves out folders on or below a cycle as soon as some other folder is a root
  (`FolderCoverage.NothingIsLostExactly`). Hierarchies built by the service alone never have any
  (`FolderCoverage.ForestIsShownCompletely`).
* Orders that share a trimmed identifier each carry the sum of all items of that identifier
  (`OrderFacts.ConservesExactly`). An order without a contact is seeded but refused as an event
  (`OrderFacts.RoutesAgree`).

## Model

| member | source | states |
|---|---|---|
| KeyedLockProtocol.InvStep | module/assets/application/service_lock.go:35-57 | every step of every thread keeps the protocol invariant: manager ownership, links from threads to the one live lock, counters, mutual exclusion |
| KeyedLockProtocol.EveryRunIsSafe | module/assets/application/service_lock.go:35-57 | in every reachable state: one thread at most inside per key; every holder, waiter and leaver points at the lock in the map; the counter is the number of them; a waiter waits only for a thread inside the same key's section; no thread, no entry |
| KeyedLockProtocol.SomeoneCanMove | module/assets/application/service_lock.go:35-57 | no deadlock: while threads are inside the locker, one of them can take its next step |
| KeyedLockProtocol.RunDrains | module/assets/application/service_lock.go:48-57 | a run takes at most 11 steps per call of Lock, and exactly 11 per call if and only if all threads have left, and then the map is empty |
| KeyedLocker.KeyedLocker.Find | module/assets/application/service_lock.go:37-42 | looking up or creating the entry is the protocol's step on the object's own state |
| KeyedLocker.KeyedLocker.Take | module/assets/application/service_lock.go:46-46 | taking the entry's mutex is the protocol's step |
| KeyedLocker.KeyedLocker.Release | module/assets/application/service_lock.go:49-49 | releasing it is the protocol's step |
| KeyedLocker.KeyedLocker.Sweep | module/assets/application/service_lock.go:52-54 | removing the entry at counter zero is the protocol's step, so the safety theorem applies to the object |
| WorkerPool.InvStep | module/orders/application/service_support.go:31-70 | every step of feeder and workers keeps the pool invariant: each index is queued, in work, done or given up once, and the error slot holds a real failure |
| WorkerPool.SomeoneCanMove | module/orders/application/service_support.go:37-70 | no deadlock before the call returns |
| WorkerPool.EveryRunReturns | module/orders/application/service_support.go:20-71 | no run exceeds 5 steps per command plus 3, and a run that cannot go on has returned |
| WorkerPool.SequentialMeaning | module/orders/application/service_support.go:20-71 | the sequential loop over the commands fails exactly with the error of some command, otherwise holds the outcome of each |
| WorkerPool.EveryRunAgrees | module/orders/application/service_support.go:20-71 | under every interleaving the pool returns the rows of the sequential loop, or an error of one of the commands exactly if that loop fails |
| WorkerPool.ErrorOrderStep | module/orders/application/service_support.go:37-70 | until an error is reported every failing command that was taken occupies a worker; the first report decides the error |
| WorkerPool.ReturnedErrorsExactly | module/orders/application/service_support.go:20-71 | an error can be returned by some run if and only if a command with it fails and fewer commands fail before it than there are workers |
| WorkerPool.AgreesWithSequentialExactly | module/orders/application/service_support.go:20-71 | every run returns what the sequential loop returns if and only if all such commands fail with the loop's error |
| WorkerPool.ErrorMayBeALaterOne | module/orders/application/service_support.go:53-70 | an instance of it: of two different failures the second one's error can be returned |
| OrderItems.ItemMeaning | module/orders/application/service_support.go:74-110 | resolving a command fails exactly when it has no product id and the catalogue, asked for its trimmed SKU and name, fails; otherwise the row has the command's own SKU, name, quantity and value, a given product id, or what the catalogue answers and the name by which it says it found it |
| OrderItems.ResolveItemsResult | module/orders/application/service_support.go:20-110 | every interleaving fails exactly when the lookup of some command fails, with the error of such a lookup; otherwise row i has the fields of command i and the catalogue's answer to it |
| AssetKeys.OneOwner | module/assets/application/service_types.go:208-218 | an object key belongs to at most one asset |
| AssetKeys.BuiltKeyIsOwned | module/assets/application/service_types.go:208-218 | a built key belongs to its asset, whatever the file name |
| AssetKeys.KeyOfBase | module/assets/application/service_types.go:208-218 | a key is made of the identifier and the base of the file name with dashes for spaces, or a default name |
| AssetKeys.BaseIsLast | module/assets/application/service_types.go:210-212 | the base of a path is what follows its last slash, slashes at the end not counted |
| AssetKeys.ReplaceKeepsOwner | module/assets/application/service_jpg_worker.go:183-195 | replacing the extension never leaves the asset's own keys |
| AssetKeys.NoExtension | module/assets/application/service_jpg_worker.go:189-192 | a name counts as having no extension only if a slash follows every dot in it |
| AssetKeys.ReplacedIsJPG | module/assets/application/service_jpg_worker.go:183-195 | the new name ends in .jpg, needs no trimming, and replacing again changes nothing |
| AssetKeys.ReplaceRenames | module/assets/application/service_jpg_worker.go:183-195 | the name keeps all but its extension, which is what starts at the last dot after the last slash |
| AssetSaga.OthersUntouched | module/assets/application/service_jpg_worker.go:65-144 | no call of any operation, whatever its outcome, touches row or objects of another asset |
| AssetSaga.OwnKnowledge | module/assets/application/service_jpg_worker.go:65-144 | a call that reports truthfully leaves its asset with its object, and the operation with the facts that its next calls rely on |
| AssetSaga.InvStep | module/assets/application/service_asset.go:63-72 | every step of concurrent creations, deletions and conversions, crashes included, keeps all keys apart, and keeps each asset with its object unless a committing write on that very asset misreports |
| AssetSaga.EveryRunKeepsKeysApart | module/assets/application/service_types.go:208-218 | over every run, whatever the calls report, rows stay under keys that belong to their own asset alone |
| AssetSaga.EveryRunKeepsObjects | module/assets/application/service_jpg_worker.go:65-144 | over every run, with any calls failing and a crash between any two calls, a live asset has its object, whatever happens on other assets, if the committing writes on this one report truthfully |
| AssetRuns.ConversionLosesObjectExactly | module/assets/application/service_jpg_worker.go:103-137 | for every choice of failing calls: the asset ends without an object if and only if a write took effect but was reported as failed and the compensation went through |
| AssetRuns.ConversionResult | module/assets/application/service_jpg_worker.go:65-144 | what "skipped" and "converted" mean for both stores |
| AssetRuns.ConvertedRow | module/assets/application/service_jpg_worker.go:65-144 | after a conversion the row describes the re-encoded object: its size is the length of the object, its type is image/jpeg, and key and name have kept their stems |
| AssetRuns.IsJPGExactly | module/assets/application/service_jpg_worker.go:176-180 | an asset counts as converted exactly if its type is image/jpeg and key and name end in .jpg, in any case |
| AssetRuns.RealEnvRecognisesConverted | module/assets/application/service_jpg_worker.go:176-195 | whatever the key and the file name were, a row written by a conversion is recognised as a JPG |
| AssetRuns.ConvertedIsSkipped | module/assets/application/service_jpg_worker.go:73-75 | a second conversion after a successful one skips the asset and changes nothing, as converted rows are recognised |
| AssetRuns.OriginalKeptExactly | module/assets/application/service_jpg_worker.go:103-142 | for every choice of failing calls: the original object stays as it was if and only if it is neither overwritten under its own key nor dropped after the new row was written |
| AssetRuns.RowAfterConversion | module/assets/application/service_jpg_worker.go:111-137 | for every choice of failing calls: which row the conversion leaves, and that no other row changes |
| AssetRuns.MislabelledIsOverwritten | module/assets/application/service_jpg_worker.go:103-122 | an image of another type under a .jpg key whose update is refused: the conversion fails, the row is unchanged, the object is not |
| AssetRuns.JPGNamesAreMislabelled | module/assets/application/service_types.go:208-218 | uploading an image that is not a JPG under any plain name that ends in .jpg creates such a row |
| AssetRuns.CreationResult | module/assets/application/service_asset.go:63-79 | a creation stores object and row together or, with working calls, neither; the exact condition for a row without an object |
| AssetService.AssetService.Create | module/assets/application/service_asset.go:63-79 | upload, persist and roll back in place are the run of the step system |
| AssetService.AssetService.Delete | module/assets/application/service_asset.go:164-186 | deletion in place is the run of the step system; a successful one removes that row and nothing else |
| AssetService.AssetService.ConvertAssetToJPG | module/assets/application/service_jpg_worker.go:65-144 | conversion in place, with all its rollback paths, is the run of the step system |
| AssetService.AssetService.RunJPGWorker | module/assets/application/service_jpg_worker.go:43-61 | the counters are the numbers of verdicts of the assets handled, also when the context ends early |
| Notifications.DecideMeans | module/email/application/service_webhook_sns.go:182-229 | for every notification, from its raw fields: which words of notification type, event type and bounce type lead to which status; opt-out exactly for complaints and bounces that are not transient; retry exactly for transient bounces |
| Notifications.StatusIsUnique | module/email/application/service_webhook_sns.go:182-229 | no notification fits two statuses, so the status is determined by its fields |
| SoftBounceGate.PhaseStep | module/email/application/service_webhook_sns.go:231-257 | every step keeps what each handler relies on: its own entry stays in the timeline, its count is at least the rank of that entry, a launched one has a rank within the bound |
| SoftBounceGate.RetriesAreBounded | module/email/application/service_webhook_sns.go:252-257 | under every interleaving of handlers, retries and other writers at most the configured number of retries is launched per delivery |
| SoftBounceGate.ServiceRetriesAreBounded | module/email/application/service_webhook_sns.go:182-257 | the same with the service's own classification of notifications |
| SoftBounceGate.BoundIsReached | module/email/application/service_webhook_sns.go:252-257 | the bound is tight: some run launches exactly that many |
| SoftBounceGate.TransientBouncesAskForRetry | module/email/application/service_webhook_sns.go:182-229 | which notifications pass the gate's first test |
| EmailWebhook.DeliveryLog.HandleSESNotification | module/email/application/service_webhook_sns.go:174-260 | the handler, updating the log in place, is a run of the step system for every pattern of failing calls; when it succeeds, when it appends and when it launches |
| EmailWebhook.DeliveryLog.HandleWebhook | module/email/application/service_webhook_sns.go:174-260 | with the service's own classification: the entry that is appended has the status that belongs to the notification, and nothing else changes; when the recipient is to be opted out and when a retry is launched, from the notification's fields |
| FolderParents.MeaningIsUnique | module/assets/application/service_folder.go:115-155 | the four verdicts exclude each other |
| FolderParents.ValidateFolderParent | module/assets/application/service_folder.go:115-155 | terminates on any parent links and returns the one verdict that the ancestor chain deserves: accepted exactly if it ends at a folder without parent and avoids the folder |
| FolderParents.AcceptsExactlyNonDescendants | module/assets/application/service_folder.go:115-155 | in an intact hierarchy exactly the moves under the folder itself are rejected |
| FolderSteps.LinkKeepsForest | module/assets/application/service_folder.go:18-22 | an accepted parent keeps the hierarchy free of cycles and dangling parents |
| FolderSteps.DeleteKeepsForest | module/assets/adapter/store/repository_folder.go:200-232 | so does deleting a folder with everything below it |
| FolderSteps.CollectTree | module/assets/adapter/store/repository_folder.go:343-385 | the breadth-first search collects exactly the folder and what is below it, each once, also with cycles |
| FolderSteps.FolderStore.CreateFolder | module/assets/application/service_folder.go:15-47 | creates exactly if the parent is accepted and the write succeeds; keeps the hierarchy intact |
| FolderSteps.FolderStore.UpdateFolder | module/assets/application/service_folder.go:80-112 | moves exactly if accepted and written; keeps the hierarchy intact |
| FolderSteps.FolderStore.DeleteFolder | module/assets/application/service_folder.go:158-181 | removes exactly the folders below the deleted one; keeps the hierarchy intact |
| FolderOrder.LessOfOrders | module/assets/application/service_folder_tree.go:114-133 | name, slug and id together order folders totally |
| FolderOrder.KeyOrderMeans | module/assets/application/service_folder_tree.go:114-133 | the order is by name, then slug, both without regard to case and surrounding space and character by character, then by id |
| FolderOrder.SortedIsUnique | module/assets/application/service_folder_tree.go:114-133 | there is one sorted listing of a set of folders, so no sorting algorithm or map order can show |
| FolderOrder.SortFolderIDs | module/assets/application/service_folder_tree.go:114-133 | the listing is sorted and has the same members |
| FolderForest.TreeShape | module/assets/application/service_folder_tree.go:82-111 | for arbitrary parent links: stored rows, children under their stored parent, siblings in order, no id twice on a path from the root |
| FolderCoverage.BranchCoverage | module/assets/application/service_folder_tree.go:82-111 | the branch of a rooted folder holds exactly the folders below it, each once |
| FolderCoverage.ForestCoverage | module/assets/application/service_folder_tree.go:57-78 | with a root present the tree holds each folder whose parents lead to a root once, and no other |
| FolderCoverage.RootlessCoverage | module/assets/application/service_folder_tree.go:57-61 | without any root every folder still appears |
| FolderCoverage.NothingIsLostExactly | module/assets/application/service_folder_tree.go:57-78 | no folder is lost if and only if there is no root or every folder leads to one |
| FolderCoverage.ForestShape | module/assets/application/service_folder_tree.go:63-78 | order and shape of the whole forest |
| FolderCoverage.ForestIsShownCompletely | module/assets/application/service_folder_tree.go:23-79 | hierarchies that the folder service keeps intact are shown completely, each folder once |
| FolderRows.OrderDoesNotMatter | module/assets/application/service_folder_tree.go:24-35 | the tree does not depend on the order of the rows, unless two different rows share an id |
| FolderRows.TreeOfRows | module/assets/application/service_folder_tree.go:23-133 | told from the listed rows alone: every node carries name, slug and parent of the last row with its trimmed id, its children are folders whose row names it as their parent, siblings are in display order; with a top folder present, exactly the folders that lead to one are shown, each once, the top ones on top and every other one under the parent that its row names; without one every folder appears |
| FolderTreeBuilder.GroupByParent | module/assets/application/service_folder_tree.go:40-55 | grouping visits the map in any order and lists roots and children once each |
| FolderTreeBuilder.TreeBuilder.BuildFolderNode | module/assets/application/service_folder_tree.go:82-111 | the recursion, with path and emitted set updated in place, terminates for any links, builds the branch, restores the path and adds exactly the ids of the branch |
| FolderTreeBuilder.BuildFolderTree | module/assets/application/service_folder_tree.go:23-79 | the built tree is the tree of the listed rows in this sense, and the forest of the indexed rows, so the theorems on both hold for it |
| FolderSlug.SlugIsJoinedWords | module/assets/domain/folder.go:93-101 | the slug is the words of letters and digits joined by single dashes, and has the shape of a slug |
| FolderSlug.SlugOfName | module/assets/domain/folder.go:93-101 | the slug of any name is the words of the lower-cased name, whatever space surrounds it |
| FolderSlug.FixpointsAreSlugs | module/assets/domain/folder.go:93-101 | exactly the strings of slug shape are their own slugs |
| FolderSlug.SlugIsIdempotent | module/assets/domain/folder.go:93-101 | making a slug of a slug changes nothing, for every name |
| FolderSlug.EmptyExactly | module/assets/domain/folder.go:93-101 | there is no slug exactly if the lower-cased name has no letter or digit |
| SearchLike.PlainTermMeansContains | module/core/search/query_builder.go:40-56 | for a term without backslash the pattern selects exactly the values that contain it, under the LIKE rules and any collation |
| SearchLike.BackslashMisleads | module/core/search/query_builder.go:153-156 | every term with a backslash has a value that is selected wrongly |
| SearchLike.MeansContainsExactly | module/core/search/query_builder.go:40-56 | the search means "contains" if and only if the term has no backslash |
| SearchLike.ApplyTextSearch | module/core/search/query_builder.go:40-56 | one clause per text field, none for a blank term |
| SearchLike.TextSearchMeaning | module/core/search/query_builder.go:40-56 | the selected rows are those with the term in some text field |
| SearchLike.CaseOfTerm | module/core/search/query_builder.go:40-56 | with a collation that ignores case, the case of the term does not matter |
| SearchPages.NormalizePagination | module/core/search/port.go:96-109 | page at least 1, size from 1 to 100, valid values unchanged |
| SearchPages.PagesPartition | module/core/search/query_builder.go:24-24 | the pages 1 to the page count make up the result, none of them is empty, all later ones are |
| SearchPages.TotalPages | module/core/search/port.go:112-117 | the least number of pages that holds all rows |
| SearchQuery.ApplyFilters | module/core/search/query_builder.go:59-96 | the conditions are the permitted filters that restrict anything |
| SearchQuery.ResolveSort | module/core/search/query_builder.go:116-140 | tied to the effective sort, which is never empty and has only sortable fields or the fallback |
| SearchQuery.EffectiveSort | module/core/search/query_builder.go:116-140 | never empty; sortable fields with a known direction, or the fallback |
| SearchQuery.SortMeans | module/core/search/query_builder.go:116-140 | each requested sort on a sortable field stays in its place with its own known direction, others become descending; the default is used when none is left |
| SearchQuery.PagesShowMatches | module/core/search/query_builder.go:12-27 | for a term without backslash, told from the stored rows: the pages together show each row as often as it is stored if the term is in one of its text fields and it passes every permitted filter that restricts anything, and never otherwise; the total is the number of stored rows that do |
| SearchQuery.SearchHeader | module/core/search/port.go:96-117 | page number and size as asked for, within bounds; the least page count for the total; exactly the pages up to it have rows |
| SearchQuery.PagesAreInOrder | module/core/search/query_builder.go:17-24 | the pages follow one another in the order of the effective sort |
| SearchQuery.TurningPagesShowsEverything | module/core/search/query_builder.go:12-27 | with a database that arranges a result alike for every page, the pages together are that arrangement |
| SearchQuery.UntiedPagesShowEverything | module/core/search/query_builder.go:20-24 | with a database that arranges tied rows anew for every page, this still holds for results without ties and for results of one page |
| SearchQuery.TurningPagesExactly | module/core/search/query_builder.go:20-24 | it holds for every page size and every such arrangement if and only if no two different rows are tied |
| SearchKeys.NormalizeQueryForKey | module/core/search/cache.go:112-131 | the loops and the sort compute the canonical query |
| SearchKeys.SortStrings | module/core/search/cache.go:117-117 | sorted, and the same texts with the same multiplicity |
| SearchKeys.SameKeyExactly | module/core/search/cache.go:95-131 | queries with plain filters (single values, lists of readable elements, ranges whose lower bound has no space) share a key if and only if they agree up to case of the term and order of the filters |
| SearchKeys.ReadableListsAreToldApart | module/core/search/cache.go:115-115 | lists of non-empty elements without spaces have different texts |
| SearchKeys.ListHasTwinExactly | module/core/search/cache.go:115-115 | a list shares its text with another list if and only if it is not a single readable element |
| SearchKeys.UnreadableListHasTwin | module/core/search/cache.go:115-115 | a filter whose list has an unreadable element shares its text with another filter |
| SearchKeys.RangeHasTwinExactly | module/core/search/cache.go:115-115 | a range shares its text with another range if and only if one of its bounds has a space |
| SearchCache.SameKeySameResult | module/core/search/cache.go:95-131 | queries that share a key have the same result, for any data, any sorting and any collation that ignores case |
| SearchCache.PrefixesSeparate | module/core/search/cache.go:99-99 | repositories with different prefixes never share a key |
| SearchCache.StepAgrees | module/core/search/cache.go:52-92 | over fixed data, every single call of any search or invalidation under way, failing or not, keeps the usable entries, the answers under way and the replies equal to what the inner repository answers |
| SearchCache.EveryRunAgrees | module/core/search/cache.go:52-92 | over fixed data, however the calls interleave, no search returns anything else than the search without a cache |
| SearchCache.FailuresAreInner | module/core/search/cache.go:67-70 | a search fails only if its call of the inner repository fails |
| SearchCache.StaysCurrentExactly | module/core/search/cache.go:52-77 | from any point on, for instance after the data changed, the cache holds only current answers in all that can follow if and only if it does now and no search under way holds a stale one |
| SearchCache.InvalidationWorks | module/core/search/cache.go:80-92 | an invalidation whose calls succeed makes the cache current for whatever the data are now, while other calls go on, if no search under way held a stale answer when the keys were listed |
| SearchCache.CachedRepository.Search | module/core/search/cache.go:52-77 | the read-through path, in place, makes the calls of one search in order; uninterrupted, it has the stated reply and effect |
| SearchCache.WrittenIsGiven | module/core/search/cache.go:52-77 | an answer that was written is given from then on without asking, even when the inner repository would answer otherwise |
| SearchCache.CachedRepository.Invalidate | module/core/search/cache.go:80-92 | lists the keys and deletes them one by one, which leaves exactly the entries of others and those that could not be deleted |
| KeysetPages.WhereIsSuffix | module/analytics/application/service_seed_membership.go:43-46 | the rows behind a cursor are a suffix of the table |
| KeysetPages.OneRound | module/analytics/application/service_seed_membership.go:53-68 | one batch keeps the state of the loop: the rows read are a prefix, the next query sees the rest |
| KeysetPages.RunEnds | module/analytics/application/service_seed_membership.go:31-72 | what each way of ending promises |
| SeedMembership.SeedMembershipEvents | module/analytics/application/service_seed_membership.go:31-72 | terminates for every table and batch size; the inserted events are those of the first rows, each once and each column in its own field, and of all rows when it finishes; the count is their number; without failures it finishes if and only if the first batch does not end at the zero time and the context lasts |
| SeedContacts.SeedContacts | module/analytics/application/service_seed_contacts.go:47-80 | the same for the loop with the identifier as cursor, and which times stand in for missing ones |
| OrderFacts.IndexOrders | module/analytics/application/service_seed_orders.go:101-111 | the identifiers in order, and the index of the last row for each |
| OrderFacts.BuildOrderPayloads | module/analytics/application/service_seed_orders.go:146-200 | the accumulating loops compute one fact per order, with the fields of its row, its status and the sums over its item rows, and the item facts of known orders |
| OrderFacts.SeedReports | module/analytics/application/service_seed_orders.go:146-179 | the item facts are, in stored order, those of the item rows of known orders, each with the fields of its own row and of its order |
| OrderFacts.TotalsAreSumsOfItems | module/analytics/application/service_seed_orders.go:158-179 | total and item count of an order are the sums over its own emitted item facts |
| OrderFacts.ConservesExactly | module/analytics/application/service_seed_orders.go:146-200 | all totals together equal all item facts together, as emitted, for all items, if and only if the orders have different identifiers |
| OrderFacts.HandleOrderEvent | module/analytics/runtime/module_consumers.go:121-171 | which events are refused, and that the facts of the others have the event's own fields in their places, the current or else the latest status, and the sums of their items |
| OrderFacts.RoutesAgree | module/analytics/runtime/module_consumers.go:121-171 | for the same order the handler passes on the order fact and the item facts of the seed if and only if the order has an identifier and a contact |
| SwaggerAlgebra.OrderDoesNotMatter | module/core/swagger/document.go:62-78 | every order of the same specs gives the same document, or none succeeds |
| SwaggerAlgebra.SucceedsExactly | module/core/swagger/document.go:62-191 | merging succeeds if and only if nothing is nil and no operation or component is defined twice |
| SwaggerAlgebra.MergedIsUnion | module/core/swagger/document.go:62-191 | the document holds exactly the operations, components and tag names of the specs |
| SwaggerDocument.ClonePathItem | module/core/swagger/document.go:194-209 | a detached item with the same contents, whose parameter and server lists are detached as well |
| SwaggerDocument.Document.AddPath | module/core/swagger/document.go:103-107 | a path that is new gets an item with the operations, parameters, servers and texts of the source, and no other path changes |
| SwaggerDocument.Document.MergePaths | module/core/swagger/document.go:93-120 | visiting the paths in any order and updating path items in place gives the disjoint union, or fails exactly on a nil item or a duplicate; the document never shares an item with a spec |
| SwaggerDocument.Document.MergeComponents | module/core/swagger/document.go:123-157 | the same for the nine component sections |
| SwaggerDocument.Document.MergeTags | module/core/swagger/document.go:160-191 | adds the missing names, fails exactly on a nil tag |
| SwaggerDocument.Document.Merge | module/core/swagger/document.go:62-78 | one step of the algebra; the spec is unchanged |
| Permissions.CoverTable | module/auth/domain/permissions.go:42-45 | a covering permission has the resource of the covered one, and is not covered itself |
| Permissions.CheckIsTransitive | module/auth/application/service.go:165-208 | over all strings: what a satisfied permission satisfies is satisfied already |
| Permissions.ClosureAddsNothing | module/auth/application/service.go:165-198 | granting whatever is satisfied changes nothing |
| Permissions.MoreScopesSatisfyMore | module/auth/application/service.go:165-198 | more scopes never satisfy less |
| Permissions.CheckMeans | module/auth/application/service.go:165-208 | over all strings: a permission is satisfied exactly by itself, by the manage permission of what comes before its first colon, and by the two covering pairs |
| Permissions.FirstMissing | module/auth/application/service.go:116-124 | succeeds exactly if every permission that is not blank is held; otherwise names the first that is not |
| Permissions.AuthorizeExactly | module/auth/application/service.go:103-126 | access is granted exactly if nothing is required, or there are scopes and one of them grants, in this sense, each trimmed permission that is not blank; a refusal names the first that is lacking |
| Permissions.AuthorizeIsMonotone | module/auth/application/service.go:103-126 | more scopes never lose access |
| Rounding.Round2IsNear | module/shipping/domain/dimensions.go:58-60 | rounding gives whole hundredths and is off by at most 0.005 |
| ShippingMarks.NormalizeDimensions | module/shipping/domain/dimensions.go:27-55 | the field-by-field edit computes the normal dimensions |
| ShippingMarks.DimensionsMeaning | module/shipping/domain/dimensions.go:27-55 | sizes are cut off at zero, weights and value are the nearest hundredths, and a missing volumetric weight is height by width by depth over 2500 |
| ShippingMarks.RoundedOnce | module/shipping/domain/dimensions.go:58-60 | an amount has only one rounded value in this sense |
| ShippingMarks.Normalize | module/shipping/domain/shipping_mark.go:115-197 | the accumulating loop and the adjustments compute the normal mark |
| ShippingMarks.MarkMeaning | module/shipping/domain/shipping_mark.go:115-197 | from the given amounts: both totals are exact sums over the mark's own units; fee at most 100 percent, a missing charge is the amount, nothing is charged without an amount; the declared value is the given one or that of the first unit that declares any |
| ShippingMarks.TotalWeightIsNear | module/shipping/domain/shipping_mark.go:120-124 | the total weight differs from the sum of the given weights by at most 0.005 per unit |
| ShippingMarks.DimensionsSettleExactly | module/shipping/domain/dimensions.go:44-55 | when normalizing dimensions twice is the same as once |
| ShippingMarks.CodSettlesExactly | module/shipping/domain/shipping_mark.go:132-153 | when cash-on-delivery amounts are final |
| ShippingMarks.DeclaredSettlesExactly | module/shipping/domain/shipping_mark.go:119-131 | when the declared value is final |
| ShippingMarks.NormalizeIsIdempotentExactly | module/shipping/domain/shipping_mark.go:115-197 | normalizing twice equals normalizing once if and only if units, declared value and cash-on-delivery amounts settle |
| ShippingMarks.PlainAmountsSettle | module/shipping/domain/shipping_mark.go:115-197 | in particular if each of these amounts is zero or at least 0.005 |

## Left out

- AssetSaga.EveryRunKeepsObjects: needs truthful reports of the three committing writes on the asset itself; what a write that misreports does is stated exactly, for one operation, by the members of AssetRuns named above.
- SearchKeys.SameKeyExactly: covers field names without a colon and the plain filters of `SearchKeys.IsPlain`; for lists and ranges beyond them the members named above show that the text no longer tells them apart.
- SearchLike.PlainTermMeansContains: does not say what a database answers to a malformed escape; section 8.5 of ISO/IEC 9075-2 makes it an error, here it selects nothing.
- FolderSteps.FolderStore.UpdateFolder: does not model two updates at the same time; the service validates before it takes the folder's lock, so only serialized steps keep the hierarchy intact.
- OrderFacts.ConservesExactly: does not model floating-point sums; values are exact numbers.
- SeedContacts.SeedContacts: reads the clock once, where the service reads it for every batch; does not model the metadata that is loaded with each batch, nor the status lookup of the order loop; the loop over orders has the same cursor.
- SearchCache.EveryRunAgrees: takes the inner repository to answer alike as long as the data stay as they are, so a database that arranges tied rows anew is outside it.
- WorkerPool.EveryRunAgrees: does not model cancellation of the context inside a lookup, which is one more way for a lookup to fail; the pool is a value that its steps change, not a set of channels.
- HTTP handlers, authentication tokens, scope parsing, OpenAPI builders, scheduling, circuit breaking and the providers behind the ports are left out.
- Lower-casing and trimming follow Go on all white space and on every character whose lower-case form is ASCII; other letters are kept as they are.
- Integers are unbounded: the 64-bit wrap-around of the offset of huge page numbers, and page counts beyond the precision of a float64, are left out.
- A database is given by the rows it holds, how it compares values and how it orders rows; joins, SQL text and NULL logic other than "a missing column is not selected" are left out.
- Besides operations, a merged path keeps the parameters, servers and texts of the spec that came first; only operations, components and tag names are independent of the order.
- The recipient and the reason of an opt-out, delivery status fields, tracking pixels, event payloads and the contents of a retry are left out; entries that sending, plain webhooks, tracking and retries append are one kind of step.
- Field normalizers of contacts, coupons, reports and configuration only add easy members and are left out.
