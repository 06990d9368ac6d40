# CloudPAM: a verified model of its core

CloudPAM plans and tracks IP address space: a tree of address pools, the cloud resources discovered in
accounts, an import that turns resources into pools, drift detection between the two, audit output, CSV
exchange, and the logins, sessions and API keys that guard all of it. This project models that logic in
Dafny and proves what it promises. `dafny verify dfyconfig.toml` checks everything.

| modules | what they cover |
|---|---|
| `Bits`, `Cidr`, `LastAddr`, `CidrTests` | prefixes as address sets; both last-address computations; every overlap, containment and equality test |
| `PoolStore`, `PoolRequest`, `PoolTree`, `Capacity` | the pool stores, which requests are acceptable, the create handler, and the tree invariant over whole runs |
| `Blocks` | the block enumeration with its uint32 arithmetic, its pages, and the used / exists-elsewhere marks |
| `Classification`, `Import`, `ImportApply`, `ImportOrder`, `ImportReady`, `ImportServer` | conflict classification, import preview, apply with failures at every step, rollback, the all-or-nothing action |
| `Hierarchy` | the network tree over arbitrary parent pointers |
| `Discovery`, `Paging`, `Collector`, `Drift` | paged reads, sync runs, drift detection |
| `Cef`, `PoolCsv` | the audit formatter and its reader; pool export and import |
| `UserStore`, `Lockout`, `Sessions`, `Login` | lockout over runs, sessions with their index and cap, the login handler |
| `KeyStore`, `Rbac`, `Scopes`, `ApiKeys`, `ActiveCache` | key issuance without widening, secondary indexes, the account-state cache under interleaving |
| `Text`, `Sorting`, `Wrappers` | the Go string functions, stable sorting, result shapes |

Code that changes state is a class or a loop, specified by functions on values; the main results are lemmas
about those functions. Go maps are iterated in any order: loops pick elements arbitrarily.

## Where the code does less than it seems to promise

Each of these is stated as an exact condition with the failing case proved beside it.

- Siblings are disjoint only if the store refuses a sibling with the same text. Both databases do, the
  in-memory store does not (`CreateKeepsTreeIff`, `IndexRefusesTwins`, `MemoryAcceptsTwins`). Over runs:
  the tree is kept throughout iff no such sibling is created (`RunKeepsTreeIff`), which for the databases is
  always (`DatabasesTwinFree`).
- Pages of the block list add up to it iff the page size or the list is at most 65536 (`PagesCompleteIff`).
  Offsets beyond 63 bits wrap (`WrappedPageRepeats`).
- Rollback restores the links iff no listed resource was linked before. `applyDiscoveryImport`, called directly
  with force, can include a linked resource of another account (`RollbackRestoresIff`,
  `ForcedForeignLinkIsLost`). The conflict action, which is the only caller that forces, cannot: it first finds
  one account for all resources (`ImportAccount`, `ImportAction`).
- A CSV import rebuilds the forest iff every parent that has a parent itself has the larger id of the two and
  no rows clash under the target's unique index: rows are sorted by parent id, not by depth
  (`ImportRebuildsIff`). Exports of the stores always satisfy the first half, and the second for a target with
  the index they were kept under (`ExportImportRoundTrip`, `RunKeepsIndex`).
- A paged read of discovered resources is exact iff no page boundary falls among resources with equal
  discovery times, because every call lists them in a new order (`PagedCompleteIff`, `ReadOnceIff`). One page
  is always exact. What is built on it is right more often: the created count of a sync run iff no stored
  object of the batch is cut at its own lookup (`CountExactIff`), the drift items of an account iff no resource
  to be reported is cut and no read can miss every link of a linked pool (`AsExpectedIff`).
- A key create keeps the prefix index exact iff it is refused or the id is new (`CreateKeepsIndexIff`).
- Issuing an API key asks for read or list and grants both, so custom roles with one of them can widen
  (`CustomRoleNeverWidensIff`). Keys and built-in roles cannot.
- A comment at `internal/api/middleware.go:33-43` gives the cache's TTL as the longest time a disabled user
  can stay admitted. The cached time is taken after the lookup, so the bound is the TTL plus the time between
  the two (`NotAdmittedAfter`), and it is reached (`BoundAttained`).

## What is taken as given

- `netip.ParsePrefix` is a parameter (`Parser`). Where texts matter, `NetipText` says that IPv4 texts
  consist of digits, dots and a slash, and `PrintsBack` that parsing a printed prefix gives it back.
  `net.ParseIP` is a parameter whose output has no special character (`PrintsPlain`).
- Clock readings, generated ids, password comparison, the failures of store calls during an import and its
  rollback, and the lookups of the conflict action are parameters of the methods that use them. `uuid.New` is a
  counter.
- Pool requests and imports run one after the other. The sibling scan and the insert are separate store calls,
  so two creates at once could both pass; nor may other requests come between an import and its rollback.

## Model

| member | source | states |
|---|---|---|
| `Cidr.NestedOrDisjoint` | internal/api/cidr.go:38-50 | two prefixes of one family are nested or share no address; every test below rests on it |
| `LastAddr.LastAddr32IsLast` | internal/api/cidr.go:107-114 | the wrapping uint32 expression gives the last address of every IPv4 prefix, /0 and /32 included |
| `LastAddr.LastAddrBytes` | internal/cidr/cidr.go:56-67 | the bit-setting loop over the masked bytes returns the same address as the uint32 expression |
| `CidrTests.OverlapTestsAgree` | internal/api/cidr.go:38-50 | interval overlap, base-address overlap (validation, discovery) and a common address are the same thing |
| `CidrTests.ContainmentTestsAgree` | internal/api/discovery_handlers.go:981-994 | every containment and equality test equals inclusion of the address sets, both directions |
| `CidrTests.ValidateChildMeaning` | internal/api/cidr.go:10-35 | a child is accepted iff both sides are IPv4 prefixes and the child is a proper part of the parent, and each error says which of this is wrong |
| `PoolStore.Store.ListPools` | internal/storage/store.go:60-71 | lists exactly the pools that are not soft-deleted, each once |
| `PoolStore.Store.CreatePool` | internal/storage/store.go:73-122 | refuses empty name or CIDR, on Postgres a CIDR that is no address, and index duplicates, each with its own error; otherwise adds one pool under the next id with the defaults filled in; a refusal changes nothing |
| `PoolStore.Store.GetPool` | internal/storage/store.go:124-132 | finds a pool iff it is stored and not soft-deleted |
| `PoolStore.Store.UpdatePool` | internal/storage/store.go:164-199 | never changes CIDR, parent or deletion mark; account is overwritten, the rest only when given |
| `PoolStore.Store.DeletePool` | internal/storage/store.go:201-218 | soft-deletes iff the pool has no live child, and says which of the three outcomes occurred |
| `PoolStore.Store.DeletePoolCascade` | internal/storage/store.go:220-254 | the fixpoint loop marks exactly the pools from which live parent links lead to the root |
| `PoolTree.FirstBlocker` | internal/api/pool_handlers.go:540-567 | finds a sibling that overlaps with other text iff there is one |
| `PoolTree.CreatePoolHandler` | internal/api/pool_handlers.go:442-590 | creates iff the request is acceptable, field by field over addresses, texts and live pools; a refusal changes nothing and its error says what is wrong, a conflict by naming an overlapping sibling |
| `PoolTree.AcceptsIff` | internal/api/pool_handlers.go:442-569 | accepted are exactly the named requests for a masked IPv4 block of /8 to /30 free of reserved addresses, with listed kind, status and source, inside a live parent if one is given, that no live sibling of other text overlaps and no index entry repeats |
| `PoolTree.TopLevelAccepted` | internal/api/pool_handlers.go:442-569 | the empty store accepts every well-formed request without a parent |
| `PoolTree.PrivateBlockAccepted` | internal/validation/validation.go:38-45 | 10.0.0.0/8, for one, is accepted by the empty store under any good name |
| `PoolTree.RefusesExplains` | internal/api/pool_handlers.go:442-569 | each error of the handler holds of the request: which part is malformed, missing, out of bounds or in the way |
| `PoolTree.CheckAndCreate` | internal/api/pool_handlers.go:501-590 | the part after the request is read: checks, sibling scan and insert are the specified step |
| `PoolTree.PlainFold` | internal/api/pool_handlers.go:550-552 | on printed prefixes the folded, trimmed comparison of texts is equality |
| `PoolTree.CreateKeepsTreeIff` | internal/api/pool_handlers.go:501-569 | an accepted create keeps children inside parents and siblings disjoint iff no live sibling has the same text |
| `PoolTree.IndexRefusesTwins` | migrations/0001_init.sql:31-32 | the unique indexes of both databases refuse that sibling |
| `PoolTree.MemoryAcceptsTwins` | internal/storage/store.go:73-122 | the in-memory store accepts it: any accepted create can be repeated and then breaks disjointness |
| `PoolTree.DeleteKeepsTree` | internal/storage/store.go:201-218 | deleting a pool keeps the tree |
| `PoolTree.CascadeKeepsTree` | internal/storage/store.go:220-254 | a cascade keeps the tree |
| `PoolTree.UpdateKeepsTree` | internal/api/pool_handlers.go:316-398 | an update keeps the tree |
| `PoolTree.RunKeepsTreeIff` | internal/api/pool_handlers.go:501-569 | on every backend a run of creates, updates, deletes and cascades from the empty store keeps the tree throughout iff it never creates a second live sibling with one text |
| `PoolTree.DatabasesTwinFree` | migrations/postgres/001_core_schema.up.sql:132-133 | runs against the two databases never create one |
| `PoolTree.RunKeepsTree` | internal/api/pool_handlers.go:442-590 | so every run against a database, and every such run in memory, ends in a tree |
| `PoolTree.RunKeepsIndex` | migrations/0001_init.sql:31-32 | every run keeps the unique index of its backend |
| `PoolTree.ShareAddressIff` | internal/api/pool_handlers.go:501-569 | in a tree two pools share an address iff one is the other's ancestor or they are the same |
| `PoolTree.RunSharesByAncestry` | internal/api/pool_handlers.go:501-569 | the same for every run from the empty store, without textual twins if in memory |
| `PoolTree.ChildrenFit` | internal/api/pool_handlers.go:540-567 | the sizes of a pool's live children add up to at most its own size |
| `PoolTree.RunChildrenFit` | internal/api/pool_handlers.go:540-567 | the same for every run from the empty store, without textual twins if in memory |
| `Capacity.DisjointPartsFit` | internal/api/pool_handlers.go:540-567 | pairwise disjoint parts of a prefix have total size at most its size |
| `Blocks.NoWrap` | internal/api/cidr.go:98-102 | the uint32 products and sums of the enumeration never wrap for an index in range |
| `Blocks.Partition` | internal/api/cidr.go:58-105 | each address of the parent lies in exactly one block and no block has an address outside it |
| `Blocks.HostsCounted` | internal/api/cidr.go:129-138 | the reported host count is the number of addresses of a block without its first and last, or of all when the block has at most two |
| `Blocks.ComputeWindow` | internal/api/cidr.go:58-105 | fails in exactly the listed cases; else the blocks are those from the offset on, by index, as many as the limit, the 65536 cap and the list allow, all without a limit, with total and host count |
| `Blocks.ListBlocks` | internal/api/cidr.go:98-104 | the loop lists the requested slice of the block list |
| `Blocks.PagesCompleteIff` | internal/api/block_handlers.go:246-297 | as long as offsets fit in 63 bits, the pages up to the end add up to the full list iff the page size or the list is at most 65536 |
| `Blocks.WrappedPageRepeats` | internal/api/block_handlers.go:290-296 | an offset that leaves 63 bits wraps to a negative one, and the first page is shown again |
| `Blocks.OversizedPagesLoseBlocks` | internal/api/cidr.go:80-89 | with larger pages of a longer list every prefix of the pages is too short, as long as offsets fit in 63 bits |
| `Blocks.DirectChildren` | internal/api/block_handlers.go:313-330 | the used map and the child list are exactly the direct children, the list those that parse as IPv4 |
| `Blocks.FirstOverlap` | internal/api/block_handlers.go:351-364 | finds a child with other text that overlaps the block iff there is one |
| `Blocks.MarkBlock` | internal/api/block_handlers.go:332-367 | a block is free of both marks iff no address of it lies in an IPv4 direct child, however the child's CIDR is written |
| `Blocks.MarkBlocks` | internal/api/block_handlers.go:332-367 | the same for every block of the page, in order |
| `Classification.TestsMeaning` | internal/api/network_handlers.go:2119-2141 | the three text-level tests in terms of address sets; overlap is equality or proper containment, nothing else |
| `Classification.ClassifyMeaning` | internal/api/discovery_handlers.go:835-869 | one pool adds a conflict, an exact match or a container exactly when the sets say so |
| `Classification.ClassifyPools` | internal/api/discovery_handlers.go:835-869 | conflicts are exactly the foreign exact matches and the pools strictly inside, the exact match is the last one, the parent the first container |
| `Classification.PoolConflictExact` | internal/api/network_handlers.go:1375-1437 | a pool conflict arises iff a pool other than the linked one covers exactly the same addresses, its type says whether the resource is linked, and managed_overlap never arises |
| `Classification.OutsidePoolIff` | internal/api/network_handlers.go:1348-1374 | a linked resource is reported outside its pool iff they share no address, and not at all iff they are equal |
| `Classification.SchemaOverlapExact` | internal/api/schema_handlers.go:93-121 | schema check reports contains and contained-by exactly, and never plain overlap |
| `Classification.BestContainingPool` | internal/api/network_handlers.go:2091-2105 | returns a pool that holds the CIDR and lies inside every other pool that does, or none iff none holds it |
| `Import.ConflictIdsEmptyIff` | internal/api/discovery_handlers.go:835-869 | the conflict list is empty iff no pool conflicts |
| `Import.PreviewItem` | internal/api/discovery_handlers.go:690-816 | status, action, issues and proposals of an item are what the store contents call for: each issue is listed iff its condition holds |
| `Import.PreviewCandidate` | internal/api/discovery_handlers.go:740-816 | the same for resources that reach the pool comparison |
| `Import.Preview` | internal/api/discovery_handlers.go:644-833 | one explained item per selected resource; each counter is the number of items with its status, and four of them partition the items |
| `ImportApply.ItemLogged` | internal/api/discovery_handlers.go:412-513 | whatever store call fails, after each item the log lists exactly the new pools and changed links, and every item counts once |
| `ImportApply.ItemErrors` | internal/api/discovery_handlers.go:412-513 | each item adds the number of failures it met: none when linked or left out, two when its new pool stayed behind, else one |
| `ImportApply.ImportLogged` | internal/api/discovery_handlers.go:385-523 | the same after the whole apply loop, for every pattern of failures |
| `ImportApply.NewestIsLeaf` | internal/api/network_handlers.go:1631-1649 | the last listed pool can always be deleted |
| `ImportApply.RollbackDeletes` | internal/api/network_handlers.go:1631-1649 | deleting backwards meets a leaf every time and, unless a call fails, leaves the pools there were |
| `ImportApply.RollbackRestoresIff` | internal/api/network_handlers.go:1631-1649 | unless one of its calls fails, rollback restores pools and links iff every listed resource was unlinked before |
| `ImportApply.HitLeavesTrace` | internal/api/network_handlers.go:1631-1649 | a failing rollback call about a listed pool or resource leaves the pool or the link behind |
| `ImportApply.ImportLinksOnlyUnlinked` | internal/api/discovery_handlers.go:613-632 | an import that is not forced, or forced within one account, links only unlinked resources |
| `ImportApply.ProcessedIff` | internal/api/discovery_handlers.go:613-632 | an item is processed iff its resource is expected importable, or force is asked for and it is a VPC or subnet with a CIDR and, in the account, unlinked and active |
| `ImportApply.ImportLinksOnlyEligible` | internal/api/discovery_handlers.go:385-523 | whatever fails, an import links no other resources |
| `ImportApply.CleanupLeavesNothing` | internal/api/discovery_handlers.go:473-485 | a pool whose link fails is removed again unless that call fails too, and the log says which |
| `ImportApply.ImportThenRollback` | internal/api/discovery_handlers.go:385-523 | such an import followed by rollback is the identity on pools and links iff no call of the rollback about them fails |
| `ImportApply.ForcedForeignLinkIsLost` | internal/api/discovery_handlers.go:613-632 | applied directly with force to another account's linked resource, an import is not undone by rollback |
| `ImportOrder.SortPutsVpcsFirst` | internal/api/discovery_handlers.go:397-409 | the apply order puts VPCs before everything else |
| `ImportOrder.ItemsComeInOrder` | internal/api/discovery_handlers.go:397-409 | then by type and provider id, in dictionary order |
| `ImportOrder.ImportedParentIsFound` | internal/api/discovery_handlers.go:449-459 | so a subnet always finds the pool of its selected VPC when that was imported |
| `ImportReady.ReadyIsImportable` | internal/api/discovery_handlers.go:690-816 | a resource that is ready, by its own fields and the blocks of the live pools, is previewed as importable |
| `ImportReady.MatchedIsProposed` | internal/api/discovery_handlers.go:835-869 | it is linked to an existing pool iff one covers exactly its addresses |
| `ImportReady.ReadyIsLinked` | internal/api/discovery_handlers.go:385-523 | a ready selection is linked completely when no store call fails: after every round nothing was skipped |
| `ImportReady.ImportLinksWell` | internal/api/discovery_handlers.go:425-512 | whatever calls fail, each linked resource has an existing pool with exactly its addresses, or a new one with its CIDR, name, kind and account below an own parent |
| `ImportServer.Server.ApplyOne` | internal/api/discovery_handlers.go:412-513 | the in-place handling of one item, with cleanup, is the specified step |
| `ImportServer.Server.CreateAndLink` | internal/api/discovery_handlers.go:466-512 | creates, links and cleans up as specified under every failure |
| `ImportServer.Server.ApplyImport` | internal/api/discovery_handlers.go:385-523 | the loop over both stores is the specified fold |
| `ImportServer.Server.LinkResourceToPool` | internal/storage/discovery_memory.go:154-165 | changes the link of one resource and nothing else, or reports that it is not stored |
| `ImportServer.Server.UnlinkListed` | internal/api/network_handlers.go:1631-1649 | unlinks the listed resources, going on after failing calls; no errors iff all are stored and no call fails |
| `ImportServer.Server.DeleteListed` | internal/api/network_handlers.go:1631-1649 | deletes backwards, going on after failing calls; over leaves there are no errors iff no call fails |
| `ImportServer.Server.RollbackImport` | internal/api/network_handlers.go:1631-1649 | both stores are rolled back as specified; for an import's own log there are no errors iff no call about it fails |
| `ImportServer.Server.ImportAccount` | internal/api/network_handlers.go:1821-1844 | returns the one account of all the resources, or an error when one is missing or accounts differ |
| `ImportServer.Server.ImportAction` | internal/api/network_handlers.go:502-614 | success implies that the import was recorded and links every requested resource, eligible and unlinked before, to a right pool; a recorded import of a ready selection succeeds when no call fails; an error leaves pools and links as they were iff it is not the failed rollback, which takes a failing rollback call |
| `ImportServer.Server.ImportFor` | internal/api/network_handlers.go:540-614 | the same for the account of all selected resources |
| `ImportServer.Server.ApplySelection` | internal/api/network_handlers.go:575-614 | the same for a given preview |
| `ImportServer.Server.Conclude` | internal/api/network_handlers.go:577-614 | an import is kept iff it was recorded, skipped and failed nothing and did something; any other is rolled back, and a failing rollback is reported |
| `Hierarchy.UniqueIdsIndexed` | internal/api/network_handlers.go:1846-1853 | with unique ids the index holds exactly the listed nodes |
| `Hierarchy.Index` | internal/api/network_handlers.go:1847-1853 | later nodes replace earlier ones with their id |
| `Hierarchy.Group` | internal/api/network_handlers.go:1854-1863 | roots and children partition the ids by parent pointer |
| `Hierarchy.SortKeepsIds` | internal/api/network_handlers.go:1881-1891 | sorting loses and duplicates no node at any level |
| `Hierarchy.SortPutsInOrder` | internal/api/network_handlers.go:1881-1891 | siblings end up by kind then name, in dictionary order, at every level |
| `Hierarchy.BuildHolds` | internal/api/network_handlers.go:1864-1872 | the recursion puts a node into a subtree once iff its chain runs through the subtree's top, for arbitrary pointers |
| `Hierarchy.BuildNetworkHierarchy` | internal/api/network_handlers.go:1846-1879 | terminates for any pointers; a node appears exactly once iff its chain ends at an absent or unlisted parent, below the node its pointer names, in sibling order |
| `Hierarchy.GroundedByParent` | internal/api/network_handlers.go:1854-1872 | a node is in the forest iff it is a root or its parent is in the forest |
| `Hierarchy.DroppedIffCyclic` | internal/api/network_handlers.go:1854-1872 | the nodes left out are exactly those whose parent chain runs into a cycle |
| `Paging.ReadOnceIff` | internal/api/discovery_handlers.go:919-940 | a resource is read exactly once under every order the store may list iff no page boundary cuts the resources discovered at its time |
| `Paging.LosingSchedule` | internal/storage/discovery_memory.go:70-97 | otherwise there are orders under which the paged read misses it |
| `Paging.PagedCompleteIff` | internal/api/network_handlers.go:1140-1158 | the concatenated pages are the unpaged list under every order iff no page boundary cuts a tie group |
| `Paging.UncutCases` | internal/api/discovery_handlers.go:919-940 | one page, or distinct discovery times, are always safe |
| `Paging.AvoidableIff` | internal/storage/discovery_memory.go:70-97 | some paged read misses all of a set of resources iff on every page the rest of their tie groups can fill the groups' places |
| `Collector.DiscoveryStore.ListDiscoveredResources` | internal/storage/discovery_memory.go:33-97 | returns the requested slice of some newest-first order of exactly the matching resources, with their number |
| `Collector.DiscoveryStore.ListAll` | internal/discovery/drift.go:193-210 | the loop ends and returns the pages of such orders up to the total |
| `Collector.DiscoveryStore.FindByProviderId` | internal/discovery/collector.go:138-157 | a hit is a matching resource; a miss means some paged read does not show it |
| `Collector.OverlookedIff` | internal/discovery/collector.go:138-157 | a lookup can miss an object iff it is not stored or a page boundary cuts its tie group |
| `Collector.DiscoveryStore.UpsertDiscoveredResource` | internal/storage/discovery_memory.go:111-137 | one resource is written: the same object under its old id, with its link and first-seen time kept when the new data has none, or a new one |
| `Collector.DiscoveryStore.MarkStaleResources` | internal/storage/discovery_memory.go:139-152 | an object of the account stays active iff it was active and last seen at or after the time given; no other field and no other account changes; the count is the number of those that stopped |
| `Collector.DiscoveryStore.UpsertAll` | internal/discovery/collector.go:108-126 | created plus updated is the batch length, and created is one of the counts that the lookups allow |
| `Collector.DiscoveryStore.ProcessResources` | internal/discovery/collector.go:102-135 | the same for the whole run: after the upserts exactly the objects of the account last seen before the sync time go stale, and are counted; created is never below the number of new objects and equals it when no lookup is cut |
| `Collector.CountExactIff` | internal/discovery/collector.go:108-126 | every run counts exactly the new objects iff no stored object of the batch has its tie group cut when it is looked up |
| `Collector.SyncKeepsLinks` | internal/discovery/collector.go:102-135 | a sync run, stale marking included, keeps every stored resource, its identity and, when the batch brings no links, its pool link |
| `Collector.UpsertWrites` | internal/storage/discovery_memory.go:111-137 | an upsert writes one resource with the new data, field by field, under the old id of the same object or a new one |
| `Collector.SeenEndsActive` | internal/discovery/collector.go:102-135 | an object whose last batch entry is active and seen in this run ends active |
| `Collector.UnseenEndsStale` | internal/discovery/collector.go:102-135 | a stored object of the account that the batch lacks ends stale when it was last seen before the run |
| `Collector.OtherAccountsKept` | internal/discovery/collector.go:102-135 | the objects of other accounts are as before |
| `Drift.CidrsEqualMeaning` | internal/discovery/drift.go:229-237 | the comparison is equality of address sets, or of texts when one side is not a prefix |
| `Drift.DriftDetector.DeleteOpenForAccount` | internal/storage/drift_memory.go:129-139 | removes exactly the open items of the account |
| `Drift.DriftDetector.CheckResources` | internal/discovery/drift.go:80-145 | pass 1 reports and records the unmanaged and mismatched resources in order under fresh ids |
| `Drift.DriftDetector.CheckPools` | internal/discovery/drift.go:147-181 | pass 2 reports and records the orphaned pools in order under fresh ids |
| `Drift.DriftDetector.DetectAccount` | internal/discovery/drift.go:65-182 | the account's open items become the findings of one read; nothing else changes |
| `Drift.DriftDetector.Detect` | internal/discovery/drift.go:28-191 | every target account is settled this way, all other items are untouched, and the returned items and summary are those recorded |
| `Drift.FindingsAre` | internal/discovery/drift.go:80-181 | a read that shows each reported resource once and some link of each linked pool gives exactly the expected findings, each stated field by field, without repetition |
| `Drift.DetectedAsExpected` | internal/discovery/drift.go:28-191 | after a reliably read run each target account has exactly one open item per unlinked resource with a CIDR, per linked resource whose pool differs, and per discovered pool without links, with the type, severity, ids and CIDRs that each calls for |
| `Drift.AsExpectedIff` | internal/discovery/drift.go:28-191 | every run leaves exactly these items iff no page boundary cuts a resource to be reported and no paged read can miss every link of a linked discovered pool |
| `Drift.UnreliableRead` | internal/discovery/drift.go:80-181 | otherwise there is a read whose findings lack an expected item or hold a false orphan |
| `Drift.RerunSame` | internal/discovery/drift.go:28-191 | the open items of two runs over the same stores correspond one to one with equal findings |
| `Drift.DetectTwice` | internal/discovery/drift.go:28-191 | two runs in a row: each reliably read target keeps its findings, non-open items and other accounts stay as they were |
| `Drift.BuildSummary` | internal/discovery/drift.go:212-227 | severity counts and type counts are exact and each add up to the total |
| `Cef.ChainIsPerCharacter` | internal/audit/cef.go:118-130 | the chained replacements equal one per-character map, for headers and extensions |
| `Cef.UnescapeEscaped` | internal/audit/cef.go:118-130 | unescaping undoes escaping for every text |
| `Cef.ReadRendered` | internal/audit/cef.go:78-86 | reading at unescaped equals signs, with keys after the last space, recovers the full ordered list of pairs whatever the values hold |
| `Cef.ReadPayload` | internal/audit/cef.go:78-86 | reading at unescaped pipes recovers the seven header fields and leaves the extension |
| `Cef.FactsTell` | internal/audit/cef.go:42-76 | the pairs of an event are exactly those its fields call for, none for an absent value |
| `Cef.NumberRead` | internal/audit/cef.go:42-76 | a printed number reads back |
| `Cef.FormatExtension` | internal/audit/cef.go:42-76 | the step-by-step extension list is the rendering of the event's facts |
| `Cef.FormatHeader` | internal/audit/cef.go:78-86 | the header text is the escaped fields joined by pipes |
| `Cef.Format` | internal/audit/cef.go:24-87 | every payload reads back, and what is read tells the event: version, signature, name and severity in the header, and under each key exactly the value of the event that belongs there |
| `PoolCsv.ExportPools` | internal/api/export_handlers.go:242-279 | one row per live pool with its name, CIDR, parent and account |
| `PoolCsv.ImportOne` | internal/api/export_handlers.go:657-753 | a row is reported iff its account or parent is unknown or it lacks a storable name or address, else skipped iff the index has it, else it becomes the next pool with its columns and defaults under the resolved parent |
| `PoolCsv.ImportPools` | internal/api/export_handlers.go:521-760 | the loop over the sorted rows is the specified fold over the store, and every row with a name and an address is created, skipped or reported |
| `PoolCsv.EveryRowCounted` | internal/api/export_handlers.go:521-760 | the rows tried are the trimmed rows that have a name and an address, and the three counters add up to their number |
| `PoolCsv.OlderParentsRebuild` | internal/api/export_handlers.go:644-753 | when every parent row that has a parent itself has the larger id of the two and no rows clash under the target's unique index, each prefix of the loop has placed all its rows |
| `PoolCsv.NotDuplicate` | internal/api/export_handlers.go:732-742 | the unique index refuses no row of a clash-free listing |
| `PoolCsv.EarlyChildMisplaced` | internal/api/export_handlers.go:698-715 | on every backend a row that comes before its parent is not placed under it |
| `PoolCsv.ImportRebuildsIff` | internal/api/export_handlers.go:566-753 | importing complete rows into an empty store of any backend rebuilds the forest iff every parent row that has a parent itself has the larger id of the two and no rows clash under the store's unique index |
| `PoolCsv.ExportImportRoundTrip` | internal/api/export_handlers.go:242-279 | importing an export into an empty store of any backend reports no errors and copies every pool one to one, with name, CIDR, account and corresponding parent and defaults for the rest, iff the live pools do not clash under the target's unique index |
| `PoolCsv.IndexedRoundTrip` | internal/api/export_handlers.go:242-279 | an export of a store that keeps the target's index always round-trips |
| `Lockout.RunKeepsSound` | internal/api/user_handlers.go:856-883 | over every run an unlocked user is below the limit and a locked one is locked for exactly the cooldown |
| `Lockout.LockHolds` | internal/api/user_handlers.go:232-246 | until the lock's time is over it survives every step but an unlock or a sign-on, and no login compares a password |
| `Lockout.GuessesBounded` | internal/api/user_handlers.go:232-266 | with no unlock and no success, no window as long as the cooldown holds more wrong passwords that were compared than the limit |
| `Lockout.TryLoginAnswers` | internal/api/user_handlers.go:232-326 | an attempt on a known user has exactly one answer: tried iff active and not locked; logged in iff the password matches and the session is stored; a failure recorded iff it does not match, with a lock exactly at the limit |
| `Lockout.StepIs` | internal/api/user_handlers.go:856-892 | a login, unlock, sign-on, edit or new account changes the record of its own user only, and how |
| `Login.UserServer.RecordFailedLogin` | internal/api/user_handlers.go:856-883 | counts the failure and locks exactly at the limit |
| `Login.UserServer.ClearUserLockout` | internal/api/user_handlers.go:885-892 | clears the four lockout fields |
| `Login.UserServer.OpenSession` | internal/api/user_handlers.go:268-293 | stores the session and evicts the excess, or changes nothing when the id is refused |
| `Login.UserServer.HandleLogin` | internal/api/user_handlers.go:187-326 | logged in iff local sign-in is on, name and password are given, a stored user of that name is active and unlocked, the password matches its hash and the session id is new; each other outcome iff its own condition; the user record changes as that outcome says, and sessions only on success |
| `Login.NewSessionIs` | internal/api/user_handlers.go:268-277 | the session carries the user and role and lasts the configured time, or a day |
| `Login.UserServer.LoginKnown` | internal/api/user_handlers.go:231-296 | the same once the user is known |
| `Login.UserServer.HandleUnlockUser` | internal/api/user_handlers.go:817-843 | an unlock clears the lockout state of an existing user |
| `Login.UserServer.DeactivateUser` | internal/api/user_handlers.go:688-715 | the account is disabled, no session of it is left, and other users' sessions stay |
| `Login.LoginCapsSessions` | internal/api/user_handlers.go:278-293 | after a login at most the cap of unexpired sessions remain, the most recent ones, a strictly newest new one among them, and other users' sessions are unchanged |
| `Sessions.BucketIsScan` | internal/auth/session.go:83-92 | a user's bucket is what a full scan finds, and exists iff that is not empty |
| `Sessions.InverseIsUnique` | internal/auth/session.go:83-92 | the sessions determine the index |
| `Sessions.MemorySessionStore.Create` | internal/auth/session.go:103-133 | adds the session unless it lacks an id or user or the id is taken; the index stays exact |
| `Sessions.MemorySessionStore.Get` | internal/auth/session.go:138-156 | found, absent, or expired iff its time is over |
| `Sessions.MemorySessionStore.Delete` | internal/auth/session.go:159-182 | removes one session and its empty bucket; the index stays exact |
| `Sessions.MemorySessionStore.DeleteByUserID` | internal/auth/session.go:185-204 | deletion through the index removes exactly what a full scan would |
| `Sessions.MemorySessionStore.ListByUserID` | internal/auth/session.go:207-217 | lists exactly the user's unexpired sessions, each once |
| `Sessions.MemorySessionStore.Cleanup` | internal/auth/session.go:221-243 | removes and counts exactly the expired sessions; the index stays exact |
| `Sessions.MemorySessionStore.CountByUser` | internal/auth/session.go:255-259 | the bucket's size is the number of the user's sessions |
| `Sessions.EvictOldest` | internal/api/user_handlers.go:278-293 | deletes the excess unexpired sessions and no survivor is older than a victim |
| `Sessions.CappedMeaning` | internal/api/user_handlers.go:278-293 | at most the cap remain, the most recent ones, and no other session changes |
| `Sessions.NewestSurvives` | internal/api/user_handlers.go:278-293 | a strictly newest session is never evicted |
| `UserStore.InverseIsUnique` | internal/auth/user_store.go:40-45 | the users determine the username index |
| `UserStore.MemoryUserStore.Create` | internal/auth/user_store.go:55-74 | adds the user iff id and name are given and free, else says which of the two failed; the index stays exact |
| `UserStore.MemoryUserStore.GetByUsername` | internal/auth/user_store.go:91-106 | finds what a full scan would find |
| `UserStore.MemoryUserStore.Update` | internal/auth/user_store.go:121-145 | replaces the user, moving the index entry on a rename, iff no other user has the name |
| `UserStore.MemoryUserStore.Delete` | internal/auth/user_store.go:147-163 | removes the user and its index entry |
| `UserStore.MemoryUserStore.UpdateLastLogin` | internal/auth/user_store.go:181-196 | records the login and clears the lockout state |
| `KeyStore.CreateKeepsIndexIff` | internal/auth/store.go:57-78 | a create keeps the prefix index exact iff it refuses the prefix or the id is new |
| `KeyStore.StalePrefix` | internal/auth/store.go:57-78 | otherwise the replaced key's prefix finds the new key |
| `KeyStore.ByPrefixIsScan` | internal/auth/store.go:81-96 | with an exact index a lookup finds what a full scan would find |
| `KeyStore.MemoryKeyStore.Create` | internal/auth/store.go:57-78 | stores the key unless its prefix is taken |
| `KeyStore.MemoryKeyStore.GetByPrefix` | internal/auth/store.go:81-96 | looks the key up through both maps |
| `KeyStore.MemoryKeyStore.Revoke` | internal/auth/store.go:137-148 | marks one key and keeps the index exact |
| `KeyStore.MemoryKeyStore.UpdateLastUsed` | internal/auth/store.go:151-162 | stamps one key and keeps the index exact |
| `KeyStore.MemoryKeyStore.Delete` | internal/auth/store.go:165-177 | removes the key and its prefix and keeps the index exact |
| `Rbac.GetRoleFromScopes` | internal/auth/rbac.go:428-491 | no scope implies a higher role, and the role is that of some scope unless no scope implies one |
| `Scopes.RolesAreTables` | internal/auth/rbac.go:135-199 | the permissions of each built-in role, and the catalog, are the listed ones |
| `Scopes.GrantsIff` | internal/auth/rbac.go:311-346 | for every text: a scope grants a permission iff it is the star or names the resource with a verb that includes the action |
| `Scopes.MayIssueIff` | internal/auth/rbac.go:386-426 | for every text: who may issue it |
| `Scopes.RoleOfIs` | internal/auth/rbac.go:428-491 | for every text: which role it implies |
| `Rbac.CacheRole` | internal/auth/rbac.go:209-220 | one role's table answers as its list does |
| `Rbac.BuildCache` | internal/auth/rbac.go:209-220 | the nested cache answers exactly what a scan of the lists would |
| `ApiKeys.ValidMeaning` | internal/auth/rbac.go:320-346 | what splitting and trimming make of each accepted scope: the permissions it grants, the gate it must pass and the role it implies |
| `ApiKeys.IssuedWithinIff` | internal/auth/rbac.go:386-416 | an accepted request stays within its issuer iff the issuer can both read and list wherever a read scope is asked for |
| `ApiKeys.KeysNeverWiden` | internal/api/auth_handlers.go:191-222 | a key with accepted scopes never issues more than it has |
| `ApiKeys.IssuingKeysHaveRoles` | internal/auth/rbac.go:428-491 | a key that may issue keys has a role, so no gate is skipped for it |
| `ApiKeys.BuiltinRolesNeverWiden` | internal/auth/rbac.go:135-199 | a built-in role never issues more than it has |
| `ApiKeys.CustomRoleNeverWidensIff` | internal/auth/rbac.go:386-416 | a custom role that may issue keys never widens iff it pairs read with list wherever scopes exist |
| `ApiKeys.IssuesIff` | internal/api/auth_handlers.go:191-222 | keys, built-in roles and paired custom roles issue exactly the accepted scopes that grant no more than they may do, as far as the policy of their role permits |
| `ApiKeys.AcceptedIff` | internal/auth/apikey.go:54-76 | the accepted scopes are the ten listed texts |
| `ApiKeys.MayIff` | internal/auth/rbac.go:311-346 | what a role or a key may do |
| `ApiKeys.UnpairedWidens` | internal/auth/rbac.go:405-407 | a role with one half of a pair can issue the read scope, which grants the other half |
| `ApiKeys.ChainNeverWidens` | internal/api/auth_handlers.go:191-222 | along any chain of issued keys nothing is gained over the first issuer |
| `ApiKeys.ExpiryWithinPolicy` | internal/api/auth_handlers.go:373-401 | under a maximum lifetime every issued key expires within it, only explicit requests are refused, and the default counts exactly when nothing is asked for and the maximum allows it |
| `ApiKeys.AuthServer.FirstBadScope` | internal/auth/apikey.go:69-76 | finds a scope outside the accepted list iff there is one |
| `ApiKeys.AuthServer.ExceedsCaller` | internal/api/auth_handlers.go:209-215 | finds a scope the caller may not issue iff there is one |
| `ApiKeys.AuthServer.DeniedScope` | internal/api/auth_handlers.go:403-418 | denies iff the role has a policy entry that lacks a requested scope |
| `ApiKeys.AuthServer.CheckGates` | internal/api/auth_handlers.go:191-222 | passes iff all gates do, and says which failed |
| `ApiKeys.AuthServer.CreateApiKey` | internal/api/auth_handlers.go:164-286 | issues iff name, route permission, gates, expiry and prefix allow it, for ordinary callers stated over what caller and scopes may do; each error says what is wrong; stored keys keep accepted scopes; a refusal changes nothing |
| `ActiveCache.UserActiveCache.Check` | internal/api/middleware.go:59-73 | a hit is an entry at most one TTL old; a TTL of 0 always misses |
| `ActiveCache.UserActiveCache.Set` | internal/api/middleware.go:76-81 | stores the state with its time |
| `ActiveCache.AdmitSession` | internal/api/middleware.go:655-692 | an uninterrupted request answers from the cache or from the user store and caches that |
| `ActiveCache.StepKeepsInv` | internal/api/middleware.go:655-692 | every interleaved step keeps cached and admitted states backed by a report recent enough |
| `ActiveCache.AdmittedWasActive` | internal/api/middleware.go:655-692 | a request admitted at t had its user reported active between t - TTL - delay and t, where delay bounds the time from lookup to caching |
| `ActiveCache.NotAdmittedAfter` | internal/api/middleware.go:33-43 | a user disabled at d and left so is not admitted after d + TTL + delay |
| `ActiveCache.BoundAttained` | internal/api/middleware.go:655-692 | that bound is reached by a lookup answered just before the change |

## Left out

- Collector.DiscoveryStore.ProcessResources: store errors during a sync are not modelled. The collectors set the first-seen time of every object to the time of the run, so the stored time is overwritten; `UpsertDiscoveredResource` keeps it only when it is missing.
- PoolCsv.ImportRebuildsIff: Postgres accepts a bare address as well as a prefix; here it refuses every text that is not a prefix.
- ImportServer.Server.ImportAction: which selections must succeed is stated with a condition on SQLite that is stricter than its index: no stored pool has the CIDR text of a resource that needs a new pool, under any parent, and no two such resources share it (`ImportReady.Storable`, `ImportReady.Compatible`).
- Drift.RerunSame: is for accounts that are read reliably (`Drift.ReadsReliably`); other accounts can differ from run to run (`Drift.AsExpectedIff`).
- Blocks.PagesCompleteIff: is for offsets that fit in 63 bits, which holds for every page up to the end of a list of at most 2^32 blocks.
- Lockout.GuessesBounded: steps are sequential; two logins of one user that overlap can both read the record before either writes it. Password checks outside login (changing one's own password) are not counted by the program and not by the model.
- ApiKeys.KeysNeverWiden: is for issuing keys whose own scopes are accepted ones, which the issuer guarantees for the keys it stores. The keys made by the agent provisioning endpoint have a fixed scope and no issuing gate.
- ApiKeys.IssuesIff: is for keys with accepted scopes, built-in roles with their own permissions and custom roles that pair read with list; other custom roles are covered by `ApiKeys.CustomRoleNeverWidensIff`.
- ActiveCache.AdmittedWasActive: covers the session branch after the session itself was found valid.
- HTTP routing, JSON, cookies, CSRF, logging, metrics, audit storage and the user interface.
- SQL: of the databases only the unique indexes on pools and the type of the Postgres address column are modelled. Schema check is modelled, schema apply is not.
- Tags, timestamps of pools, pool statistics, search, accounts and their CSV exchange.
- Validation of account keys and of fields of an update; update and delete are modelled as the store performs them.
- Text of drift titles and descriptions, and the relationships recorded beside an import.
- The filters and the other node sources of the network view; its conflicts other than those between a resource and pools.
- Rate limiting, OIDC (beyond its effect on lockout), password and key hashing, settings storage.
- The agent, the scheduler and job claiming; gap, fragmentation and compliance analysis.
- ApiKeys.AuthServer.CreateApiKey: the length of a key's name counts characters here and bytes in the program.
- Lower-casing beyond ASCII in the comparison of CIDR texts, which cannot occur in a prefix.
