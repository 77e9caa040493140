# Verification of the SNMP connector's core algorithms

A Dafny model of the parts of Splunk Connect for SNMP that decide what is
polled, what is stored and what is sent on, with proofs of what they promise.

- **The multi-root GETBULK walk** (`Mib`, `BulkWalk`, `WalkSafety`, `WireLayout`,
  `WalkRefinement`, `WalkCompleteness`, `RoundRobin`, `BatchIndependence`,
  `WalkTimeouts`, `WalkOutput`, `BulkRequest`). The loop is an imperative method over two arrays; each turn is
  proved equal to one transition of a state machine, for every prefix of every
  run. Against an arbitrary agent the walk is safe. Against an agent that lays
  out its answers as section 4.2.3 of RFC 3416 says and gives every name asked
  for at least one binding, every root delivers exactly its subtree and the walk
  ends; with whole repetitions it delivers the round-robin interleaving, however
  large the batches. Wherever the answers are cut, a whole run is complete exactly
  when no request lost a root. Timeouts delay all of this and change none of it.
- **Varbinds and profiles** (`Varbinds`, `ProfileNames`, `Profiles`,
  `ProfileCollections`). Pruning by generality, the sum of containers as a
  semilattice, the division into bulk and get, and merged profile names.
- **Enrichment** (`Enrichment`, `EnrichmentRuns`). Thresholded buffers and a
  deferred, unordered bulk write amount to storing the latest value of every
  field, and what is passed on agrees with what is stored.
- **Schedules and inventory** (`HostKeys`, `TaskManager`, `InventoryRecords`,
  `InventoryConvergence`, `WalkSchedules`, `Polls`, `PollReconciliation`,
  `ScheduleRuns`). A store
  of readable and orphaned entries under transitions: loading, finishing a walk,
  restarting a device.
- **Conditional profiles** (`Queries`) and **traps** (`MibIndex`, `Traps`,
  `TrapTranslations`, `TrapWorkers`).

What the code does that one might not expect, each stated as a result:

- A success yield of the walk can carry Null rows, after a hidden noSuchName
  (`TerminalRowsExactly`, `TerminalRowHappens`).
- A response that has bindings for exhausted roots only makes the walk forget an
  active root it was too short for, which may still have rows (`CompleteExactly`,
  `CutResponseLosesRoot`).
- A profile removed from the configuration stays loaded (`Update`,
  `RemovedProfileStays`), and the sum of two profiles may poll an instance below a
  field it also polls (`SumUnshadowedExactly`, `SumCanShadow`).
- The search for one host's schedules also finds those of hosts whose keys end in
  its key (`SearchFindsSuffixes`), so deleting or polling one host can take
  another's schedules (`DeletionTakesNeighbour`, `OtherPollsKeptExactly`).
- A negated comparison does not select documents whose field is missing or not a
  number (`TestAgreesExactly`, `MissingIsNotSelected`).
- Of several values of one OID in a trap that was not translated or not filed only
  one is sent on, that of the pair that was new last, which need not be the last
  value (`KeptIsNewest`, `AllValuesKeptExactly`, `RepeatedValueIsLost`), although
  the comment on the merging says the repeated OIDs are kept on purpose.
- A mandatory profile without a frequency, or a generated one, makes the setup of
  a host's polls fail, with some of them set up and none deleted
  (`InventorySetupPoller`, `EndlessHappens`).

Premises are written as `requires` and are of three kinds: what an agent, the
MIB resolver or the hashing of stored keys must be like; that host keys are
suffix-free; and that strings used as names do not contain the separators the
names are built with (for host addresses a semicolon, for varbinds the colons and
dots that IP addresses, host names and MIB symbols never have in those places).

## Model

| member | source | states |
|---|---|---|
| BulkWalk.ActiveIndices | splunk_connect_for_snmp/snmp/multi_bulk_walk_cmd.py:175 | The request addresses exactly the roots not yet completed, in order. |
| BulkWalk.RequestOids | splunk_connect_for_snmp/snmp/multi_bulk_walk_cmd.py:181-191 | Each active root is asked for from the last name it delivered. |
| BulkWalk.Demultiplex | splunk_connect_for_snmp/snmp/multi_bulk_walk_cmd.py:239-281 | The in-place inner loop computes the credits of the flat response, binding by binding: completion, last names and valid rows. |
| BulkWalk.TakeTable | splunk_connect_for_snmp/snmp/multi_bulk_walk_cmd.py:236-311 | One response with bindings: credits, row and call counts, the empty-batch stop and the cut at the row limit. |
| BulkWalk.Ended | splunk_connect_for_snmp/snmp/multi_bulk_walk_cmd.py:340-347 | The three checks after a yield, in their order. |
| BulkWalk.Receive | splunk_connect_for_snmp/snmp/multi_bulk_walk_cmd.py:204-325 | One response of any kind, errors included, does to the loop's variables and output what one transition of the state machine does. |
| BulkWalk.Turn | splunk_connect_for_snmp/snmp/multi_bulk_walk_cmd.py:166-347 | One turn of the loop is one transition, including the shrinking number of repetitions. |
| BulkWalk.MultiBulkWalk | splunk_connect_for_snmp/snmp/multi_bulk_walk_cmd.py:166-347 | The loop drawn for any number of requests emits what that many transitions of the state machine emit. |
| BulkWalk.NothingAfterTheEnd | splunk_connect_for_snmp/snmp/multi_bulk_walk_cmd.py:166-347 | A run that stopped stays as it is. |
| BulkWalk.RequestsCounted | splunk_connect_for_snmp/snmp/multi_bulk_walk_cmd.py:166-202 | A running walk has sent one request per turn. |
| WalkSafety.AlwaysSafe | splunk_connect_for_snmp/snmp/multi_bulk_walk_cmd.py:204-347 | Invariant of every prefix of every run against any agent: counts, limits, scopes and attribution agree. |
| WalkSafety.SafeAgainstAnyAgent | splunk_connect_for_snmp/snmp/multi_bulk_walk_cmd.py:171-347 | Against any agent, timeouts and nonsense included: the success yields, all but the last after a hidden noSuchName, carry exactly the rows found, each a real value inside its own root's subtree, and respect the row limit; that last one has nothing but Nulls; success yields never exceed the call limit. |
| WalkSafety.TerminalRowsExactly | splunk_connect_for_snmp/snmp/multi_bulk_walk_cmd.py:220-234 | A success yield carries a terminal row exactly when an agent answered noSuchName to some request, whose status the walk clears: the unconditional claim is false. |
| WalkSafety.TerminalRowHappens | splunk_connect_for_snmp/snmp/multi_bulk_walk_cmd.py:220-234 | An agent whose first answer is noSuchName makes it happen. |
| WalkSafety.CompletionStep | splunk_connect_for_snmp/snmp/multi_bulk_walk_cmd.py:260-281 | One request never revives a completed root and credits no row to it. |
| WalkSafety.CompletionIsFinal | splunk_connect_for_snmp/snmp/multi_bulk_walk_cmd.py:155-281 | Over any run, completion is monotone and no row follows the completion of its root. |
| WalkSafety.RunningWithinLimit | splunk_connect_for_snmp/snmp/multi_bulk_walk_cmd.py:171-172 | A walk that goes on is below its row limit. |
| WalkOutput.IndicationIsYielded | splunk_connect_for_snmp/snmp/multi_bulk_walk_cmd.py:204-219 | An indication that is not the one to be ignored is yielded as it came; a timeout adds an empty yield and finds nothing, any other indication ends the walk. |
| WalkOutput.ErrorStatusIsYielded | splunk_connect_for_snmp/snmp/multi_bulk_walk_cmd.py:220-235 | An error status adds exactly one yield with that status, its index and the last names of the unfinished roots, as Nulls, and ends the walk; noSuchName does so as if it were a success. |
| WalkOutput.RowsAreYielded | splunk_connect_for_snmp/snmp/multi_bulk_walk_cmd.py:236-325 | An answer without error adds one success yield with exactly the new rows, or no yield and the end of the walk when it brings none. |
| WalkOutput.NoRootsYieldsOnce | splunk_connect_for_snmp/snmp/multi_bulk_walk_cmd.py:327-337 | Without roots there is one empty success yield and no request. |
| WalkOutput.ErrorsAreTold | splunk_connect_for_snmp/snmp/multi_bulk_walk_cmd.py:204-347 | Over any run there is a yield that is no success exactly when some request was answered with an error other than the hidden noSuchName and the ignored indication: no failed walk looks complete. |
| WalkOutput.StopsAtLimit | splunk_connect_for_snmp/snmp/multi_bulk_walk_cmd.py:302-347 | A walk stops at a positive limit with exactly that many rows, or answers with rows, and for completion only when every root is complete. |
| WalkOutput.AsksWhatIsLeft | splunk_connect_for_snmp/snmp/multi_bulk_walk_cmd.py:171-191 | A request asks for the given number of repetitions or, when that is less, for as many as there are rows left to the limit. |
| Mib.SubtreeIsInterval | splunk_connect_for_snmp/snmp/multi_bulk_walk_cmd.py:266-270 | A prefix subtree is an interval of the lexicographic order. |
| Mib.SuccessorAt | splunk_connect_for_snmp/snmp/multi_bulk_walk_cmd.py:193-202 | Repeated GETNEXT enumerates the view in order and then stays at its end (section 4.2.2 of RFC 3416). |
| Mib.ListingIsSlice | splunk_connect_for_snmp/snmp/multi_bulk_walk_cmd.py:266-281 | A root's rows are a contiguous slice of the view that starts at the root's successor; the next row ends the root. |
| Mib.ListingIsSubtree | splunk_connect_for_snmp/snmp/multi_bulk_walk_cmd.py:266-281 | A root's rows are exactly the rows of the view after it and below it, or all after it in lexicographic mode. |
| Mib.LexByDifference | splunk_connect_for_snmp/snmp/multi_bulk_walk_cmd.py:193-202 | The order of names: a name comes before those it begins and before those greater at the first difference. |
| Mib.SuccessorInListing | splunk_connect_for_snmp/snmp/multi_bulk_walk_cmd.py:260-281 | From any position in a root's listing the k-th successor is the row k further on, or a row that ends the root. |
| WireLayout.SeenClosedForm | splunk_connect_for_snmp/snmp/multi_bulk_walk_cmd.py:245-258 | How many of the first n bindings are credited to a root, in closed form. |
| WireLayout.DemultiplexingInvertsLayout | splunk_connect_for_snmp/snmp/multi_bulk_walk_cmd.py:242-260 | The modular demultiplexing inverts the layout of section 4.2.3 of RFC 3416, for any number of non-repeaters and any active set. |
| WalkRefinement.SlotAdvances | splunk_connect_for_snmp/snmp/multi_bulk_walk_cmd.py:248-281 | One root's share of a response is the next rows of its own listing, whatever the other roots do. |
| WalkRefinement.TableRefined | splunk_connect_for_snmp/snmp/multi_bulk_walk_cmd.py:239-347 | One response, cut after any number of bindings, keeps every root at the position of its own listing that its delivered rows say. |
| WalkRefinement.AlwaysRefined | splunk_connect_for_snmp/snmp/multi_bulk_walk_cmd.py:166-347 | Every reachable state, wherever the answers are cut: each root has delivered exactly a prefix of its listing, and a finished one all of it. |
| WalkCompleteness.RemainingDecreases | splunk_connect_for_snmp/snmp/multi_bulk_walk_cmd.py:283-300 | Every request of a walk that goes on leaves strictly fewer unseen rows and unfinished roots, wherever the answers are cut. |
| WalkCompleteness.CutWalkEnds | splunk_connect_for_snmp/snmp/multi_bulk_walk_cmd.py:286-347 | So such a walk ends within one request more than there are rows to deliver. |
| WalkCompleteness.AlwaysPaced | splunk_connect_for_snmp/snmp/multi_bulk_walk_cmd.py:239-281 | With a binding for every name asked for, every unfinished root has delivered at least one row per request. |
| WalkCompleteness.RunningIsEarly | splunk_connect_for_snmp/snmp/multi_bulk_walk_cmd.py:286-300 | A running walk has sent no more requests than any of its unfinished roots has rows. |
| WalkCompleteness.WalkEndsByLongest | splunk_connect_for_snmp/snmp/multi_bulk_walk_cmd.py:286-347 | Then a walk ends within one request more than its longest listing, whatever its limits. |
| WalkCompleteness.WalkEnds | splunk_connect_for_snmp/snmp/multi_bulk_walk_cmd.py:286-347 | And within one request more than the view has rows. |
| WalkCompleteness.EachRootIsComplete | splunk_connect_for_snmp/snmp/multi_bulk_walk_cmd.py:174-347 | Without limits each root delivers exactly its listing, in order, for any number of non-repeaters. |
| WalkCompleteness.EachSubtreeIsDelivered | splunk_connect_for_snmp/snmp/multi_bulk_walk_cmd.py:266-281 | With non-nested roots, what is delivered below a root is exactly the view's subtree below it. |
| WalkCompleteness.NoDuplicates | splunk_connect_for_snmp/snmp/multi_bulk_walk_cmd.py:248-281 | With non-nested roots no name is delivered twice, at any time, under any limits and wherever the answers are cut. |
| WalkCompleteness.StopsExactlyWhen | splunk_connect_for_snmp/snmp/multi_bulk_walk_cmd.py:283-300 | One response, cut anywhere: the walk takes it for the end exactly when every root that got a binding is exhausted. |
| WalkCompleteness.CompleteExactly | splunk_connect_for_snmp/snmp/multi_bulk_walk_cmd.py:166-347 | Whole runs without limits, answers cut anywhere: every root has delivered its whole listing exactly when no request came back with exhausted roots only while a root without a binding still had rows. |
| WalkCompleteness.LosingIsLast | splunk_connect_for_snmp/snmp/multi_bulk_walk_cmd.py:286-300 | A request that loses a root is the last one of its run. |
| WalkCompleteness.FaithfulLosesNothing | splunk_connect_for_snmp/snmp/multi_bulk_walk_cmd.py:239-300 | An agent that answers for every name asked for never makes the walk lose a root. |
| WalkCompleteness.CutResponseLosesRoot | splunk_connect_for_snmp/snmp/multi_bulk_walk_cmd.py:286-296 | A concrete agent with a short first response makes the walk stop with a row never delivered: every active root needs a binding. |
| RoundRobin.ProjectRounds | splunk_connect_for_snmp/snmp/multi_bulk_walk_cmd.py:239-281 | Taken apart by root, the round-robin interleaving is the roots' listings again. |
| RoundRobin.BatchIsRounds | splunk_connect_for_snmp/snmp/multi_bulk_walk_cmd.py:248-281 | A response of m whole repetitions delivers exactly the next m rounds of the round robin. |
| RoundRobin.StepInterleaved | splunk_connect_for_snmp/snmp/multi_bulk_walk_cmd.py:166-347 | One request adds as many rounds as its answer has repetitions, cut at the row limit. |
| BatchIndependence.BatchIndependent | splunk_connect_for_snmp/snmp/multi_bulk_walk_cmd.py:166-347 | Whatever the number of repetitions asked for and sent, the delivered rows are a prefix of the interleaving; without a call limit the ended walk delivers all of it, or exactly its first maxRows rows. |
| BatchIndependence.SameAsGetNext | splunk_connect_for_snmp/snmp/multi_bulk_walk_cmd.py:166-347 | A batched walk refines the walk by single GETNEXT steps: both deliver the same rows. |
| BatchIndependence.ExactCost | splunk_connect_for_snmp/snmp/multi_bulk_walk_cmd.py:174-202 | Against an agent that answers each request with M whole repetitions, M being no more than was asked for, the ended walk has sent floor(longest listing / M) + 1 requests. |
| BatchIndependence.CappedCost | splunk_connect_for_snmp/snmp/multi_bulk_walk_cmd.py:174-202 | So with responses that have room for a fixed number of repetitions M is that number or the number asked for, whichever is less. |
| BatchIndependence.FullCost | splunk_connect_for_snmp/snmp/multi_bulk_walk_cmd.py:174-202 | And with room for all of them M is the number asked for. |
| WalkTimeouts.TimeoutsOnlyDelay | splunk_connect_for_snmp/snmp/multi_bulk_walk_cmd.py:204-218 | Requests that time out, any of them, change nothing but when things happen: the walk has found, delivered and completed what the walk without them has, and has been answered as often. |
| WalkTimeouts.CompleteDespiteTimeouts | splunk_connect_for_snmp/snmp/multi_bulk_walk_cmd.py:166-347 | With timeouts, too, every root delivers exactly its listing once enough requests have been answered. |
| WalkTimeouts.BatchIndependentDespiteTimeouts | splunk_connect_for_snmp/snmp/multi_bulk_walk_cmd.py:166-347 | And the rows delivered are at any time a prefix of the interleaving, and in the end all of it or its first maxRows rows. |
| WalkTimeouts.CostDespiteTimeouts | splunk_connect_for_snmp/snmp/multi_bulk_walk_cmd.py:174-218 | The requests that were answered are exactly as many as without timeouts. |
| BulkRequest.GetVarbindChunk | splunk_connect_for_snmp/snmp/manager.py:717-719 | The generator of slices computes the chunks. |
| BulkRequest.ChunksPartition | splunk_connect_for_snmp/snmp/manager.py:717-719 | Chunking loses, repeats and reorders nothing, and no chunk exceeds the size. |
| BulkRequest.ChunkingIsInvisible | splunk_connect_for_snmp/snmp/manager.py:677-698 | With non-nested roots, for which rows need no attribution, chunks of any size leave the rows below each root what they are, in order; for nested ones see the next two rows. |
| BulkRequest.ChunkingKeepsRows | splunk_connect_for_snmp/snmp/manager.py:677-698 | Whatever roots, nested or repeated ones included, chunks of any size bring every row exactly as often as it is listed for some root. |
| BulkRequest.ChunkedRootIsComplete | splunk_connect_for_snmp/snmp/manager.py:677-698 | Nested roots included, every root is in exactly one place of one chunk, and the walk of that chunk delivers exactly its listing for it. |
| Varbinds.KeyDetermines | splunk_connect_for_snmp/snmp/varbinds_resolver.py:18-27 | A mapping key determines what lies above its varbind. |
| Varbinds.SplitOfKey | splunk_connect_for_snmp/snmp/varbinds_resolver.py:126-127 | Splitting a field's or an instance's key gives back its family and its field. |
| Varbinds.TakesByKey | splunk_connect_for_snmp/snmp/varbinds_resolver.py:18-27 | On keys, covering means what it means on lists: a family or a field covers whatever begins with it, an instance the instance with the same index. |
| Varbinds.VarBindContainer.InsertVarbind | splunk_connect_for_snmp/snmp/varbinds_resolver.py:37-63 | A varbind is inserted unless its key or a more general one is there, and nothing else changes. |
| Varbinds.VarBindContainer.AreParentsInMap | splunk_connect_for_snmp/snmp/varbinds_resolver.py:120-132 | Whether the family or the field above a key is there, and the error for a key that does not split in two. |
| Varbinds.VarBindContainer.Add | splunk_connect_for_snmp/snmp/varbinds_resolver.py:137-145 | The sum holds exactly the entries of the union with no more general key in the union: the length order makes the one pass enough. |
| Varbinds.MinimalCovers | splunk_connect_for_snmp/snmp/varbinds_resolver.py:37-63 | Pruning loses no coverage. |
| Varbinds.MinimalIsAntichain | splunk_connect_for_snmp/snmp/varbinds_resolver.py:37-63 | Nothing kept is covered by something else kept. |
| Varbinds.InsertNext | splunk_connect_for_snmp/snmp/varbinds_resolver.py:142-144 | Why the order by length is right: everything more general than the next key has been dealt with. |
| Varbinds.SumAssociative | splunk_connect_for_snmp/snmp/varbinds_resolver.py:137-145 | Adding containers is associative, stored varbinds included. |
| Varbinds.SumCommutative | splunk_connect_for_snmp/snmp/varbinds_resolver.py:137-145 | On keys, adding containers is commutative. |
| Varbinds.SumIdempotent | splunk_connect_for_snmp/snmp/varbinds_resolver.py:137-145 | Adding a pruned container to itself changes nothing. |
| Varbinds.SumCovers | splunk_connect_for_snmp/snmp/varbinds_resolver.py:137-145 | The sum covers exactly what either operand covered. |
| Profiles.Profile.Process | splunk_connect_for_snmp/snmp/varbinds_resolver.py:164-173 | For any varbinds: processing divides what the profile asks for and maps every key to the profile's name, except for walks, or fails without touching the mappings. |
| Profiles.Profile.DivideOnBulkAndGet | splunk_connect_for_snmp/snmp/varbinds_resolver.py:175-182 | The loop over the sorted varbinds, whatever their names: bulk insertions, the check against bulk, get insertions, in order, or the error. |
| Profiles.DividesExactly | splunk_connect_for_snmp/snmp/varbinds_resolver.py:120-132 | Processing fails exactly when some varbind is empty or is an instance whose key does not split in two. |
| Profiles.ProcessedDivides | splunk_connect_for_snmp/snmp/varbinds_resolver.py:164-182 | With names that keep the separators apart it succeeds and leaves the minimal keys: families and fields in bulk, instances in get. |
| Profiles.Profile.Add | splunk_connect_for_snmp/snmp/varbinds_resolver.py:207-219 | Containers are added up and mappings merged, get and bulk apart; the new profile has both names and is no walk. |
| Profiles.DividedCovers | splunk_connect_for_snmp/snmp/varbinds_resolver.py:164-182 | Bulk and get together cover exactly what the profile lists, and SNMPv2-MIB for a walk. |
| Profiles.DividedIsAntichain | splunk_connect_for_snmp/snmp/varbinds_resolver.py:164-182 | No key of the profile is covered by another of its keys, bulk or get. |
| Profiles.OrderDoesNotMatter | splunk_connect_for_snmp/snmp/varbinds_resolver.py:175-182 | The key sets depend on the set of varbinds listed, not on their order or repetition. |
| Profiles.CombinedCovers | splunk_connect_for_snmp/snmp/varbinds_resolver.py:207-219 | Adding profiles keeps the union of what they cover. |
| Profiles.SumUnshadowedExactly | splunk_connect_for_snmp/snmp/varbinds_resolver.py:207-219 | The sum has no get key below a bulk key exactly when neither operand's bulk part stands above a get key of the other. |
| Profiles.SumCanShadow | splunk_connect_for_snmp/snmp/varbinds_resolver.py:207-219 | Two processed profiles, one listing a field and one an instance of it, whose sum polls the instance below the field. |
| ProfileNames.UniqueNamesAreNames | splunk_connect_for_snmp/snmp/varbinds_resolver.py:275-288 | The names read from a joined list are non-empty, comma-free and distinct. |
| ProfileNames.NamesRoundTrip | splunk_connect_for_snmp/snmp/varbinds_resolver.py:224-288 | Joining a list of proper names and reading it back gives the list. |
| ProfileNames.AddMappings | splunk_connect_for_snmp/snmp/varbinds_resolver.py:224-272 | The three passes compute the key-wise ordered merge. |
| ProfileNames.NamesOfMerged | splunk_connect_for_snmp/snmp/varbinds_resolver.py:248-259 | A merge holds the base's names and then the new ones, once each, in order. |
| ProfileNames.MergedAssociative | splunk_connect_for_snmp/snmp/varbinds_resolver.py:224-272 | Merging mappings is associative as a function on strings. |
| ProfileCollections.ProfileCollection.ProcessProfiles | splunk_connect_for_snmp/snmp/varbinds_resolver.py:296-300 | Every configured profile is processed and stored under its name, unless one fails; other names stay. |
| ProfileCollections.ProfileCollection.Update | splunk_connect_for_snmp/snmp/varbinds_resolver.py:316-321 | After a change that processes, the stored names are the configured ones exactly when no stored name was removed: removed profiles stay behind. |
| ProfileCollections.RemovedProfileStays | splunk_connect_for_snmp/snmp/varbinds_resolver.py:316-321 | A profile taken out of the configuration is still given out for polling. |
| ProfileCollections.ReducedMapping | splunk_connect_for_snmp/snmp/varbinds_resolver.py:302-314 | A fold maps each key to the names, once each and in request order, of exactly the profiles whose own container holds it, skipping missing ones. |
| ProfileCollections.ReducedPresent | splunk_connect_for_snmp/snmp/varbinds_resolver.py:308-314 | The fold gives a profile exactly when some requested profile is present. |
| ProfileCollections.ReducedCovers | splunk_connect_for_snmp/snmp/varbinds_resolver.py:302-314 | The fold covers exactly what any present profile covers. |
| ProfileCollections.PolledMapping | splunk_connect_for_snmp/snmp/varbinds_resolver.py:302-314 | The mapping of a poll of several differently named non-walk profiles, stated for the collection. |
| ProfileCollections.PolledIsListed | splunk_connect_for_snmp/snmp/varbinds_resolver.py:164-182 | A processed profile polls exactly what begins with a listed family or field, the listed instances and, for a walk, SNMPv2-MIB. |
| ProfileCollections.WalkPollsFirst | splunk_connect_for_snmp/snmp/varbinds_resolver.py:302-345 | A walk polls its first profile and no other; a profile gives nothing exactly when it is missing, or lists nothing, is no walk and has no double underscore in its name. |
| Enrichment.BarFreeIsInjective | splunk_connect_for_snmp/enrich/tasks.py:122 | Replacing dots by bars tells keys without bars apart. |
| Enrichment.HashesCollide | splunk_connect_for_snmp/enrich/tasks.py:122 | Without that premise it does not: a concrete pair of keys collides. |
| Enrichment.Collections.SetAttributeUpdates | splunk_connect_for_snmp/enrich/tasks.py:229-277 | For any threshold, what was flushed, what is buffered and the new fields together are the stored fields overridden by the reported ones; both buffers stay below the threshold; the tracked fields go to the target's state. |
| Enrichment.Collections.UpdateCollections | splunk_connect_for_snmp/enrich/tasks.py:210-226 | What the buffers still hold is written and the buffers are empty. |
| Enrichment.Collections.UpdateDocument | splunk_connect_for_snmp/enrich/tasks.py:222-226 | One pipeline changes the fields of one document; a missing one is made by an upsert, without an id, and otherwise left missing. |
| Enrichment.Collections.BulkWriteAttributes | splunk_connect_for_snmp/enrich/tasks.py:196-207 | The deferred writes, one per document, missing documents included, give the same store in whatever order they run. |
| Enrichment.Collections.EnrichGroup | splunk_connect_for_snmp/enrich/tasks.py:121-171 | One group: immediate and deferred writes together amount to the report on top of the document it had, every other document stays. |
| Enrichment.EnrichMetricWithFieldsFromDb | splunk_connect_for_snmp/enrich/tasks.py:280-287 | A group with metrics gets the stored fields it did not report, in whatever order they come; others are left alone. |
| Enrichment.Collections.PassOn | splunk_connect_for_snmp/enrich/tasks.py:173-179 | The stored fields go to the group that was read: the id stored in a document is its own group's key. |
| Enrichment.Collections.CheckRestart | splunk_connect_for_snmp/enrich/tasks.py:52-72 | The stored up-time becomes the last reported one in the report's order, and a walk is triggered once for each reported sysUpTime below the one stored before, none when no group tells a lower one. |
| Enrichment.RestartsFall | splunk_connect_for_snmp/enrich/tasks.py:52-72 | A group shows a restart exactly when its metrics tell an up-time below the stored one. |
| Enrichment.Collections.Enrich | splunk_connect_for_snmp/enrich/tasks.py:102-181 | A whole report, group by group in its own order: the store absorbs it, every group carries on what the report and the earlier store give, up-time and tracked state are the report's on top of the old. |
| Enrichment.EnrichedAgreesWithStored | splunk_connect_for_snmp/enrich/tasks.py:173-181 | What a group with metrics carries on, built from the store before, is what the store holds afterwards. |
| EnrichmentRuns.StoredIsLatest | splunk_connect_for_snmp/enrich/tasks.py:115-181 | After any sequence of reports every stored field of every group has its latest reported value, and nothing else is stored. |
| EnrichmentRuns.PassedOnIsLatest | splunk_connect_for_snmp/enrich/tasks.py:115-181 | A group with metrics in the last report carries exactly the latest values of all fields ever reported for it. |
| EnrichmentRuns.RunIsSound | splunk_connect_for_snmp/enrich/tasks.py:132-141 | Over any sequence of reports every document has its id and every field lies under the hash of its own name. |
| EnrichmentRuns.UpTimeIsTold | splunk_connect_for_snmp/enrich/tasks.py:52-72 | Looking at a report's groups in any order leaves an up-time one of them tells, or the old one when none does. |
| EnrichmentRuns.RestartSeen | splunk_connect_for_snmp/enrich/tasks.py:52-72 | The up-time a report is compared with is the one told by the latest earlier report that told any. |
| EnrichmentRuns.WalkTriggeredExactly | splunk_connect_for_snmp/enrich/tasks.py:52-72 | Over any run of reports a walk is triggered exactly when a report tells an up-time below the one told last by the latest earlier report that told any. |
| EnrichmentRuns.StateHoldsTracked | splunk_connect_for_snmp/enrich/tasks.py:261-265 | After a report the target's state holds, for each of the five tracked fields, the value of the last group that gives it or what it held, and nothing else has changed in it. |
| HostKeys.KeyRoundTrip | splunk_connect_for_snmp/common/inventory_processor.py:52-64 | Every address, colons included, and every port come back from their host key. |
| HostKeys.KeysAreInjective | splunk_connect_for_snmp/common/inventory_processor.py:60-64 | Two hosts never share a key. |
| HostKeys.SearchFindsSuffixes | splunk_connect_for_snmp/customtaskmanager.py:56-57 | The pattern search for one host finds the walk and poll schedules of another exactly when the first host's key is a suffix of the other's. |
| HostKeys.KeySuffix | splunk_connect_for_snmp/customtaskmanager.py:56-57 | Whenever one address ends in another, so do their keys for the same port. |
| HostKeys.SuffixesHappen | splunk_connect_for_snmp/customtaskmanager.py:56-57 | Two such hosts. |
| HostKeys.KeysTellApart | splunk_connect_for_snmp/common/task_generator.py:74-118 | Schedule names tell hosts, kinds and periods apart. |
| HostKeys.HostKeysLookLike | splunk_connect_for_snmp/common/inventory_processor.py:60-64 | Host keys carry the port, 161 when there is none. |
| HostKeys.KeysLookLike | splunk_connect_for_snmp/common/task_generator.py:69-105 | The names of walk and poll schedules, spelled out. |
| TaskManager.CustomPeriodicTaskManager.DeleteUnusedPollTasks | splunk_connect_for_snmp/customtaskmanager.py:69-79 | Exactly the readable polls the search finds that are not among the active ones are deleted. |
| TaskManager.CustomPeriodicTaskManager.DeleteAllTasksOfType | splunk_connect_for_snmp/customtaskmanager.py:61-67 | Exactly the listed entries of one task type are deleted; orphans stay. |
| TaskManager.CustomPeriodicTaskManager.DeleteAllTasksOfHost | splunk_connect_for_snmp/customtaskmanager.py:118-119 | Every readable entry the search finds is deleted. |
| TaskManager.CustomPeriodicTaskManager.DidExpiryTimeChange | splunk_connect_for_snmp/customtaskmanager.py:92-103 | Reports a change exactly when some stored walk or poll expiry differs from the configured one, and then deletes both kinds. |
| TaskManager.CheckedExactly | splunk_connect_for_snmp/customtaskmanager.py:92-106 | All readable walks and polls of this program go exactly when one of them carries another expiry than the configured one; nothing else changes. |
| TaskManager.CustomPeriodicTaskManager.ManageTask | splunk_connect_for_snmp/customtaskmanager.py:121-164 | An existing entry gets the given fields and keeps its task and options; a missing or orphaned one is created when the definition is complete, and left alone otherwise. |
| TaskManager.ManagedExactly | splunk_connect_for_snmp/customtaskmanager.py:107-156 | Field by field: an existing entry takes over what is given and keeps its task, name and options; a missing or unreadable one is made exactly when task, schedule and app are given. |
| InventoryConvergence.OrphanIsRecreated | splunk_connect_for_snmp/customtaskmanager.py:121-180 | A line about a host whose walk schedule is missing or an orphan sets it up anew, with the line's profile and interval and the configured expiry. |
| WalkSchedules.LineSetsWalk | splunk_connect_for_snmp/common/inventory_processor.py:201-243 | A line that is no deletion stores its record with the interval it asks for; if the record is new or differs, the expiry changed or no schedule is readable, the walk schedule has the line's interval, profile, group and expiry, is enabled and runs at once; otherwise nothing changes. |
| WalkSchedules.LineKeepsOptions | splunk_connect_for_snmp/customtaskmanager.py:107-156 | An existing schedule keeps its task, its name and the expiry of its options; a new one gets the line's. |
| WalkSchedules.DeletionPassesOver | splunk_connect_for_snmp/common/inventory_processor.py:198-204 | A deleting line takes the host's record and passes over schedules it cannot read or that do not mention the host. |
| WalkSchedules.LinesMatch | splunk_connect_for_snmp/common/inventory_processor.py:201-243 | Lines keep it so that the interval stored for a host is the period of its readable walk schedule. |
| WalkSchedules.LoadMatches | splunk_connect_for_snmp/inventory/loader.py:173-260 | And so do whole loads. |
| TaskManager.PollsStay | splunk_connect_for_snmp/customtaskmanager.py:101-102 | Deleting the walks leaves the same polls to be deleted. |
| InventoryRecords.ReturnHostsFromDeletedGroups | splunk_connect_for_snmp/common/inventory_processor.py:80-96 | Exactly the hosts some previous group lists and that group no longer does. |
| InventoryRecords.LeftGroupMeans | splunk_connect_for_snmp/common/inventory_processor.py:80-106 | A host left a group exactly when the group listed it and does not any more, where an element's port is its own, else its group's, else 161. |
| InventoryRecords.InventoryRecordManager.Delete | splunk_connect_for_snmp/common/inventory_processor.py:198-203 | The record, the targets and attributes documents and the readable schedules found for the host go, nothing else. |
| InventoryRecords.InventoryRecordManager.Update | splunk_connect_for_snmp/common/inventory_processor.py:206-243 | The record is stored; the walk schedule is managed when the record is new or changed, the expiry changed or the schedule is missing. |
| InventoryRecords.InventoryRecordManager.ManageInventoryRecords | splunk_connect_for_snmp/inventory/loader.py:237-267 | Deletions first, then the lines in order, malformed ones skipped and reported. |
| InventoryRecords.InventoryRecordManager.Load | splunk_connect_for_snmp/inventory/loader.py:185-225 | The expiry check, the hosts that left groups and the lines, in this order. |
| InventoryConvergence.LinesDecide | splunk_connect_for_snmp/inventory/loader.py:242-253 | From any state the last line about a host decides its record, and the last line that touches its walk schedule decides that: an exact account without premises on the keys. |
| InventoryConvergence.DeletesDecide | splunk_connect_for_snmp/inventory/loader.py:237-239 | What deleting the hosts that left their groups takes, exactly. |
| InventoryConvergence.LoadConverges | splunk_connect_for_snmp/inventory/loader.py:237-267 | With suffix-free host keys: last valid line active, then record and walk schedule are there, whatever groups the host left and whatever was stored; last valid line a deletion, then neither. |
| InventoryConvergence.LoadKeepsOthers | splunk_connect_for_snmp/inventory/loader.py:237-267 | A host without a line loses its record and schedule exactly when it left a group, apart from the expiry check. |
| InventoryConvergence.DeletionTakesSuffixes | splunk_connect_for_snmp/inventory/loader.py:237-267 | Without suffix-free keys it fails: an active line followed by the deletion of any host whose key is a suffix of the active one's leaves the record without its walk schedule. |
| InventoryConvergence.DeletionTakesNeighbour | splunk_connect_for_snmp/inventory/loader.py:237-267 | For instance deleting 1.1.1.1 leaves 11.1.1.1 with a record and no walk schedule. |
| Polls.AddProfileToAssignedList | splunk_connect_for_snmp/inventory/tasks.py:140-145 | The name is appended to its period's list, which is made when missing; no other list changes. |
| Polls.AssignFieldSmartProfile | splunk_connect_for_snmp/inventory/tasks.py:220-234 | A field profile is assigned exactly when its field has a value that some pattern matches. |
| Polls.AssignSmartProfiles | splunk_connect_for_snmp/inventory/tasks.py:199-217 | Exactly the valid base and matching field profiles, each in its own period. |
| Polls.CheckProfilesType | splunk_connect_for_snmp/inventory/tasks.py:171-196 | Exactly the named, known, non-walk profiles with a frequency; those with a list of conditions are set aside. |
| Polls.AssignProfiles | splunk_connect_for_snmp/inventory/tasks.py:148-168 | A profile is in a period's list exactly when it is smart, static or mandatory and the period is its own frequency; mandatory profiles without a frequency are assigned under none. |
| Polls.SchedulePolls | splunk_connect_for_snmp/inventory/tasks.py:101-112 | Every period gets its definition managed, under a name that is noted as active; profiles under no period make the task fail with some of the periods done. |
| Polls.TagsApart | splunk_connect_for_snmp/inventory/tasks.py:80-83 | Generated profiles of one host never share a tag. |
| Polls.InventorySetupPoller | splunk_connect_for_snmp/inventory/tasks.py:58-115 | The finished walk: assignment, generated profiles stored and assigned under their tags, one schedule per period, the host's other polls deleted. It fails exactly when a mandatory or a generated profile has no frequency; then nothing is deleted, and nothing at all is scheduled when it is a generated one. |
| Polls.EndlessHappens | splunk_connect_for_snmp/inventory/tasks.py:148-168 | One mandatory profile without a frequency is enough. |
| PollReconciliation.OwnPollsSet | splunk_connect_for_snmp/inventory/tasks.py:101-112 | The periods that were set up have exactly their polls, every other one keeps what it had: also what a failing setup leaves. |
| PollReconciliation.OwnPollsExactly | splunk_connect_for_snmp/inventory/tasks.py:101-115 | Afterwards the host's readable polls are exactly one per assigned period, each with exactly the names of its period. |
| PollReconciliation.PolledExactly | splunk_connect_for_snmp/inventory/tasks.py:80-115 | Every name, configured or generated, is polled at a period exactly when it was assigned to it in one of the four ways. |
| PollReconciliation.PolledByItsOwnFrequency | splunk_connect_for_snmp/inventory/tasks.py:80-115 | A configured profile that is not the tag of a generated one is polled by the schedule of its own frequency and no other, exactly when it is assigned. |
| PollReconciliation.GeneratedPolledByItsOwnFrequency | splunk_connect_for_snmp/inventory/tasks.py:67-100 | A generated profile is polled under its tag by the schedule of its configured frequency and no other, exactly when its generation succeeded. |
| PollReconciliation.TwoPollsOnlyWhenBoth | splunk_connect_for_snmp/inventory/tasks.py:80-115 | A name is in two polls exactly when it is assigned as a configured profile at one period and as a generated tag at the other. |
| PollReconciliation.PolledWithReason | splunk_connect_for_snmp/inventory/tasks.py:148-285 | A configured profile is polled at a period exactly when that is its frequency and it is, on a host with smart profiles, an enabled base profile or an enabled field profile whose stored value, dots of the field read as bars, matches a pattern; or is named by the host and neither a walk nor a conditional profile; or is mandatory. |
| PollReconciliation.DisabledIsNotPolled | splunk_connect_for_snmp/inventory/tasks.py:240-243 | A disabled base or field profile that the host does not name is in no poll. |
| PollReconciliation.BaseIsPolled | splunk_connect_for_snmp/inventory/tasks.py:199-214 | An enabled base profile is polled at its frequency when smart and base polling are on. |
| PollReconciliation.FieldIsPolled | splunk_connect_for_snmp/inventory/tasks.py:216-236 | An enabled field profile is polled exactly when the value stored under its field matches. |
| PollReconciliation.ConditionalIsPolled | splunk_connect_for_snmp/inventory/tasks.py:80-100 | A conditional profile is polled under its tag exactly when the host names it and it could be generated, at the frequency it was configured with. |
| PollReconciliation.WalksUntouched | splunk_connect_for_snmp/customtaskmanager.py:69-79 | No walk schedule changes, the host's own included. |
| PollReconciliation.OtherPollsKeptExactly | splunk_connect_for_snmp/customtaskmanager.py:69-79 | Another host's poll survives exactly when its key does not end in this host's. |
| ScheduleRuns.TriggerWalkAfterRestart | splunk_connect_for_snmp/enrich/tasks.py:75-92 | Only an existing walk schedule is told to run at once; nothing else about it changes, and no other entry. |
| ScheduleRuns.LoadSetsExpiry | splunk_connect_for_snmp/inventory/loader.py:185-225 | After a load of any shaped store every walk and poll schedule carries the configured expiry, except those that carried none before and were not recreated because no stored expiry differed. |
| ScheduleRuns.WalkKeeps | splunk_connect_for_snmp/inventory/tasks.py:58-115 | A finished walk creates polls with the expiry its own schedule handed on. |
| ScheduleRuns.ExpiryInvariant | splunk_connect_for_snmp/customtaskmanager.py:92-172 | Over any sequence of loads, finished walks, failed setups and restarts: walk arguments agree with walk options, and the last configured expiry is carried by every walk and poll. |
| ScheduleRuns.PeriodsMatch | splunk_connect_for_snmp/common/inventory_processor.py:201-243 | Over any run the interval stored for a host is the period its walk is scheduled with. |
| ScheduleRuns.PollsAfterRun | splunk_connect_for_snmp/inventory/tasks.py:58-115 | At every state of such a run a finished walk leaves exactly its host's own polls and touches no walk schedule. |
| MibIndex.IsMibKnown | splunk_connect_for_snmp/snmp/manager.py:733-745 | The descending search finds the longest prefix that is long enough. |
| MibIndex.FindsLongestPrefix | splunk_connect_for_snmp/snmp/manager.py:733-745 | The module found is that of the longest indexed name covering the OID component by component, of at least 7 or 6 components; none exactly when there is no such name. |
| Traps.ResolvingPartitions | splunk_connect_for_snmp/snmp/tasks.py:462-471 | Resolving divides the trap's OIDs into translated and untranslated as a multiset. |
| Traps.ProcessSnmpData | splunk_connect_for_snmp/snmp/manager.py:782-827 | One pass files the bindings up to the first placeholder whose module is known, and asks for that module. |
| Traps.FilingHolds | splunk_connect_for_snmp/snmp/manager.py:782-850 | Of the resolved bindings that go to one metric or field of a group the last is stored there with its OID and value; every other place is as it was, and the groups are those there were and those of the bindings. |
| Traps.ItemComesFrom | splunk_connect_for_snmp/snmp/manager.py:829-850 | Whatever is stored comes from a binding that goes there. |
| Traps.CollectProcessedTrapOids | splunk_connect_for_snmp/snmp/tasks.py:387-399 | Exactly the non-empty OIDs that occur somewhere in the metrics. |
| Traps.UnprocessedTrapVarbinds | splunk_connect_for_snmp/snmp/tasks.py:409-421 | Exactly the translated bindings whose OID is not in the result, repeated ones included, in their order. |
| Traps.MergeUnresolvedTrapVarbinds | splunk_connect_for_snmp/snmp/tasks.py:424-438 | Every pair of either list, each once and in order of first appearance. |
| Traps.AppendUnresolvedTrapVarbinds | splunk_connect_for_snmp/snmp/tasks.py:441-459 | One field per name in the reserved group, everything else unchanged. |
| Traps.AppendedHasName | splunk_connect_for_snmp/snmp/tasks.py:453-459 | Every name of the list that is appended has one field with its OID, holding the last of its values in that list. |
| Traps.KeptIsNewest | splunk_connect_for_snmp/snmp/tasks.py:424-459 | What is sent on for an OID that was not translated or not filed is the value that turned up last as a new pair: a repeated pair does not count again. |
| Traps.AllValuesKeptExactly | splunk_connect_for_snmp/snmp/tasks.py:424-459 | No value is lost exactly when no such OID comes with two different values. |
| Traps.RepeatedValueIsLost | splunk_connect_for_snmp/snmp/tasks.py:424-459 | The values 1, 2 and 1 again of one OID leave only 2, neither all of them nor the last. |
| Traps.NothingIsLost | splunk_connect_for_snmp/snmp/tasks.py:630-634 | With untranslated and unfiled bindings appended, every OID of the trap occurs in the result. |
| Traps.CarriedApart | splunk_connect_for_snmp/snmp/tasks.py:441-459 | What is appended is in the reserved group, and everything else stays as it was filed. |
| TrapWorkers.RequestedAtMostOnce | splunk_connect_for_snmp/snmp/tasks.py:499-516 | In any history of requests for modules never tried before, each module occurs at most once. |
| TrapWorkers.TrapWorker.ResolveWorkVarbinds | splunk_connect_for_snmp/snmp/tasks.py:462-471 | The table and the failures, in order. |
| TrapWorkers.TrapWorker.LoadNewTrapMibs | splunk_connect_for_snmp/snmp/tasks.py:499-516 | Only modules never tried are asked for, and all of them count as tried whether or not they load. |
| TrapTranslations.RetriedPartitions | splunk_connect_for_snmp/snmp/tasks.py:565-596 | Trying the failed bindings again, with or without a newly loaded module, loses no OID and counts none twice. |
| TrapTranslations.TranslatedPartitions | splunk_connect_for_snmp/snmp/tasks.py:607-626 | Whatever is loaded on the way, after all phases the table and the failures partition the trap's OIDs as a multiset. |
| TrapTranslations.PassesAreSeparate | splunk_connect_for_snmp/snmp/tasks.py:519-544 | No pass files anything in the group reserved for untranslated bindings. |
| TrapTranslations.LastTableIsStored | splunk_connect_for_snmp/snmp/tasks.py:519-544 | After the passes a binding of the last table, before the placeholder that stopped the pass, is stored where it goes unless a later one goes there too. |
| TrapTranslations.NothingResolvableIsLeft | splunk_connect_for_snmp/snmp/tasks.py:565-626 | After all phases exactly the bindings are untranslated that the modules then loaded cannot resolve; with a placeholder left the table is the whole trap resolved anew. |
| TrapTranslations.TriedExactly | splunk_connect_for_snmp/snmp/tasks.py:499-596 | The modules tried are those of enterprise OIDs in names and values and, unless preloading them loaded something, those of the bindings that do not resolve; the new ones among them that can be are loaded. |
| TrapWorkers.TrapWorker.PreloadTrapMibs | splunk_connect_for_snmp/snmp/tasks.py:547-562 | Exactly the modules of enterprise OIDs in names and values are asked for, those tried before excepted. |
| TrapWorkers.TrapWorker.RetryTrapVarbindsAfterMibLoad | splunk_connect_for_snmp/snmp/tasks.py:565-596 | The whole trap is resolved again when a module could be loaded for a failed binding, otherwise only the bindings whose module is known; the loops compute that translation. |
| TrapWorkers.TrapWorker.ReResolveTrapWorkIfNeeded | splunk_connect_for_snmp/snmp/tasks.py:486-496 | A full re-resolve replaces both lists exactly when a placeholder is left. |
| TrapWorkers.TrapWorker.ProcessTrapMetrics | splunk_connect_for_snmp/snmp/tasks.py:519-544 | The passes file what their specification says, up to the bindings of the last table; there are at most five, and each but the last had a module loaded that was never tried before. |
| TrapWorkers.TrapWorker.Trap | splunk_connect_for_snmp/snmp/tasks.py:599-634 | The phases in their order; the bindings of the final table are stored where they go, and with untranslated bindings included the reserved group holds exactly what merging and appending the untranslated and unfiled bindings makes, and every OID of the trap occurs in what is sent on. |
| TrapWorkers.TrapWorker.Traps | splunk_connect_for_snmp/snmp/tasks.py:499-634 | Over any sequence of traps each module is asked for at most once. |
| Queries.CreateQuery | splunk_connect_for_snmp/inventory/tasks.py:300-379 | A query comes out exactly when there is a condition, the operands fit and the last field names a MIB, and it has one filter per condition. |
| Queries.CompilesExactly | splunk_connect_for_snmp/inventory/tasks.py:300-379 | Which conditions those are: numbers, or texts that read as numbers, for comparisons, a list or a text for the list operation, a text for patterns; and a last field with a dot or a bar. |
| Queries.TestAgreesExactly | splunk_connect_for_snmp/inventory/tasks.py:302-360 | A compiled test means its condition, negation included, exactly when it is not a negated comparison of a missing or non-numeric field or a negated unknown operation. |
| Queries.MibIsBeforeBreak | splunk_connect_for_snmp/inventory/tasks.py:320-324 | The MIB of a query is what comes before the first dot or bar of the last field, and a field without either is refused. |
| Queries.SlashedPattern | splunk_connect_for_snmp/inventory/tasks.py:326-349 | A pattern may have slashes around it; what follows one more slash are its options. |
| Queries.MissingIsNotSelected | splunk_connect_for_snmp/inventory/tasks.py:302-360 | A negated comparison of a field that a document lacks: meant, and not selected. |
| Queries.QuerySelectsExactly | splunk_connect_for_snmp/inventory/tasks.py:366-379 | A document is selected exactly when address and MIB fit and every condition holds as meant, and is not a negated comparison of something incomparable. |

## Left out

- The network, MongoDB, Redis, Celery, the SNMP and MIB libraries: an agent is any function from request number and request to response, collections are maps, the MIB resolver is any function of the loaded modules.
- Re-seeding the walk generator with `asend`, which no caller does.
- The walk yields status 0 for the library's "no error" and for the `None` of an empty root list alike; rows carry a name and a value without further typing.
- Answers that are not a beginning of the layout: safety covers them, completeness does not.
- The text of log messages, timestamps, priorities and queue names.
- Value typing and coercion of trap bindings and of metrics, pattern matching and reading numbers from text: uninterpreted functions.
- Field values are opaque records, and setting one replaces it whole.
- The fields within one group are gone through in any order; groups are taken in the report's own.
- Enrichment.Collections.CheckRestart: counts the walks to be triggered; that triggering one changes only its schedule is stated by `TriggerWalkAfterRestart`, which does not model failures of the scheduler.
- Scheduled names carry their `redbeat:` prefix in the model, and a key holds a readable entry or an orphan; entries with invalid JSON are treated as orphans by scans, and an error while managing one is not modelled.
- TaskManager.CustomPeriodicTaskManager.DeleteAllTasksOfHost: the scheduler's own deletion by target is not part of the repository; it is modelled as deleting what the search by target finds readable, passing over orphans as this repository's scans do; `LoadConverges` rests on that for stores with orphans.
- Glob metacharacters in host keys, other keys of the Redis database, discovery schedules, rerunning all walks and the due times of schedules.
- The fixed task chains inside a schedule's options: of the options only the expiry is modelled.
- Reading inventory, groups and configuration from files or collections, `InventoryProcessor`, validation of records, the choice of the walk profile, the user-interface collections and schema migration: lines come as records, or as malformed.
- Documents of targets and attributes are only tracked as being there; errors of the scheduler or the database in the middle of an update are not modelled.
- Concurrent loads and walks that started under an earlier expiry: runs are sequential.
- Polls.InventorySetupPoller: the order in which periods are set up is left open, which shows only in which of them a failing task has done; what generating a conditional profile yields, or that it fails, is a parameter.
- Regular-expression metacharacters in MIB names.
- Queries.CreateQuery: the shape of the query as a document; its meaning is given for the operators it uses.
- TrapWorkers.TrapWorker.Trap: the truncation of long traps, the host name lookup and the final wrapping of the result; without the inclusion of untranslated bindings conservation is not claimed, because the pass stops early and failures are dropped.
- SNMP authentication, engine discovery, the trap receiver, HEC output, TTL caches, environment parsing, and discovery: they would add only easy members or library plumbing.
