# InfraLynx integrity model

A Dafny model of the rules that keep an InfraLynx inventory consistent, and of five self-contained
algorithms beside it, with proofs of what they guarantee.

- **Inventory state machine.** `Payload`, `Inventory`, `InventoryRuns` and the modules beside them model
  the create, update and delete handlers of the inventory API over sites, racks, devices, prefixes and
  IP addresses. `InventoryState` holds the stored lists, and `InventoryRequests` says without the code
  what a payload describes, what is wrong with it and what each answer changes; the contracts of the
  handlers are written in these terms. Each step is gated by field
  validation, the rack-occupancy check (`RackPlacement`), the prefix-hierarchy check
  (`PrefixHierarchy`) and the whole-snapshot validator (`SnapshotValidation`, on the 32-bit arithmetic
  of `Bits32` and `Ipv4`). The main result, `InventoryRuns.RunKeepsSafe`, says that every run of steps
  keeps ids unique, the snapshot free of conflicts, the hierarchy accepted and rack units exclusive.
  `AddressSpace` and `InventoryConsequences` draw the consequences for the address plan,
  `InventoryReferences` those for addresses the validator skips, and `InventoryWiring` says under which
  interfaces and connections anything can be written at all. `InventoryAnswers` and `InventorySettled`
  say what an update keeps, `InventoryGuards` what a delete is blocked for, and `SnapshotReports` which
  conflicts the validator reports.
- **Prefix forest.** `PrefixForest` says what the forest of a prefix list is, `PrefixWalk` builds it with
  the stack walk that has no visited set, and `PrefixOrder` says when its comparator orders;
  `PrefixUtilization` proves the one-pass accounting equal to its recursive definition; `IpamTree`,
  `IpamTreeRows`, `IpamTreeOrder` and `IpamTreeVisibility` flatten the forest into the rows of the tree
  view.
- **Path tracing.** `PathTracing` proves the bounded breadth-first search correct, complete and
  terminating, and says which of the shortest paths it finds.
- **Backup and restore.** `Backup` and `BackupStore` model the source tree as a map from paths to
  contents and inject a failure into any delete or write; a restore is all or nothing. `BackupRuns`
  gives the meaning of whole runs of the store.
- **Scheduler.** `Calendar` holds the Gregorian arithmetic, `CronFields` and `Cron` the expression
  parser and the search for the next run, `CronGrammar` what every expression means, `CronGuarantee`
  when that search succeeds, `Scheduler`,
  `SchedulerRuns` and `SchedulerFindings` the store and its runs.
- **CSV transfer.** `CsvText`, `CsvTransfer`, `CsvReports` and `CsvRoundTrip` model the quote
  automaton, the importer with its reports and the exporter, and prove that they undo each other.

`Wrappers`, `JsText` and `Sorting` hold the language primitives the program uses, and `Keyed` the
operations on lists of records with an id. Tenants, VRFs, interfaces and connections are parameters
(`InventoryState.Context`), and runs start from any state that has the invariants: the built-in seed data
does not pass the snapshot validator itself. Clocks and random ids are parameters. `localeCompare` is
an arbitrary comparison; sorted order is claimed only where the comparator is a total preorder of the
elements that are sorted. The cron library's own verdict is the parameter `accepts`. The checksum is
an arbitrary function of the archive.

Lemmas carry `{:induction false}` wherever Dafny would otherwise add an induction hypothesis of its
own, so every induction is written out.

## What the proofs found

Where a promise does not hold of the code as it is, the model keeps the code and states exactly when
the promise holds, or gives the family of inputs that breaks it.

- `BackupStore.PreviewAcceptsIff`, `BackupStore.SeedIsRejected`: the restore preview validates the
  inventory with no interfaces at all, so it rejects every backup in which an IPv4 address is bound to
  an interface, that of the built-in inventory included.
- `InventoryConsequences.UpdateKeepsPositionIff`, `InventoryConsequences.RenameUnmounts`: the update
  handler merges the stored device into the payload, but the stored position is nested and is not read
  back. An update keeps it exactly when the request names it again; a mere rename takes the device out
  of its rack.
- `InventoryWiring.MutationsApplyIff`, `InventoryWiring.BuiltInConnectionsBlock`: every create and update
  is checked together with all connections, so that one is ever applied exactly when both ends of every
  connection are interfaces of the devices it names. A built-in connection names an interface that does
  not exist: over the built-in reference data none is ever applied.
- `InventoryReferences.PrefixUpdateKeepsReferencesIff`: the validator skips addresses that denote no IPv4
  host. Deleting the prefix of such an address is blocked, renaming it is not: the references survive
  exactly when the id stays or all addresses on it denote hosts.
- `InventoryConsequences.RackUpdateKeepsBoundsIff`, `InventoryConsequences.HeightUpdateApplies`:
  shrinking a rack is not checked against its devices. "In bounds" is kept by every other step, and by
  a rack update exactly when the new height still reaches the topmost unit taken.
- `PrefixHierarchy.ValidatePrefixHierarchy`, `PrefixHierarchy.RepeatedIdsCanLookCyclic`: with
  repeated ids a list of sound edges can be rejected as cyclic. The exact condition on every list is
  part of the method's contract; the inventory steps keep ids unique.
- `PrefixWalk.WalkEndsIff`, `PrefixWalk.RepeatedIdNeverEnds`: with repeated ids the stack walk
  that builds the forest need not end. It ends exactly on the lists without a circle of children below
  a root.
- `PrefixOrder.SpecificityIsPreorderIff`, `PrefixOrder.SpecificityIsNoPreorder`: the comparator the
  prefixes are sorted with compares ids where a CIDR does not parse, and is an order exactly when the
  unparsed prefixes fit in where their ids put them. The children of an accepted hierarchy all parse.
- `AddressSpace.UnparsedChildrenCanOverfill`: prefixes whose network text does not parse as IPv4 pass
  both validators and are invisible to the overlap rule, so that children can exceed their parent.
  `AddressSpace.CapacitiesFitIff` says when they do.
- `CronGuarantee.AlwaysRunsIff`, `CronGuarantee.LeapDayMisses`, `CronGuarantee.RestrictingBothCanMiss`:
  a schedule limited to 29 February, or one that restricts both the date and the weekday, can find no
  next run within the searched year and is then never run again.
- `SchedulerFindings.LastRunPatchIsSafeIff`, `SchedulerFindings.RecordedRunStaysDueIff`: an update
  searches from the last run stored before the patch. A last run cleared, or patched to before the
  latest slot, lets that slot fire again, and a run recorded by patching the last run (as the
  in-process runtime does) leaves the schedule due for a slot that has just been served.
- `CsvRoundTrip.ExportReimportsIff`: values with a line feed, which a JSON import accepts, do not
  survive the CSV export.

## Model

| member | source | states |
|---|---|---|
| `Ipv4.ParseNumberValue` | packages/validation/src/index.ts:125-153 | a text denotes a host exactly when it is four dotted octets of 0 to 255, and the host is the number they spell in base 256, below 2^32 |
| `Ipv4.JoinOctetsValue` | packages/validation/src/index.ts:147-152 | shifting the octets into place and or-ing them with 32-bit signed operators gives that number for every octet quadruple |
| `Ipv4.MaskValue` | packages/validation/src/index.ts:174 | the shifted mask is 2^32 minus the block size for every prefix length 0 to 32, the special case 0 included |
| `Ipv4.NetworkValue` | packages/validation/src/index.ts:175 | and-ing a host with the mask clears exactly its low bits |
| `Ipv4.RangeOfArithmetic` | packages/validation/src/index.ts:174-185 | start = host - host mod 2^(32-p), end = start + 2^(32-p) - 1, and the host lies between them |
| `Ipv4.ParsedIsAligned` | packages/validation/src/index.ts:155-186 | every range the parser returns is such a block |
| `Ipv4.OverlapIsContainment` | packages/validation/src/index.ts:188-194 | two parsed ranges overlap exactly when one contains the other, namely the one with the shorter or equal prefix length |
| `Ipv4.RangeTextReads` | packages/validation/src/index.ts:155-186 | reading undoes printing: every host with every prefix length has a dotted text that parses to that host and length |
| `SnapshotValidation.ValidateSnapshot` | packages/validation/src/index.ts:215-681 | the pushing loops report exactly the conflicts of the definition, in order; the verdict is valid exactly for conflict-free snapshots; a warning is given exactly when IPv6 records occur |
| `SnapshotValidation.ConflictsDecide` | packages/validation/src/index.ts:215-681 | the report list is empty exactly when the loop-free predicate `ConflictFree` holds |
| `SnapshotReports.ReportsAre` | packages/validation/src/index.ts:215-681 | for every snapshot, which conflicts are reported: a code with its two ids is in the list exactly when some record, pair of prefixes or repeated host stands for it, the condition and the ids written out for each of the 25 codes |
| `SnapshotReports.DeviceReport` | packages/validation/src/index.ts:259-305 | what a device is reported for: a missing site, a missing rack, a rack in another site, and which ids are named |
| `SnapshotReports.ConnectionReport` | packages/validation/src/index.ts:323-408 | the same for the two ends of a connection; a mismatch names the device that owns the interface |
| `SnapshotReports.PrefixReport` | packages/validation/src/index.ts:428-492 | the same for an IPv4 prefix that denotes a range |
| `SnapshotReports.AddressReport` | packages/validation/src/index.ts:550-645 | the same for an IPv4 address that denotes a host |
| `SnapshotReports.PairsOfV4` | packages/validation/src/index.ts:494-541 | leaving out the other prefixes first loses no pair and changes no order |
| `SnapshotReports.FirstHolderIs` | packages/validation/src/index.ts:647-664 | a repeated host is reported against the first address of the list that holds it |
| `SnapshotValidation.SiteReportsDecide` | packages/validation/src/index.ts:227-241 | no site report exactly when every named tenant exists |
| `SnapshotValidation.RackReportsDecide` | packages/validation/src/index.ts:243-257 | no rack report exactly when every rack names an existing site |
| `SnapshotValidation.DeviceReportsDecide` | packages/validation/src/index.ts:259-305 | no device report exactly when sites and racks exist and the rack stands in the device's site |
| `SnapshotValidation.InterfaceReportsDecide` | packages/validation/src/index.ts:307-321 | no interface report exactly when every interface names an existing device |
| `SnapshotValidation.ConnectionReportsDecide` | packages/validation/src/index.ts:323-408 | no connection report exactly when both ends name an existing device that owns the named interface |
| `SnapshotValidation.PrefixReportsDecide` | packages/validation/src/index.ts:428-492 | no prefix report exactly when VRF and parent exist, parent and child agree in family and VRF, and the parent's range contains the child's |
| `SnapshotValidation.OverlapReportsDecide` | packages/validation/src/index.ts:494-541 | the ordered pair loop misses no pair: no report exactly when every overlap inside one VRF is a declared direct parent containing its child |
| `SnapshotValidation.OverlapsAreContainments` | packages/validation/src/index.ts:524-527 | the partial-overlap code is never used: every overlap is reported as undeclared containment |
| `SnapshotValidation.AddressReportsDecide` | packages/validation/src/index.ts:550-665 | no address report exactly when references, containment and interfaces agree and no two records name one host of one VRF |
| `SnapshotValidation.DuplicateReportsDecide` | packages/validation/src/index.ts:647-664 | the one-pass map of first holders reports a repeat exactly when two records repeat a host, as the pairwise definition says |
| `SnapshotValidation.HostKeyInjective` | packages/validation/src/index.ts:647 | the text keys of two addresses agree exactly when VRF and host do, colons in VRF ids included; no VRF counts as the VRF "global" |
| `SnapshotValidation.RememberHost` | packages/validation/src/index.ts:648-664 | one step of the map: the earlier holder is returned exactly when it is another record, and the map then holds the first holders of one position more |
| `SnapshotValidation.CheckOverlaps` | packages/validation/src/index.ts:494-541 | the nested loops push the pair reports in order |
| `SnapshotValidation.CheckAddresses` | packages/validation/src/index.ts:550-665 | the address loop with its map pushes the address and duplicate reports in order |
| `PrefixHierarchy.ValidatePrefixHierarchy` | packages/ipam-domain/src/index.ts:214-257 | on every list: accepted exactly when every edge is sound and no ancestor chain repeats an id; with unique ids exactly when every edge is sound; a rejection is about the first faulty prefix and names its first fault |
| `PrefixHierarchy.CheckEdge` | packages/ipam-domain/src/index.ts:222-241 | each edge verdict exactly in its case: unresolved parent, other VRF, unparsed CIDR, not more specific |
| `PrefixHierarchy.WalkAncestors` | packages/ipam-domain/src/index.ts:243-253 | the walk with its visited set ends on every list and reports a cycle exactly when the ancestor chain repeats an id, at the first id met again |
| `PrefixHierarchy.SoundDoesNotRepeat` | packages/ipam-domain/src/index.ts:239-253 | with unique ids and sound edges no chain repeats an id, so the walk never changes the verdict |
| `PrefixHierarchy.RepeatedIdsCanLookCyclic` | packages/ipam-domain/src/index.ts:243-249 | unique ids are needed: a family of lists with sound edges whose chain repeats an id, so that the validator rejects them |
| `PrefixHierarchy.RepeatedIdsSample` | packages/ipam-domain/src/index.ts:214-257 | a concrete list of that family, rejected although every edge is sound |
| `PrefixHierarchy.VerdictIgnoresOrder` | packages/ipam-domain/src/index.ts:214-257 | with unique ids the verdict does not depend on the list order |
| `PrefixHierarchy.AcceptedIsAcyclic` | packages/ipam-domain/src/index.ts:214-257 | in an accepted hierarchy every proper ancestor is another, strictly less specific prefix of the same VRF |
| `PrefixHierarchy.CidrShapeIff` | packages/ipam-domain/src/index.ts:90-131 | a text has CIDR shape exactly when something stands before a slash and a prefix length that fits the family stands behind it; the parser reads both back |
| `PrefixWalk.BuildPrefixHierarchy` | packages/ipam-domain/src/index.ts:259-305 | the stack walk ends on every list without a circle of children below a root; with unique ids, cyclic and orphaned lists included, the nodes are exactly the prefixes whose chain reaches a root, at the depth of the chain, with their declared children |
| `PrefixWalk.WalkEndsIff` | packages/ipam-domain/src/index.ts:276-299 | on every list, unique ids or not, the walk ends exactly when no declared children lead round in a circle from a root |
| `PrefixWalk.UniqueHasNoCircle` | packages/ipam-domain/src/index.ts:259-305 | a list of unique ids has no such circle, whatever parents it declares |
| `PrefixWalk.RepeatedIdNeverEnds` | packages/ipam-domain/src/index.ts:259-305 | on a root and a child that repeats its id the walk never ends |
| `PrefixWalk.RepeatedIdNeverEndsSample` | packages/ipam-domain/src/index.ts:259-305 | a concrete list of that family |
| `PrefixForest.GroupByParent` | packages/ipam-domain/src/index.ts:264-274 | the roots and the sorted child buckets, for every id |
| `PrefixForest.DeclaredChildren` | packages/ipam-domain/src/index.ts:264-274 | a bucket holds exactly the prefixes that declare the id, each once |
| `PrefixOrder.ChildrenBySpecificity` | packages/ipam-domain/src/index.ts:164-177 | in an accepted hierarchy, for every collation whose sign flips and whose order is transitive, each bucket of children is sorted by the comparator of the program, from the least specific to the most |
| `PrefixOrder.SpecificityIsPreorderIff` | packages/ipam-domain/src/index.ts:164-177 | on any set of prefixes, for every such collation, the comparator is a total preorder exactly when each unparsed prefix that the ids put between two parsed ones also lies between them by specificity, and strictly where the ids are strict |
| `PrefixOrder.SpecificityIsPreorder` | packages/ipam-domain/src/index.ts:164-177 | as is the case where all parse: the order is by length, then text, then id |
| `PrefixOrder.FittingListSorted` | packages/ipam-domain/src/index.ts:259-271 | where it is, the whole list and its roots come out sorted |
| `PrefixOrder.SpecificityIsNoPreorder` | packages/ipam-domain/src/index.ts:164-169 | among all prefixes it is none, for any collation: an unparsed prefix stands between a longer and a shorter one |
| `PrefixForest.ForestIsWellFormed` | packages/ipam-domain/src/index.ts:276-299 | in the forest children are nodes one level down, listed once, with a single parent |
| `PrefixForest.ForestUnique` | packages/ipam-domain/src/index.ts:259-305 | a list of unique ids has one forest: any two that meet the declarative description have the same nodes and the same roots |
| `PrefixForest.ForestRoots` | packages/ipam-domain/src/index.ts:264-302 | the roots are exactly the nodes of depth 0, each once |
| `PrefixUtilization.CreatePrefixUtilizationDirectory` | packages/ipam-domain/src/index.ts:307-364 | for exactly the nodes of the forest: the direct count is the number of addresses that name the id, the capacity is known or not, and used and available balance with the records of the children at every node, clipped at the capacity, a child of unknown use taking its whole capacity; the one pass equals the recursive definition |
| `PrefixUtilization.DirectCountIs` | packages/ipam-domain/src/index.ts:314-331 | the direct count of an id is the number of positions in the address list that name it, and 0 for the empty id |
| `PrefixUtilization.CapacityIs` | packages/ipam-domain/src/index.ts:193-212 | the capacity is known exactly for 0 to 20 host bits, of 32 for IPv4 and 128 for IPv6, and is then that power of two |
| `PrefixUtilization.CapacityUnknown` | packages/ipam-domain/src/index.ts:193-212 | a text without a slash, or with nothing before it, has no capacity |
| `PrefixUtilization.AccountsBalance` | packages/ipam-domain/src/index.ts:325-364 | the recursive definition balances at every node: the equations determine the directory, from the leaves up |
| `PrefixUtilization.UtilizationAddsUp` | packages/ipam-domain/src/index.ts:343-346 | wherever the numbers are known 0 <= used <= total and used + available = total |
| `PrefixUtilization.ChildComesFirst` | packages/ipam-domain/src/index.ts:325 | sorting by depth puts every child before its parent |
| `PrefixUtilization.SumChildren` | packages/ipam-domain/src/index.ts:332-342 | the running sum over the children equals the recursive child use |
| `PrefixUtilization.Account` | packages/ipam-domain/src/index.ts:343-360 | clip, difference and unknowns of one record |
| `AddressSpace.DisjointOrDirectParent` | packages/validation/src/index.ts:494-541 | in a list both validators accept, two prefixes of one VRF are disjoint or one is the direct declared parent containing the other, and these cases exclude each other |
| `AddressSpace.AtMostTwoCover` | packages/validation/src/index.ts:203-213 | hence no address is covered by more than two prefixes of one VRF |
| `AddressSpace.ChildrenFit` | packages/ipam-domain/src/index.ts:332-342 | the ranges of the children of any prefix are pairwise disjoint, and their sizes add up to at most the size of its own range where it has one |
| `AddressSpace.ClipNeedsDirectAddresses` | packages/ipam-domain/src/index.ts:332-344 | the children of a ranged prefix use at most its capacity and, beyond it, the capacity of children that denote no range; so where all children denote ranges the clip is only ever caused by directly attached addresses |
| `AddressSpace.UnparsedChildrenCanOverfill` | packages/ipam-domain/src/index.ts:193-212 | children whose network does not parse are seen by neither overlap rule: a family of accepted lists whose children exceed their parent |
| `AddressSpace.CapacitiesFitIff` | packages/ipam-domain/src/index.ts:193-212 | the capacities of the children fit into that of their prefix exactly when those of the children that denote no range fit into what the ranges of the others leave |
| `AddressSpace.OverfilledSample` | packages/ipam-domain/src/index.ts:193-212 | a concrete accepted list of that family: 256 addresses, three children of 128 each |
| `RackPlacement.ClashIsSharedUnit` | packages/dcim-domain/src/index.ts:99-123 | the interval test reports a clash exactly for positions of one rack and face that share a unit, when both are at least one unit high |
| `RackPlacement.FitsIsInBounds` | packages/dcim-domain/src/index.ts:73-123 | an accepted position lies inside the rack and shares no unit with an occupied one |
| `Payload.CreatedIdIsSlug` | apps/api/src/inventory/index.ts:702-714 | every created id is canonical (lower-case letters, digits and single inner dashes), and a canonical candidate is taken unchanged |
| `Payload.SlugStays` | apps/api/src/inventory/index.ts:702-709 | sanitizing leaves canonical ids alone |
| `Payload.SanitizeJoinsWords` | apps/api/src/inventory/index.ts:702-709 | sanitizing lower-cases a text and joins its runs of letters and digits with single dashes; all else is dropped |
| `Payload.ReadersRead` | apps/api/src/inventory/index.ts:716-743 | the readers on what a client sends: white space around a text is stripped and nothing else, blank and null are absent, integers are read from numbers and from signed digit texts |
| `Inventory.ValidateSitePayload` | apps/api/src/inventory/index.ts:1204-1235 | the errors are exactly the faults of the payload, field by field (name or slug missing, tenant unknown, id taken); without errors the record holds what the payload says, each field by its reader |
| `Inventory.ValidateRackPayload` | apps/api/src/inventory/index.ts:1237-1268 | the same for racks: name missing, site unknown, height no positive integer, id taken |
| `Inventory.ValidateDevicePayload` | apps/api/src/inventory/index.ts:1270-1361 | the same for devices: name missing, site unknown, role or status outside the listed words, rack unknown, position without room, id taken |
| `Inventory.PlaceDevice` | apps/api/src/inventory/index.ts:1304-1338 | no error and no position exactly when the payload names no placement; a position given is the one named, lies in its rack, is at least one unit high and shares no unit with another device; and every such position is given, for stored positions at least one unit high |
| `Inventory.ValidatePrefixPayload` | apps/api/src/inventory/index.ts:1363-1438 | the same for prefixes: CIDR without the shape of its family, unknown VRF, tenant or parent, status or mode outside the listed words, id taken, and a hierarchy that is rejected with the record at its end |
| `Inventory.ValidateIpAddressPayload` | apps/api/src/inventory/index.ts:1440-1505 | the same for addresses: no slash or no CIDR shape, unknown VRF, prefix or interface, a prefix of another VRF, status or role outside the listed words, id taken |
| `Inventory.ValidateMutation` | apps/api/src/inventory/index.ts:1565-1616 | refused exactly for the faults of the payload; applied: the record reads the payload, stands last in its list or in the place of the record with the id, nothing else changes, and the snapshot is free of conflicts; rejected: the reported conflicts are those the record would bring, and nothing changes |
| `InventoryRuns.InventoryStore.HandleCreate` | apps/api/src/inventory/index.ts:1650-1683 | applied: the old list and the record at its end, all else unchanged, the record holding the fields of the payload by their readers, the snapshot free of conflicts; refused exactly for the faults of the payload, reported exactly; rejected with exactly the conflicts it would bring; unless applied nothing changes |
| `InventoryRuns.InventoryStore.HandleUpdate` | apps/api/src/inventory/index.ts:1733-1769 | not found exactly when no record has the id; applied: the record takes the place of that one, all else unchanged, and reads the request over the stored fields; in a settled inventory each field whose key the request leaves out keeps its value; refused, rejected and unchanged as for a create |
| `InventoryRuns.InventoryStore.HandleDelete` | apps/api/src/inventory/index.ts:1815-1903 | not found exactly when no record has the id, blocked exactly by the reference guards; deleted: exactly that record is gone, the others stay in order, the other four lists are unchanged; otherwise nothing changes |
| `InventoryGuards.GuardIsExact` | apps/api/src/inventory/index.ts:1825-1902 | where all references resolve, a delete is blocked exactly when taking the record out would leave a reference to it behind, for all five resources |
| `InventoryAnswers.DeleteRemoves` | apps/api/src/inventory/index.ts:1825-1902 | an unguarded delete of a stored record cuts exactly that record out of its list |
| `InventoryAnswers.ReadsSettled` | apps/api/src/inventory/index.ts:1204-1505 | whatever a payload says, the record it describes is settled: canonical id, trimmed texts, a family that fits |
| `InventoryAnswers.SiteReadsBack` | apps/api/src/inventory/index.ts:1762 | a settled site merged with an empty request describes itself again |
| `InventoryAnswers.RackReadsBack` | apps/api/src/inventory/index.ts:1762 | the same for racks |
| `InventoryAnswers.DeviceReadsBack` | apps/api/src/inventory/index.ts:1762 | the same for devices, but for the position, which no reader takes up |
| `InventoryAnswers.PrefixReadsBack` | apps/api/src/inventory/index.ts:1762 | the same for prefixes, family included |
| `InventoryAnswers.AddressReadsBack` | apps/api/src/inventory/index.ts:1762 | the same for addresses |
| `InventoryAnswers.UpdateKeeps` | apps/api/src/inventory/index.ts:1762 | an accepted update keeps every field whose key the request leaves out, for all five resources |
| `InventorySettled.RunKeepsSettled` | apps/api/src/inventory/index.ts:1650-1903 | over every run the stored records stay settled |
| `InventorySettled.ReachedUpdateKeeps` | apps/api/src/inventory/index.ts:1733-1769 | so in every reachable state an accepted update keeps what the request leaves out |
| `InventoryRuns.StepKeepsUniqueIds` | apps/api/src/inventory/index.ts:1507-1556 | every step keeps the ids of each resource unique, id renames included |
| `InventoryRuns.ReplacedHierarchy` | apps/api/src/inventory/index.ts:1422-1424 | the verdict on the list with the record moved to the end carries over to the record replaced in place |
| `InventoryRuns.PlacementIsFree` | apps/api/src/inventory/index.ts:1321-1328 | an accepted placement shares no unit with any other device, in whatever rack it is stored |
| `InventoryRuns.DeleteKeepsConflictFree` | apps/api/src/inventory/index.ts:1825-1902 | deletes never call the validator, but their guards keep the snapshot conflict-free |
| `InventoryRuns.StepKeepsSafe` | apps/api/src/inventory/index.ts:1565-1616 | every step keeps unique ids, a conflict-free snapshot, an accepted hierarchy and exclusive rack units |
| `InventoryRuns.RunKeepsSafe` | apps/api/src/inventory/index.ts:1650-1903 | every sequence of creates, updates and deletes keeps all four, from any state that has them |
| `InventoryConsequences.RunKeepsSlugs` | apps/api/src/inventory/index.ts:702-714 | over every run the ids stay canonical, so they stay non-empty |
| `InventoryConsequences.ReachableAddressSpace` | apps/api/src/inventory/index.ts:1565-1616 | in every reachable state no address is covered by more than two prefixes of one VRF |
| `InventoryConsequences.ProposedDeviceInBounds` | apps/api/src/inventory/index.ts:1320-1336 | an accepted device lies inside its rack |
| `InventoryConsequences.RunKeepsHeights` | apps/api/src/inventory/index.ts:1304-1338 | over every run the stored positions stay at least one unit high |
| `InventoryConsequences.OtherStepsKeepBounds` | apps/api/src/inventory/index.ts:1507-1556 | only a rack update can leave a device outside its rack |
| `InventoryConsequences.RackUpdateKeepsBoundsIff` | apps/api/src/inventory/index.ts:1237-1268 | an applied rack update keeps every device in bounds exactly when the new height reaches the topmost unit taken |
| `InventoryConsequences.HeightUpdateApplies` | apps/api/src/inventory/index.ts:1237-1268 | in every safe state a new height of a rack is applied, whatever stands in the rack |
| `InventoryConsequences.UpdateKeepsPositionIff` | apps/api/src/inventory/index.ts:1762 | an accepted device update keeps the stored position exactly when the request names that very position again, or nothing where there is none |
| `InventoryConsequences.AcceptedPositionIff` | apps/api/src/inventory/index.ts:1304-1338 | an accepted device record has exactly the position its payload names |
| `InventoryConsequences.UpdateWithoutPlacementUnmounts` | apps/api/src/inventory/index.ts:1762 | an update that names no rack, start unit or height, by leaving them out or by sending null or blank, takes the device out of its rack |
| `InventoryConsequences.RenameUnmounts` | apps/api/src/inventory/index.ts:1733-1769 | in every safe state renaming a device and nothing else is applied, and takes it out of its rack |
| `InventoryConsequences.MountedFindings` | apps/api/src/inventory/index.ts:1733-1769 | a concrete safe state in which a rename unmounts a mounted device and a lower rack leaves it out of bounds |
| `InventoryWiring.MutationsApplyIff` | apps/api/src/inventory/index.ts:1592-1615 | some create or update is ever applied, in some state, exactly when both ends of every connection are interfaces of the devices it names; and exactly then a safe state exists |
| `InventoryWiring.UnwiredBlocks` | apps/api/src/inventory/index.ts:1592-1615 | otherwise every create and update is refused or reported as a conflict, in every state |
| `InventoryWiring.NewSiteApplies` | apps/api/src/inventory/index.ts:1204-1235 | wherever the snapshot is free of conflicts, a site under a canonical id that is not taken is accepted |
| `InventoryWiring.BuiltInConnectionsBlock` | apps/api/src/inventory/index.ts:185-319 | over the built-in interfaces and connections no create and no update is ever applied: an end is missing |
| `InventoryWiring.ForeignInterfaceBlocks` | packages/validation/src/index.ts:363-376 | nor where an end belongs to another device |
| `InventoryReferences.OtherStepsKeepReferences` | apps/api/src/inventory/index.ts:1440-1505 | every step but the update of a prefix keeps the prefix references of all addresses resolving, those the validator skips included |
| `InventoryReferences.PrefixUpdateKeepsReferencesIff` | apps/api/src/inventory/index.ts:1363-1438 | an applied prefix update keeps them resolving exactly when the id stays or every address on the old id denotes an IPv4 host |
| `InventoryReferences.RenameLeavesBehind` | apps/api/src/inventory/index.ts:1733-1769 | renaming an IPv6 prefix is applied although an address still names it by the old id |
| `InventoryReferences.RenameLeavesBehindSample` | apps/api/src/inventory/index.ts:1733-1769 | a concrete safe state in which it does |
| `PathTracing.BuildAdjacencyIndex` | packages/network-domain/src/topology/index.ts:33-49 | each node's bucket holds exactly its outgoing edges |
| `PathTracing.TracePath` | packages/network-domain/src/path-tracing/index.ts:31-100 | found: an allowed chain of input edges from start to target, no repeated node, within the depth limit, no allowed walk is shorter, and of all shortest walks it is the one that has the earlier edge wherever another first differs; every nearer node was visited; not found: no allowed walk within the limit, and the visited list is exactly the nodes within it, each once; the search ends |
| `PathTracing.LeadsIff` | packages/network-domain/src/path-tracing/index.ts:24-29 | one walk leads another exactly when it is the same or its edge comes first where they first differ, if the collation orders the edges |
| `PathTracing.NewWalkLeads` | packages/network-domain/src/path-tracing/index.ts:57-91 | the walk by which a node is first reached leads all others of its length |
| `PathTracing.EdgeKeys` | packages/network-domain/src/path-tracing/index.ts:24-29 | the text by which edges are ordered: both ends, the kind and the id |
| `PathTracing.HeadIsShortest` | packages/network-domain/src/path-tracing/index.ts:41-55 | the node taken from the queue was reached by a shortest walk |
| `PathTracing.ShortWalkVisited` | packages/network-domain/src/path-tracing/index.ts:57-91 | a walk shorter than every queued depth ends in a visited node reached no later |
| `PathTracing.ExhaustedIsComplete` | packages/network-domain/src/path-tracing/index.ts:94-99 | with the queue empty, visited means reachable within the limit, and the target is not |
| `PathTracing.VisitedWhenFound` | packages/network-domain/src/path-tracing/index.ts:48-54 | what the visited list holds when the target is found |
| `PathTracing.WorkOfShift` | packages/network-domain/src/path-tracing/index.ts:41-42 | unvisited nodes plus queue length falls |
| `Backup.CollectEntries` | packages/backup/src/index.ts:187-208 | the entries are exactly the files under the sections' directories, each once |
| `Backup.SectionDirectories` | packages/backup/src/index.ts:107-118 | which files belong to each of the ten sections, by the literal name of its directory |
| `Backup.SectionsCovered` | packages/backup/src/index.ts:161-169 | a full backup covers every section and so exactly the files below the ten directories; another one covers exactly the sections asked for |
| `Backup.SafePathIff` | packages/backup/src/index.ts:234-236 | a path is safe exactly when ".." stands nowhere in it and it begins with no slash or backslash |
| `Backup.CapturedRebuilds` | packages/backup/src/index.ts:187-208 | writing such entries rebuilds exactly those files |
| `BackupStore.FileBackedBackupStore.CreateBackup` | packages/backup/src/index.ts:356-439 | refused exactly for an unknown mode, no sections or an unknown engine, each with its error, and then nothing changes; otherwise the record is added with its fields, a full backup names every section and a partial one those asked for, and the archive holds exactly the files below the ten directories, or those of the sections, with their contents, in path order; it reads back although size and checksum are filled in after hashing; every other id reads as before |
| `BackupStore.FileBackedBackupStore.ValidateRestore` | packages/backup/src/index.ts:459-474 | the preview accepts exactly the archives whose inventory entry is absent or conflict-free |
| `BackupStore.DeleteSections` | packages/backup/src/index.ts:499-501 | the delete loop under an injected failure: done exactly without a fault, and paths outside the sections untouched either way |
| `BackupStore.WriteEntries` | packages/backup/src/index.ts:503-507 | the write loop under a failure at any write or path check, torn writes included |
| `BackupStore.RollBack` | packages/backup/src/index.ts:508-518 | putting the saved copies back restores the sections from whatever state the failure left |
| `BackupStore.FileBackedBackupStore.RestoreBackup` | packages/backup/src/index.ts:476-544 | all or nothing: success exactly when the archive reads, the preview accepts, every path is safe and nothing fails, and then the sections are exactly the archive's; on any failure the sources are unchanged and the error says which of these it was |
| `BackupStore.FileBackedBackupStore.DeleteBackup` | packages/backup/src/index.ts:546-567 | deleted exactly when the id is listed: that record and its archive are gone, the others stay in order and read as before |
| `BackupStore.RestoreUndoesChanges` | packages/backup/src/index.ts:187-208 | restoring after arbitrary changes brings the captured sections back and keeps every other change |
| `BackupRuns.RunCommands` | packages/backup/src/index.ts:371-569 | over every run of creates, deletes, restores with any failures and changes of the sources, the source tree and the readable backups become what the commands mean, and a backup that is not deleted reads back as it was stored |
| `BackupRuns.RunCommand` | packages/backup/src/index.ts:371-569 | one command does what it means: a refused create changes nothing, an accepted one adds a backup of its sections, a restore replaces the sections exactly when everything goes well, a delete removes one backup |
| `BackupStore.LateFieldsNotHashed` | packages/backup/src/index.ts:220-232 | filling in size and checksum after hashing leaves the checksum as it is |
| `BackupStore.ReadsIff` | packages/backup/src/index.ts:441-457 | reading answers the archive stored for the id exactly when it is there and its hash without size and checksum is the recorded one; a tampered archive is refused |
| `BackupStore.ListedReads` | packages/backup/src/index.ts:441-457 | of a store whose backups are intact every listed one reads back with its own record |
| `BackupRuns.RoundTrip` | packages/backup/src/index.ts:371-544 | the whole on one store, in any mode and with any engine: back up, run any commands that spare the backup, restore; it succeeds exactly when the request is valid and the backed-up files were restorable; then every file the request covers, for a full backup every file below the ten directories, is as it was when backed up, and every other as the commands left it |
| `BackupStore.PreviewAcceptsIff` | packages/backup/src/index.ts:238-283 | on every inventory: the preview accepts exactly when no IPv4 address is bound to an interface and the inventory with all bindings taken away has no conflict |
| `BackupStore.PreviewReads` | packages/backup/src/index.ts:238-283 | the preview looks at the entry inventory/state.json alone: accepted without one, refused if it does not parse, and otherwise decided under the two built-in tenants and VRFs with no interfaces and no connections |
| `BackupStore.LivePassesUnbound` | packages/backup/src/index.ts:238-283 | an inventory free of conflicts under the built-in tenants and VRFs passes without its bindings, and with them exactly when there are none |
| `BackupStore.SeedIsRejected` | apps/api/src/inventory/index.ts:428-437 | no backup of an inventory that holds the first built-in address passes the preview |
| `BackupStore.BoundSample` | packages/backup/src/index.ts:238-283 | a concrete conflict-free inventory that the preview rejects |
| `Calendar.YearLength` | packages/scheduler/src/index.ts:260-267 | consecutive first days of January are 365 or 366 days apart by the leap rule (section 21.4.1 of ECMA-262, as used by the UTC getters) |
| `Calendar.DateRoundTrip` | packages/scheduler/src/index.ts:260-267 | year, month and date of a day number give back the date it was made from |
| `Calendar.KnownDates` | packages/scheduler/src/index.ts:260-267 | the calendar at the epoch, the day before, and around the leap days of 2000, 2024 and the missing one of 2100, with their weekdays |
| `Calendar.MonthLengths` | packages/scheduler/src/index.ts:260-267 | the lengths of the twelve months, of common and leap years |
| `Calendar.DateRecurs` | packages/scheduler/src/index.ts:295 | a date other than 29 February recurs within any 366 consecutive days |
| `Calendar.CalendarRepeats` | packages/scheduler/src/index.ts:256-267 | year, month, date and weekday repeat every 146097 days |
| `CronFields.ParseCronFieldPart` | packages/scheduler/src/index.ts:122-180 | the parser of one part accepts exactly the texts `CronGrammar.PartReads` gives a meaning and lists exactly their values in ascending order |
| `CronGrammar.PartReads` | packages/scheduler/src/index.ts:122-180 | for every number and bounds: "*" stands for all values in bounds, "*/n" for min, min + n, ... up to max, "a-b" for a to b, "a-b/n" for a, a + n, ... up to b, "a" for itself; refused exactly where a step is 0, a span runs backwards or a bound is passed |
| `CronGrammar.OnlyPartsAccepted` | packages/scheduler/src/index.ts:122-180 | no other text is accepted in any field |
| `CronFields.Count` | packages/scheduler/src/index.ts:138-140 | the counting loop lists exactly the values of the progression |
| `CronFields.ParseCronField` | packages/scheduler/src/index.ts:182-206 | a field is accepted exactly when it has a part and every part is accepted; its values are the union, ascending, without repeats |
| `CronGrammar.FieldReads` | packages/scheduler/src/index.ts:182-206 | a field of any such parts is accepted exactly when it has a part and all fit, and stands for exactly the values some part stands for |
| `CronGrammar.FieldPartsRead` | packages/scheduler/src/index.ts:183 | commas part a field, white space around a part is dropped and a blank part is none |
| `CronFields.FieldInBounds` | packages/scheduler/src/index.ts:182-206 | an accepted field stands for at least one value, all inside its bounds |
| `CronFields.StarIsUnrestricted` | packages/scheduler/src/index.ts:123-125 | a star stands for every value inside the bounds |
| `CronFields.PrintedField` | packages/scheduler/src/index.ts:182-206 | decimal texts joined by commas read back as exactly their values |
| `Cron.ValidateCronExpression` | packages/scheduler/src/index.ts:208-254 | valid exactly when the library accepts, there are five fields and each parses; the five value lists are then those of the fields |
| `CronGrammar.ExpressionReads` | packages/scheduler/src/index.ts:208-268 | an expression of any five such fields, with any white space between and around them: accepted exactly when the library accepts it and the fields fit minute, hour, date, month and weekday, and it runs at exactly the moments whose five parts its fields name |
| `Cron.PrintedExpression` | packages/scheduler/src/index.ts:208-254 | any five non-empty in-bounds lists of values are the meaning of some expression |
| `Cron.SameMatches` | packages/scheduler/src/index.ts:256-268 | matching looks up all five calendar fields: minute, hour, date, month and weekday are combined by "and" |
| `Cron.CalculateNextRun` | packages/scheduler/src/index.ts:270-304 | the search loop computes the next run that `Cron.NextRunIsLeast` describes, for the meaning that `CronGrammar.ExpressionReads` gives the expression |
| `Cron.NextRunIsLeast` | packages/scheduler/src/index.ts:291-303 | the next run is the least whole minute strictly after the input that matches, and null exactly when none of the next 527040 minutes matches |
| `CronGrammar.NextRunNamed` | packages/scheduler/src/index.ts:270-304 | the first moment the fields name, if it is within 366 days, is the next run |
| `CronGrammar.NextWorkingDay` | packages/scheduler/src/index.ts:270-304 | after Tuesday, 2 January 2024, 00:00, "0 9 * * 1-5" runs next at 09:00 of that day |
| `CronGrammar.NextRound` | packages/scheduler/src/index.ts:270-304 | after 09:40 of that day "*/20 9-17/4 * * 1-5" runs next at 13:00 |
| `CronGuarantee.CalendarGuarantee` | packages/scheduler/src/index.ts:295-303 | with the weekday unrestricted, a next run exists after every moment exactly when the expression names an existing date other than 29 February |
| `CronGuarantee.WeekDayGuarantee` | packages/scheduler/src/index.ts:295-303 | with the date unrestricted a next run always exists |
| `CronGuarantee.AlwaysRunsIff` | packages/scheduler/src/index.ts:260-303 | for every valid expression: a next run exists after every moment exactly when every day of one 400-year cycle is covered, by a matching day in the 365 days after it, or by itself together with the day 366 days later or the minute 23:59 |
| `CronGuarantee.RestrictingBothCanMiss` | packages/scheduler/src/index.ts:260-267 | restricting both date and weekday can leave more than the searched year between two runs: from the end of 13 August 1999 "0 0 13 * 5" finds no next run |
| `CronGuarantee.LeapDayMisses` | packages/scheduler/src/index.ts:260-303 | from 1 March 2025 on "0 0 29 2 *" finds no next run |
| `Scheduler.FileBackedSchedulerStore.CreateSchedule` | packages/scheduler/src/index.ts:360-391 | the record is added at the end with the fields of the input, no last run, and a next run searched from the creation time unless disabled; one log entry |
| `Scheduler.FileBackedSchedulerStore.UpdateSchedule` | packages/scheduler/src/index.ts:393-430 | found: each patched field is set and each other kept, the next run is searched from the last run stored before the patch unless disabled, and the record stands wherever its id stood; not found: nothing changes |
| `Scheduler.FileBackedSchedulerStore.DeleteSchedule` | packages/scheduler/src/index.ts:432-453 | deleted exactly when the id is stored: no record with it is left and the others stay; with unique ids exactly one is cut out; one log entry |
| `Scheduler.FileBackedSchedulerStore.RunDueSchedules` | packages/scheduler/src/index.ts:468-531 | one job for every enabled schedule whose next run has come and no other, earliest slot first, each with the schedule's job type, payload, id and slot, created by "scheduler:" and the id at the timestamp; of the stored records exactly these have their last run, next run and update time moved, and one log entry each is added |
| `Scheduler.DueInOrderFacts` | packages/scheduler/src/index.ts:470-472 | the due schedules, exactly, the earliest slot first |
| `Sorting.SortKeepsPeers` | packages/scheduler/src/index.ts:470-472 | sorting is stable: elements that rank alike keep their order (section 23.1.3.30 of ECMA-262) |
| `SchedulerRuns.RunFiresEachDueOnce` | packages/scheduler/src/index.ts:489-515 | a run queues exactly one job for each due schedule, for its stored next run, and none for any other id |
| `Scheduler.AfterRunPointwise` | packages/scheduler/src/index.ts:517-518 | a run fires exactly the due records and leaves the others as they are |
| `SchedulerRuns.RepeatIsIdle` | packages/scheduler/src/index.ts:468-483 | running again at the same or an earlier timestamp queues nothing and changes nothing |
| `SchedulerRuns.StepKeepsSound` | packages/scheduler/src/index.ts:360-531 | every step keeps every stored next run sound: the schedule is enabled, in UTC, and its expression matches that whole minute |
| `SchedulerRuns.RunsKeepSound` | packages/scheduler/src/index.ts:360-531 | the same over every run of steps |
| `SchedulerRuns.RunsKeepLive` | packages/scheduler/src/index.ts:360-531 | an enabled UTC schedule whose expression always has a next run never stops having one stored |
| `SchedulerRuns.StepKeepsNoRefire` | packages/scheduler/src/index.ts:360-531 | one step of the next row |
| `SchedulerRuns.NoSlotFiresTwice` | packages/scheduler/src/index.ts:360-531 | over every run that creates under new ids and moves no last run back, with any timestamps, the slots queued for each schedule are strictly increasing |
| `SchedulerRuns.SlotsIncreaseFromEmpty` | packages/scheduler/src/index.ts:360-531 | the same for every such run from the empty store, with nothing assumed of the state |
| `SchedulerFindings.LastRunPatchIsSafeIff` | packages/scheduler/src/index.ts:408-420 | any patch of any schedule, enabled or not, keeps slots from repeating in every continuation exactly when nothing has been queued for it yet or the patched record has a last run not before the latest slot |
| `SchedulerFindings.RunsKeepNameable` | packages/scheduler/src/index.ts:468-531 | over every run from a sound store each queued slot is one that a valid expression names |
| `SchedulerFindings.ClearedLastRunRefires` | packages/scheduler/src/index.ts:408-420 | a concrete store in which clearing the last run, or setting it a millisecond too early, lets a slot fire again |
| `SchedulerFindings.BackdatedRefires` | packages/scheduler/src/index.ts:408-420 | with the last run before the latest slot, good steps queue that slot again |
| `SchedulerFindings.RecordedRunStaysDueIff` | packages/scheduler/src/index.ts:408-420 | after a run is recorded by patching the last run, the schedule is due at that moment exactly when it runs at all and one of its minutes lies after the old last run, or after the clock where there was none, and not after the recorded moment |
| `SchedulerFindings.FirstRecordedRunIsDone` | packages/scheduler/src/index.ts:408-420 | the first run of a schedule, recorded no earlier than it was made, leaves nothing due |
| `SchedulerFindings.RecordedRunIsServedAgain` | packages/scheduler/src/index.ts:408-420 | a concrete schedule that is due again for the slot whose run was just recorded |
| `CsvText.SplitCsvLine` | packages/data-transfer/src/index.ts:120-151 | the quote automaton computes the cells of the specification |
| `CsvText.EscapedIff` | packages/data-transfer/src/index.ts:153-161 | a cell is printed as it is exactly when it holds no comma, quote or line feed, else between quotes; null prints as nothing |
| `CsvText.CellsOfLine` | packages/data-transfer/src/index.ts:120-161 | taking a printed line apart gives back its cells, whatever they hold |
| `CsvText.LineRoundTrip` | packages/data-transfer/src/index.ts:111-161 | with trimming, it gives back all normal cells, nulls as empty |
| `CsvTransfer.ParseCsvRecords` | packages/data-transfer/src/index.ts:163-189 | the rows of a document, or the header error |
| `CsvTransfer.CoerceTenantRecord` | packages/data-transfer/src/index.ts:207-237 | a row is accepted exactly when id, slug and name hold more than white space and the trimmed status is known; the record holds the trimmed texts, and each blank cell is reported |
| `CsvTransfer.CoercePrefixRecord` | packages/data-transfer/src/index.ts:239-286 | the same for prefixes, whose trimmed CIDR must have a valid shape; blank optional cells become null |
| `CsvTransfer.CoerceSiteRecord` | packages/data-transfer/src/index.ts:288-311 | the same for sites |
| `CsvTransfer.CoerceRecords` | packages/data-transfer/src/index.ts:313-353 | all errors with their row numbers, the duplicate ids, and the accepted records in order |
| `CsvReports.ReportsAre` | packages/data-transfer/src/index.ts:313-353 | the errors are exactly the bad cells, under the number of their row, the first data row being 2, and one for a repeated id among the good rows; the records are those of the good rows, in order |
| `CsvReports.RowReports` | packages/data-transfer/src/index.ts:207-311 | which cells of a row are bad, for each data set: blank, of no known status, or without CIDR shape |
| `CsvReports.HeaderTexts` | packages/data-transfer/src/index.ts:105-109 | the header line of each data set, column by column |
| `CsvTransfer.TransferStore.ApplyImport` | packages/data-transfer/src/index.ts:408-433 | a valid import replaces its data set and nothing else, an invalid one changes nothing |
| `CsvTransfer.TransferStore.ExportDataset` | packages/data-transfer/src/index.ts:435-461 | the printed document and the record count |
| `CsvRoundTrip.ValidIff` | packages/data-transfer/src/index.ts:313-353 | rows are accepted exactly when each one is and the ids are unique; the records are those of all rows in order |
| `CsvRoundTrip.ImportIff` | packages/data-transfer/src/index.ts:373-406 | an import is accepted exactly when its header line, if any, is the one of the data set, every row is good and no id repeats; it then yields the record of every row in order; a wrong header is the only error on the document |
| `CsvRoundTrip.ImportIsAcceptable` | packages/data-transfer/src/index.ts:373-406 | every accepted import stores settled records with unique ids |
| `CsvRoundTrip.ExportReimportsIff` | packages/data-transfer/src/index.ts:435-461 | an accepted record list survives export and re-import exactly when no value holds a line feed |
| `CsvRoundTrip.LineFeedIsLost` | packages/data-transfer/src/index.ts:435-461 | every good row with a line feed is accepted and does not survive |
| `CsvRoundTrip.TwoLinesAreLost` | packages/data-transfer/src/index.ts:435-461 | a concrete accepted record with a line feed that does not |
| `CsvRoundTrip.CsvRecordsFree` | packages/data-transfer/src/index.ts:163-189 | no record taken from a CSV document holds a line feed |
| `CsvRoundTrip.CsvIsStable` | packages/data-transfer/src/index.ts:163-189 | for every accepted CSV text, exporting what it stored and importing that again gives the same records in the same order |
| `CsvRoundTrip.ImportExportImport` | packages/data-transfer/src/index.ts:408-461 | the same through the store |
| `IpamTree.CreateIpamTreeModel` | packages/ui/src/ipam-tree/index.ts:76-141 | the model: groups of roots by VRF, sorted by name where the collation orders them, and for every forest node one node with its prefix, depth, children, utilization and the number of addresses that name it |
| `IpamTree.MakeGroup` | packages/ui/src/ipam-tree/index.ts:124-134 | a group lists exactly the given roots, each as often, in the order of the collation where that is a total preorder of them; it has the name and route distinguisher of its VRF, or is unscoped |
| `IpamTree.GroupRoots` | packages/ui/src/ipam-tree/index.ts:94-106 | the root lists by VRF, for every VRF, and the VRFs in the order they first occur |
| `IpamTree.CountAddresses` | packages/ui/src/ipam-tree/index.ts:82-90 | for every prefix id the number of addresses that name it, 0 for the empty id |
| `IpamTree.FlattenIpamTree` | packages/ui/src/ipam-tree/index.ts:149-205 | the rows are the recursive pre-order of the expanded part, for every expanded set |
| `IpamTreeOrder.RowsReadBack` | packages/ui/src/ipam-tree/index.ts:149-205 | read back, the rows give the visible tree: at the top the groups in order, and directly below every row exactly the ids it lists, in order, if it is expanded, and nothing if not |
| `IpamTreeOrder.RowsShow` | packages/ui/src/ipam-tree/index.ts:149-205 | every row shows its group, or its node with its label and its depth plus one, whether it is expanded and whether it has children |
| `IpamTree.FlattenGroup` | packages/ui/src/ipam-tree/index.ts:169-201 | the stack loop of one group equals the recursion, and ends, empty ids included |
| `IpamTreeRows.AllCount` | packages/ui/src/ipam-tree/index.ts:149-205 | an id has one prefix row if some expanded group shows it and none otherwise |
| `IpamTreeRows.ModelGroupsMatch` | packages/ui/src/ipam-tree/index.ts:94-135 | the groups partition the roots by VRF |
| `IpamTreeVisibility.RowShownIff` | packages/ui/src/ipam-tree/index.ts:149-205 | a prefix has exactly one row if its VRF group and all its proper declared ancestors are expanded, and none otherwise |
| `IpamTreeVisibility.PrefixListRows` | packages/ui/src/ipam-tree/index.ts:76-205 | the same from the prefix list to the rows |

## Left out

- HTTP handlers, headers, JSON bodies, permissions, audit records, events and caches around the steps: plumbing.
- File locks, gzip, base64, SHA-256 and JSON parsing: a locked section is one atomic step, an archive is stored as it is, the parsed inventory entry is a parameter.
- A failing rollback copy: the rollback itself is assumed to go through; faults are injected into the deletes and writes before it.
- Empty directories, file modes and links in the source tree: the tree is a map from paths to contents.
- Backup ids that collide: `CreateBackup` asks for an id that is not in use, as the generated ids are.
- The cron library's scheduling and the in-process runtime loop: only the store update it makes is modelled. BullMQ and Redis: libraries.
- Dates outside the representable range and timestamps whose ISO texts do not compare like their moments (years beyond 9999); timestamps that are no date are only modelled as an input of `Cron.CalculateNextRun`.
- Job ids, job status and retries: they live in the job queue package.
- IPv6 arithmetic: the validator itself only warns about IPv6.
- JavaScript number texts other than an optionally signed digit string: fractions, exponents and radix prefixes in prefix lengths and units.
- Lower-casing of letters outside ASCII in ids: they end up as dashes or their ASCII lower case.
- Utilization percentages: a rounding of two modelled numbers.
- Message texts, edge metadata, VLAN ids of inventory prefixes, and fields that no modelled rule reads.
- CSV import from JSON text: a parsed record list is modelled, its values as texts.
- Workflow approval, search, pagination, access control, web hooks and the web application.
- The library behaviour of `localeCompare`: an arbitrary comparison stands for it.
- AddressSpace.ChildrenFit: bounds the children that denote IPv4 ranges under a parent that denotes one; `AddressSpace.UnparsedChildrenCanOverfill` shows that the capacities of other accepted children can exceed the parent's.
- SchedulerRuns.NoSlotFiresTwice: asks that created ids are new and last runs are not moved back, which the HTTP handlers never do; `SchedulerFindings.LastRunPatchIsSafeIff` says what happens otherwise.
- PrefixWalk.BuildPrefixHierarchy: asks for a list on which the walk ends, as `PrefixWalk.WalkEndsIff` says; of lists with repeated ids it does not say which nodes are left.
- IpamTree.FlattenIpamTree: asks that children lie one level below their parent, as in every forest the builder returns.
