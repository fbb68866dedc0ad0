# Verified model of the Pangea operator core

A Dafny model of the parts of the repository whose correctness spans several functions or
whole runs, with proofs for every input, every run or every reachable state.

| module | what it models |
|---|---|
| `Leader` | lease-based leader election as a protocol of pods, one Lease record, one clock |
| `ExecutorMigration` | the tofu-to-magma migration state machine |
| `Address`, `AddressGrammar`, `AddressDigest`, `InputsDigest` | resource addresses, what they are as a grammar, and the bytes fed to the two digests |
| `UnionFind`, `Partitions`, `Planning`, `PlanVerdict` | grouping addresses into leaves, planning a migration, and what the plan says of its input |
| `StateDoc`, `BlockAddress`, `Splitting`, `Merging`, `RoundTrip`, `Claims`, `PlanToSplit` | cutting a fat state into leaf states, putting it back, and what connects the plan to the split |
| `Dag`, `Admission`, `Drift`, `Rollup`, `Judging`, `RollupReport` | leaf scheduling: dependencies, admission, periodic work, health |
| `Hierarchy`, `LookupOrder`, `MethodCache`, `MethodChange` | the interpreter's method lookup, who answers first, its two caches, and what a change does to an answer |
| `Calendar` | the two day-to-date algorithms |
| `Prelude`, `Ordering`, `Grouping` | options and results, sorting, splitting a list into classes |

`dafny verify dfyconfig.toml` checks everything.

## Where the code does less than it says

- A configured lease of 2^31 seconds or more is cut to something shorter in the record (`Leader.MutualExclusionExactly`).
- The migration's module comment (executor_migration.rs lines 29-30) says one divergence pins a lifeline; in Held it goes back to soaking (`ExecutorMigration.LifelineDivergencePinsExactly`), and the divergence counter, unchecked there, can overflow (`ExecutorMigration.DivergenceOverflowExactly`).
- The shared memo of `judge` can lose a holder on a cycle (`Rollup.CycleCutsShort`, `Judging.CycleHidesABlockedLeaf`); the verdict stays exact (`Judging.VerdictExactly`).
- `include` and `prepend` do not advance the cache epoch (`MethodCache.StaleExactly`, `MethodCache.AnswersAreFirstAnswers`, `MethodCache.IncludeIsMissed`).
- A module prepended to a class loses its place in front if the class has it as an ancestor in another way too (`LookupOrder.PrependedDecidesExactly`), and one prepended to an extension is not seen through the object (`LookupOrder.ExtensionLosesPrepended`): the source skips the first ancestor where it means to skip the extension itself.
- A data source in a nested module, or behind a module key with a dot, is not seen as one (`AddressGrammar.IsDataExactly`).
- A template that is not fat may repeat an address without an error (`PlanVerdict.PlanFailsExactly`).
- The serial of a merged state wraps when an input is at the u64 maximum (`RoundTrip.SerialAboveExactly`).
- The slow merge gathers the instances of managed blocks that share an identity into the first of them (`RoundTrip.RefilledInOrderExactly`).
- A data block that a leaf came to hold is appended by the slow merge even if the archive has it, and the merge's own check does not see that (`RoundTrip.RefilledKeepsUnmanagedExactly`, `RoundTrip.DataBlockComesTwice`).
- `next_due_in` wraps, and says zero for a leaf that is not due, when the next slot starts past the u64 maximum (`Drift.NextDueIsLeastExactly`).
- A managed resource whose address looks like a data source is dropped by the planner and then refused by `split` (`PlanToSplit.ReadyIsAcceptedExactly`, `PlanToSplit.OddPlanIsRefused`).

## Assumptions

- Pods have distinct, non-empty identities, read one shared clock, and nobody outside deletes the Lease. Times have the microsecond resolution of the record.
- Hashes, lineages and leaf names are arbitrary functions; nothing rests on what they compute except where a lemma says that the hash does not collide on two given lists.
- Rust strings are compared by their UTF-8 bytes (`AddressDigest.ByteOrderIsTextOrder`); `sort_by` is stable; a BTreeMap is walked in key order.
- `waves` of the graph library fails exactly on a cyclic graph.
- A class hierarchy has no cycles, as the source's walks would not end on one, and objects that share a singleton share their class, as only `clone` copies a singleton.

## Model

| member | source | states |
|---|---|---|
| `Leader.MutualExclusion` | pangea-operator/src/leader.rs:152-328 | In every interleaving of clock reads, Lease reads, writes landing late or after their sender gave up, lost replies and restarts, at most one pod believes it leads while within the duration it recorded of its last confirmed renewal |
| `Leader.MutualExclusionExactly` | pangea-operator/src/leader.rs:274-354 | With two or more pods, the same for the configured durations holds in all runs if and only if every configured duration is below 2^31 seconds (the `as i32` cast) |
| `Leader.LongDurationBreaks` | pangea-operator/src/leader.rs:331-354 | Any configured duration of 2^31 seconds or more has a run with two leaders, given step by step |
| `Leader.NextKeepsInv` | pangea-operator/src/leader.rs:210-328 | Every single step of any pod, the server or the clock keeps the protocol invariant: an unexpired claim is still what the Lease says, and a pending write is either dead or what its sender would decide now |
| `Leader.LandingKeepsClaim` | pangea-operator/src/leader.rs:299-326 | A write that lands ends no unexpired claim but its own sender's |
| `Leader.TickExactly` | pangea-operator/src/leader.rs:152-328 | A pod left alone for one tick on a present Lease leads afterwards if and only if the holder is absent, empty or itself, the renewal is absent, or it is older than the recorded duration; it then holds the Lease renewed now, on its own Lease with the acquisition time and transition count kept, else with now and one more; otherwise the Lease is untouched, a leader stops and a candidate keeps trying |
| `Leader.FirstTick` | pangea-operator/src/leader.rs:274-291 | On an absent Lease the same tick creates the record and leads |
| `Leader.OnlyRepliesChangeBelief` | pangea-operator/src/leader.rs:246-270 | Only a reply or a restart changes what a pod believes: a failed read, an abandoned write and a lost reply leave a leader leading |
| `Leader.RestartedPodReturns` | pangea-operator/src/leader.rs:210-270 | A restarted pod is a candidate again, and leads after one tick if and only if the Lease is there for it to take |
| `Leader.RecordMovesForwardInRuns` | pangea-operator/src/leader.rs:292-326 | Between any two points of any run the renewal time never goes back and the transition count grows, as an i32, by the number of holder changes |
| `ExecutorMigration.EffectsFollowPhase` | pangea-operator/src/executor_migration.rs:67-72 | At every point of every run the last SetAuthoritative effect (tofu if none) names the executor of the phase, and a rollback reason is present exactly in RolledBack |
| `ExecutorMigration.EveryRunIsExplained` | pangea-operator/src/executor_migration.rs:337-518 | Every state of every run has a history: when it was enrolled, since when there was no divergence, when it was cut over, with the counters equal to the events counted since |
| `ExecutorMigration.MagmaIsEarned` | pangea-operator/src/executor_migration.rs:365-518 | Magma is authoritative only after max(1, parity threshold) clean results since enrolment and since the last divergence, for a lifeline only by an approval taken in Held; Verified only after max(1, verify cycles) clean cycles since the cut-over without anomaly |
| `ExecutorMigration.SoakCountersNeverOverflow` | pangea-operator/src/executor_migration.rs:365-440 | The parity streak and the verified counter are below the u32 limit whenever they may grow |
| `ExecutorMigration.DivergenceOverflowExactly` | pangea-operator/src/executor_migration.rs:453-464 | Some run overflows the divergence counter if and only if cut-over is not automatic or the budget is the u32 maximum |
| `ExecutorMigration.LifelineDivergencePinsExactly` | pangea-operator/src/executor_migration.rs:225-238 | For a lifeline a divergence outside Pinned pins exactly in Shadow with a counter that is not full; in Held it returns to soaking, against the promise of lines 29-30 |
| `ExecutorMigration.LifelineCleanExactly` | pangea-operator/src/executor_migration.rs:365-518 | In every run, the enrolment that brought a lifeline to magma was free of divergences if and only if none was taken in Held |
| `ExecutorMigration.LifelineReachesMagmaAfterDivergence` | pangea-operator/src/executor_migration.rs:453-464 | For every lifeline policy there is a run to Cutover whose one enrolment saw a divergence |
| `ExecutorMigration.AbortExactly` | pangea-operator/src/executor_migration.rs:346-363 | In every run an abort in Pinned, Shadow or Held leaves exactly the pinned state and announces tofu; in Cutover or Verified it leaves RolledBack with that reason |
| `ExecutorMigration.OnlyAcknowledgeLeavesRolledBack` | pangea-operator/src/executor_migration.rs:510-516 | Acknowledge, and nothing else, leaves RolledBack, for Pinned |
| `ExecutorMigration.MagmaEndsExactly` | pangea-operator/src/executor_migration.rs:489-507 | Magma stops being authoritative exactly on an abort or an anomalous cycle, and then in RolledBack for that reason |
| `ExecutorMigration.DivergencePinsExactly` | pangea-operator/src/executor_migration.rs:419-441 | A divergence in Shadow pins exactly when it exceeds the budget, zero for a lifeline; otherwise it is counted and the streak starts again |
| `ExecutorMigration.EffectsExactly` | pangea-operator/src/executor_migration.rs:337-518 | Approval is asked for exactly on entering Held, verification recorded exactly on entering Verified, shadow parity started exactly on entering Shadow from elsewhere, a parity receipt written exactly for a parity result that leaves the soak going, and the executor of the new phase announced exactly on a way to Pinned, on enrolment, on the hand-over and on a rollback |
| `ExecutorMigration.CountersExactly` | pangea-operator/src/executor_migration.rs:365-518 | What every step does to the three counters while none is full: the hand-over keeps two and starts the third anew, clean results and cycles add one, a divergence that goes on soaking clears the streak and is counted, anything else changes nothing or starts from zero |
| `ExecutorMigration.AlertsExactly` | pangea-operator/src/executor_migration.rs:337-518 | Each of the four alerts is raised in exactly one situation |
| `ExecutorMigration.AnomaliesExactly` | pangea-operator/src/executor_migration.rs:337-518 | An anomaly is emitted exactly for an anomalous cycle on magma, under its own kind, and for a divergence that ends a soak or an approval pending |
| `ExecutorMigration.CleanRunGetsThere` | pangea-operator/src/executor_migration.rs:365-518 | Enrolment, enough clean results, the approval where one is needed, and enough clean cycles bring every policy to Verified |
| `Calendar.JdRoundTrip` | lava-ruby/prelude/prelude.rb:196-211 | Every integer day number converts to a valid Gregorian date and back to itself |
| `Calendar.CivilRoundTrip` | lava-ruby/prelude/prelude.rb:196-211 | Every valid date converts to a day number and back to itself |
| `Calendar.JdCountsDays` | lava-ruby/prelude/prelude.rb:196-201 | The day after a valid date is valid and has the next number, by the month lengths and the leap rule of the calendar |
| `Calendar.JdToCivilIsTheCalendar` | lava-ruby/prelude/prelude.rb:203-211 | Consecutive day numbers are consecutive calendar days, for every integer |
| `Calendar.EpochDay` | lava-ruby/prelude/prelude.rb:196-211 | 1970-01-01 is day 2440588 |
| `Calendar.EraAgrees` | lava-ruby/src/stdlib.rs:543-551 | The era arithmetic gives, for every integer count of days since the epoch, the date of day number 2440588 plus that count |
| `Calendar.TodayAgrees` | lava-ruby/src/stdlib.rs:543-551 | At every second of every day the clock arithmetic gives that date |
| `Address.ParseSteps` | pangea-leaf/src/address.rs:49-123 | The index-driven scanner returns what the grammar says, errors included |
| `Address.ScanQuoted` | pangea-leaf/src/address.rs:69-94 | The quoted key loop reads exactly the unescaped key and stops after its closing quote |
| `Address.PrintParses` | pangea-leaf/src/sources.rs:66-99 | Any non-empty list of steps with proper names and arbitrary keys prints to an address that parses back to it |
| `Address.ReprintParses` | pangea-leaf/src/address.rs:49-123 | Printing the result of any successful parse gives an address with the same steps |
| `Address.IndexIsLeafKey` | pangea-leaf/src/address.rs:125-134 | An unindexed base followed by a string index has exactly that string as its leaf key |
| `Address.StripIndexIdempotent` | pangea-leaf/src/address.rs:136-143 | Stripping indices keeps the names and is idempotent |
| `Address.KeyLeIsTotalOrder` | pangea-leaf/src/address.rs:18-23 | The derived order of leaf keys is a total order |
| `AddressGrammar.ParseExactly` | pangea-leaf/src/address.rs:49-123 | Against a grammar that knows nothing of the parser: an address parses to given steps if and only if it spells them |
| `AddressGrammar.ParseFailsExactly` | pangea-leaf/src/address.rs:49-123 | A text fails with a given error if and only if its first faulty step has that fault |
| `AddressGrammar.LeafKeyExactly` | pangea-leaf/src/address.rs:125-134 | The leaf key is the first index, without one the first module, else the address |
| `AddressGrammar.NoLeafKey` | pangea-leaf/src/address.rs:125-134 | What is no address has no leaf key |
| `AddressGrammar.StripExactly` | pangea-leaf/src/address.rs:136-143 | Stripping an address gives the address with the same names and no index |
| `AddressGrammar.IsDataExactly` | pangea-leaf/src/address.rs:146-152 | An address counts as a data source if and only if it starts with `data.`, or with `module.`, a text without dots and `.data.` |
| `AddressDigest.HashAddresses` | pangea-leaf/src/partition.rs:40-50 | The loop hashes the length-prefixed sorted encoding |
| `AddressDigest.PreimageIsMultiset` | pangea-leaf/src/partition.rs:40-50 | Two address lists (with u64 lengths) feed the hash the same bytes if and only if they are equal as multisets |
| `AddressDigest.FramedInjective` | pangea-leaf/src/partition.rs:45-48 | The length-prefixed encoding of a list determines the list |
| `AddressDigest.Utf8Injective` | pangea-leaf/src/partition.rs:47 | UTF-8 bytes determine the string |
| `AddressDigest.CharReadsBack` | pangea-leaf/src/partition.rs:47 | The bytes of a character are the shortest form of section 3 of RFC 3629 and read back to its code point |
| `AddressDigest.ByteOrderIsTextOrder` | pangea-leaf/src/partition.rs:41-43 | Comparing texts by code points is comparing their UTF-8 bytes |
| `AddressDigest.LittleEndianReadsBack` | pangea-leaf/src/partition.rs:44-46 | The eight bytes of a length stand for it, least significant first |
| `Ordering.StrLeIsLexicographic` | pangea-leaf/src/partition.rs:41-43 | The order of texts is the dictionary order: a prefix first, else the first difference decides |
| `InputsDigest.Canonical` | pangea-leaf/src/schedule.rs:52-76 | The recursive writer appends the canonical form of the value to its buffer |
| `InputsDigest.InputsPreimage` | pangea-leaf/src/schedule.rs:79-93 | The loop over the three parts builds the hashed text |
| `InputsDigest.CanonUnique` | pangea-leaf/src/schedule.rs:52-76 | A canonical form followed by a terminator is read in one way only: equal texts have equal values, up to object key order, and equal rests |
| `InputsDigest.EscapeReadsBack` | pangea-leaf/src/schedule.rs:52-76 | The escaped text of any string reads back to it by the rules of section 7 of RFC 8259 |
| `InputsDigest.ScalarForms` | pangea-leaf/src/schedule.rs:52-76 | null, true, false and numbers are written as such, a string between quotes in a form that reads back to it |
| `InputsDigest.ArrayForm` | pangea-leaf/src/schedule.rs:65-71 | An array is its items in order, each with its comma |
| `InputsDigest.ObjectForm` | pangea-leaf/src/schedule.rs:54-64 | An object is its members in the order of their keys, each with its colon and comma |
| `InputsDigest.PreimageUnique` | pangea-leaf/src/schedule.rs:79-93 | The hashed text is the same if and only if all three inputs are, where an absent input is not null |
| `UnionFind.Find` | pangea-leaf/src/partition.rs:80-92 | `find` ends, returns the root, and its path compression changes no root |
| `UnionFind.CompressKeepsRoots` | pangea-leaf/src/partition.rs:85-90 | Pointing a key at its root keeps every parent below its child and every root unchanged |
| `UnionFind.UniteAll` | pangea-leaf/src/partition.rs:93-103 | After the edge loop the forest tracks the edges: linked keys share a root, a root is linked to its keys |
| `UnionFind.TracksExactly` | pangea-leaf/src/partition.rs:93-103 | Two keys have the same root if and only if a path of edges between existing keys joins them |
| `UnionFind.RootIsLeast` | pangea-leaf/src/partition.rs:98-101 | The root is the least key of its component |
| `Partitions.Partition.Build` | pangea-leaf/src/partition.rs:53-75 | Fails with the first fault, else holds one leaf for each leaf key with its addresses sorted |
| `Partitions.FaultExactly` | pangea-leaf/src/partition.rs:56-60 | Building fails if and only if an address repeats or does not parse |
| `Partitions.FirstFaultyAddress` | pangea-leaf/src/partition.rs:55-62 | The first faulty address is reported, as a repetition before as a parse error |
| `Partitions.BuiltLeaf` | pangea-leaf/src/partition.rs:61-75 | A built leaf goes by its key, is merged from nothing and lists its addresses in order |
| `Partitions.BuiltKeepsAddresses` | pangea-leaf/src/partition.rs:53-75 | The leaves hold exactly the managed addresses, as a multiset |
| `Partitions.BuiltPlaces` | pangea-leaf/src/partition.rs:61-69 | An address is in the leaf of its own key and in no other |
| `Partitions.Partition.Merge` | pangea-leaf/src/partition.rs:77-124 | The leaves become one for each connected component, under its least key, with the other keys as `merged_from` and the addresses sorted |
| `Partitions.MergedKeepsAddresses` | pangea-leaf/src/partition.rs:104-123 | Merging keeps the multiset of addresses |
| `Partitions.MergedKeepsDisjoint` | pangea-leaf/src/partition.rs:104-123 | Merging keeps the leaves disjoint |
| `Partitions.MergedPlaces` | pangea-leaf/src/partition.rs:104-123 | A merged leaf holds exactly the addresses of the leaves linked to it |
| `Partitions.MergedLeaf` | pangea-leaf/src/partition.rs:104-123 | A merged leaf goes by its key, names exactly the other leaves linked to it, each once and in order, and lists its addresses in order |
| `Partitions.MergedUnder` | pangea-leaf/src/partition.rs:93-123 | A leaf is merged into one keyed by an index if it is linked to any, else into one of a module, and among those into the first by text |
| `Partitions.MergeForgetsEdgeOrder` | pangea-leaf/src/partition.rs:93-103 | The result depends on which existing keys the edges connect, not on order, repetition or direction |
| `Partitions.BijectionHolds` | pangea-leaf/src/partition.rs:153-172 | The bijection check passes on everything `build` and `merge` produce, whatever the hash |
| `Partitions.BijectionExactly` | pangea-leaf/src/partition.rs:153-172 | The check reports both counts, and unless the hash collides passes if and only if the leaves hold every managed address once and nothing else |
| `StateDoc.AddressesFromState` | pangea-leaf/src/sources.rs:106-124 | The loop returns the addresses of all managed instances, or the first fault |
| `StateDoc.ReadableExactly` | pangea-leaf/src/sources.rs:106-124 | Reading succeeds if and only if every managed block has a type, a name and an array of instances |
| `StateDoc.FirstFaultyBlock` | pangea-leaf/src/sources.rs:77-124 | The first unreadable managed block is reported: for its type, then its name, then its instances |
| `StateDoc.AddressesAreTags` | pangea-leaf/src/sources.rs:94-124 | The addresses are those of the managed instances, in order |
| `StateDoc.SameTagsSameAddresses` | pangea-leaf/src/sources.rs:94-99 | The same instances in any order have the same addresses |
| `StateDoc.StringIndexIsLeafKey` | pangea-leaf/src/sources.rs:66-99 | An instance with a string index, of a block whose base parses without an index, has exactly that string as its leaf key |
| `BlockAddress.AddressSpells` | pangea-leaf/src/sources.rs:66-99 | The address of an instance parses to the steps of the module, the type, and the name with the index as its key: none, the string, or the number as text |
| `BlockAddress.AddressesTell` | pangea-leaf/src/sources.rs:66-99 | Instances of blocks with proper parts have the same address if and only if module, type, name and key agree |
| `BlockAddress.BasesTell` | pangea-leaf/src/sources.rs:77-92 | Blocks that differ in module, type or name have different bases |
| `Splitting.CheckMoves` | pangea-leaf/src/migrate.rs:206-224 | The loop finds the first faulty move |
| `Splitting.MovesOkExactly` | pangea-leaf/src/migrate.rs:206-224 | No move is faulty if and only if all start at the fat template and go to distinct leaves |
| `Splitting.FirstFaultyMove` | pangea-leaf/src/migrate.rs:206-224 | The first faulty move decides the error, a wrong source before a target already taken; no move at all is an error of its own |
| `Splitting.CollectOwners` | pangea-leaf/src/migrate.rs:265-269 | The owner map gives every claimed address the move that claims it |
| `Splitting.Distribute` | pangea-leaf/src/migrate.rs:270-297 | The block loop fails on an instance in no move, else gives each leaf its part of every managed block |
| `Splitting.SplitState` | pangea-leaf/src/migrate.rs:252-342 | `split` with all its checks, its leaf documents and its receipt |
| `Splitting.LeafPartTags` | pangea-leaf/src/migrate.rs:281-296 | A leaf holds exactly the instances whose address its move claims, in the order of the fat state |
| `Splitting.LeafPartBlocks` | pangea-leaf/src/migrate.rs:290-296 | Every block of a leaf is a managed block of the fat state with its attributes and a non-empty part of its instances |
| `Splitting.LeavesKeepInstances` | pangea-leaf/src/migrate.rs:270-297 | All leaves together hold the managed instances of the fat state, each exactly as often |
| `Splitting.LeavesKeepAddresses` | pangea-leaf/src/migrate.rs:299-318 | The written leaves have the addresses of the fat state |
| `Splitting.SplitAccepts` | pangea-leaf/src/migrate.rs:252-325 | `split` succeeds whenever the moves pass their check and claim every address exactly once, whatever the hash |
| `Splitting.SplitAcceptsExactly` | pangea-leaf/src/migrate.rs:252-325 | Unless the hash collides on the two address lists, `split` succeeds if and only if that is so |
| `Splitting.LeafIsItsMove` | pangea-leaf/src/migrate.rs:265-318 | Each leaf has exactly the addresses its move names, as a multiset |
| `Splitting.SplitWrites` | pangea-leaf/src/migrate.rs:235-342 | Every written document has its move's target, serial 1, a lineage of its own, the two versions with their defaults, no outputs and its move's addresses; the receipt records the fat state, its hash, equal counts and hashes before and after, and each leaf's count and hash |
| `Merging.MergeStates` | pangea-leaf/src/migrate.rs:370-455 | `merge`: missing leaves, the unchanged fast path, else the slow path |
| `Merging.RefillArchive` | pangea-leaf/src/migrate.rs:389-455 | The slow path: gather, refill the archive, append, drop null modules, check |
| `Merging.GatherLeaves` | pangea-leaf/src/migrate.rs:390-410 | The first loop files every leaf block under its identity, in order of first sight, with the largest serial and all addresses |
| `Merging.KeepArchive` | pangea-leaf/src/migrate.rs:411-425 | The archive loop keeps unmanaged blocks and gives each managed identity, at its first block, all instances of the leaves |
| `Merging.AddExtras` | pangea-leaf/src/migrate.rs:426-433 | Identities the archive does not have are appended in order of first sight |
| `Merging.FirstIdsInOrder` | pangea-leaf/src/migrate.rs:396-409 | The identities of the leaves come in the order in which they are first seen |
| `RoundTrip.RefilledInstances` | pangea-leaf/src/migrate.rs:411-433 | After refilling, every managed identity holds exactly what the leaves hold for it, in order |
| `RoundTrip.RefilledKeepsInstances` | pangea-leaf/src/migrate.rs:411-433 | Refilling loses no managed instance and invents none |
| `RoundTrip.RefilledByPosition` | pangea-leaf/src/migrate.rs:411-440 | For any archive and any leaf blocks, without condition: an unmanaged block stays, the first managed block of an identity takes all the leaves hold for it, a later one is lost, and the new identities follow in order of first sight |
| `RoundTrip.RefilledInOrderExactly` | pangea-leaf/src/migrate.rs:411-440 | For any archive and any leaf blocks: the merged blocks are the archive's, in its order, each managed one with its attributes and the instances the leaves hold for it, then the new identities in order of first sight, if and only if no two managed archive blocks share an identity the leaves hold |
| `RoundTrip.SlowMergeInOrderExactly` | pangea-leaf/src/migrate.rs:389-455 | Both of every successful slow merge, which changes nothing else of the archive but the serial; in particular for every archive with distinct managed identities |
| `RoundTrip.RefilledKeepsUnmanagedExactly` | pangea-leaf/src/migrate.rs:412-433 | The unmanaged blocks are those of the archive, in order, if and only if the leaves hold managed blocks only |
| `RoundTrip.DataBlockComesTwice` | pangea-leaf/src/migrate.rs:426-455 | A data block that archive and leaf both hold comes back twice, and the merge succeeds |
| `RoundTrip.SerialAboveExactly` | pangea-leaf/src/migrate.rs:392-443 | The merged serial is above every input if and only if no input is the u64 maximum (the sum wraps) |
| `RoundTrip.SlowMergeAcceptsExactly` | pangea-leaf/src/migrate.rs:389-455 | On a readable archive and readable leaves the slow path succeeds if and only if no address is in the leaves twice, whatever the hash |
| `RoundTrip.MergeIsInverse` | pangea-leaf/src/migrate.rs:252-388 | Merging what any successful split wrote returns the fat state itself |
| `RoundTrip.MergeMissing` | pangea-leaf/src/migrate.rs:375-380 | The first leaf of the receipt that nobody supplied is reported missing |
| `RoundTrip.MergeByHashes` | pangea-leaf/src/migrate.rs:375-389 | With every leaf there, the archive comes back as it is if and only if it and every leaf still have the recorded hash; in every other case it is refilled from the leaves, the last of each name |
| `RoundTrip.ChangedLeavesSurvive` | pangea-leaf/src/migrate.rs:370-455 | Once a leaf or the archive differs from the receipt, the merged state holds the managed instances of the leaves as they are now, under the archive's lineage, versions and outputs |
| `RoundTrip.NoNullModule` | pangea-leaf/src/migrate.rs:434-440 | A merged state never says that a module is null |
| `RoundTrip.SlowMergeRestoresExactly` | pangea-leaf/src/migrate.rs:252-455 | With unchanged leaves the slow path succeeds on what a split wrote, and every archive position gets back its block with its attributes and the same multiset of instances (an empty managed block gets nothing) if and only if, of the managed blocks that share an identity, only the first holds instances; the merged blocks are then the archive's, in order, without its empty managed blocks |
| `RoundTrip.VerifyWritten` | pangea-leaf/src/migrate.rs:344-359 | The read-back loop with its three tests |
| `RoundTrip.WrittenVerifies` | pangea-leaf/src/migrate.rs:344-359 | What `split` wrote passes the read-back |
| `RoundTrip.VerifiedIsTheFatState` | pangea-leaf/src/migrate.rs:344-359 | Whatever passes the read-back has, unless the hash collides, the addresses of the fat state |
| `RoundTrip.VerifiedExactly` | pangea-leaf/src/migrate.rs:344-359 | Unless the hash collides, the read-back passes if and only if the leaves can be read and have exactly the addresses of the fat state |
| `Claims.MovesByClaims` | pangea-leaf/src/migrate.rs:152-204 | `moves_by_claims` with its errors in order |
| `Claims.ClaimFaultExactly` | pangea-leaf/src/migrate.rs:158-172 | The claims are in order if and only if no key is declared twice and no address listed twice |
| `Claims.MovesExactly` | pangea-leaf/src/migrate.rs:152-204 | Moves are found if and only if the claims are in order, the state can be read and every address is listed or has a declared key |
| `Claims.PlacedExactly` | pangea-leaf/src/migrate.rs:173-192 | An address goes to the leaf that lists it, if one does, and otherwise to the leaf of its key |
| `Claims.MovesHold` | pangea-leaf/src/migrate.rs:173-203 | Each move has exactly the addresses of the state that belong to its leaf; the moves come in the order of their targets |
| `Claims.UnplacedExactly` | pangea-leaf/src/migrate.rs:173-196 | Addresses without a leaf are reported with their number and the first of them |
| `Claims.FirstFaultyKey` | pangea-leaf/src/migrate.rs:158-163 | A key declared again is reported before any address of that claim |
| `Claims.FirstFaultyAddress` | pangea-leaf/src/migrate.rs:164-172 | An address listed again is reported with the leaf that had it first |
| `Claims.MovesCover` | pangea-leaf/src/migrate.rs:173-203 | The moves go to distinct leaves and claim every address exactly as often as it occurs |
| `Claims.ClaimsAreAccepted` | pangea-leaf/src/migrate.rs:152-325 | `split` accepts the moves of any claims over a non-empty state without repeated addresses |
| `Claims.ClaimsAreAcceptedExactly` | pangea-leaf/src/migrate.rs:152-325 | Unless the hash collides, `split` accepts them if and only if the state is not empty and repeats no address |
| `Planning.Classify` | pangea-leaf/src/classify.rs:26-70 | The classification of the managed addresses, or the first address that does not parse |
| `Planning.StrippedIndex` | pangea-leaf/src/plan.rs:391-401 | The index gives for every stripped address exactly the leaves that hold it |
| `Planning.ReferenceLeafEdges` | pangea-leaf/src/plan.rs:403-419 | The edges are exactly the pairs of leaves that a reference ties with one end in a single leaf |
| `Planning.SingletonEdges` | pangea-leaf/src/plan.rs:421-442 | The edges lead from each referring leaf to the single leaf that holds the target |
| `Planning.CountSizes` | pangea-leaf/src/plan.rs:214-217 | The loop counts how many leaves have each size |
| `Planning.BuildDag` | pangea-leaf/src/plan.rs:219-235 | The dependency graph has the leaf names as nodes and the edges between them, upstream first |
| `Planning.Project` | pangea-leaf/src/plan.rs:464-489 | The four counts of the planned changes, data sources and reads left out |
| `Planning.NoChangeExactly` | pangea-leaf/src/plan.rs:275-304 | The no-change check passes if and only if every planned change is of a data source or leaves alone a resource that has a leaf |
| `Planning.PlanMigration` | pangea-leaf/src/plan.rs:157-372 | `plan_migration`: classification, partition, checks, verdict and moves |
| `PlanToSplit.ReadyExactly` | pangea-leaf/src/plan.rs:157-322 | Ready if and only if the template can be read, the managed addresses are distinct and parse, there are two leaves, the graph is acyclic, the names differ and the supplied plan changes nothing; the bijection check never decides, nor does fatness |
| `PlanToSplit.ReadyMoves` | pangea-leaf/src/plan.rs:306-353 | The moves of a Ready plan are at least two, go from the fat template to distinct leaves and claim every managed address exactly once |
| `PlanToSplit.ReadyIsAccepted` | pangea-leaf/src/plan.rs:306-353 | A Ready plan on the addresses of a state, none shaped like a data source, is accepted by `split`, and `merge` undoes it |
| `PlanToSplit.ReadyIsAcceptedExactly` | pangea-leaf/src/migrate.rs:252-325 | Unless the hash collides, a Ready plan on the addresses of a state is accepted if and only if no address is shaped like a data source |
| `PlanToSplit.OddPlanIsRefused` | pangea-leaf/src/address.rs:146-152 | A state with a managed resource of type `data`: under any naming that tells its two leaves apart its plan is Ready and, unless the hash collides, `split` refuses the moves |
| `PlanToSplit.TargetSorted` | pangea-leaf/src/partition.rs:141-150 | The addresses of every leaf are sorted, so the binary search of `leaf_of` is a membership test |
| `PlanVerdict.FatExactly` | pangea-leaf/src/classify.rs:46-70 | Fat if and only if two managed addresses have different keys or the cycle is over its budget; each is a reason exactly when it holds |
| `PlanVerdict.PlanFailsExactly` | pangea-leaf/src/plan.rs:157-198 | No plan is made if and only if name or spec is missing, a managed address does not parse, or the template is fat and repeats one |
| `PlanVerdict.VerdictExactly` | pangea-leaf/src/plan.rs:194-210 | NotFat if and only if one key and within budget; NothingToSplit if and only if fat with at most one leaf |
| `PlanVerdict.SharedByKey` | pangea-leaf/src/plan.rs:198-204 | Without grouping two managed addresses share a leaf if and only if they have the same key |
| `PlanVerdict.SharedByReferences` | pangea-leaf/src/plan.rs:198-204 | With grouping they share one if and only if a chain of references, each with one end found under a single key, ties their keys together |
| `PlanVerdict.EdgesExactly` | pangea-leaf/src/plan.rs:421-442 | A leaf waits for another if and only if it refers to an address that the other, and no third, holds |
| `PlanVerdict.DispatchedAfter` | pangea-leaf/src/plan.rs:219-235 | In every dispatch order a leaf comes after each leaf it waits for |
| `PlanVerdict.PlanLists` | pangea-leaf/src/plan.rs:315-353 | A plan lists each leaf once, in key order, with its name, sources, addresses and the names of exactly the leaves it waits for; its moves match if it is Ready, and there are none if it is refused |
| `PlanVerdict.ProjectedCounts` | pangea-leaf/src/plan.rs:464-489 | A replacement counts as an addition and as a destruction; creations, updates, deletions and no-ops once; reads and data sources not at all |
| `PlanVerdict.SizesExactly` | pangea-leaf/src/plan.rs:214-217 | For each size the plan says how many leaves have it |
| `Dag.TemplateDag.Add` | pangea-leaf/src/dag.rs:121-133 | Adds the template, its upstreams as nodes, and the edges, and keeps the graph well formed |
| `Dag.TemplateDag.UnresolvableNodes` | pangea-leaf/src/dag.rs:193-212 | Returns, sorted, exactly the templates no dispatch sequence readies; each has an upstream in the set; none if and only if the graph is acyclic |
| `Dag.MaximalRunsAgree` | pangea-leaf/src/dag.rs:153-159 | Every maximal run of picking any eligible template readies exactly the templates that are not stuck |
| `Dag.UpstreamsFirst` | pangea-leaf/src/dag.rs:143-159 | In any dispatch sequence a template comes after all its upstreams |
| `Dag.NothingStuckExactly` | pangea-leaf/src/dag.rs:193-212 | Nothing is stuck if and only if the graph has no cycle |
| `Admission.Admit` | pangea-leaf/src/admit.rs:173-209 | The loop over the ordered candidates, with its four counters, admits what the recursive greedy admits |
| `Admission.DriftNeverDisplaces` | pangea-leaf/src/admit.rs:154-209 | With priority on, the result without the drift candidates is a prefix of the result with them |
| `Admission.LaterNeverDisplaces` | pangea-leaf/src/admit.rs:154-209 | With priority on, for every cut of the list Apply, Change, Unblocked, Retry, Drift: the result for the candidates of the earlier classes is a prefix of the result for all |
| `Admission.AdmittedByPriority` | pangea-leaf/src/admit.rs:154-166 | With priority on, the admitted come by class, within drift by age, then by depth, then by name |
| `Admission.AdmittedByArrival` | pangea-leaf/src/admit.rs:167-170 | With priority off they come by arrival, then by name |
| `Admission.DriftSlotsExactly` | pangea-leaf/src/admit.rs:144-151 | The drift slots are the permille share of the scope cap, at least one and, where the cap allows, one less than it; none for a zero share or cap |
| `Admission.AdmissionForgetsOrder` | pangea-leaf/src/admit.rs:154-171 | With distinct names the result does not depend on the order of the input |
| `Admission.CapsHold` | pangea-leaf/src/admit.rs:173-209 | No global, scope, drift or credential count passes its cap, or its start |
| `Admission.AdmissionIsMaximal` | pangea-leaf/src/admit.rs:173-209 | Only candidates are admitted, and of a candidate admitted less often than it was proposed the final count of all, of its scope, of its scope's drift or of its credential has reached the cap, where a zero credential cap is none |
| `Admission.CountsAddUp` | pangea-leaf/src/admit.rs:196-206 | Starting counts plus the admitted are the final counts, for every scope and credential |
| `Admission.DriftLeavesASlot` | pangea-leaf/src/admit.rs:144-151 | With a positive share, a scope cap of two or more and a start within bounds, drift always leaves a slot of its scope |
| `Drift.Offsets` | pangea-leaf/src/drift.rs:14-32 | Each name gets the offset of its rank |
| `Drift.OffsetsExactly` | pangea-leaf/src/drift.rs:14-32 | With k of the n names ahead of it, by hash and then by name, a name gets the whole part of k * interval / n |
| `Drift.RankingIsASet` | pangea-leaf/src/drift.rs:18-20 | The ranking lists every name once and depends only on which names there are |
| `Drift.PlacementIsEven` | pangea-leaf/src/drift.rs:21-31 | The offsets of n ranks are below the interval, and a window of w offsets holds at most ceil(w * n / interval) of them |
| `Drift.NamesAreEven` | pangea-leaf/src/drift.rs:14-32 | The same of the names in the map that `offsets` returns |
| `Drift.LastSlotIsCurrent` | pangea-leaf/src/drift.rs:35-41 | The last slot has started and the next has not |
| `Drift.NextDueIsLeastExactly` | pangea-leaf/src/drift.rs:53-63 | For a last check not after now, `next_due_in` is the least wait after which the leaf is due if and only if it is due already, has not reached its first slot, or its next slot starts within u64 |
| `Drift.CheckedOncePerSlot` | pangea-leaf/src/drift.rs:44-50 | A leaf that records each due poll is checked at exactly the first poll of each slot that starts after its last check |
| `Drift.DriftDue` | pangea-leaf/src/drift.rs:66-80 | Exactly the due names, sorted, each once |
| `Rollup.HoldersOf` | pangea-leaf/src/rollup.rs:110-136 | The recursive search, with its memo and path, always ends, restores the path, and computes the memoised search function |
| `Rollup.SearchOk` | pangea-leaf/src/rollup.rs:110-136 | From any sound memo: only holding leaves upstream are reported, all of them where no cycle is upstream, and the memo stays so |
| `Rollup.SearchExactly` | pangea-leaf/src/rollup.rs:110-136 | The exact answer of every query, from any memo and on any path, cycles or not: the memo's entry, nothing on the path, otherwise exactly the holding upstreams, and the memo's holders of the upstreams, of all leaves it can climb to clear of memo and path |
| `Rollup.OwnQueryIsComplete` | pangea-leaf/src/rollup.rs:110-136 | A query with an empty path finds every holder, cycles or not, if what the memo says of the leaves upstream is right |
| `Rollup.CycleCutsShort` | pangea-leaf/src/rollup.rs:119-134 | On a cycle with a holder behind one leaf, judging that leaf first leaves the other without its holder: the shared memo carries the cut |
| `Rollup.SearchDirect` | pangea-leaf/src/rollup.rs:124-131 | A holding direct upstream is always reported, whatever the memo |
| `Judging.Judge` | pangea-leaf/src/rollup.rs:139-218 | The loop with one shared memo and wrapping u32 counters computes the classified, capped rollup |
| `Judging.PlacingOk` | pangea-leaf/src/rollup.rs:149-154 | Every leaf is judged once, in name order; a holding leaf has no holders, any other only true ones, and all of them where no cycle is upstream |
| `Judging.FirstIsExact` | pangea-leaf/src/rollup.rs:149-154 | A leaf that only holding leaves precede gets all its holders, cycle or not |
| `Judging.CycleHidesABlockedLeaf` | pangea-leaf/src/rollup.rs:139-208 | Where two leaves on a cycle are the first that do not hold and a holder is behind the first alone, the second is counted by its own state and not listed as blocked |
| `Judging.RollupConserves` | pangea-leaf/src/rollup.rs:155-208 | Below 2^32 leaves the seven counts make the total, listed plus truncated make the failed, stalled, rate-limited and blocked, and no list passes the cap |
| `Judging.VerdictExactly` | pangea-leaf/src/rollup.rs:209-216 | With distinct names: Converged if and only if every leaf is Ready; Partial if and only if some leaf is failed, stalled, or held by a leaf upstream, cycles included |
| `Judging.JudgeForgetsOrder` | pangea-leaf/src/rollup.rs:139-218 | With distinct names the rollup does not depend on the order of the leaves |
| `Judging.TransitionsAreNews` | pangea-leaf/src/rollup.rs:275-289 | With distinct names the transitions are exactly the failed and stalled leaves not so marked before, once each, in name order |
| `Judging.RestartAnnouncesTheUnlisted` | pangea-leaf/src/rollup.rs:260-289 | Seeding from the rollup and replaying the same leaves announces exactly the leaves the lists had no room for; nothing if and only if failed and stalled are within the cap |
| `Judging.ReplayIsSilent` | pangea-leaf/src/rollup.rs:252-289 | Replaying leaves against their own marks announces nothing |
| `RollupReport.FailedReport` | pangea-leaf/src/rollup.rs:171-182 | The failed list is the first cap of the failed leaves by name, with reason and time |
| `RollupReport.StalledReport` | pangea-leaf/src/rollup.rs:183-194 | The same of the stalled leaves |
| `RollupReport.RateLimitedReport` | pangea-leaf/src/rollup.rs:195-205 | The same of the rate-limited leaves |
| `RollupReport.BlockedReport` | pangea-leaf/src/rollup.rs:155-166 | Without cycles the blocked list is the first cap by name of the leaves held back, each with exactly the leaves that hold it back, in order |
| `RollupReport.CountsExactly` | pangea-leaf/src/rollup.rs:155-208 | Without cycles every count is of the leaves in that state, save that a ready, planning or applying leaf held back by another counts as blocked |
| `RollupReport.CountsWrap` | pangea-leaf/src/rollup.rs:139-208 | Of any number of leaves the total stops at the u32 maximum and the counts make the number of leaves modulo 2^32 |
| `RollupReport.VerdictMeans` | pangea-leaf/src/rollup.rs:209-216 | Cycles or not: Partial if and only if some leaf failed, stalled or is held back by a failed, stalled or rate-limited leaf upstream |
| `RollupReport.AnnouncedExactly` | pangea-leaf/src/rollup.rs:275-289 | A transition is announced exactly for a leaf that is failed, or stalled, and was not so marked, with its reason or state |
| `RollupReport.MarksExactly` | pangea-leaf/src/rollup.rs:252-258 | The marks are the leaves failed or stalled now, as such |
| `Hierarchy.WalkAncestors` | lava-ruby/src/interp.rs:338-360 | The superclass loop with its prepends and includes, then the backwards de-duplication, compute the ancestors |
| `Hierarchy.PushModuleWithIncludes` | lava-ruby/src/interp.rs:362-367 | The recursive push appends the module and what it includes, last included first |
| `Hierarchy.DedupIsSet` | lava-ruby/src/interp.rs:351-359 | De-duplication keeps every ancestor exactly once |
| `Hierarchy.WalkChain` | lava-ruby/src/interp.rs:397-438 | The uncached chain of an object, a module or a core value |
| `LookupOrder.AncestorsExactly` | lava-ruby/src/interp.rs:338-367 | The ancestors are, each once, exactly what superclasses, prepends and includes lead to |
| `LookupOrder.ClassDecides` | lava-ruby/src/interp.rs:338-350 | A class decides, over all it includes and inherits, unless something prepended mentions the name; an undefinition it mentions gives none |
| `LookupOrder.PrependedDecides` | lava-ruby/src/interp.rs:342-344 | A prepended module decides over its class and all above, the last prepended first, unless it is an ancestor in another way too |
| `LookupOrder.PrependedDecidesExactly` | lava-ruby/src/interp.rs:351-359 | Where class and prepended module both mention the name, the module decides if and only if it is not an ancestor of the class in another way too |
| `LookupOrder.IncludedDecides` | lava-ruby/src/interp.rs:346-348 | An included module decides over those included before it and over all inherited, if nothing nearer mentions the name |
| `LookupOrder.SuperclassDecides` | lava-ruby/src/interp.rs:349 | Where nothing beside the class mentions the name, the superclass decides, or nobody |
| `LookupOrder.PlainObjectLookup` | lava-ruby/src/interp.rs:411 | An object without a singleton answers as its class |
| `LookupOrder.SingletonDecides` | lava-ruby/src/interp.rs:400-409 | A singleton that mentions the name decides |
| `LookupOrder.ExtensionDecides` | lava-ruby/src/interp.rs:402-405 | Then what the object was extended with, the last first |
| `LookupOrder.ClassBehindSingleton` | lava-ruby/src/interp.rs:406-409 | Where neither singleton nor extensions mention the name, the object answers as a plain object of its class |
| `LookupOrder.ExtensionLosesPrepended` | lava-ruby/src/interp.rs:402-405 | A module prepended to an extension is not seen through the object, though it is through the extension |
| `LookupOrder.MetaDecides` | lava-ruby/src/interp.rs:413-420 | For a module its own meta decides first |
| `LookupOrder.MetaIncludeDecides` | lava-ruby/src/interp.rs:419-421 | Then what the meta includes, the last first |
| `LookupOrder.SuperMetaDecides` | lava-ruby/src/interp.rs:423-426 | Then, for a class, its superclass |
| `LookupOrder.ClassOrModuleDecides` | lava-ruby/src/interp.rs:428-434 | At last `Class`, or `Module` for what is no class |
| `MethodCache.SameKeySameChain` | lava-ruby/src/interp.rs:369-378 | Values with the same cache key have the same chain |
| `MethodCache.Interp.LookupChainRc` | lava-ruby/src/interp.rs:384-395 | The chain cache answers, on a coherent interpreter, the uncached chain and stays coherent |
| `MethodCache.Interp.Find` | lava-ruby/src/interp.rs:440-462 | Both cache levels answer, on a coherent interpreter, the uncached lookup and stay coherent |
| `MethodCache.Interp.Change` | lava-ruby/src/value.rs:331-351 | Any change keeps the stamps; one through a bumping accessor makes the caches coherent whatever they held; a new module or object keeps them coherent |
| `MethodCache.BumpRestores` | lava-ruby/src/value.rs:13-15 | After a bump no entry is current |
| `MethodCache.CreationKeepsCoherent` | lava-ruby/src/value.rs:306-329 | New modules and objects, `clone` included, need no bump |
| `MethodCache.CachedRunsAgree` | lava-ruby/src/interp.rs:384-462 | In every run of lookups and changes without an unbumped push, every chain and method lookup answers what the uncached walk answers |
| `MethodCache.AgreeAfterBump` | lava-ruby/src/builtins.rs:2993-3004 | Whatever happened before, unbumped pushes included, all answers after a bump are right until the next unbumped push |
| `MethodCache.StaleExactly` | lava-ruby/src/builtins.rs:2998-3004 | Right after an unbumped push a lookup is wrong if and only if a current entry was remembered for that value and the push changed the answer |
| `MethodCache.StaleChainExactly` | lava-ruby/src/builtins.rs:2998-3004 | The same for chains |
| `MethodCache.AnswersAreFirstAnswers` | lava-ruby/src/interp.rs:384-462 | Over any run between two bumps, unbumped pushes included, every answer is the uncached answer as of the first question since the bump about a value with the same key |
| `MethodCache.FirstAnswerIsOwn` | lava-ruby/src/interp.rs:369-378 | For a value that existed at that question it is its own uncached answer then |
| `MethodChange.MethodsTakeEffect` | lava-ruby/src/value.rs:332-335 | A class without prepends answers with the methods it was given last, and none for an undefined one |
| `MethodChange.SingletonTakesEffect` | lava-ruby/src/interp.rs:400-409 | A singleton decides as soon as it is set |
| `MethodChange.MetaTakesEffect` | lava-ruby/src/value.rs:344-347 | So does a meta |
| `MethodChange.SuperclassTakesEffect` | lava-ruby/src/value.rs:348-351 | A class that says nothing itself answers as the superclass it was given last |
| `MethodChange.NewClassAnswers` | lava-ruby/src/value.rs:306-329 | A new class answers as its superclass |
| `MethodChange.IncludeTakesEffect` | lava-ruby/src/builtins.rs:2998-3004 | Uncached, a module included last decides over earlier includes and the superclass, if nothing nearer mentions the name |
| `MethodChange.PrependTakesEffect` | lava-ruby/src/builtins.rs:2998-3004 | Uncached, a module prepended last decides over the class |
| `MethodChange.PushAgain` | lava-ruby/src/builtins.rs:2998-3004 | Including or prepending a module again changes nothing |
| `MethodChange.CopiesAnswer` | lava-ruby/src/builtins.rs:3750-3760 | A clone answers as the original, any other copy as the class |
| `MethodCache.IncludeIsMissed` | lava-ruby/src/builtins.rs:2998-3004 | An object whose class and ancestors lack a method is asked for it; its class then includes a module that defines it; the object still answers that it has none, where the uncached walk finds it |
| `MethodCache.GreeterStaysSilent` | lava-ruby/src/builtins.rs:2998-3004 | A concrete such program, with a class below Object below BasicObject |

## Left out

- Kubernetes, HTTP, GraphQL and MCP clients, the CLI, the web UI: I/O over libraries that are not part of this model.
- The 403 fallback of the election and clock skew: outside the protocol.
- Clock readings finer than a microsecond: the record truncates them.
- `apply_order` and `destroy_order`: they only reverse or flatten what the graph library returns.
- blake3, `lineage_for` and `leaf_names`: arbitrary functions here; the plan's own uniqueness check is modelled.
- JSON bytes: a state is typed blocks and instances, a digest input a JSON value; number texts are what the printer produced.
- Texts of error messages.
- Rollup.SearchOk: completeness is stated for leaves without a cycle upstream, one way only; on a cycle it depends on the order of the names, and `Rollup.SearchExactly` says what is found.
- RollupReport.BlockedReport: for leaves without a cycle upstream; on a cycle it depends on the order of the names (`Judging.CycleHidesABlockedLeaf`).
- RollupReport.CountsExactly: likewise, and for fewer than 2^32 leaves.
- Judging.RollupConserves: for fewer than 2^32 leaves, where the u32 counters do not wrap; `Judging.Judge` itself models the wrap.
- MethodCache.CachedRunsAgree: the epoch is a natural number; the source's wraps after 2^64 bumps.
- Hierarchy.WalkChain: a core value is known by its built-in class; `find_super`, constants and instance variables are not modelled.
- Planning.PlanMigration: leaves out the manifests (catalog, leaf templates, fat patch) and walks a reference set in any order, on which the result is proved not to depend.
- The rest of the Ruby evaluator, `pace.rs`, `queue.rs`, `work.rs`, `memory.rs`, `capabilities.rs`, `config_status.rs`, `slice.rs`, `drain.rs`: floating point, one-branch claims or timing.
