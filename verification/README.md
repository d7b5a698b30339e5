# A verified model of the wgipam lease server

wgipam hands out IP addresses to WireGuard peers. A client asks, and gets one address from every configured subnet of
the families it wants, for a limited time; it renews the lease before it expires, or loses it. The promise of the whole
program is that an address is never promised to two clients at once. Every layer has a part in that promise, and this
project models each of them and proves what it contributes.

| layer | files | what is proved |
|---|---|---|
| addresses and configuration | `Address.dfy`, `Config.dfy` | aligned blocks are nested or disjoint; the configuration check accepts exactly the pairwise disjoint lists |
| one subnet's allocator | `ReservedScan.dfy`, `ListOrder.dfy`, `RoundRobin.dfy`, `Reservations.dfy`, `Exhaustion.dfy`, `ReservedRuns.dfy`, `SimpleAllocator.dfy` | the two-position cursor loop is a round-robin scan of the ring of allowed addresses; exactly which configurations keep reserved addresses, ranges and nil positions out of the way |
| allocatable size | `Size.dfy` | the size gauge is the length of that ring |
| stores | `Store.dfy`, `MemoryStore.dfy`, `BoltSpec.dfy`, `BoltStore.dfy`, `Purging.dfy`, `StoreLaws.dfy` | what was stored is what is read back; both stores answer every legal operation sequence alike; purges compose |
| gauge | `Metrics.dfy`, `MetricsStore.dfy` | the gauge of allocated addresses stays equal to the allocated set's size |
| all subnets | `Engine.dfy`, `Granting.dfy`, `MultiAllocator.dfy`, `Building.dfy` | all-or-nothing, and granted exactly when each consulted subnet has a free address |
| leases | `Leasing.dfy`, `Handler.dfy` | the lease state machine keeps the books |
| whole runs | `Runs.dfy`, `Uptime.dfy`, `Wiring.dfy`, `Programs.dfy`, `FileRuns.dfy` | conservation, gauge agreement, exclusive promises and stable renewal in every run; uptime and full service for the configurations that allow it; every run on a file is one of these runs |
| interleavings | `Concurrent.dfy`, `Interleavings.dfy`, `Disturbed.dfy`, `Attempts.dfy`, `Schedules.dfy`, `Completion.dfy`, `Lag.dfy` | the same safety when requests interleave at every store operation and restarts interrupt them; exactly which purges are harmless; no request waits for another; how far the gauges lag |

The source changes objects in place, so the stores, the metrics wrapper, the cursor, both allocators and the handler are
classes whose methods follow the Go code branch by branch. Each method is tied to a function on plain values (`Walk`,
`MemoryStep`, `BoltStep`, `MeteredStep`, `TryAllocate`, `AllocateAll`, `Request`), and the theorems are about those functions
and about runs of them. `Wiring.Start` shows that the assembled objects start in the state the runs start from.

Addresses are a family and a number. A lease's times are whole nanoseconds. A client key is a 64-bit number. The clock
readings of a request are parameters: `t1` where expiry is judged, `t2` where the new lease is stamped.

## Hypotheses

Each theorem names the ones it uses.

- Orderly (`RoundRobin.Orderly`): the reserved list is one that a single pass can deal with from every cursor position.
  Ascending lists are (`AscendingIsOrderly`); `ListOrder.PassSettlesIff` gives the exact condition for any list and any
  cursor, and `OrderlyIff` says that this is exactly what makes every pass find the next two unreserved addresses.
- Turning (`RoundRobin.TurnsAtEnd`, and some allowed address): the walk turns back at the end of the range.
  `FirstRoundInRangeIff` shows this is exactly what keeps a run in its range up to the first exhaustion report, and
  `TurnsAtEndIff` says it in terms of the configuration.
- On the ring (`RoundRobin.AtIndex`): the cursor stands for a ring entry. It does at the start and after every granted
  address; after an exhaustion report it does exactly when `Exhaustion.EndsOnFreeLast` holds.
- Disjoint subnets (`Engine.Apart`): what `Config.CheckSubnets` establishes.
- Registration (`BoltSpec.Legal`): a subnet is not registered again while addresses are allocated from it.

The safety results (conservation, gauges, exclusive promises, stable renewal, interleavings) need disjoint subnets and a
process that has not crashed. They do not need the first three. Among orderly subnets, those whose allocator never crashes
are exactly the ones with `Exhaustion.NeverStuck`, and a server all of whose subnets are such stays up in every run
(`Uptime.EveryRunStaysUp`). A server of orderly subnets whose ranges all end on an unreserved last address also serves
every request as long as addresses are left (`Uptime.EveryRunGrantsIff`).

## Where code and documentation disagree

- `internal/config/default.toml:22-36` says that the configured range is what is used for leases. The code leaves it in two
  ways. The walk turns back only when the very address after the range is next (`ipallocator.go:296`), so if that address is
  reserved and a later one is not, it goes on past the range as soon as the range is taken, with no exhaustion report:
  `RangeIsLeftBeforeExhaustion` is such a subnet, and `FirstRoundInRangeIff` with `TurnsAtEndIff` the exact condition. And
  exhaustion leaves the cursor where the scan ended (`ipallocator.go:300-303`), so the next call may hand out addresses
  beyond the range, or dereference a nil position when nothing unreserved lies ahead of the cursor: `EveryRoundInRangeIff`
  and `NeverStuckIff` are the exact conditions, and `SampleCrashesAfterExhaustion` shows the shipped IPv4 sample, whose
  range ends on a reserved last address, crashing.
- The same text says that reserved addresses are not used for leases, and gives no order for the list. A new allocator for
  the valid subnet of addresses 0 to 7 that starts at 1 and reserves 3, 1 and 2, in this order, hands out 3 first
  (`MisorderedHandsOutReserved`). No run of calls hands out a reserved address exactly when, at the start and wherever the
  list makes the cursor go on from there, no run of reserved addresses at the cursor is listed with an entry ahead of two
  smaller ones (`NoRunHandsOutReservedIff`); no call from any cursor at all does exactly when no run of the block is
  (`NeverReservedIff`).
- `store.go:78` describes SaveSubnet as create or update. The memory store empties an existing subnet (`store.go:235`), the file
  store keeps it (`store.go:523`). `SaveSubnetAgreesIff` says when that is visible.

The model follows the code in all three.

## Model

| member | source | states |
|---|---|---|
| Address.ContainsIsInterval | store.go:625-632 | an aligned block contains exactly the addresses of its family between its network address and its last address |
| Address.SharedAddressMeansOverlap | internal/config/config.go:256-265 | two aligned blocks that share an address are equal or one properly contains the other |
| Address.OverlapsIffNotDisjoint | internal/config/config.go:260 | for aligned blocks the library's overlap test is true exactly when some address is in both |
| Address.BlockFits | vendor/github.com/mikioh/ipaddr/prefix.go:36-53 | filling the host bits of a block within its family's width never carries out of that width, so no address of it does |
| Config.ValidSubnetShape | ipallocator.go:348-381 | a subnet that passes has its range and its reserved entries inside the block, in order |
| Config.ValidateAcceptsIff | ipallocator.go:348-381 | Validate accepts exactly the aligned blocks whose start, end and reserved entries lie inside, with start not after end |
| Config.ValidateReports | ipallocator.go:348-381 | each of the five errors is reported exactly when its own condition fails and those tested before it hold |
| Config.CheckSubnets | internal/config/config.go:239-268 | accepted exactly when the list is non-empty and all pairs of blocks are disjoint; which error otherwise |
| ReservedScan.PassStep | ipallocator.go:282-294 | one list entry keeps the loop invariant: everything skipped is reserved, neither position has been listed |
| ReservedScan.PassFindsNextTwo | ipallocator.go:278-294 | ascending list, any cursor: p ends on the least unreserved address from the cursor, next on the least one after p; p is nil only if none is left |
| ReservedScan.SkipPanicsIff | ipallocator.go:282-288 | any list: the loop dereferences nil exactly when the positions run out before the list is through |
| ListOrder.FollowedLater | ipallocator.go:282-294 | an entry that is at neither position is lost: naming a later address of the run there puts it ahead of two smaller ones |
| ListOrder.PassReachesIff | ipallocator.go:278-294 | any list, any cursor, any position y: the pass gets off the reserved addresses and next at least as far as y exactly when the list shows it: behind an unreserved cursor, the addresses up to y in order; at a reserved one, its run with no entry ahead of two smaller ones, and after all of it the addresses behind the run in order up to y |
| ListOrder.NextOfIff | ipallocator.go:278-294 | where the cursor goes on from there: the furthest position that the list shows |
| ListOrder.BetweenIsReserved | ipallocator.go:278-294 | the pass passes over reserved addresses only |
| ListOrder.PassSettlesIff | ipallocator.go:278-294 | any list, any cursor: the pass finds the next two unreserved addresses exactly when the list shows the way to both |
| ListOrder.PassLandsIff | ipallocator.go:278-294 | any list, any cursor: p gets off the reserved addresses exactly when the cursor's run, if any, is listed with no entry ahead of two smaller ones |
| ListOrder.PassStaysInRun | ipallocator.go:278-294 | otherwise p ends on a reserved address of that run |
| ListOrder.EveryPassLandsIff | ipallocator.go:278-294 | for all cursors of a block: exactly when no maximal reserved run is listed with an entry ahead of two smaller ones |
| ListOrder.AscendingIsListed | ipallocator.go:278-294 | an ascending list meets the exact condition on every cursor |
| ReservedScan.UnorderedListMissesReserved | ipallocator.go:281-294 | with reserved 3, 1, 2 and the cursor on 1 the pass ends on the reserved 3 |
| RoundRobin.WalkStaysInBlock | ipallocator.go:268-328 | for any configuration, whatever is allocated was free and in the block, and the cursor stays in the block |
| RoundRobin.RingEntry | ipallocator.go:339-346 | every ring entry is in the range and unreserved |
| RoundRobin.RingIndex | ipallocator.go:339-346 | every address in the range and unreserved is a ring entry |
| RoundRobin.RingOrder | ipallocator.go:339-346 | the ring is strictly ascending |
| RoundRobin.AllowedIff | ipallocator.go:339-346 | allowed means: in the block, not before a configured start, not after a configured end, and not listed as reserved |
| RoundRobin.TurnsAtEndIff | ipallocator.go:296 | the stop test catches the end of the range exactly when the address after it is unreserved or nothing unreserved follows |
| RoundRobin.OrderlyIff | ipallocator.go:278-294 | a subnet is orderly exactly when the pass is right from every position the cursor can take |
| RoundRobin.AscendingIsOrderly | ipallocator.go:278-294 | a subnet with an ascending reserved list is orderly |
| RoundRobin.PassAtIndex | ipallocator.go:278-294 | on ring index i the pass finds entry i and the unreserved address that follows it |
| RoundRobin.FirstPass | ipallocator.go:277-327 | before the wrap, entries from i to the last are tried in order; then the walk starts over |
| RoundRobin.SecondPass | ipallocator.go:296-312 | after the wrap, entries up to the last but one are tried, then exhaustion is reported |
| RoundRobin.WalkIsRoundRobin | ipallocator.go:268-328 | the call returns the first free ring entry in cyclic order and leaves the cursor on the next entry, or on the start after the last one; or it reports exhaustion |
| RoundRobin.ExhaustedIffAllTaken | ipallocator.go:296-304 | exhaustion is reported exactly when every allowed address is allocated |
| RoundRobin.CallTakesNext | ipallocator.go:268-328 | without the ring: the call hands out the first free allowed address at or after the cursor, or else the first one from the start, and no allowed address lies between it and where the cursor is left |
| Reservations.WalkIsUnreserved | ipallocator.go:268-328 | with no run misordered, a call hands out no reserved address, before or after the wrap |
| Reservations.MisorderedIsHandedOut | ipallocator.go:268-328 | with a run misordered, some call hands out one of its addresses |
| Reservations.NeverReservedIff | ipallocator.go:268-328 | one call, any valid subnet: from no cursor and on no store does it hand out a reserved address exactly when no reserved run of the block is misordered |
| Reservations.ListedRespects | ipallocator.go:268-328 | then no run of calls does either, exhaustion reports included |
| Reservations.UnorderedMayBeListed | ipallocator.go:281-294 | reserved 2, 1 is not ascending and not misordered |
| Reservations.MisorderedHandsOutReserved | ipallocator.go:215-328 | a new allocator of a valid subnet with reserved 3, 1, 2 and start 1 hands out 3 on its first call |
| ReservedRuns.ClearsStep | ipallocator.go:278-294 | the list condition along the cursors is the condition along the passes themselves |
| ReservedRuns.WalkStaysClear | ipallocator.go:268-328 | from a clearing cursor a call hands out no reserved address and leaves a clearing cursor behind, wrap and exhaustion included |
| ReservedRuns.WalkApproaches | ipallocator.go:268-328 | on the way to an exposed reserved address a call hands it out, hands out another one, or stops at its stop, still on the way |
| ReservedRuns.AloneExposes | ipallocator.go:268-328 | so calls alone, from an empty store and with nothing freed, come to hand out a reserved address |
| ReservedRuns.NoRunHandsOutReservedIff | ipallocator.go:268-328 | any valid subnet: no run of a new allocator's calls hands out a reserved address exactly when the list clears from the start on, for arbitrary store contents and for calls alone |
| ReservedRuns.ListedClears | ipallocator.go:268-328 | with no run misordered every cursor clears |
| ReservedRuns.MisorderedMayBeUnexposed | ipallocator.go:268-328 | reserved 6, 4, 5 is misordered, and no run of calls hands any of them out |
| Exhaustion.CrashIff | ipallocator.go:282-318 | the call dereferences a nil position exactly when nothing unreserved lies at or after the cursor |
| Exhaustion.EnumeratesRing | ipallocator.go:268-328 | from an empty store, repeated calls hand out every allowed address, each once and ascending, and then report exhaustion |
| Exhaustion.FirstRoundInRangeIff | ipallocator.go:296-310 | whatever the store does between calls, all calls up to the first exhaustion are defined and in range exactly if the ring is non-empty and the walk turns at its end |
| Exhaustion.RangeIsLeftBeforeExhaustion | ipallocator.go:296-327 | a valid subnet with range 0 to 3 and 4 reserved: with exactly the range taken, the call hands out 5 |
| Exhaustion.ExhaustionKeepsIndexIff | ipallocator.go:300-303 | exhaustion leaves the cursor on the ring exactly when the range ends on the block's last address and that is unreserved |
| Exhaustion.EveryRoundInRangeIff | ipallocator.go:268-328 | all calls of every run are defined and in range exactly under that same condition |
| Exhaustion.CallStaysAlive | ipallocator.go:268-328 | where the last address is unreserved, or the range ends before it with an unreserved address next and an allowed one inside, no call dereferences a nil position or leaves the cursor where a later one would |
| Exhaustion.RestsOnLast | ipallocator.go:296-310 | a walk that cannot meet its stop gives up only with the cursor on the block's last address |
| Exhaustion.AloneComesTo | ipallocator.go:268-328 | calls on a store that nothing else touches reach any goal that each call reaches or comes closer to |
| Exhaustion.StuckCrashes | ipallocator.go:268-328 | everywhere else, calls alone, from an empty store and with nothing freed, come to dereference a nil position |
| Exhaustion.NeverStuckIff | ipallocator.go:268-328 | orderly subnets: no call of any run dereferences a nil position exactly for those configurations, for arbitrary store contents and for calls alone |
| Exhaustion.SampleCrashesAfterExhaustion | internal/config/default.toml:21-38 | the sample IPv4 subnet is valid, serves its first round in range, and crashes on every call after exhaustion |
| Size.CoverTotal | metrics.go:208-224 | summed over any disjoint cover of the range by prefixes: range length less reserved entries in range |
| Size.RangeSizeIsRingLength | metrics.go:175-227 | for duplicate-free reserved lists that number is the length of the ring |
| Size.LessReserved | metrics.go:218-223 | the inner loop takes one off for each reserved entry within the prefix |
| Size.HugeIff | metrics.go:209-216 | more addresses than 64 bits can count are exactly 64 host bits or more |
| Size.AllocatableSize | metrics.go:175-227 | infinite exactly when some prefix has more than 2^64 - 1 addresses; else the length of the range less the reserved entries in it, and the number of allowed addresses when no entry is repeated |
| SimpleAllocators.Cursor.Next | vendor/github.com/mikioh/ipaddr/cursor.go:49-68 | on one prefix: the next address, or nil without moving at the last one |
| SimpleAllocators.Cursor.Set | vendor/github.com/mikioh/ipaddr/cursor.go:110-126 | moves exactly to a contained address |
| SimpleAllocators.Bounds | ipallocator.go:224-247 | the cursor starts on the range's start; the end position is one past the range's end, nil after the last address |
| SimpleAllocators.SimpleAllocator.constructor | ipallocator.go:213-256 | registers the subnet, cursor on the start |
| SimpleAllocators.SimpleAllocator.SkipReserved | ipallocator.go:278-294 | the loop over the reserved list is the specified pass, nil dereference included, and moves the cursor with it |
| SimpleAllocators.SimpleAllocator.Take | ipallocator.go:313-326 | succeeds exactly if the address was free; otherwise nothing changes |
| SimpleAllocators.SimpleAllocator.Allocate | ipallocator.go:267-328 | the retry loop terminates and is the specified walk; store and gauge change by exactly that one allocation |
| SimpleAllocators.SimpleAllocator.Free | ipallocator.go:330-337 | frees a contained address, ignores others |
| Store.Seconds | store.go:605-610 | the time at or before now, less than a second back, on a whole second |
| Store.LeaseBagTakes | store.go:124-136 | the bag of all leases is any one of them and the bag of the others, so listing order does not matter |
| MemoryStores.ListingIsBag | store.go:124-136 | listing the leases by any order of the keys gives that bag |
| MemoryStores.VisitExpired | store.go:179-186 | visiting an expired lease collects its addresses: per-subnet counts and the freed set both follow |
| MemoryStores.CollectedCounts | store.go:190-206 | once all are visited, per-subnet counts and freed set are the purge specification's, whatever the order |
| MemoryStores.Sweep | store.go:200-205 | a subnet loses exactly the freed addresses it contains, and every one of them is counted |
| MemoryStores.MemoryStore.Leases | store.go:124-136 | every stored lease once |
| MemoryStores.MemoryStore.Lease | store.go:138-145 | the stored object itself, or none |
| MemoryStores.MemoryStore.SaveLease | store.go:147-154 | creates or replaces that key's lease |
| MemoryStores.MemoryStore.DeleteLease | store.go:156-163 | removes that key's lease if there is one |
| MemoryStores.MemoryStore.DropExpired | store.go:177-186 | a lease stays exactly if its start and length add up to more than t, and the addresses of the others are collected |
| MemoryStores.MemoryStore.SweepAll | store.go:190-206 | every registered subnet is swept, with its count |
| MemoryStores.MemoryStore.Purge | store.go:165-209 | the same, with state and freed counts those of the purge specification |
| MemoryStores.MemoryStore.Subnets | store.go:211-228 | the registered subnets |
| MemoryStores.MemoryStore.SaveSubnet | store.go:230-237 | the subnet is registered with an empty allocated set, even if it existed |
| MemoryStores.MemoryStore.AllocatedIPs | store.go:239-261 | the allocated set, or an error for an unknown subnet |
| MemoryStores.MemoryStore.AllocateIP | store.go:263-284 | error for a foreign address or unknown subnet, false if taken, else allocated |
| MemoryStores.MemoryStore.FreeIP | store.go:286-302 | error for a foreign address or unknown subnet, else no longer allocated |
| BoltSpec.BigEndianRoundTrip | store.go:618-623 | big-endian bytes decode to the number they came from |
| BoltSpec.KeyBytesRoundTrip | store.go:618-623 | an eight-byte database key decodes to its client key |
| BoltSpec.KeyBytesInjective | store.go:618-623 | distinct client keys have distinct database keys |
| BoltSpec.BigEndianAt | store.go:618-623 | byte i of n is the number divided by 256 to the n - 1 - i, modulo 256: the most significant comes first |
| BoltSpec.PurgesAgree | store.go:420-490 | a purge frees, counts and keeps the same in both stores |
| BoltSpec.StepsAgree | store.go:38-95 | any legal operation gets the same reply from both stores and keeps them the same, the cache listing exactly the buckets |
| BoltSpec.StoresAreEquivalent | store.go:35-50 | from empty, both stores give the same replies to every legal operation sequence |
| BoltSpec.RegisteredOnceIsLegal | store.go:78 | sequences that register no subnet twice are legal |
| BoltSpec.SaveSubnetAgreesIff | store.go:235 | registering a subnet and reading it back agrees between the stores exactly when nothing was allocated from it |
| BoltSpec.ReopenedIsSame | store.go:318-347 | a reopened file whose subnets are registered again holds the same leases and allocations, with a full cache |
| BoltStores.BoltStore.constructor | store.go:318-347 | opens whatever the database holds, with an empty cache |
| BoltStores.BoltStore.Leases | store.go:352-373 | every stored lease once |
| BoltStores.BoltStore.Lease | store.go:375-399 | the lease under the encoded key |
| BoltStores.BoltStore.SaveLease | store.go:401-411 | creates or replaces the lease under the encoded key |
| BoltStores.BoltStore.DeleteLease | store.go:413-418 | removes the lease under the encoded key |
| BoltStores.BoltStore.FindExpired | store.go:427-452 | the keys of exactly the leases whose start and length add up to at most t, and their addresses |
| BoltStores.BoltStore.SweepCached | store.go:460-481 | the cached subnets are swept, with their counts |
| BoltStores.BoltStore.Purge | store.go:420-490 | every other lease stays as it is; state and freed counts are those of the file store's purge specification |
| BoltStores.BoltStore.Subnets | store.go:492-513 | the subnets that have a bucket |
| BoltStores.BoltStore.SaveSubnet | store.go:515-526 | cached; an existing bucket keeps its addresses |
| BoltStores.BoltStore.AllocatedIPs | store.go:528-553 | the bucket's addresses, or an error for an unknown subnet |
| BoltStores.BoltStore.AllocateIP | store.go:555-587 | as the file store's specification: errors, already allocated, allocated |
| BoltStores.BoltStore.FreeIP | store.go:589-603 | as the file store's specification |
| StoreLaws.MemoryPurge | store.go:165-209 | a purge keeps exactly the leases with start + length > t, unchanged; takes from each subnet exactly the contained addresses of the others; and counts their places in the address lists, subnet by subnet |
| StoreLaws.FilePurge | store.go:420-490 | the same of the file store, for the subnets its process has registered; other buckets stay as they are |
| StoreLaws.LeasesReadBack | store.go:138-163 | a saved lease is read back under its own key only, a deleted one is gone, and deleting twice is deleting once |
| StoreLaws.FileLeasesReadBack | store.go:375-418 | the same through the encoded keys |
| StoreLaws.AllocationReadsBack | store.go:263-284 | an error exactly for a foreign address or an unknown subnet; otherwise it succeeds exactly if the address was not listed, which it then is, and no other list changes; a second attempt fails |
| StoreLaws.FileAllocationReadsBack | store.go:555-587 | the same of the file store |
| StoreLaws.FreeReadsBack | store.go:286-302 | the same errors; otherwise the address is no longer listed, can be allocated again, and freeing twice is freeing once |
| StoreLaws.FileFreeReadsBack | store.go:589-603 | the same of the file store |
| StoreLaws.RegistrationReadsBack | store.go:230-237 | a registered subnet is listed and known, empty even if it was registered before |
| StoreLaws.FileRegistrationReadsBack | store.go:515-526 | a registered subnet is listed and known, with the addresses it had |
| Purging.PurgesCompose | store.go:42-46 | for t1 <= t2, purging at t1 and then at t2 reaches the state of t2 alone, with the freed counts adding up per subnet |
| Purging.EarlierPurgeIsIdle | store.go:42-46 | after a purge, one for the same or an earlier time changes and frees nothing |
| Purging.FreedCountIsDrop | store.go:193-206 | when no address is leased twice and all leased ones are allocated, the freed count is the exact drop of the allocated set |
| Metrics.AllocateEffect | metrics.go:134-146 | allocating adds exactly that address, succeeds exactly if it was free anywhere, and keeps the gauge right |
| Metrics.FreeEffect | metrics.go:148-156 | freeing removes exactly that address; the unconditional decrement is right when it was allocated |
| Metrics.GaugeMoves | metrics.go:134-173 | how far each operation moves each gauge, from the state before it: up by one for a fresh address, down by one for any free without error, down by a purge's count |
| Metrics.PurgeConserves | store.go:166-209 | purging keeps allocated equal to leased |
| Metrics.PurgeEffect | metrics.go:158-173 | purging keeps the books and every gauge: each count subtracted is what the subnet really lost |
| MetricsStores.MetricsStore.constructor | metrics.go:114-132 | the gauge starts with the sizes of the existing allocated sets |
| MetricsStores.MetricsStore.AllocateIP | metrics.go:134-146 | the store's step, and the gauge up by one exactly on success |
| MetricsStores.MetricsStore.FreeIP | metrics.go:148-156 | the store's step, and the gauge down by one whenever there is no error |
| MetricsStores.MetricsStore.Debit | metrics.go:164-168 | every gauge drops by its own count and no other gauge moves |
| MetricsStores.MetricsStore.Purge | metrics.go:158-173 | the store's purge, with the gauges debited by its counts |
| Engine.AllocateOneEffect | ipallocator.go:267-328 | one subnet's allocation adds one address that was free in every subnet, or changes no allocation |
| Engine.TryAllocateEffect | ipallocator.go:160-185 | what was allocated along the way is fresh and distinct, and is all that changed |
| Engine.FreeAtEffect | ipallocator.go:188-199 | asking every subnet of a family to free an address removes exactly it, from at most one of them |
| Engine.FreeOneEffect | ipallocator.go:188-199 | an allocated address has a subnet in its own family's list, and is freed there |
| Engine.FreeEachEffect | ipallocator.go:143-153 | freeing a list of distinct allocated addresses removes exactly them |
| Engine.AllocateAllEffect | ipallocator.go:119-158 | granted: distinct, fresh, and allocated; refused: the allocated addresses are what they were |
| Engine.AllOrNothing | ipallocator.go:143-155 | a refused request leaves leases and every subnet's allocated set exactly as before, for any point of failure |
| Engine.ConsultedIff | ipallocator.go:119-141 | a subnet is consulted exactly if it is configured and of a wanted family |
| Engine.GrantIsOneEach | ipallocator.go:45-57 | a grant has exactly one address of each configured subnet of the wanted families, IPv4 first, in order |
| Granting.AllocateOneIff | ipallocator.go:45-57 | one subnet serves exactly when it has a free allowed address, and serves such a one |
| Granting.TryAllocateIff | ipallocator.go:160-185 | a list of disjoint subnets is served exactly when each has a free allowed address, one from each in order |
| Granting.GrantedIff | ipallocator.go:119-185 | a request is granted exactly when a subnet of a wanted family is configured and each of them has a free allowed address; one such address of each, IPv4 first, in configured order |
| MultiAllocators.MultiAllocator.AllocateFrom | ipallocator.go:167-176 | one member's allocation leaves every other subnet's cursor and allocations alone |
| MultiAllocators.MultiAllocator.TryPair | ipallocator.go:166-176 | one family's allocators in turn, stopping at the first without an address |
| MultiAllocators.MultiAllocator.TryFamily | ipallocator.go:166-177 | one family's turn: what is in hand and what is still to come always make up the whole allocation |
| MultiAllocators.MultiAllocator.TryAllocate | ipallocator.go:160-185 | all families in turn; whatever was allocated is returned for cleanup |
| MultiAllocators.MultiAllocator.Free | ipallocator.go:188-199 | the address is freed through every allocator of its family |
| MultiAllocators.MultiAllocator.PairsFor | ipallocator.go:121-141 | the allocators of exactly the wanted families, IPv4 first |
| MultiAllocators.MultiAllocator.TakeBack | ipallocator.go:143-153 | every address allocated along the way is freed |
| MultiAllocators.MultiAllocator.Allocate | ipallocator.go:119-158 | grants or rolls back as the engine specifies |
| Building.OfFamilyMembers | ipallocator.go:75-83 | splitting by family loses and adds no subnet |
| Building.OfFamilyApart | ipallocator.go:75-83 | splitting by family keeps subnets disjoint |
| Building.OfFamilyOrder | ipallocator.go:75-83 | splitting by family keeps the configured order |
| Building.BuildFamily | ipallocator.go:92-108 | one allocator per subnet, each with its own cursor; fails exactly on an invalid subnet |
| Building.SplitByFamily | ipallocator.go:75-83 | subnets by family, in configured order |
| Building.DualStack | ipallocator.go:66-111 | fails exactly without subnets or with an invalid one; else one allocator per subnet and family, in order, cursors on the starts, subnets registered, overlapping or not; without overlap a valid whole |
| Leasing.LapseEffect | handler.go:118-134 | dropping an expired lease frees exactly its addresses and touches no other lease |
| Leasing.NewLeaseEffect | handler.go:137-184 | a granted lease is stored with fresh addresses, the truncated time and the configured length; a refusal leaves the leases alone |
| Leasing.NamedIsRefused | handler.go:143-151 | a client without a current lease that names a non-zero address is refused, and nothing changes |
| Leasing.NewLeaseGives | handler.go:137-184 | a new lease has exactly one address of each configured subnet of the families named, or of every subnet if none is named; IPv4 first, in order |
| Leasing.RenewEffect | handler.go:186-227 | a renewal keeps the books, the allocations and the lease's addresses, and restarts its clock exactly if every named address is zero or the client's own |
| Leasing.RequestEffect | handler.go:101-227 | every request keeps the books and every other lease; a lease with t1 < start + length keeps its addresses and is renewed exactly if every named address is zero or its own, and otherwise stays as it is; any other client is refused if it names a non-zero address, and has no lease afterwards if it is refused |
| Handlers.Handler.RequestedFamilies | handler.go:138-157 | none exactly if a named address is not zero; else the families named, both if no address is |
| Handlers.Handler.OwnOrZero | handler.go:188-211 | true exactly when each named address is zero or leased to the client |
| Handlers.Handler.Restamp | handler.go:213-215 | writing start and length in place is already visible in the store, for that key only |
| Handlers.Handler.NewLease | handler.go:137-184 | the specified new-lease turn, crash included |
| Handlers.Handler.GrantLease | handler.go:166-183 | a new lease object with the truncated time is stored and reported |
| Handlers.Handler.RenewLease | handler.go:186-227 | the specified renewal, with the stored object updated in place; granted exactly if every named address is zero or in the lease |
| Handlers.Handler.FreeAll | handler.go:128-132 | each address is freed in turn |
| Handlers.Handler.Drop | handler.go:118-132 | the expired lease goes first, then its addresses |
| Handlers.Handler.Replace | handler.go:118-134 | an expired lease gives way to the specified new-lease turn, from the state without it |
| Handlers.Handler.RequestIP | handler.go:101-135 | the whole request is the specified one: same response, same leases, allocations, gauge and cursors |
| Runs.StepIsSafe | internal/wgipamd/server.go:146-195 | every request, purge tick and restart that does not crash keeps the books, the gauges and every promise |
| Runs.PromisesAreExclusive | handler.go:101-227 | when a reply gives an address to one client, every earlier promise of it to another is over |
| Runs.ReachableIsSafe | internal/wgipamd/server.go:146-195 | all of that in every reachable state |
| Runs.EveryRunConserves | handler.go:101-227 | in every run from an empty store: an address is allocated exactly if it is in some lease, in one lease and one subnet only, once; each gauge is its subnet's size |
| Runs.EveryRunIsExclusive | handler.go:101-227 | in every run no reply gives out an address still promised to another client |
| Runs.NoAddressTwice | handler.go:101-227 | by the replies alone: of two replies of a run that give the same address to different clients, the first one's time is over when the second is given |
| Runs.RenewalIsStable | handler.go:186-227 | a client that holds a lease and next asks in time, for zero or own addresses, gets the same addresses for at least as long, whatever happens in between |
| Runs.NextReplyIsSame | handler.go:186-227 | by the replies alone: a client that was given addresses and next asks within the time it was told, for zero addresses or for some of them, gets the same ones again, for at least as long |
| Uptime.RequestHolds | handler.go:101-227 | any cursor property that starts true, that calls keep and under which no call crashes holds through every request, and no request crashes |
| Uptime.HardyKeepsAlive | ipallocator.go:268-328 | an unreserved address ahead of every cursor is such a property for orderly subnets that are never stuck |
| Uptime.CallStaysOnRing | ipallocator.go:268-328 | where the range ends on an unreserved last address, a call leaves the cursor on the ring, exhausted or not |
| Uptime.ForwardIsOnTime | internal/wgipamd/server.go:146-195 | the forward clock that runs ask for: readings in order within each event and from each event to every later one |
| Uptime.EveryRunStaysUp | internal/wgipamd/server.go:146-195 | a server of orderly subnets that are never stuck can run every sequence of requests, purges and restarts on a forward clock to its end |
| Uptime.EveryRunGrantsIff | handler.go:101-184 | where all ranges end on an unreserved last address: after every run, a client without a lease or with an expired one is granted one exactly when it names only zero addresses, asks for some configured subnet, and each one it asks for has an allowed address that is not allocated or is its own |
| Uptime.EveryRunGives | handler.go:101-184 | it then gets one such address of each subnet it asks for, IPv4 first, in configured order |
| Interleavings.ActIsGood | handler.go:101-227 | no single step of any request in flight breaks the ownership accounts, the leases or a promise |
| Interleavings.EveryAddressHasOneOwner | ipallocator.go:119-199 | in every interleaving an address is allocated exactly if it is leased, held by a request in flight or orphaned by a restart, by one client and in one way only; without restarts there are no orphans |
| Interleavings.OrphansAreLost | store.go:318-347 | what an interrupted request held stays allocated on the file and is never given out again |
| Interleavings.RebootIsGood | store.go:318-347 | a restart on the same file, at any point of any requests, keeps the store, accounts, leases and promises; what requests held becomes orphaned |
| Interleavings.SweepKeepsAccounts | store.go:165-209 | a purge keeps the accounts whatever is in flight |
| Interleavings.SweepIsGoodIff | store.go:165-209 | it keeps everything requests rely on exactly when no request in flight has a stored lease with start + length <= t |
| Interleavings.SweepUnderRenewalLosesAddresses | handler.go:187-227 | otherwise a renewal in flight is saved after the purge freed its addresses, which are then leased and not allocated |
| Disturbed.DisturbedBreaks | handler.go:101-227 | a request whose stored lease a purge took breaks the accounts with its own next steps |
| Disturbed.SweepIsHarmlessIff | store.go:165-209 | however the requests go on after it, a purge leaves the accounts right exactly when it takes no lease from under one of them |
| Disturbed.SweepUnderDeletionFreesAnothers | handler.go:118-132 | otherwise a deletion in flight can free an address that another client was given and promised meanwhile |
| Attempts.TurnsAreTheWalk | ipallocator.go:277-327 | on an unchanging store the turns of the retry loop are the walk |
| Attempts.WalkIsASchedule | ipallocator.go:277-327 | on a store that others change between its attempts, an allocator's walk is a schedule of the interleavings, and may give up at any point before it has an address |
| Attempts.WalkAlone | ipallocator.go:277-327 | left alone it makes the walk's attempts on the store as it is and ends as the walk does |
| Attempts.OthersMayStepIn | ipallocator.go:277-327 | any step of another request, and any purge, may come between its attempts |
| Interleavings.InterleavedPromisesAreExclusive | handler.go:166-183 | in every interleaving no reply gives out an address still promised to another client |
| Interleavings.SavedLeasesAreExclusive | handler.go:166-183 | of two leases with the same address saved for different clients, the first is over when the second is saved |
| Completion.EveryRequestCanFinish | handler.go:101-227 | no request in flight waits for another: from any state of any interleaving its own steps can take it to its end |
| Lag.TryBalances | metrics.go:134-146 | an allocation owes its gauge one increment exactly when it succeeded |
| Lag.FreeBalances | metrics.go:148-156 | a free in flight owes one decrement, for an address that was allocated |
| Lag.SweepBalances | metrics.go:158-173 | a purge owes each gauge what its set lost, whatever is in flight |
| Lag.EveryInterleavingBalances | metrics.go:134-173 | in every interleaving gauge and set differ by exactly what is owed, and agree when no request is in flight and no purge has counts left |
| Lag.GaugesCatchUp | metrics.go:134-173 | from any state the owed gauge operations alone bring every gauge to its set's size, and then every step is possible |
| Schedules.FreeOneIsOneFreed | ipallocator.go:188-199 | freeing through all subnets of a family is a single store operation |
| Schedules.TrySchedule | ipallocator.go:160-185 | allocating over the consulted subnets is a sequence of single attempts with the same result |
| Schedules.AtomicRequestIsAnInterleaving | handler.go:101-227 | a request running alone is one of the interleavings, with the same store and the same reply |
| Wiring.Configured | internal/config/config.go:143-155 | accepted exactly when there is a subnet, all are valid and no two share an address |
| Wiring.Start | internal/wgipamd/server.go:146-162 | a server is assembled exactly for an accepted configuration, with its lease duration, and starts in the state every run starts from |
| Wiring.NewFileStarts | internal/wgipamd/server.go:146-162 | registering the subnets on a new file gives the file store's form of that state |
| Wiring.OldFileRestarts | internal/wgipamd/server.go:146-162 | reopening an existing file, counting its addresses and registering its subnets again is the restart of the runs |
| Programs.ProgramsRunAlike | store.go:38-95 | no program of store operations that acts on replies alone can tell the stores apart, gauge included |
| Programs.WalkRuns | ipallocator.go:277-327 | one subnet's allocation as such a program: its attempts, up to the first that succeeds, do what the walk does |
| Programs.TryRuns | ipallocator.go:160-185 | the same for all consulted subnets |
| Programs.AllocateRuns | ipallocator.go:119-158 | the same with the rollback |
| Programs.RequestRuns | handler.go:101-227 | a whole request as such a program does to store, gauge, cursors and client what the request does |
| Programs.RequestOverFile | handler.go:101-227 | over a file store in a like state it gives the same response and ends in a like state, or crashes alike |
| FileRuns.EveryFileRunIsARun | internal/wgipamd/server.go:146-195 | every run on a file, restarts included, is one of the runs with the same replies; so on the file, too, an address is allocated exactly if it is leased, by one client only, and each gauge is right |
| FileRuns.NoAddressTwiceOnFile | handler.go:101-227 | so by the replies of a run on a file no address is given to two clients at once |
| FileRuns.EveryRunHasAFileRun | internal/wgipamd/server.go:146-195 | and every run can be had on a file |
| Wiring.Tick | internal/wgipamd/server.go:179-195 | a tick purges store and gauges as specified, and nothing else |

## Left out

- RoundRobin.WalkIsRoundRobin: stated for orderly reserved lists; it is not shown which other lists still give a round-robin scan from particular cursors.
- Size.AllocatableSize: the zero-value subnet (metrics.go:178-181) is not a value here, and rounding of 64-bit floating point numbers is not modelled; sizes are integers or infinity.
- SimpleAllocators.Cursor.Next: the ipaddr library is not part of this model; its cursor, its overlap test and its range summary enter through the contracts stated here.
- BoltStores.BoltStore.Purge: bbolt is an atomic transaction over maps that never fails; the subnets cache is the set of its subnets.
- BoltSpec.KeyBytesInjective: client keys are given; collisions of the xxh3 hash that makes them are not modelled.
- Handlers.Handler.RequestIP: the handler object is built over the memory store; over the file store a request is a program on values (Programs.RequestOverFile). Store errors other than an unknown subnet or a foreign address do not occur.
- Runs.RenewalIsStable: a restart keeps the store's leases, so it stands for a restart on a file, not on memory.
- Interleavings.ActIsGood: one request at a time per key. A purge is one step, and is left out when it would take a lease from under a request (Disturbed.SweepIsHarmlessIff).
- Interleavings.RebootIsGood: a crash on the memory store starts over from nothing and is not a step.
- Runs.StepIsSafe: a crashed request ends the run; restarting after one, with requests interrupted anywhere, is a step of the interleavings instead.
- Wiring.Start: the objects are assembled over the memory store only; for the file store the start, restarts and runs are given on values (FileRuns.EveryFileRunIsARun).
- MultiAllocators.MultiAllocator.Allocate: mutexes are not modelled; the objects are used by one caller at a time, and concurrency is in the transition system.
- Parsing of TOML, CIDR and IP text, and encoding of leases as JSON: text of addresses is taken as injective and encoding as lossless.
- Four-byte, sixteen-byte and IPv4-mapped forms of an address: one normal form per family.
- The wg-dynamic server and client, listeners, signals, flags, the debug HTTP server, logging and the handler's own counters: input and output only.
- Monotonic clock readings: a time is one number.
