# Verified model of RouteLoom

RouteLoom is a mesh SDK: nodes keep distance-vector routes with Babel's feasibility
condition, protect frames with counters and replay windows kept in flash, resume sessions
with labelled key derivations, and are exercised by Python contracts, vector generators and
hardware-rig tools. This project models the parts whose correctness is decided by their
code and proves what they promise, for every input and every run.

- `Babel`, `ContractNetwork`: the contract's sequence order, feasibility, distance update
  and metric sum, and loop freedom of any network that decides with them alone.
- `RouteEntry`, `RouteTable`, `RouteSelection`, `RouteDamping`, `RouteNetwork`, `RouteDwell`:
  the device's route table, as values and as the object it is, the damping of its switches,
  and loop freedom of a network of such tables with leases, clocks, ageing frames and
  feasibility state that is forgotten.
- `Reservation`, `CounterLease`, `CounterObjects`, `Nonce`: counter uniqueness over crashes,
  from the contract and from the device's leases, up to AEAD nonces.
- `ReplayGuard`, `ReplaySafety`: replay windows over crashes, loss and corruption.
- `Crc32`, `Bytes`, `Cbor`, `Contexts`, `Transcript`, `Resume`, `GatewaySubmit`,
  `CanonicalSend`: checksum and encodings.
- `Assembler`, `Relay`: chunking, frames, reassembly and receipts.
- `Yaml`, `YamlParser`, `YamlRoundTrip`: the rig description parser.
- `Capture`, `Lines`, `Consumer`, `Credit`, `Admission`: host-side state. `Runs` holds the
  one induction over runs that several of them share, `Basics` a few types and functions.

Faults are parameters: each store operation takes the fault that befalls it, each
transaction whether the process dies. Clocks are the `now` argument. Sequence numbers are
carried unbounded; every decision reads their 16-bit residue, and runs assume that the
numbers a decision compares are less than 32768 apart (without that the order is cyclic,
`NoOrderWithoutWindow`). 32- and 64-bit words whose bits matter (the checksum register, the
replay bitmap) are sequences of booleans.

## Findings

- Loop freedom has an exact condition (`DwellRule`), and the device meets it only in part.
  Let the horizon be lease + frame age + sweep gap. All runs are loop-free if and only if
  the tombstone dwell reaches the horizon, no tombstone is reclaimed and no relay restarts
  within the horizon of its last finite record, and every finite record leaves marked or
  already covered by its sender's distance. Each part fails separately:
  - Dwell. The header says feasibility state must outlive every candidate that could still be
    advertised, and sets the dwell to the larger of the lease and 60 s. A frame is heard some
    time after it was queued and the table is swept some time after a lease lapses. The 15 s
    default covers that with 1 s route records and sweep gaps up to 44 s
    (`DefaultLeaseLoopFree`); the 90 s product lease does not, because its dwell equals the
    lease (`ProductLeaseCanLoop`: three relays that forward to one another in a circle).
  - Marking. The comments at `components/routeloom/src/route_scale.cpp:3-4` and
    `components/routeloom/include/routeloom/route_request.hpp:14-16` say that no finite record
    leaves before `mark_advertised`. The flat profile's pull answer
    (`components/routeloom/src/route_scale.cpp:1181-1188`) leaves unmarked, and so do its
    group-root records (`components/routeloom/src/node_route.cpp:31-46`) for roots outside the
    page the same update dumps. A relay whose only record left that way has no distance to refuse its own route with: three relays close a
    loop at once, whatever the dwell (`UnmarkedLoop`).
  - Reclaiming and restarts. A full table reclaims the oldest tombstone for a new neighbour
    (`components/routeloom/src/node.cpp:203-211`) and a relay's restart loses its table;
    within the horizon either one opens the same loop (`ReachesLoop`).
- `lines_since` is documented as all lines after a mark. It is exactly while at most 4000
  lines followed it (`CompleteExactly`); a search misses the first match exactly when that
  match was evicted (`SearchExactly`).
- The context size assertion of `dams_context` cannot fire for a purpose below 24; for
  larger purposes it fires exactly when the numbers need more than 24 extra bytes
  (`DamsBound`, `DamsTooLong`).
- A list scalar that contains a colon and does not start with a quote reads back as an
  inline map (`ListScalarExact`).
- A checkpoint cut from a lease that goes on issuing repeats a counter when it is resumed,
  exactly when a counter was issued since and the lease's block is still the newest
  reservation: for one to end - cursor counters (`CopiedLeaseRepeats`). The header forbids
  that cut, and the run theorem relies on it.
- A window whose first commit landed unacknowledged believes it never committed. If its
  record then vanishes it may commit after all, and accepts again every counter its context
  accepted since (`RegainedReplays`; `UnsettledLossReplays` is a run that gets there). Losing
  or corrupting a window record is safe in every future if and only if it lets no such window
  commit under a live key that has accepted a counter (`DamageRule`).
- A lost floor and an erased counter slot start their slot anew. Losing the floor of a slot on
  which no window is held is safe in every future if and only if no counter was accepted in it
  (`LostFloorRule`); every accepted counter can be accepted again (`LostFloorReplays`).
  Erasing a counter slot is safe if and only if no counter was issued in it, in any epoch
  (`EraseRule`): a new lease of the epoch issues them all again (`ErasedRepeats`).
- Every run of the table is damped, load moving a route at most once in five seconds, if and
  only if no origin starts a newer generation and no entry is reclaimed (`DampingRule`): both
  clear the post-switch hold with the rest of the entry (`RestartLiftsDamping`,
  `ReclaimLiftsDamping`). A sweep that forgets an entry does not, because of the dwell.
- The contract calls every retraction feasible and never lets one change a distance; the
  device's functions judge an infinite metric like any other (`DeviceMeetsContract`). The device
  handles retractions before it asks them.

## Model

| member | source | states |
|---|---|---|
| Babel.WindowOrder | tools/contract_models.py:137-144 | On numbers less than 32768 apart the 16-bit comparison is the true order and never ambiguous |
| Babel.WindowIsExact | tools/contract_models.py:137-144 | Within one turn the later number compares newer iff less than half a turn apart; the contract raises iff exactly half a turn |
| Babel.WindowTotalOrder | tools/contract_models.py:137-144 | On any window of 32768 numbers the comparison is a strict total order |
| Babel.NoOrderWithoutWindow | tools/contract_models.py:137-144 | Outside a window three sequences can each be newer than the next |
| Babel.ContractIsTrueOrder | tools/contract_models.py:146-164 | On the wire fields feasibility is "strictly better" and the update keeps the better distance, in the true order |
| Babel.AdvertiseRunTightens | tools/contract_models.py:156-164 | Over any run of advertisements in a window the distance never gets worse, covers everything advertised, and is one of the values offered |
| ContractNetwork.AdvertisedTightens | tools/contract_models.py:156-164 | Advertising a route leaves the better of its distance and the old one |
| ContractNetwork.TakesBetter | tools/contract_models.py:146-169 | An update a node takes is strictly better than its distance, and its total strictly larger than advertised |
| ContractNetwork.StepKeepsInv | tools/contract_models.py:146-169 | Every step keeps: a sender's distance covers all it ever sent; a route is strictly better than its owner's distance |
| ContractNetwork.HopImproves | tools/contract_models.py:146-169 | The feasibility distance strictly improves along every next hop |
| ContractNetwork.ContractLoopFree | tools/contract_models.py:137-169 | In every reachable state, with loss, unbounded delay, duplication, reordering and dropped routes, no forwarding path returns to its start |
| RouteSelection.DeviceMeetsContract | components/routeloom/src/routing.cpp:7-47 | For every finite metric the device's feasibility and distance update equal the contract's wherever that does not raise; for the infinite one, exactly when they agree; metric sums always agree |
| RouteSelection.BestDominates | components/routeloom/src/routing.cpp:116-140 | The scan returns a usable candidate that dominates every other, and nothing only if nothing is usable |
| RouteSelection.EvaluateSettles | components/routeloom/src/routing.cpp:167-265 | After an evaluation the committed hop is usable, or nothing is |
| RouteSelection.AdvertiseKeepsRoute | components/routeloom/src/routing.cpp:580-603 | The route a settled entry advertised is the route it still forwards to, although the distance tightened |
| RouteSelection.SlotSparesRoutes | components/routeloom/src/routing.cpp:62-98 | A neighbour gets its own slot, else a free one, else an infeasible one; a feasible route is evicted only when all are, the committed one only when no other hop is held |
| RouteSelection.RetractionIsFinal | components/routeloom/src/routing.cpp:284-517 | After a retraction no sequence of refreshes, sweeps, losses, retractions, reclaims and records of others makes a candidate of that neighbour usable again; only a finite record of its own does |
| RouteSelection.BusyHopIsLeft | components/routeloom/src/routing.cpp:186-206 | A severely busy committed hop is left iff the hold is over and the best other hop is not severely busy; the new hop is usable and dominates all others |
| RouteSelection.OnlySevereReportsMatter | components/routeloom/src/routing.cpp:167-265 | Reports change an evaluation only through whether the committed hop and the best other hop are severely busy |
| RouteDamping.OperationsCarry | components/routeloom/src/routing.cpp:167-501 | Every operation on an entry that stays leaves its switch state, evaluates it, or starts a newer generation |
| RouteDamping.LoadSwitchesAreDamped | components/routeloom/src/routing.cpp:167-517 | Over every run of table operations, load moves the route at most once in five seconds unless in between the origin starts a newer generation or the entry is reclaimed |
| RouteDamping.RestartLiftsDamping | components/routeloom/src/routing.cpp:355-375 | A run of four records, with a generation restart, that switches twice at one instant |
| RouteDamping.ReclaimLiftsDamping | components/routeloom/src/routing.cpp:503-517 | A run in one generation, with a reclaim, that switches twice at one instant |
| RouteDamping.DampingRule | components/routeloom/src/routing.cpp:167-517 | Every run is damped iff no generation restarts and no entry is reclaimed |
| RouteEntry.LearnEffect | components/routeloom/src/routing.cpp:331-416 | Learning rewrites one slot with the advert and its lease, and keeps every other slot and the distance |
| RouteEntry.ConsiderSteps | components/routeloom/src/routing.cpp:331-416 | Considering an advert invents nothing: every live candidate after it was kept from before or learned from this advert, in its generation, and the distance never gets worse within one |
| RouteEntry.WithdrawLoses | components/routeloom/src/routing.cpp:418-445 | A withdrawal only thins candidates, keeps the distance, and arms the tombstone when the last one goes |
| RouteEntry.InvalidateLoses | components/routeloom/src/routing.cpp:447-474 | Losing a link only thins candidates, keeps the distance, and arms the tombstone when the last one goes |
| RouteEntry.UpdateCostLoses | components/routeloom/src/routing.cpp:284-310 | A cost change invents no candidate and keeps every advertised metric and lease |
| RouteEntry.EvaluatedLoses | components/routeloom/src/routing.cpp:167-265 | Evaluation keeps every candidate and the distance |
| RouteEntry.ExpireLoses | components/routeloom/src/routing.cpp:476-501 | A sweep only thins candidates and leaves no lapsed lease |
| RouteEntry.MarkAdvertisedTightens | components/routeloom/src/routing.cpp:580-603 | After advertising, the distance is no worse and covers what was advertised |
| RouteNetwork.HopImproves | components/routeloom/src/routing.cpp:331-416 | In an invariant state the distance strictly improves along every next hop |
| RouteNetwork.PathImproves | components/routeloom/src/routing.cpp:331-416 | and along every forwarding path |
| RouteNetwork.QuietUnused | components/routeloom/include/routeloom/routing.hpp:321-328 | Once a relay sent no finite record for the horizon, none of its frames can arrive and no lease granted on one is in use anywhere |
| RouteNetwork.AnswerKeepsInv | components/routeloom/src/route_scale.cpp:1177-1192 | A record that marking would not change may leave unmarked |
| RouteNetwork.StepKeepsInv | components/routeloom/src/routing.cpp:331-603 | In a safe configuration every step of the network (time, sweeps, adverts, answers, retractions, seeds, reboots of origin and relays, reclaiming, link loss, withdrawals, cost changes) keeps the invariant |
| RouteNetwork.LoopFreedom | components/routeloom/src/routing.cpp:331-603 | In a safe configuration every run ends loop-free |
| RouteDwell.UnmarkedLoop | components/routeloom/src/route_scale.cpp:1177-1192 | If finite records may leave unmarked, some run ends in a loop, whatever the dwell |
| RouteDwell.ReachesLoop | components/routeloom/src/routing.cpp:476-517 | If a relay forgets its distance by a sweep, a reclaim or a restart within the horizon, some run ends in a loop |
| RouteDwell.DwellRule | components/routeloom/include/routeloom/routing.hpp:321-328 | All reachable networks are loop-free if and only if the configuration is safe: records marked or covered, and dwell, reclaiming and restarts not sooner than lease + frame age + sweep gap |
| RouteDwell.DefaultLeaseLoopFree | components/routeloom/include/routeloom/routing.hpp:321-328 | The 15 s lease with 1 s records and sweep gaps up to 44 s is loop-free, if records are marked and nothing is reclaimed or restarted within the horizon |
| RouteDwell.ProductLeaseCanLoop | components/routeloom/include/routeloom/routing.hpp:104-108 | With the 90 s lease some run ends in a loop, whatever else is configured |
| RouteTable.ScanSelectable | components/routeloom/src/routing.cpp:100-114 | The loop finds the usable candidate of a hop |
| RouteTable.ScanBest | components/routeloom/src/routing.cpp:116-140 | The loop finds the candidate that BestDominates is about |
| RouteTable.ScanSlot | components/routeloom/src/routing.cpp:62-98 | The loops find the neighbour's slot, a free one, or the worst replaceable one |
| RouteTable.ScanWorst | components/routeloom/src/routing.cpp:62-98 | The loop computes the eviction choice that SlotSparesRoutes is about |
| RouteTable.SelectSlot | components/routeloom/src/routing.cpp:142-153 | The advertised selection |
| RouteTable.EvaluateEntry | components/routeloom/src/routing.cpp:167-265 | The switching policy of one entry, branch by branch |
| RouteTable.RouteTable.SetTombstoneDwell | components/routeloom/include/routeloom/routing.hpp:325-328 | The dwell is at least the lease and at least 60 s |
| RouteTable.RouteTable.Consider | components/routeloom/src/routing.cpp:331-416 | The table after an advert: this entry as RouteEntry says, all others unchanged; a retraction never allocates |
| RouteTable.RouteTable.ConsiderEntry | components/routeloom/src/routing.cpp:331-416 | One entry after an advert: generation, hold-down, retraction and learning |
| RouteTable.RouteTable.LearnEntry | components/routeloom/src/routing.cpp:331-416 | The learning half, with its outcome |
| RouteTable.RouteTable.PlaceCandidate | components/routeloom/src/routing.cpp:62-98 | The slot taken, everything else kept, and whether the neighbour was known |
| RouteTable.RouteTable.Withdraw | components/routeloom/src/routing.cpp:418-445 | The table after a withdrawal, and whether anything was removed |
| RouteTable.RouteTable.WithdrawEntry | components/routeloom/src/routing.cpp:418-445 | One entry after a withdrawal, and whether it held that neighbour |
| RouteTable.RouteTable.SettleEntry | components/routeloom/src/routing.cpp:56-60 | After a loss: re-evaluated, and a tombstone armed once nothing is left |
| RouteTable.RouteTable.InvalidateNextHop | components/routeloom/src/routing.cpp:447-474 | Every entry loses the candidates of that hop |
| RouteTable.RouteTable.InvalidateEntry | components/routeloom/src/routing.cpp:447-474 | One entry after its link went down, with or without hold-down |
| RouteTable.RouteTable.Expire | components/routeloom/src/routing.cpp:476-501 | Exactly the due entries are forgotten; the others lose lapsed candidates |
| RouteTable.RouteTable.ForgetDead | components/routeloom/src/routing.cpp:476-501 | Exactly the entries whose tombstone is due are released |
| RouteTable.RouteTable.LapseLeases | components/routeloom/src/routing.cpp:476-501 | Every other entry loses exactly its lapsed candidates |
| RouteTable.RouteTable.ExpireEntry | components/routeloom/src/routing.cpp:476-501 | One entry of the sweep |
| RouteTable.RouteTable.UpdateLinkCost | components/routeloom/src/routing.cpp:284-310 | Candidates of a hop are recomputed from stored metrics; touched iff one exists |
| RouteTable.RouteTable.RecostEntry | components/routeloom/src/routing.cpp:284-310 | One entry after a cost change, and whether it was touched |
| RouteTable.RouteTable.Evaluate | components/routeloom/src/routing.cpp:267-282 | Every entry is re-evaluated, nothing else changes |
| RouteTable.RouteTable.NoteNextHopBusy | components/routeloom/src/routing.cpp:312-323 | A report that is kept makes exactly this hop severely busy two seconds after it began, for every destination and clock; one that finds the bounded table full changes nothing. BusyHopIsLeft says what an evaluation does with it |
| RouteTable.RouteTable.ClearNextHopBusy | components/routeloom/src/routing.cpp:325-329 | From then on that hop is severely busy for no destination and clock, and every other hop is as before |
| RouteTable.RouteTable.MarkAdvertised | components/routeloom/src/routing.cpp:580-603 | The distance of this destination tightens iff a route is selected |
| RouteTable.RouteTable.ReclaimTombstone | components/routeloom/src/routing.cpp:503-517 | The entry due soonest is released, never a live one |
| RouteTable.RouteTable.Best | components/routeloom/src/routing.cpp:539-542 | The selected next hop |
| Reservation.AtomicHighWater.CommitMark | tools/contract_models.py:36-44 | The mark moves forward only, and a cut before the commit leaves it |
| Reservation.CounterReservation.Create | tools/contract_models.py:47-52 | A reservation starts empty at the durable mark, or is refused |
| Reservation.CounterReservation.NextValue | tools/contract_models.py:53-62 | The value, cursor, limit and mark after a call, with each power cut |
| Reservation.StepKeepsInv | tools/contract_models.py:33-62 | Every step keeps: reserved ranges disjoint, unissued and below the mark |
| Reservation.IssuedOnce | tools/contract_models.py:32-62 | Over every interleaving of constructors, calls and cuts with any number of live reservations, no value is issued twice, all are below the mark and within 64 bits |
| Reservation.Conservation | tools/contract_models.py:32-62 | After any run, with any number of reservations and blocks, every value below the mark is exactly one of issued, burned or pending in a live reservation |
| Reservation.BurnBound | tools/contract_models.py:36-62 | With one live reservation the mark is its start plus block times commits, and what was reserved and never issued is exactly the remainder and what was burned: at most one block per commit cut after it landed or reservation abandoned with something left |
| CounterLease.CountersNeverRepeat | components/routeloom/src/counter_store.cpp:30-170 | Over every run of leases, epochs, evictions, resumes, repeated initializations, faults, reboots, damage and erased unused slots no counter repeats in a slot and epoch, and none exceeds 48 bits |
| CounterLease.ErasedRepeats | components/routeloom/src/counter_store.cpp:30-170 | After a slot is erased some run issues any counter of it again |
| CounterLease.EraseRule | components/routeloom/src/counter_store.cpp:30-170 | Erasing a slot is safe in every future iff no counter was issued in it |
| CounterLease.CopiedLeaseRepeats | components/routeloom/include/routeloom/counter_store.hpp:74-89 | Whatever faults befall a lease that went on after its checkpoint was cut, the resumed copy repeats a counter iff one was issued and the block is still the newest reservation; with acknowledged commits, iff 1 to end - cursor were issued |
| CounterLease.Without | components/routeloom/include/routeloom/counter_store.hpp:113-143 | Taking or replacing a checkpoint removes that identity and no other |
| CounterObjects.SlotStore.Commit | components/routeloom/include/routeloom/counter_store.hpp:35-40 | A lost write changes nothing; an unacknowledged one is durable |
| CounterObjects.SlotStore.Load | components/routeloom/include/routeloom/counter_store.hpp:35-40 | A load returns the slot or fails |
| CounterObjects.LeaseObject.Initialize | components/routeloom/src/counter_store.cpp:30-65 | The lease and status for every stored record, on a lease in any state; a failure changes nothing |
| CounterObjects.LeaseObject.Resume | components/routeloom/src/counter_store.cpp:67-82 | It continues in the checkpoint's block only while that is the newest reservation |
| CounterObjects.LeaseObject.Adopt | components/routeloom/src/counter_store.cpp:103-138 | A newer mark of the same epoch is adopted, a newer epoch or a rewound mark refused |
| CounterObjects.LeaseObject.ReserveBlock | components/routeloom/src/counter_store.cpp:96-158 | Store, lease and status of a reservation, with each fault; an uninitialized lease reserves nothing |
| CounterObjects.LeaseObject.Next | components/routeloom/src/counter_store.cpp:160-170 | Store, lease, status and value of a call; an uninitialized lease issues nothing |
| Nonce.SameNonce | tools/gen_sdkv1_derivation_vectors.py:101-103 | Under one IV two counters share a nonce iff they agree in 48 bits |
| Nonce.LeaseNoncesNeverRepeat | tools/gen_sdkv1_derivation_vectors.py:73-103 | Over every run of device leases no nonce repeats under one slot and epoch |
| Nonce.ReservationNonces | tools/gen_sdkv1_derivation_vectors.py:73-103 | Over every run of the contract's reservations nonces repeat iff two values agree in 48 bits, so never below 2^48 |
| ReplayGuard.Guard.RatchetFloor | components/routeloom/src/replay.cpp:98-112 | The floor only rises; a lost commit leaves it |
| ReplayGuard.Guard.CommitFloor | components/routeloom/src/replay.cpp:98-112 | A lost write changes nothing; an unacknowledged one is durable |
| ReplayGuard.Guard.CommitWindow | components/routeloom/src/replay.cpp:236-275 | The same for window records |
| ReplayGuard.Guard.CheckFloorOf | components/routeloom/src/replay.cpp:114-125 | A stale epoch is refused; otherwise the floor is restored |
| ReplayGuard.Guard.OpenContext | components/routeloom/src/replay.cpp:127-202 | Window and store for every record found |
| ReplayGuard.Guard.CommitCeilingOf | components/routeloom/src/replay.cpp:236-275 | A ceiling is durable before the window uses it |
| ReplayGuard.Guard.AcceptCounter | components/routeloom/src/replay.cpp:277-320 | Window, store and status for every counter |
| ReplayGuard.Guard.CloseContext | components/routeloom/src/replay.cpp:322-335 | The record written on close |
| ReplaySafety.MoveIsExact | components/routeloom/src/replay.cpp:277-320 | A window refuses a counter iff it was accepted before or is 64 or more below the highest one |
| ReplaySafety.StepKeepsInv | components/routeloom/src/replay.cpp:71-335 | Every step, harmless loss and corruption included, keeps: accepted counters stay below the durable ceiling or in a live window |
| ReplaySafety.NeverAcceptsTwice | components/routeloom/src/replay.cpp:71-335 | For every fingerprint function and every run of any length with faults, restarts, harmless loss and corruption, no counter is accepted twice in a context, nor in two contexts whose keys collide, although generations wrap |
| ReplaySafety.RegainedReplays | components/routeloom/src/replay.cpp:236-320 | If damage lets a window that never committed commit under a live key, every counter that key accepted is accepted again |
| ReplaySafety.DamageRule | components/routeloom/src/replay.cpp:236-320 | Losing or corrupting a window record is safe in every future iff it is harmless |
| ReplaySafety.UnsettledLossReplays | components/routeloom/include/routeloom/replay.hpp:10-46 | A run that gets there: a first commit lands unacknowledged, its record vanishes, and a counter accepted since is accepted again |
| ReplaySafety.LostFloorReplays | components/routeloom/src/replay.cpp:127-202 | After a floor is lost some run accepts any counter of the slot again |
| ReplaySafety.LostFloorRule | components/routeloom/src/replay.cpp:127-202 | With no window of the slot held, losing its floor is safe in every future iff no counter was accepted in it |
| Crc32.BranchFree | components/routeloom/src/crc32.cpp:5-14 | The masked form of a bit step is the branching one |
| Crc32.StepLinear | components/routeloom/src/crc32.cpp:5-14 | The bit step is linear |
| Crc32.StepInjective | components/routeloom/src/crc32.cpp:5-14 | and injective, for any generator with its top bit set |
| Crc32.BytesAreBits | components/routeloom/src/crc32.cpp:5-14 | The byte loop feeds the message bit by bit |
| Crc32.FeedPacks | components/routeloom/src/crc32.cpp:5-14 | Feeding up to 32 bits one by one is xoring their word and stepping |
| Crc32.CrcIsoHdlc | components/routeloom/src/crc32.cpp:5-14 | The nested loops compute the specified checksum of the buffer |
| Crc32.FeedAll | components/routeloom/src/crc32.cpp:5-14 | The outer loop |
| Crc32.FeedByte | components/routeloom/src/crc32.cpp:5-14 | The inner loop, in its masked form |
| Crc32.BurstDetected | components/routeloom/src/crc32.cpp:5-14 | Messages of any equal length that differ only inside 32 consecutive bits have equal checksums iff they are equal |
| Crc32.ChecksumAffine | components/routeloom/src/crc32.cpp:5-14 | crc(x ^ y ^ z) = crc(x) ^ crc(y) ^ crc(z) at equal length |
| Yaml.Complete | tools/hil/rig.py:124-182 | Every well-formed block, whatever follows that ends it, parses to its value and exactly its lines |
| Yaml.Sound | tools/hil/rig.py:124-182 | Whatever parses is a well-formed block on exactly the lines consumed |
| Yaml.ParseExact | tools/hil/rig.py:185-199 | A parse succeeds iff the lines are a document, each line read once, with that document's value |
| YamlParser.ParseBlock | tools/hil/rig.py:124-182 | The recursive loop with its moving position computes the specified block, and terminates |
| YamlParser.ParseRow | tools/hil/rig.py:136-181 | One turn of the loop, always past at least one line |
| YamlParser.ParseItem | tools/hil/rig.py:136-164 | One list item |
| YamlParser.ParseInlineMap | tools/hil/rig.py:148-163 | One inline map and its continuation |
| YamlParser.ParseEntry | tools/hil/rig.py:165-181 | One map entry |
| YamlParser.ParseLines | tools/hil/rig.py:185-199 | It returns a value exactly for documents, and then theirs |
| YamlRoundTrip.LayoutMeans | tools/hil/rig.py:124-182 | Any layout of a writable tree, maps in lists inline or below their item, is a document that means it |
| YamlRoundTrip.RoundTrip | tools/hil/rig.py:124-199 | Every writable tree, under any strictly deeper child indentation and with maps in lists inline or not, parses back to itself |
| YamlRoundTrip.LayOutLays | tools/hil/rig.py:124-199 | Every tree has such layouts, for any choice of indentation and of inline maps |
| YamlRoundTrip.ListScalarExact | tools/hil/rig.py:148-165 | A list scalar reads back iff its text is not an inline map |
| Cbor.HeadRoundTrip | tools/gen_sdkv1_handshake_vectors.py:54-78 | A head is read back whatever follows |
| Cbor.HeadPrefixFree | tools/gen_sdkv1_handshake_vectors.py:54-78 | No head is the start of another |
| Cbor.HeadShortest | tools/gen_sdkv1_dams_vectors.py:52-64 | Any bytes that read as a number are at least as long as its encoding, and as long only if they are it |
| Cbor.PrefixFree | tools/gen_sdkv1_handshake_vectors.py:54-82 | No encoding of nested items is the start of another |
| Cbor.Injective | tools/gen_sdkv1_handshake_vectors.py:54-82 | Equal encodings are of equal items |
| Contexts.DamsIsCbor | tools/gen_sdkv1_dams_vectors.py:67-83 | The literal bytes are the canonical encoding of the eight-element array |
| Contexts.DamsBound | tools/gen_sdkv1_dams_vectors.py:67-83 | The size assertion fires iff the numbers need more than 24 extra bytes; never for a purpose below 24 |
| Contexts.DamsTooLong | tools/gen_sdkv1_dams_vectors.py:67-83 | It fires for a purpose of 24 and wide identifiers |
| Contexts.DamsInjective | tools/gen_sdkv1_dams_vectors.py:67-83 | Equal contexts have equal fields |
| Contexts.ExporterBound | tools/gen_sdkv1_handshake_vectors.py:179-206 | Every accepted input gives at most 192 bytes, so the 256-byte assertion cannot fire |
| Contexts.ExporterInjective | tools/gen_sdkv1_handshake_vectors.py:179-206 | Equal contexts have equal fields |
| Transcript.LabelsDiffer | tools/gen_sdkv1_derivation_vectors.py:38-54 | The seventeen labels are pairwise different |
| Transcript.LabelVisible | tools/gen_sdkv1_derivation_vectors.py:38-54 | No label contains a zero byte |
| Transcript.InfoInjective | tools/gen_sdkv1_derivation_vectors.py:76-77 | Two info strings are equal iff labels and fields are |
| Transcript.R1SelfDelimiting | tools/gen_sdkv1_derivation_vectors.py:144-149 | An R1 body, ticket included, shows where it ends and determines every field sent |
| Transcript.R2BodyInjective | tools/gen_sdkv1_derivation_vectors.py:152-154 | An R2 body determines its fields |
| Transcript.MessageSizes | tools/gen_sdkv1_derivation_vectors.py:161-176 | The two size assertions hold for every input |
| Transcript.Unambiguous | tools/gen_sdkv1_derivation_vectors.py:132-188 | Any two hash, MAC or derivation inputs of any kind and exchange are equal bytes iff they are the same input |
| Resume.MessagesSplit | tools/gen_sdkv1_derivation_vectors.py:161-177 | R1 followed by R2 splits in one way |
| Resume.KeysBelongToOneExchange | tools/gen_sdkv1_derivation_vectors.py:161-188 | Without a hash collision, equal key inputs mean the same direction of an exchange in which every sent field agrees |
| GatewaySubmit.DecodeInvertsEncode | tools/check_endpoint_design.py:75-81 | Decoding an encoded submit gives its payload iff the submit is acceptable |
| GatewaySubmit.AcceptedReencodes | tools/gen_endpoint_vectors.py:76-80 | Every accepted byte string re-encodes to itself |
| GatewaySubmit.SubmitsApart | tools/gen_endpoint_vectors.py:76-80 | Different submits never share bytes |
| CanonicalSend.SameNumber | tools/check_host_readiness_design.py:45-48 | Hex texts of one length have equal values iff they differ only in case |
| CanonicalSend.SamePayload | tools/check_host_readiness_design.py:67-84 | and so have payloads |
| CanonicalSend.CanonicalExact | tools/check_host_readiness_design.py:51-87 | Two accepted requests have equal bytes iff they agree after case and defaults, key and epoch aside |
| Assembler.PartAccepted | components/routeloom/src/object_assembler.cpp:28-66 | A part of the object on the grid is accepted whatever came before |
| Assembler.ConflictRefused | components/routeloom/src/object_assembler.cpp:28-66 | A part that disagrees with bytes that arrived changes nothing |
| Assembler.CompleteIsObject | components/routeloom/include/routeloom/object_assembler.hpp:20-21 | What is complete is the object |
| Assembler.CellIndexIsQuotient | components/routeloom/src/object_assembler.cpp:28-66 | A cell index is the offset divided by the cell; an offset is on the grid iff nothing remains |
| Assembler.CellsRoundUp | components/routeloom/src/object_assembler.cpp:10-26 | The cells of an object are its size divided by the cell, rounded up |
| Assembler.ObjectAssembler.Begin | components/routeloom/src/object_assembler.cpp:10-26 | An empty assembly iff size, grid and buffers fit; otherwise busy or invalid, and nothing changes |
| Assembler.ObjectAssembler.IsComplete | components/routeloom/include/routeloom/object_assembler.hpp:20-21 | The received count reaches the total iff every byte has arrived |
| Assembler.ObjectAssembler.FindClash | components/routeloom/src/object_assembler.cpp:38-47 | The overlap check finds a conflict iff there is one |
| Assembler.ObjectAssembler.Insert | components/routeloom/src/object_assembler.cpp:28-66 | Status and contents after any insert, on a grid or byte by byte |
| Assembler.ObjectAssembler.InsertCell | components/routeloom/src/object_assembler.cpp:47-53 | A whole cell is filled once, and counted once |
| Assembler.ObjectAssembler.InsertBytes | components/routeloom/src/object_assembler.cpp:54-64 | Bytes are filled one by one, each counted once |
| Relay.WireRoundTrip | tools/gen_sdkv1_join_relay_v2_vectors.py:99-104 | An acceptable chunk is decoded as itself and fits 128 bytes |
| Relay.ReadBack | components/routeloom/src/sdkv1_join_transport.cpp:551-575 | Every chunk whose fields fit is read back from its bytes |
| Relay.DecodedIsEncoded | components/routeloom/src/sdkv1_join_transport.cpp:551-575 | Whatever is decoded re-encodes to the same bytes |
| Relay.FramesDecode | tools/gen_sdkv1_join_relay_v2_vectors.py:114-119 | Every chunk of every object of 129 to 1024 bytes lies on the grid, fits and is accepted |
| Relay.Receipts | tools/gen_sdkv1_join_relay_v2_vectors.py:284-290 | Receipts strictly increase to the total and only the last is complete |
| Relay.Reassembles | tools/gen_sdkv1_join_relay_v2_vectors.py:114-119 | Any order and repetition completes iff every chunk came, and then holds the object |
| Relay.Receive | components/routeloom/src/object_assembler.cpp:28-66 | Decoding and inserting frames in any order leaves exactly that state |
| Capture.CompleteExactly | tools/hil/capture.py:131-135 | The lines after a mark are complete iff at most 4000 followed it |
| Capture.SearchExactly | tools/hil/capture.py:145-150 | A search finds the first match after a mark iff it was not evicted |
| Capture.MarkThenLines | tools/hil/capture.py:102-135 | After any feeds and closes the lines since a mark are the last 4000 fed since, in order |
| Capture.Recorder.FeedLine | tools/hil/capture.py:110-118 | The log grows by the line unless closed, and the ring holds its last 4000 |
| Capture.Recorder.CloseLog | tools/hil/capture.py:175-184 | Closing stops the log and keeps what it holds |
| Capture.Recorder.Mark | tools/hil/capture.py:126-129 | A mark is the length of the log, whatever the ring has evicted |
| Capture.Recorder.LinesSince | tools/hil/capture.py:131-135 | The log from the later of the mark and the oldest line kept |
| Capture.Recorder.Find | tools/hil/capture.py:145-150 | The first match in that suffix |
| Capture.Recorder.WaitFor | tools/hil/capture.py:152-173 | Whatever other threads do between wake-ups, the first match in that suffix; if no burst outruns the ring, the first match of the whole log |
| Lines.OneSplit | tools/hil/capture.py:391-393 | The lines and the rest are the one way to cut the stream at its newlines |
| Lines.StreamGrows | tools/hil/capture.py:391-393 | What is held back is read again with what follows |
| Lines.FedIsRun | tools/hil/capture.py:110-118 | Feeding lines in turn is one append, and nothing once the capture is closed |
| Lines.ReadLoop | tools/hil/capture.py:379-398 | However the stream is cut into reads, the log gets its lines and then the unfinished one, or stays as it is when the capture is closed |
| Lines.ReadOnce | tools/hil/capture.py:389-395 | One read: its finished lines are fed, the rest is held |
| Lines.SplitAll | tools/hil/capture.py:392 | Splitting gives the finished lines and then what is held |
| Lines.PeelLoop | tools/hil/capture_reconnect.py:54-74 | The peeling loop notes the same lines |
| Lines.Peel | tools/hil/capture_reconnect.py:68-70 | Peeling line after line gives the same lines and the same rest |
| Consumer.Database.SaveBatch | examples/display_consumer/consumer.py:27-37 | The whole transaction, or nothing when the process dies first |
| Consumer.Database.InsertMany | examples/display_consumer/consumer.py:29-33 | Records whose key is stored are ignored, others appended with the next id |
| Consumer.Database.KeepNewest | examples/display_consumer/consumer.py:34-35 | The rows with the 4096 largest ids |
| Consumer.Database.Turn | examples/display_consumer/consumer.py:76-85 | One poll after the stored cursor, saved |
| Consumer.NewestIsLast | examples/display_consumer/consumer.py:34-35 | The delete statement keeps the last 4096 arrivals |
| Consumer.StepKeepsInv | examples/display_consumer/consumer.py:27-37 | Every append, poll and crash keeps table, cursors and streams in step |
| Consumer.DurableConsumer | examples/display_consumer/consumer.py:27-85 | After any run the table is the newest of all committed records, which for each network are exactly the prefix its cursor names |
| Consumer.StoredIsNewestOfPrefix | examples/display_consumer/consumer.py:27-85 | With one network the table is the last 4096 records before the cursor |
| Credit.Account.GrantCredit | tools/contract_models.py:102-108 | The reply and the state after a grant |
| Credit.Account.BeginWrite | tools/contract_models.py:109-116 | A token iff credit suffices, and what it consumes |
| Credit.Account.ContinueWrite | tools/contract_models.py:117-119 | An unknown token is refused |
| Credit.Account.FinishWrite | tools/contract_models.py:120-121 | The write is closed once |
| Credit.CreditSafety | tools/contract_models.py:95-121 | Over every run consumption stays within the grant, tokens are new, and open writes are those begun and not finished |
| Credit.GrantsCommute | tools/contract_models.py:102-108 | Runs that accepted the same set of grants end with the same grant |
| Admission.Pool.Admit | tools/contract_models.py:76-85 | Admission iff nothing listed is made to fail and every multiplicity fits; exact decrement or full restore |
| Admission.Pool.Release | tools/contract_models.py:80-83 | The undo loop restores every capacity |

## Left out

- SHA-256, HMAC, HKDF, AES-GCM and ECDSA: opaque functions of fixed output length; the point
  multiplication and `hkdf_expand` beyond its first block are not modelled.
- `Idempotency`, `resume_deadline`, `permit_frame`, `provider_failover_allowed`: each is
  settled by reading its branches.
- `resolve_rig`, `resolve_board_port`, JSON input, comment stripping and scalar syntax of the
  rig parser: the model starts from logical lines, and how a scalar text is read is a
  parameter, so quoted and escaped scalars are whatever that parameter says.
- Threads, sockets, serial ports, SQLite and files: each locked region, transaction and
  commit is one atomic step; the API1 server is an append-only stream with distinct keys, and
  `--resume-cursor` is not used.
- Byte decoding of captured lines is a parameter; `tail`, `all_lines` and `feed_bytes` would
  only add easy members.
- Pacing fields of the route table (`announced_up`, last selection, sequence requests) and the
  deadlines `evaluate` and `expire` report are not modelled.
- RouteNetwork.LoopFreedom: each network serves one destination and the clock does not wrap;
  which neighbour a frame is meant for is not modelled, any node may hear it.
- ReplaySafety.LostFloorRule: a floor lost while a window of its slot is held is only covered
  where a counter was accepted, because what such a window can do then depends on which epochs
  of its peer exist.
- ContractNetwork.ContractLoopFree: distances are never forgotten and the numbers a decision
  compares lie within one window, as the contract's functions require of their caller.
- Relay.Decode: which sub codes are valid is a parameter; the relay's own slot object, replies
  and timeouts are not modelled, reassembly is that of the shared assembler.
- Assembler.ObjectAssembler.Insert: the bitmap is one boolean a cell, not packed in bytes;
  digest verification and reset are not modelled.
- CanonicalSend.Canonical: requests of the wrong JSON type, with unknown or missing keys, are
  refused before the model begins.
- Lines.PeelLoop: the reader's own notes about connecting and disconnecting are left out.
- Crc32.CrcIsoHdlc: the register is its 32 bits, not a machine word.
