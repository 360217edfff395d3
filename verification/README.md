# Verification of the host agent's core

A Dafny model of the agent's algorithmic and concurrent core, with proofs.

- **Store and forward** (`ByteStrings`, `RecordCodec`, `Store`, `Buffer`, `FairBatch`, `Airtime`,
  `RoundRobin`, `Dispatcher`, `ScanWindow`, `Dashboard`): the on-disk cache as a class over a map from 8-byte keys to values, the weighted
  round-robin batch, one dispatch, and the debug server's fold over what it receives. Every method is
  proved against a function on queues (the bucket in key order).
- **The pipeline over whole runs** (`Pipeline`, `Conservation`, `DeliveryOrder`, `ExactlyOnce`,
  `SaveOrder`, `DashboardRuns`, `Drain`, `Blocking`, `Starvation`, `StarvedRuns`, `ManyDispatchers`,
  `Refinement`): saves, prune chunks, peeks, posts, replies and deletes as interleaved
  atomic steps. A request may be applied late or several times, and a reply may be lost. `Refinement`
  shows that the buffer and dispatcher classes take only such steps, saves in the middle of a dispatch
  included.
- **Firmware tables** (`Smbios`, `MemoryInventory`, `SystemUuid`): the SMBIOS walker on arbitrary bytes,
  an encoder after DMTF DSP0134 sections 6.1.2 and 6.1.3, and the walker's two clients (sections 7.18
  and 7.2.1).
- **Concurrency** (`Counting`, `AgentLifecycle`, `StopMeaning`, `SingleFlight`): `Start`/`Stop` and the scan flag as
  small-step machines, one step per locked section or goroutine action.
- **Two smaller algorithms** (`WebSocketFrame`, `Hotfix`): the frame reader after RFC 6455 sections 5.2
  and 5.3, and the ten newest hotfixes with their FILETIME conversion.

`dafny verify dfyconfig.toml` verifies the whole project.

## Where the code and its promises differ

- `Save` admits type names of up to 65535 bytes, but `decodeValue` computes `2+dl` in 16 bits: a stored
  name of 65534 or 65535 bytes makes the reader panic (`RecordCodec.PanicsExactlyOnWrap`).
- The comment on `peekFairBatch` promises each type airtime. Types are served in lexicographic order, so
  a type is certain of a record exactly if the limit exceeds the weights of the types before it
  (`Airtime.AirtimeExactly`): 13 for software inventories, so the promise holds for all seven types
  exactly from a limit of 14 on (`Airtime.AirtimeNeedsFourteen`); a full turn for each needs 16
  (`FairBatch.TurnsNeedSixteen`). The default limit, which the agent uses outside debug mode, is 10.
  There the oldest record of all, a software inventory or a service snapshot, can stay the oldest for
  ever while dispatch after dispatch succeeds (`StarvedRuns.StarvesForEver`).
- `Save` returns without giving back its read lock when the name is too long, so a later `Close` blocks
  for ever (`Buffer.DataBuffer.Save`, `Buffer.Perform`).
- A nil from `Stop` does not mean that the service has stopped: another `Stop` may still be about to
  cancel, waiting, or out of time. With given outcomes of the Stops it means in all runs that both
  workers of every generation launched before have returned if and only if nothing is stored and every
  Stop that took a generation has itself returned nil (`StopMeaning.NilTellsExactly`). A Stop that finds
  nothing stored can return nil while the engine runs (`StopMeaning.SecondStop`), and so can one that
  took a generation, after a restart (`StopMeaning.RestartedStop`).
- `Save` takes its key before the lock. For any sequence of readable saves with distinct timestamps, the
  applied records of each type are a prefix of the saved ones in all prune-free runs and under all
  limits if and only if the timestamps increase within each type (`SaveOrder.PrefixExactly`).
- `PeekBatch` promises to skip invalid records rather than block. A full scan of entries that do not
  decode, one value that makes the decoder panic, or a payload that is not JSON at the head of a type
  which is in every batch stops the dispatcher until the size policy removes it
  (`Blocking.BlockedUntilPruned`, `Blocking.InvalidHeadBlocksExactly`).
- A nil from `Save` does not mean that the record is stored: the size policy it runs may have removed it
  (`Buffer.SparedExactly`, `Buffer.NilButGone`).
- With two dispatchers, which a restart can bring about, nothing is lost and order is kept
  (`ManyDispatchers.ManyConserve`, `ManyDispatchers.ManyApplyPrefix`), but both may delete one batch, so
  successful dispatches no longer bound the waiting time (`ManyDispatchers.StaleDeletesCount`).
- `limit * 20` is 64-bit arithmetic: for a huge limit the scan can fall back to 200 entries, so a batch
  holds min(limit, scan, records) records (`FairBatch.EffectiveLimit`, `FairBatch.HugeLimitFallsBack`).
- The SMBIOS walker never reports the last string of a set (`Smbios.LookupFailsOnLastOnly`).
- `Stop` releases the mutex before it cancels: a `Start` in between runs a second engine beside the
  first, neither told to stop (`AgentLifecycle.RestartCanOverlap`).
- A startup call that finds the scan flag set scans all the same, so two `Run`s of one collector can scan
  at once (`SingleFlight.TwoRunsCanCollide`).
- `filetimeToTime` is exact up to 92233720368547758 ticks past the Unix epoch; one tick later the time
  jumps back before 1970 (`Hotfix.FiletimeExactly`, `Hotfix.FiletimeOrder`).
- `readFrame` panics on any announced length above what the runtime makes a slice of, which covers the
  lengths with the top bit set (`WebSocketFrame.PanicsExactlyOnHugeLengths`).

## Model

| member | source | states |
|---|---|---|
| ByteStrings.LessIsNumeric | internal/buffer/data_buffer.go:84-85 | byte strings of equal width compare lexicographically as their big-endian values compare numerically |
| ByteStrings.LessExactly | internal/service/data_dispatcher.go:223-223 | in Go's string order the first difference decides, and a proper prefix comes first |
| Buffer.KeyRoundTrip | internal/buffer/data_buffer.go:84-85 | timestamps and 8-byte keys correspond one to one |
| Buffer.EntriesOfAscending | internal/buffer/data_buffer.go:132-150 | the cursor's order is strictly ascending time |
| Buffer.PutIsInsert | internal/buffer/data_buffer.go:99-105 | putting under a key inserts at its place in time order, replacing an equal timestamp |
| Store.InsertMembers | internal/buffer/data_buffer.go:99-105 | an entry survives a later save if and only if its timestamp differs: equal timestamps overwrite |
| Buffer.DeleteIsWithout | internal/buffer/data_buffer.go:175-188 | deleting keys removes exactly those entries and keeps the order of the rest; absent keys do nothing |
| Buffer.RawDelete | internal/buffer/data_buffer.go:175-188 | deleting raw keys removes exactly the entries whose timestamps they spell |
| RecordCodec.DecodeEncode | internal/buffer/data_buffer.go:87-95 | decoding what `Save` writes gives back name and payload if and only if the name has at most 65533 bytes |
| RecordCodec.EncodeDecode | internal/buffer/data_buffer.go:263-274 | re-encoding any value that decodes gives the value back |
| RecordCodec.EncodedLayout | internal/buffer/data_buffer.go:87-95 | the stored value is the name's length in two bytes, high byte first, then the name, then the payload |
| RecordCodec.PanicsExactlyOnWrap | internal/buffer/data_buffer.go:263-274 | the decoder's slice bounds fail exactly on stored lengths 65534 and 65535 |
| Buffer.DataBuffer.Save | internal/buffer/data_buffer.go:73-112 | every error case leaves the bucket alone; otherwise the record is in the queue and the size policy ran, whose failure is returned after the commit; the read lock stays held exactly on a too long name |
| Buffer.DataBuffer.PeekBatch | internal/buffer/data_buffer.go:115-156 | exactly the decodable ones among the `limit` oldest entries, oldest first, bucket unchanged; a panic exactly if one of them overflows the decoder, which alone keeps the read lock |
| Buffer.DataBuffer.DeleteBatch | internal/buffer/data_buffer.go:159-194 | removes exactly the entries under the given raw keys, ignoring empty keys and keys of other widths, then applies the size policy; all error cases; the read lock is given back |
| Buffer.DataBuffer.EnforceSizePolicyLocked | internal/buffer/data_buffer.go:196-205 | without a maximum, or with a file size up to it, Ok and the queue unchanged; anything removed means a positive maximum and a first size above it; above it, with the second size above the target and a commit, at least the oldest min(200, all) entries go; in every case queue and outcome are those of the policy function |
| Buffer.PolicyTrigger | internal/buffer/data_buffer.go:196-205 | the policy removes something only for a positive maximum and a first size above it; up to the maximum the outcome is Ok, and a size that cannot be read is a failure |
| Buffer.PolicyPrunes | internal/buffer/data_buffer.go:196-236 | above the maximum, with the second size above the target and a commit, the oldest 200 entries go or all there are, and exactly those if the third size is at most the target |
| Buffer.PolicyStops | internal/buffer/data_buffer.go:196-236 | above the maximum queue and outcome are fixed by the sizes and commits that the prune loop meets |
| Buffer.TargetIsNineTenths | internal/buffer/data_buffer.go:215-219 | for a maximum of at least 2 the target is nine tenths of it rounded down, otherwise the maximum |
| Buffer.DataBuffer.PruneOldestToTargetLocked | internal/buffer/data_buffer.go:215-236 | the loop ends for any sequence of observed sizes, with the queue and outcome of the prune function |
| Buffer.DataBuffer.DeleteOldestChunk | internal/buffer/data_buffer.go:238-261 | the oldest min(n, all) entries go, and their number is returned |
| Buffer.PruneKeepsNewest | internal/buffer/data_buffer.go:215-236 | survivors are a suffix of the key order; n chunks of 200 went, after n sizes above the target and n commits; a size at most the target ends it with Ok, one that cannot be read or a failed transaction with that failure, and otherwise the bucket is empty and the outcome Ok |
| Buffer.PolicyDropsPrefix | internal/buffer/data_buffer.go:196-205 | whatever the size policy does, it drops a prefix of the queue |
| Buffer.SparedExactly | internal/buffer/data_buffer.go:111-111 | after n chunks the entry at position p of the queue is still there if and only if n * 200 <= p |
| Buffer.NilButGone | internal/buffer/data_buffer.go:215-236 | an observed size that never falls empties the bucket, the record just saved included, and reports success |
| Buffer.DataBuffer.Close | internal/buffer/data_buffer.go:62-69 | proceeds if and only if no read lock is held |
| Buffer.Perform | internal/buffer/data_buffer.go:62-194 | after any sequence of calls Close proceeds if and only if none was a save under a too long name or a peek that panicked |
| Store.WithoutPrefix | internal/buffer/data_buffer.go:238-261 | deleting the first keys of a queue is dropping its oldest entries |
| Dispatcher.GroupByType | internal/service/data_dispatcher.go:205-224 | the types in lexicographic order, each with its records of the window in time order |
| Dispatcher.TakeTurn | internal/service/data_dispatcher.go:247-252 | one type's turn appends its next records until weight, group or limit is used up |
| Dispatcher.TakeRound | internal/service/data_dispatcher.go:241-254 | one pass over the types is one round of the schedule, cut at the limit; no progress only if every type is exhausted |
| Dispatcher.TakeTurns | internal/service/data_dispatcher.go:239-257 | the loop yields the first `limit` records of the round-robin schedule |
| Dispatcher.SelectFair | internal/service/data_dispatcher.go:201-259 | the whole window if it fits, otherwise the cut schedule |
| Dispatcher.DataDispatcher.PeekFairBatch | internal/service/data_dispatcher.go:183-259 | nothing for a limit of 0 or less, otherwise the fair batch of the scanned window, buffer unchanged: of the oldest 200 entries for limits up to 10, of the oldest 2000 from 100 on, of 20 times the limit in between |
| FairBatch.ScanLength | internal/service/data_dispatcher.go:188-195 | the scan is twenty times the limit as a 64-bit integer holds it, kept between 200 and 2000 |
| ScanWindow.OnlyTheWindowCounts | internal/service/data_dispatcher.go:188-200 | two queues that agree on their oldest max(200, min(2000, 20 * limit)) entries give the same batch, and panic alike |
| ScanWindow.TheWholeWindowCounts | internal/service/data_dispatcher.go:188-200 | a record at the last of these positions is in the batch if all the others' types come after its own |
| ScanWindow.UnreadableInWindow | internal/buffer/data_buffer.go:132-150 | and a value there that panics the decoder makes the peek panic |
| RoundRobin.BatchExactly | internal/service/data_dispatcher.go:205-257 | an overfull window has exactly one arrangement that keeps each type's order and goes round by round, a type's weight per round, types in lexicographic order; the batch is its first `limit` records and nothing else |
| RoundRobin.BatchOfAll | internal/service/data_dispatcher.go:201-203 | a window that fits is returned as it is |
| FairBatch.WeightExactly | internal/service/data_dispatcher.go:226-237 | weight 3 for hardware, software and security, 2 for processes, services and connections, 1 for every other type |
| Dispatcher.KeysOf | internal/service/data_dispatcher.go:156-159 | the raw keys of a batch spell exactly its timestamps |
| Dispatcher.DataDispatcher.Pick | internal/service/data_dispatcher.go:110-139 | the fair batch if there is one and all its payloads are valid, otherwise the reason for sending nothing |
| Dispatcher.DataDispatcher.Settle | internal/service/data_dispatcher.go:140-174 | only an answer of 200 deletes, and exactly the keys of the posted batch from whatever is queued by then |
| Dispatcher.DataDispatcher.DispatchOnce | internal/service/data_dispatcher.go:110-174 | nothing is sent if one payload is invalid; only an answer of 200 deletes, and exactly the posted keys |
| FairBatch.FairAllocation | internal/service/data_dispatcher.go:205-257 | there are `rounds` and `cut`: each type contributes a time-ordered prefix of size min(n, (rounds+1)*w) before the cut, min(n, rounds*w) after it, and between the two at the one type cut |
| FairBatch.FairShare | internal/service/data_dispatcher.go:176-182 | if n rounds of all present types fit into the limit, every type gets at least min(its records, n*weight), its oldest |
| FairBatch.BatchSize | internal/service/data_dispatcher.go:236-259 | a batch has exactly min(limit, window) records, none of them twice |
| FairBatch.BatchTakesOldest | internal/service/data_dispatcher.go:176-182 | of each type a batch is a prefix of the window's records of that type, for any limit |
| FairBatch.EffectiveLimit | internal/service/data_dispatcher.go:188-195 | when min(limit, scan) is min(limit, 2000): an exact condition on the limit in 64-bit arithmetic |
| FairBatch.HugeLimitFallsBack | internal/service/data_dispatcher.go:189-195 | the limit 2^62 scans 200 entries |
| FairBatch.EngineRoundFits | internal/service/data_dispatcher.go:228-237 | one turn of all the engine's types together takes at most 16 records |
| FairBatch.TurnsNeedSixteen | internal/service/data_dispatcher.go:226-257 | every type of every time-ordered window within the scan gets a full turn, as many records as its weight, if and only if the limit is at least 16 |
| Airtime.EngineAhead | internal/service/data_dispatcher.go:223-237 | the weights of the types served before each of the seven: 0, 3, 4, 6, 8, 11 and 13 in lexicographic order |
| Airtime.AirtimeShare | internal/service/data_dispatcher.go:205-257 | a type gets min(its weight, limit - weights before it) records of every window it is in, or all it has |
| Airtime.NoAirtime | internal/service/data_dispatcher.go:205-257 | when full turns of the types before it use up the limit, a type gets nothing |
| Airtime.AirtimeExactly | internal/service/data_dispatcher.go:176-182 | a type is in the batch of every window it is in if and only if the limit exceeds the weights of the types before it |
| Airtime.AirtimeNeedsFourteen | internal/service/data_dispatcher.go:176-182 | each type gets airtime if and only if the limit is at least 14 |
| Dashboard.DashboardState.HandleIngest | scripts/debug_server/main.go:89-134 | each of the seven named fields becomes the payload of the last item of its type, or stays; a bad body is answered 400 and changes nothing |
| Dashboard.LastOfExactly | scripts/debug_server/main.go:101-126 | that is the last item whose type, trimmed and in lower case, is the field's; without one the field keeps its value |
| Dashboard.LastOfConcat | scripts/debug_server/main.go:101-126 | ingesting two batches one after the other is ingesting their concatenation |
| Conservation.RunsConserve | internal/service/data_dispatcher.go:110-174 | after every run each saved record is in exactly one place: queued with its value, deleted after its batch was answered 200, or pruned |
| Conservation.AtLeastOnce | internal/service/data_dispatcher.go:155-166 | a record neither queued nor pruned was in a request the backend applied and the dispatcher saw answered 200 |
| Conservation.LateSavesSurvive | internal/service/data_dispatcher.go:110-166 | a record saved after the peek is never removed by that dispatch's delete |
| Conservation.PruneTakesOldest | internal/buffer/data_buffer.go:238-261 | a prune chunk removes only records older than all that stay |
| DeliveryOrder.AppliedInOrder | internal/service/data_dispatcher.go:155-166 | with lost replies, late and repeated requests: when a record was applied, every older one of its type was applied or pruned |
| DeliveryOrder.AppliedPrefix | internal/service/data_dispatcher.go:155-166 | without pruning the applied keys of each type are exactly a prefix of that type's saved sequence |
| SaveOrder.PrefixExactly | internal/buffer/data_buffer.go:84-105 | for any sequence of decodable, valid saves with distinct timestamps: in all prune-free runs, under whatever limit, the applied records of each type are a prefix of the saved ones if and only if within each type timestamps increase from save to save |
| SaveOrder.BackwardsKeysLeaveGap | internal/buffer/data_buffer.go:84-105 | for any two saves of a type with timestamps the wrong way round, whatever the others, some run applies the later save and not the earlier |
| DeliveryOrder.OrderIsNeeded | internal/buffer/data_buffer.go:84-105 | the shortest such run, of two saves |
| ExactlyOnce.RunsAreExact | internal/service/data_dispatcher.go:110-174 | if requests are applied exactly when answered 200, saved = applied + outstanding for each type, as sequences |
| ExactlyOnce.DeliveredExactlyOnce | internal/service/data_dispatcher.go:110-174 | then each payload of a type is applied exactly once, in saved order |
| ExactlyOnce.DashboardShowsNewest | scripts/debug_server/main.go:101-126 | folding all applied records leaves the newest payload of each type: the n-th saved one, when n were applied |
| DashboardRuns.Replay | scripts/debug_server/main.go:89-134 | one ingest call for each applied request leaves in every field what folding all their records would |
| DashboardRuns.DashboardAfterRun | scripts/debug_server/main.go:89-134 | so each field of the dashboard holds the newest applied payload of its type |
| Drain.DispatchShrinks | internal/service/data_dispatcher.go:110-166 | one dispatch removes exactly min(limit, scan, records) records, which is min(limit, 2000, records) for every limit whose twentyfold fits 64 bits |
| Drain.EmptyAfterExactlyEnough | internal/service/data_dispatcher.go:110-259 | without saves and prunes, the buffer is empty exactly from the successful dispatch on that brings dispatches times min(limit, scan) to the number of records, min(limit, scan) being min(limit, 2000) for such limits |
| Starvation.DispatchLowersCost | internal/service/data_dispatcher.go:183-259 | a dispatch that passes a record over lowers that record's bound by at least one |
| Starvation.RunsKeepWaiting | internal/service/data_dispatcher.go:110-259 | over any interleaving of saves, failed posts and prunes, a waiting record's cost plus the successful dispatches so far stay within its bound |
| Starvation.StarvationFreedom | internal/service/data_dispatcher.go:110-259 | if the limit exceeds the weights before its type, a record at position p with r of its type ahead has left after (0 if p < scan, else (p-scan)/min(limit,scan)+1) + r/share + 1 successful dispatches, share being min(weight, limit - weights before it) |
| Starvation.StarvationFreedomFromFourteen | internal/service/data_dispatcher.go:110-259 | for a limit of at least 14 that holds for every record |
| StarvedRuns.StarvesForEver | internal/service/data_dispatcher.go:110-259 | otherwise there are prune-free runs meeting all other assumptions in which the oldest record of the buffer is still the oldest after any number of successful dispatches for which there are keys |
| StarvedRuns.StarvationExactly | internal/service/data_dispatcher.go:110-259 | the oldest record, of a given type, leaves with the next successful dispatch in all runs if and only if the limit exceeds the weights before its type |
| StarvedRuns.InventoryStarvesForEver | internal/service/data_dispatcher.go:75-75 | for a limit of 1 to 13, so for the default, a software inventory can starve that way |
| ManyDispatchers.ManyConserve | internal/service/data_dispatcher.go:110-174 | conservation after every run of any number of dispatchers on one buffer |
| ManyDispatchers.ManyDeliverAtLeastOnce | internal/service/data_dispatcher.go:155-166 | and delivery at least once |
| ManyDispatchers.ManyApplyPrefix | internal/service/data_dispatcher.go:155-166 | and, with keys in order and no pruning, the applied records of each type as a prefix of the saved ones |
| ManyDispatchers.StaleDeletesCount | internal/service/data_dispatcher.go:155-166 | two dispatchers that delete the same batch make the bound of StarvationFreedom fail |
| Blocking.CanPeekExactly | internal/service/data_dispatcher.go:110-126 | a batch can be posted if and only if no scanned value panics the decoder, one decodes, and the batch holds valid JSON only |
| Blocking.BlockedUntilPruned | internal/buffer/data_buffer.go:134-140 | a full scan of undecodable entries, a panicking value, or an invalid head of a type that is in every batch: nothing is posted any more in any prune-free run of newer saves |
| Blocking.InvalidHeadBlocksExactly | internal/service/data_dispatcher.go:120-127 | the first record of a type is in the batch of every window it stands in, so that an invalid one blocks them all, if and only if the limit exceeds the weights before its type |
| Refinement.PolicyRefines | internal/buffer/data_buffer.go:196-236 | the size policy is a number of prune-chunk steps of the pipeline |
| Refinement.Agent.Save | internal/buffer/data_buffer.go:73-112 | a committed `Save` under a fresh timestamp, also while a batch is on its way, adds exactly its put and prune chunks to the pipeline's run, reaching the buffer's new queue; any other adds nothing |
| Refinement.Agent.Post | internal/service/data_dispatcher.go:110-139 | the first half of a dispatch extends the run by a peek or by nothing |
| Refinement.Agent.Finish | internal/service/data_dispatcher.go:140-174 | the second half adds exactly the application if there was one, the answer, the deletion or its failure, and prune chunks, reaching the buffer's new queue whatever was saved meanwhile |
| Refinement.Agent.SaveDuringDispatch | internal/service/data_dispatcher.go:110-174 | with a save between the two halves the run grows by the peek, then the put and its chunks, then the rest of the dispatch and its chunks |
| Smbios.ScanStringSet | internal/collector/smbios_windows.go:70-91 | the inner loop ends and computes the string-set scan |
| Smbios.WalkSMBIOSStructures | internal/collector/smbios_windows.go:61-102 | for any bytes and any callback the loop ends with the structures up to the first stop, all slices in bounds |
| Smbios.VisitsFit | internal/collector/smbios_windows.go:61-102 | any table: structures lie one behind the other, take at least 5 bytes, carry their exact bytes and strings; all but the last end at a double NUL |
| Smbios.WalkEndsExactly | internal/collector/smbios_windows.go:61-102 | any table: the walk goes on exactly while a structure of at least four bytes with two more behind it fits |
| Smbios.ScanStopsFirst | internal/collector/smbios_windows.go:74-91 | a string set never extends past the first double NUL |
| Smbios.ScanReads | internal/collector/smbios_windows.go:74-91 | the bytes passed are the reported strings with terminators, one dropped string, and the double NUL unless the table ended |
| Smbios.RoundTrip | internal/collector/smbios_windows.go:61-102 | walking any encoded list of structures visits exactly them, with type, length, formatted bytes, and all strings but the last |
| Smbios.LookupFailsOnLastOnly | internal/collector/smbios_windows.go:104-113 | `smbiosString` agrees with the encoder on a string number if and only if it is not that of the last string |
| MemoryInventory.SizeIsCapacity | internal/collector/hw_detail_windows.go:497-517 | the decoded size is the capacity of DSP0134 section 7.18 in bytes, and below 2^52 |
| MemoryInventory.ParseSMBIOSMemoryDevices | internal/collector/hw_detail_windows.go:486-567 | the callback collects the inventory of the structures visited, which `InventoryOfDevices` describes field by field |
| MemoryInventory.TypeNamesDiffer | internal/collector/smbios_windows.go:115-143 | no two memory type codes share a name |
| MemoryInventory.TypeNames | internal/collector/smbios_windows.go:115-143 | the ten names by their codes, nothing for 0, and 0x with two upper-case digits otherwise |
| MemoryInventory.OneEntryPerDevice | internal/collector/hw_detail_windows.go:486-567 | exactly one entry per memory device, in table order, with a slot name; none is skipped as empty |
| MemoryInventory.InventoryOfDevices | internal/collector/hw_detail_windows.go:486-567 | an encoded table of memory devices and other structures gives exactly one entry for each device, in order: its trimmed locator, else its trimmed bank, else DIMM; its size by unit bit and extended field; its configured speed if not zero, else its rated one; its manufacturer and type; each as far as the structure is long enough, and texts unless they are the dropped last string |
| MemoryInventory.DeviceReadsBack | internal/collector/hw_detail_windows.go:486-567 | the same for one device at the offsets of DSP0134 section 7.18, cut at any length from 0x15 to 0xFF |
| MemoryInventory.CapacityReadsBack | internal/collector/hw_detail_windows.go:497-517 | a capacity written in the two size fields is the size reported |
| SystemUuid.IsAllZeroOrFF | internal/collector/fingerprint_windows.go:35-47 | true exactly for all 0x00 or all 0xFF |
| SystemUuid.FindType1UUIDFromTable | internal/collector/fingerprint_windows.go:49-61 | the 16 bytes of the first long enough Type 1 structure, or nothing |
| SystemUuid.UuidReadsBack | internal/collector/fingerprint_windows.go:24-32 | the text has 36 characters, hyphens at 8, 13, 18 and 23 and lower-case hexadecimal digits elsewhere, and parsing it under the mixed-endian layout returns the 16 bytes |
| SystemUuid.UuidLayout | internal/collector/fingerprint_windows.go:24-32 | the two digits of every byte stand at their place: the first three fields last byte first, the other bytes in order |
| SystemUuid.TextIdentifies | internal/collector/fingerprint_windows.go:24-32 | distinct UUIDs never share a text |
| SystemUuid.PlatformSMBIOSUUID | internal/collector/fingerprint_windows.go:11-33 | empty exactly if there is no such structure or its bytes are blank; otherwise 36 characters, hyphens at 8, 13, 18 and 23, lower-case digits elsewhere, from which its bytes read back |
| SystemUuid.UuidOfEncoded | internal/collector/fingerprint_windows.go:49-61 | in an encoded table it is bytes 8 to 23 of the first structure of type 1 that has at least 24 bytes, and nothing without one |
| AgentLifecycle.OwnStep | internal/service/agent_service.go:75-97 | every goroutine step keeps the wait group equal to the workers announced and not done |
| AgentLifecycle.RunsAreSafe | internal/service/agent_service.go:54-129 | the invariant behind the two lemmas below holds after every interleaving |
| AgentLifecycle.LifecycleSafety | internal/service/agent_service.go:54-129 | each generation is stored, held by one Stop, or cancelled; its channel closes at most once and only after both workers returned; a Stop that took it and returns nil does so only after both returned |
| AgentLifecycle.OverlapsExactly | internal/service/agent_service.go:102-117 | the uncancelled generations number exactly the stored one plus the Stops between unlocking and cancelling |
| AgentLifecycle.RestartCanOverlap | internal/service/agent_service.go:102-117 | a run in which two generations run uncancelled |
| StopMeaning.NilTellsExactly | internal/service/agent_service.go:102-129 | for given outcomes of the Stops, a nil means in all runs that both workers of every generation launched before have returned if and only if nothing is stored and every Stop that took a generation has returned nil |
| StopMeaning.Unsettled | internal/service/agent_service.go:102-129 | for any other outcomes, with and without a dispatcher, a run with them that ends in a nil and has a worker left |
| StopMeaning.SecondStop | internal/service/agent_service.go:110-112 | a Stop that finds nothing stored returns nil while another has yet to cancel |
| StopMeaning.RestartedStop | internal/service/agent_service.go:114-124 | a Stop that took the second generation returns nil while the first is not even cancelled |
| AgentLifecycle.ClosedAfterExactly | internal/service/agent_service.go:73-97 | an exit channel is closed exactly when 11 steps of its generation (7 without a dispatcher) were taken, and until then one is enabled |
| SingleFlight.ActiveExactly | internal/service/sim_collector.go:259-315 | in every reachable state the flag is set exactly while one scan owns it, and the active scans are the owner's and the intruders' |
| SingleFlight.TimersExactly | internal/service/sim_collector.go:301-315 | after any run as many retry timers are pending as failed scans have set and have not gone off |
| SingleFlight.SingleFlightUndisturbed | internal/service/sim_collector.go:278-300 | at most one scan is active whenever no startup call found the flag set |
| SingleFlight.FirstIntrusion | internal/service/sim_collector.go:278-300 | the first startup call that finds the flag set makes two scans active exactly if the flag's owner is scanning just then |
| SingleFlight.SingleFlightInOneRun | internal/service/sim_collector.go:128-198 | within one `Run` at most one hardware scan is active, whatever ticker and retries do |
| SingleFlight.SingleFlightOfTriggers | internal/service/sim_collector.go:205-221 | scans that start only through triggers stay single over any number of `Run`s |
| SingleFlight.TwoRunsCanCollide | internal/service/sim_collector.go:278-300 | two `Run`s with two active scans |
| WebSocketFrame.FrameReader.ReadFull | scripts/debug_server/ws_client.go:101-103 | fills the buffer from the stream, or consumes the rest and reports EOF if there was none and an unexpected EOF otherwise |
| WebSocketFrame.FrameReader.ReadFrame | scripts/debug_server/ws_client.go:99-148 | outcome and remaining stream are those of the parsing function |
| WebSocketFrame.Fold | scripts/debug_server/ws_client.go:124-128 | the eight length bytes fold to their big-endian value without wrapping |
| WebSocketFrame.Unmask | scripts/debug_server/ws_client.go:142-146 | the in-place loop combines octet i with key octet i mod 4 |
| WebSocketFrame.RoundTrip | scripts/debug_server/ws_client.go:99-148 | any opcode, mask, payload and length form below 2^63 reads back, consuming exactly that frame, if the runtime can make a slice of its length, and panics otherwise |
| WebSocketFrame.StreamReadsBack | scripts/debug_server/ws_client.go:99-148 | a concatenation of frames reads back frame by frame |
| WebSocketFrame.AcceptsOnlyFrames | scripts/debug_server/ws_client.go:99-148 | whenever a frame is returned, the bytes consumed are an encoding of it |
| WebSocketFrame.EncodeLayout | scripts/debug_server/ws_client.go:104-146 | the encoding those two lemmas speak of, octet by octet: opcode bits, mask bit, the three length forms, high octet first, the key, and octet i of the payload combined with octet i mod 4 of the key |
| WebSocketFrame.FailsExactly | scripts/debug_server/ws_client.go:99-148 | EOF exactly if the stream ends between two reads, an unexpected EOF exactly if it ends inside one, and no other failure |
| WebSocketFrame.PanicsExactlyOnHugeLengths | scripts/debug_server/ws_client.go:118-141 | a panic exactly when a complete header announces more than the runtime makes a slice of |
| Hotfix.Dedup | internal/collector/hotfix_windows.go:56-62 | the map holds the latest time of each update |
| Hotfix.CollectHotfixes | internal/collector/hotfix_windows.go:56-81 | for any map order: min(10, updates) distinct updates with their latest times, newest first, none left out that is newer than one listed; a zero time shows as no date |
| Hotfix.ReportShows | internal/collector/hotfix_windows.go:73-80 | every listed update is shown with its time, unless that is the zero time |
| Hotfix.TenAtMost | internal/collector/hotfix_windows.go:69-71 | the list has as many entries as there are updates, but at most ten |
| Hotfix.TopIsDetermined | internal/collector/hotfix_windows.go:63-71 | the reported times do not depend on map order or on the sort's treatment of ties; nor the report itself without ties |
| Hotfix.FiletimeExactly | internal/collector/hotfix_windows.go:83-95 | with high * 2^32 + low ticks of 100 ns since 134774 days before the epoch: past the epoch 100 ns per tick if and only if at most 92233720368547758 ticks, and always so in the low 64 bits; the zero time exactly up to the epoch |
| Hotfix.FiletimeOrder | internal/collector/hotfix_windows.go:83-95 | file times compared word by word, high word first, convert in the same order up to there; the next tick is a time before 1970 |

## Left out

- Buffer.DataBuffer.DeleteBatch: records carry their timestamp, and the 8 key bytes are spelled again before deleting; an identity by `Buffer.KeyRoundTrip`.
- Buffer.DataBuffer.PeekBatch: the bucket is created with the buffer; a missing bucket reads the same as an empty one.
- Buffer.DataBuffer.PruneOldestToTargetLocked: the target is 0.9 times the maximum over the reals, without the rounding of 64-bit floats.
- Buffer.DataBuffer.DeleteOldestChunk: the cursor walks the keys as they were at its creation; what a bbolt cursor does when its page changes under it is not part of this model.
- bbolt itself: transactions are atomic, commit or fail by an arbitrary answer, and cursors are ordered; crashes and restarts are not modelled.
- `os.Stat`, `time.Now`, `json.Valid`, the outcome of a post, `strings.TrimSpace` and `strings.ToLower` are parameters, arbitrary unless a property says otherwise.
- Refinement.Agent.Save: assumes a fresh timestamp, as the pipeline's put does; each call of the buffer is one step for the others, which relies on the mutexes and transactions around it.
- DeliveryOrder.AppliedPrefix: assumes that keys increase in commit order within a type, which the code alone does not ensure; `SaveOrder.PrefixExactly` has the exact condition.
- SaveOrder.PrefixExactly: is about saves that decode to valid JSON; others may block the dispatcher and so keep the order by sending nothing.
- Starvation.StarvationFreedom: assumes one dispatcher; `ManyDispatchers.StaleDeletesCount` shows why.
- Blocking.BlockedUntilPruned: an invalid record behind the head of its type, or of a type that the limit can cut off, may or may not block, depending on what is saved after it.
- Conservation.RunsConserve: assumes that no two saves share a timestamp; equal timestamps overwrite (`Store.InsertMembers`).
- Dispatcher.GroupByType: the map of pointers to groups is a map while filling and then a sequence in type order.
- The marshalling of the request body, request timeouts, TLS and HTTP.
- MemoryInventory.ParseSMBIOSMemoryDevices: bit 15 of the size field is read arithmetically.
- `getRawSMBIOSTable`: the table is an arbitrary byte string.
- AgentLifecycle.LifecycleSafety: a locked section is one step, and a runner may return at any time, cancelled or not; deadlines are steps that may always happen once the cancel was called.
- StarvedRuns.StarvesForEver: keys are 64-bit timestamps, so "any number" ends with them.
- SingleFlight.SingleFlightInOneRun: what a scan collects and saves, and the context check of a retry timer, appear only as choices.
- WebSocketFrame.FrameReader.ReadFrame: the longest slice the runtime agrees to make is a parameter; running out of memory below it is not modelled, and `int` has 64 bits.
- Hotfix.CollectHotfixes: starts from the list of update names and times; the registry, the `KB` pattern and the text form of a date are left out.
- Hotfix.SortNewestFirst: an insertion sort stands for `sort.Slice`; only its sortedness and its elements are used.
- Collectors, TTL caches, service installation, options, logging, counters, the web UI and the broadcasting of state: plumbing or easy members.
