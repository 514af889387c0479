# Otedama: a verified model

Otedama is a Bitcoin mining client with a revenue arbitration engine. This project models, in Dafny, the parts of it
that decide something: which work a worker hashes, which pool and address are dialed, which locking script an address
stands for, which nonces a thread tries, which stream a device is assigned to, and what bytes a message becomes.

Code that updates state in place is modelled by classes and by methods with loops. Each such method is proved equal to a
specification function, and the theorems are about those functions. Code that only computes is modelled by functions.

`dafny verify dfyconfig.toml` checks everything.

## Files

| area | files |
|---|---|
| Stratum V2 session | `Messages`, `JobBook`, `MiningState`, `Ledger`, `Session`, `Frames`, `Headers`, `Settlement`, `Verdicts`, `SessionLimits`, `Excuses`, `SessionLoop` |
| Stand-alone job assembler | `Assembler` |
| Reconnect and failover | `Reconnect`, `ReconnectRuns`, `DialHistory`, `Outcomes` |
| Addresses, scripts, coinbase | `Text`, `Base58`, `Regroup`, `Bech32`, `Address`, `Script`, `Published`, `PublishedLegacy`, `Coinbase` |
| Mining arithmetic | `CompactTarget`, `NonceSpace`, `Reissue` |
| Arbitration | `Ordering`, `Arbitration`, `Decision`, `Worth`, `Streams`, `LiveStreams`, `LiveRuns` |
| Mnemonics | `BitStream`, `Mnemonic` |
| Wire format and encrypted transport | `LittleEndian`, `Wire`, `WireReader`, `Noise`, `WireBytes`, `Delivery` |
| Command-line hint | `EditDistance` |
| Shared | `Numerals`, `Results` |

## How the code is modelled

- **Session.** One step is one arm of the session's select loop, or one price tick. Frames are arbitrary decoded
  messages, so the pool is adversarial. The clock, the submit limiter, the outcome of a send and the reject classifier
  are inputs of a step. A run is any sequence of steps, and stops at the step that ends the session.
- **Scheduler.** A run is any sequence of session outcomes in which a degraded session was established and more than one
  pool is configured. That much is proved of the session machine (`Outcomes.GenuineIsPossible`).
- **Live quotes.** A run is any interleaving of quotes, prunings and arbitration ticks. A tick visits the map in an
  arbitrary order and writes to it as the code does.
- **Checksums and ciphers.** The four-byte base58 checksum, the BIP-39 digest and the AEAD are arbitrary functions. The
  AEAD is assumed to open what it sealed under the same counter and to add a 16-byte tag.
- **Numbers.** Fixed-width integers are written out where they wrap: sequence numbers, nonces, timestamps, the cipher
  counters, the stride. Yields and scores are reals.

## Where a promise fails, and exactly when it holds

- **Stale work.** With a zero share target and malformed nBits the session leaves its workers on whatever they had. The
  workers are on current work at every moment of a run exactly when no step is of that kind (`Session.RunCoherent`).
  `SessionLimits.StaleWorkRun` is a four-frame session that ends with a worker hashing the previous tip.
- **Renamed jobs.** A late share is submitted as long as its job id is the active one. The header that the pool rebuilds
  is the header that was hashed, for every share that can be sent in a session, exactly when the pool lets a job id mean
  one merkle root on one tip from when it is hashed on (`Headers.HeadersTrustedIff`). `Headers.RenamedRun` is a session
  of three frames in which two tips name the same job.
- **Sequence wrap.** The sequence number is a `uint32`. The ledger's bounds survive a step exactly when the number does
  not wrap onto a submit (`Settlement.StepLedger`). `SessionLimits.WrapRun` reaches a submit filed under number zero.
- **Kelvin sign.** Case folding sends U+212A to `k`. An upper-case segwit address therefore accepts the Kelvin sign in
  place of `K`. Every other single-character or adjacent-swap typo after the version character is rejected
  (`Address.SubstitutionTypo`, `Address.TranspositionTypo`). `Script.KelvinSignAccepted` gives such an address.
- **Small targets.** Below 0x8000 a target's compact form is one the decoder rejects (`CompactTarget.RoundTripIsFloor`).
- **Many threads.** With more than one worker and more than 2^31 threads in all, every worker starts at the same nonces.
  No header is hashed twice exactly when that is not the case (`NonceSpace.NoDuplicateWork`).
- **Oversize writes.** The transport uses up a nonce before it rejects a write that is too large. The counters stay in
  lockstep exactly when every write fits (`Noise.LockstepIffAllFit`). `Noise.OversizeLosesNext` shows the next message
  lost.
- **Absent ntime.** A job without ntime loses any value left in that field. Every other encodable message reads back
  unchanged (`Wire.MessageRoundTrip`).
- **Excused rejects.** A pool that assigns no share target has its workers grind at the block target. The difficulty
  rejects of such shares are excused as artefacts of a target change that never happened, so they never count against
  the pool's yield (`Excuses.ZeroTargetNeverDegrades`). With the target kept as it is, no reject is excused in any
  session exactly when a target was assigned and no share of an earlier session, ground under another one, is left in
  the channel (`Excuses.ExcuseFreeIff`). `Excuses.ExcusedRun` is the four-event session.
- **Map order.** Merging stream entries does not depend on iteration order exactly when the entries of one provider
  agree wherever both speak (`Streams.OrderFreeIffCompatible`).
- **Quotes written back.** Merging copies a representative's quotes only when there are some. A device-less entry
  visited first is therefore filled, in the live map, with its provider's other quotes, and keeps them when they change
  (`LiveRuns.StaleQuoteRun`). The live entries agree over every interleaving of quotes, prunings and ticks exactly when
  each provider quotes its devices for the same families, and none that sends a device-less quote ever changes a
  device's price (`LiveRuns.SafeIff`).
- **Expired prices.** The copy also outlives a pruning of the device's own entry (`LiveRuns.PrunedQuoteStays`). A price
  leaves the map with its entry, over every interleaving, exactly when no two sources share a key and no provider quotes
  both no device and a device (`LiveRuns.ExpiringIff`).
- **Colliding keys.** A separator inside a provider id can give two sources the same key, and the second then takes over
  the entry (`LiveRuns.CollisionRun`). Sources leave each other's entries alone exactly when their keys differ
  (`LiveRuns.SparesIff`).
- **Repeated work.** A target change hands the active job out again and every thread starts over. Two issues of a job
  share a header exactly when some thread starts the later-stamped one on a header that the other had hashed
  (`Reissue.ReissueRepeatsIff`), so always within one second (`Reissue.SameSecondRepeats`).
- **Largest frames.** A payload within six bytes of the length field's maximum encodes and is then refused on
  reading (`Wire.FrameRoundTrip`).
- **Foreign jobs.** The session ignores a job for another channel and the assembler does not. The two stay in agreement
  exactly on frames that are not such jobs (`Assembler.FrameAgrees`).

Where code and comments disagree the model follows the code:

- `internal/engine/run.go:1231-1236` exempts a new tip from the channel check entirely, not only for the group channel.
- `internal/arbitration/engine.go:536-538` says that equal scores fall back to yield and then to the stream id; the
  sort falls back to the stream id only.
- `internal/stratum/messages.go:32-37` calls B0_32 a fixed field; the extranonce is length-prefixed.

## Model

| member | source | states |
|---|---|---|
| `JobBook.EvictKeepsNewest` | internal/engine/run.go:148-151 | eviction leaves exactly the newest 64 ids, in order, with their own jobs |
| `JobBook.StoreKeepsNewest` | internal/engine/run.go:143-153 | storing keeps map and order list equal as sets, duplicate-free and at most 64 long; the new job is present; a known id keeps its place; otherwise the oldest goes first |
| `JobBook.SixtyFour` | internal/engine/run.go:143-153 | a 65th job evicts the oldest and no other; up to 64, and for a known id, none goes |
| `MiningState.StartJobCoherent` | internal/engine/run.go:1091-1100 | starting a job leaves the workers on current work exactly when a target is usable or nothing was armed |
| `MiningState.OnJobSound` | internal/engine/run.go:1270-1299 | a job frame keeps the job table valid, own-channel only, and workers idle while curtailed or without a tip |
| `MiningState.OnJobCoherent` | internal/engine/run.go:1270-1299 | a job frame never leaves a worker on work that is not current |
| `MiningState.OnTipSound` | internal/engine/run.go:1300-1328 | the same bounds for a new tip |
| `MiningState.OnTipCoherent` | internal/engine/run.go:1300-1328 | a tip strands armed workers exactly when it names a pending job and gives no usable target |
| `MiningState.OnTargetSound` | internal/engine/run.go:1329-1337 | the same bounds for a new share target |
| `MiningState.OnTargetCoherent` | internal/engine/run.go:1329-1337 | a target change strands armed workers exactly when neither target nor nBits is usable |
| `MiningState.OnPriceKeeps` | internal/engine/run.go:214-226 | a price tick keeps every bound, and current work stays current |
| `Frames.PriceGate` | internal/engine/run.go:214-226 | a trusted price below the threshold pauses and rests all workers, one at or above it resumes, any other changes nothing |
| `Frames.OnlyPriceMoves` | internal/engine/run.go:205-226 | no other event moves the gate, and a price moves it to the side it lies on |
| `Frames.JobStarts` | internal/engine/run.go:1270-1299 | a job with a time starts at once under a known tip, on every worker; otherwise it only waits |
| `Frames.TipStarts` | internal/engine/run.go:1300-1328 | a tip is adopted, only its own job stays, and that job starts; without it all workers rest |
| `Frames.TargetStarts` | internal/engine/run.go:1329-1337 | a new share target is adopted and the active job starts again under it |
| `Frames.OnlyOwnFrames` | internal/engine/run.go:1231-1244 | a run is the run of its own frames: leaving out all others changes nothing |
| `Frames.ClosedByPool` | internal/engine/run.go:1231-1244 | the pool ends a session if and only if it closes our channel or our group |
| `Session.StepSound` | internal/engine/run.go:1224-1456 | every step, for any frame, keeps the job-table and idleness bounds |
| `Session.StepCoherent` | internal/engine/run.go:2151-2181 | every step keeps each armed worker on the active job, current prev-hash, nBits and share target, if and only if it is not one of the two stranding frames |
| `Session.RunSound` | internal/engine/run.go:1071-1100 | the bounds hold over every run, whatever the pool sends |
| `Session.RunCoherent` | internal/engine/run.go:1224-1456 | at every moment of a run each armed worker holds exactly the current work, if and only if no step strands a worker in the state it is taken in |
| `Session.StepUsable` | internal/engine/run.go:2154-2161 | a stranding step always leaves the session with neither a share target nor valid nBits |
| `Session.UsableNeverStrands` | internal/engine/run.go:2154-2161 | a run that has one or the other at every moment, in turns or not, strands no worker |
| `Session.NothingArmedBeforeTip` | internal/engine/run.go:1071-1083 | in any run without SetNewPrevHash no worker is armed |
| `Session.SessionMinesCurrentWork` | internal/engine/run.go:1071-1100 | a session from its start: current work at every moment exactly when nothing strands, job table bounded and duplicate-free, idle while curtailed or tipless, headers never stamped before the job's ntime |
| `Session.DegradedEnd` | internal/engine/run.go:1165-1174 | a session that ends as degraded had a second pool to go to and at least 32 verdicts, more than one in ten of them rejects |
| `Session.DegradedIsNoticed` | internal/engine/run.go:1165-1174 | over every run a session ends as degraded if and only if some statistics tick finds it open, with a second pool and below the floor |
| `Ledger.RangeSize` | internal/engine/run.go:1513-1524 | the pigeonhole bound behind the reaper |
| `Ledger.ReapBounds` | internal/engine/run.go:1513-1524 | after reaping at most 513 submits remain |
| `Ledger.SubmitKeys` | internal/engine/run.go:1511-1524 | a submit adds its own number to both maps and removes exactly what is reaped |
| `Ledger.SubmitExact` | internal/engine/run.go:1511-1524 | a submit is filed under the next number with its target; with 1024 outstanding before it only the last 512 numbers stay |
| `Ledger.SubmitValid` | internal/engine/run.go:1462-1524 | below the wrap a submit keeps numbers in 1..seqNum, both maps equal in keys, at most 1024 entries |
| `Ledger.SubmitAtWrap` | internal/engine/run.go:1462-1524 | at the wrap it does so exactly when the ledger is full and the reaper clears all of it |
| `Ledger.CountAtWrap` | internal/engine/run.go:1462-1493 | a dropped share at the wrap keeps the range exactly when nothing is outstanding |
| `Ledger.AcceptExact` | internal/engine/run.go:1338-1385 | an acknowledgement settles every outstanding number up to its last and no other, none when that was never issued; the pool's count is credited from one up to that many |
| `Ledger.RejectKeys` | internal/engine/run.go:1386-1445 | an error removes exactly its own number, and only if outstanding |
| `Ledger.RejectExact` | internal/engine/run.go:1386-1445 | the number leaves, and counts as rejected unless its own target is known, no longer in force, and the text is of the difficulty class |
| `Settlement.StepLedger` | internal/engine/run.go:1338-1528 | every step keeps the ledger bounds if and only if the number does not wrap onto a submit |
| `Settlement.RunLedger` | internal/engine/run.go:1338-1528 | the bounds hold over every session of fewer than 2^32 shares |
| `Settlement.StepKeys` | internal/engine/run.go:1338-1528 | the outstanding set changes by exactly what the step opens, settles and reaps |
| `Settlement.GoneForGood` | internal/engine/run.go:1399-1412 | a number that left the ledger never returns |
| `Settlement.SettledOnce` | internal/engine/run.go:1338-1445 | no number leaves the ledger at two different steps of a run, whatever verdicts the pool sends |
| `Settlement.StepBalance` | internal/engine/run.go:1338-1528 | one step moves shares between the accounts and writes off exactly the uncredited and the reaped |
| `Settlement.RunBalance` | internal/engine/run.go:1338-1528 | conservation from any valid state: every share submitted since is accounted for |
| `Settlement.SessionBalances` | internal/engine/run.go:1338-1528 | accepted + rejected + transition-rejected + outstanding + written off equals submitted, over every session of fewer than 2^32 shares |
| `Excuses.NoRetargetNoExcuse` | internal/engine/stats.go:302-310 | under a non-zero target that the pool keeps, over shares ground from work handed out, no reject is excused |
| `Excuses.ExcusedRun` | internal/engine/stats.go:302-310 | a refused share of any other target is excused though the target never changed |
| `Excuses.ZeroTargetExcuses` | internal/engine/run.go:2154-2161 | with no target assigned the workers' own shares are such shares |
| `Excuses.ExcuseFreeIff` | internal/engine/run.go:1424-1444 | no session with a kept target excuses a reject, if and only if a target was assigned and no leftover share carries another one |
| `Excuses.ZeroTargetNeverDegrades` | internal/engine/run.go:1165-1174 | with no target assigned, a pool whose refusals are all of the difficulty class is never charged a reject and never left as degraded |
| `MiningState.TipNTime` | internal/engine/run.go:1312-1315 | the ntime of a named job is the later of the tip's and its own |
| `Settlement.SentInOrder` | internal/engine/run.go:1462-1507 | submitted messages name the active job on our channel, under increasing numbers, with the share's own nonce, time and version |
| `Headers.SentExactly` | internal/engine/run.go:1462-1507 | a share is sent if and only if it is of the active job and within the rate cap |
| `Headers.HeaderIff` | internal/engine/run.go:1494-1504 | the header rebuilt from a message is the header hashed, if and only if tip, bits and merkle root are still those of the share's work |
| `Headers.IssuedWhenCurrent` | internal/engine/run.go:2151-2181 | all work handed out in a session was current when it was handed out |
| `Headers.HeadersTrustedIff` | internal/engine/run.go:1494-1504 | for every share that can be sent in a session, if and only if a job id means one merkle root on one tip from when it is hashed on |
| `Headers.RenamedRun` | internal/engine/run.go:1300-1328 | two tips naming one job: a late share reaches the pool as another header |
| `Frames.ShareFate` | internal/engine/run.go:1458-1528 | every share takes the next number and is dropped, submitted with its target, or ends the session |
| `Frames.FoundBalances` | internal/engine/run.go:1458-1528 | over every run the shares found are those dropped, those submitted and the one whose sending failed |
| `Verdicts.StepOutstanding` | internal/engine/run.go:1338-1528 | a number is outstanding after a step if and only if the step submits it, or it was and is neither judged nor crowded out |
| `Verdicts.RejectJudgedByItsShare` | internal/engine/stats.go:302-310 | however late a reject comes, it is judged by the target its own share was ground under |
| `Verdicts.AcknowledgedAll` | internal/engine/run.go:1338-1385 | acknowledging the last number without a count, after any run, accepts everything outstanding and leaves nothing |
| `Verdicts.CreditWithinSettled` | internal/engine/run.go:1366-1376 | a claimed count is credited from one up to the numbers settled, and otherwise exactly those |
| `SessionLimits.StaleWorkRun` | internal/engine/run.go:2154-2161 | a run in which the tip has moved on and the worker still hashes the old one |
| `SessionLimits.DropsAdvance` | internal/engine/run.go:1462-1493 | k dropped shares advance the number by k and nothing else |
| `SessionLimits.WrapRun` | internal/engine/run.go:1462-1512 | a run that files a submit under number zero, outside the ledger's range |
| `SessionLoop.PoolSession.constructor` | internal/engine/run.go:1071-1083 | a session starts with idle workers, no jobs, no tip and an empty ledger |
| `SessionLoop.PoolSession.StoreBoundedJob` | internal/engine/run.go:143-153 | the map-and-slice loop is the table's store operation |
| `SessionLoop.PoolSession.UpdateWork` | internal/engine/run.go:2151-2181 | the loop over the workers arms all of them, or none without a usable target |
| `SessionLoop.PoolSession.StartJob` | internal/engine/run.go:1091-1100 | the closure's whole new state |
| `SessionLoop.PoolSession.OnNewMiningJob` | internal/engine/run.go:1270-1299 | the arm is the job step, and the ledger is untouched |
| `SessionLoop.PoolSession.OnSetNewPrevHash` | internal/engine/run.go:1300-1328 | the arm is the tip step, and the ledger is untouched |
| `SessionLoop.PoolSession.OnSetTarget` | internal/engine/run.go:1329-1337 | the arm is the target step, and the ledger is untouched |
| `SessionLoop.PoolSession.OnPriceTick` | internal/engine/run.go:342-371 | the price tick is the price step |
| `SessionLoop.DeleteBelow` | internal/engine/run.go:1358-1365 | ranging over the map in any order deletes from both maps exactly the numbers below the bound, and counts them |
| `SessionLoop.PoolSession.OnSubmitSharesSuccess` | internal/engine/run.go:1338-1385 | in place, the batch settlement; exactly the numbers above the last, or all if that lies ahead, stay outstanding |
| `SessionLoop.PoolSession.OnSubmitSharesError` | internal/engine/run.go:1386-1445 | the arm is the ledger's reject |
| `SessionLoop.PoolSession.FileSubmit` | internal/engine/run.go:1508-1524 | recording and reaping together |
| `SessionLoop.PoolSession.HandleFrame` | internal/engine/run.go:1224-1456 | the whole frame arm, with its channel filter, is the frame step |
| `SessionLoop.PoolSession.HandleShare` | internal/engine/run.go:1458-1528 | in place, the share step; the message has the share's nonce, time and version under the new number |
| `Assembler.JobAssembler.OnNewMiningJob` | internal/poolproto/stratumv2/dialer.go:312-326 | the loop is the same table operation, and emits exactly for a timed job on a known tip |
| `Assembler.JobAssembler.OnSetNewPrevHash` | internal/poolproto/stratumv2/dialer.go:328-345 | keeps only the named job and emits it with the later ntime |
| `Assembler.EngineStartsArmed` | internal/engine/run.go:1091-1100 | a job the engine starts is active and in every worker's header; otherwise work is unchanged, or idle on an unknown tip |
| `Assembler.CleanMeansTip` | internal/poolproto/stratumv2/dialer.go:312-345 | an emission is clean if and only if a tip caused it, and then its job is the only one left |
| `Assembler.FrameAgrees` | internal/engine/run.go:1231-1244 | one frame keeps assembler and engine in agreement if and only if it is not a job for another channel, and both start the same job at the same ntime |
| `Assembler.SameJobs` | internal/poolproto/stratumv2/dialer.go:303-345 | over any run, interleaved with shares and ticks, equal pending jobs and tips, and the same starts in the same order |
| `Reconnect.WalkFinds` | internal/engine/run.go:755-763 | the walk stops at the nearest unmarked pool ahead, or at its start when every other pool is marked |
| `Reconnect.NextFailoverPool` | internal/engine/run.go:755-763 | the loop computes that pool and terminates |
| `Reconnect.StepValid` | internal/engine/run.go:625-746 | every outcome keeps: next pool unmarked, a mark implies an established session, indices in range, base a power of two |
| `Reconnect.FailOver` | internal/engine/run.go:625-723 | the failover half of the loop body is the step function; a degraded session leaves its pool marked, or all pools forgiven and the primary next |
| `Reconnect.RunReconnectLoop` | internal/engine/run.go:522-746 | the loop performs exactly the trace of dials and sleeps |
| `Outcomes.GenuineIsPossible` | internal/engine/run.go:608-632 | what a run of the session machine reports is an outcome the scheduler allows for: degraded only if established, with another pool |
| `Outcomes.SessionsNeverDialMarked` | internal/engine/run.go:522-763 | over any sequence of genuine sessions no dial goes to a marked pool, and every dial and sleep is the one those sessions call for |
| `Reconnect.NeverDialMarked` | internal/engine/run.go:522-763 | no dial of any run goes to a marked pool |
| `DialHistory.LoopFollows` | internal/engine/run.go:522-746 | every run, from dials and outcomes alone: each dial goes to the nearest pool ahead not found degraded, or the primary after all were, at the address due; each sleep and each end is the one due |
| `DialHistory.DegradedNotRedialed` | internal/engine/run.go:624-632 | a pool whose session was found degraded is not dialed again until every pool has had one since the marks were last cleared |
| `Reconnect.MarksClearedTogether` | internal/engine/run.go:672-681 | marks disappear only when every pool carries one, then all at once, with a sleep before the primary |
| `Reconnect.AddressFrozen` | internal/engine/run.go:690-717 | once connected, every later dial uses the same payout address |
| `Reconnect.ConnectedAddressKept` | internal/engine/run.go:611-617 | that address is the one of the dial that connected |
| `ReconnectRuns.RedialAdvances` | internal/engine/run.go:682-712 | a dial without a sleep moves strictly forward in address-then-pool order |
| `ReconnectRuns.BurstBound` | internal/engine/run.go:665-746 | between two sleeps at most pools times addresses dials |
| `ReconnectRuns.FullSweep` | internal/engine/run.go:665-746 | a client that never connects dials every address on every pool, in order, before each sleep |
| `ReconnectRuns.SleepsInRange` | internal/engine/run.go:507-517 | every sleep lies in [0.75, 1.25) of a base that is 1, 2, 4, ..., 64 s |
| `ReconnectRuns.JitterSpread` | internal/engine/run.go:507-517 | the draw moves the sleep evenly through its range, and a failed draw is the base |
| `ReconnectRuns.BackoffDoubles` | internal/engine/run.go:742-744 | without a connection the k-th base is the first doubled k times, capped at 64 s |
| `ReconnectRuns.DialLimit` | internal/engine/run.go:542-546 | a positive attempt limit caps the dials of the run |
| `Base58.Decode` | internal/btccrypto/base58.go:33-53 | the two loops compute the numeral with its leading zeros, or report the first foreign character |
| `Base58.RecodeInverse` | internal/btccrypto/base58.go:33-53 | re-coding a numeral with its leading zeros to another base and back is the identity |
| `Base58.DecodeOfEncode` | internal/btccrypto/base58.go:33-53 | every byte string is decoded from some base58 string |
| `Base58.EncodeOfDecode` | internal/btccrypto/base58.go:33-53 | every accepted string is the encoding of what it decodes to |
| `Base58.DecodeInjective` | internal/btccrypto/base58.go:33-53 | no two base58 strings decode alike |
| `Regroup.ConvertBits` | internal/btccrypto/bech32.go:74-97 | the accumulator loop computes the regrouped number, with both padding rules and the range error |
| `Regroup.StrictInjective` | internal/btccrypto/bech32.go:74-97 | strict regrouping of any widths is injective |
| `Regroup.PadThenStrip` | internal/btccrypto/bech32.go:74-97 | padded regrouping to narrower groups is undone by strict regrouping |
| `Regroup.BytesSurvive` | internal/btccrypto/bech32.go:74-97 | every byte string survives 8-to-5-to-8 |
| `Bech32.ComputePolymod` | internal/btccrypto/bech32.go:43-56 | the nested loops compute the residue |
| `Bech32.StepInjective` | internal/btccrypto/bech32.go:46-54 | a round is injective on 30-bit states |
| `Bech32.SuffixKeepsDifference` | internal/btccrypto/bech32.go:43-56 | no common suffix of any length brings two states together |
| `Bech32.SubstitutionDetected` | internal/btccrypto/bech32.go:43-56 | changing one symbol of a sequence of any length changes the residue |
| `Bech32.TranspositionDetected` | internal/btccrypto/bech32.go:43-56 | swapping two adjacent unequal symbols changes the residue |
| `Bech32.ChecksumUnique` | internal/btccrypto/bech32.go:43-56 | a data prefix has at most one six-symbol checksum for a residue |
| `Bech32.ChecksumReaches` | internal/btccrypto/bech32.go:43-56 | and it has one |
| `Address.ComputeDecodeString` | internal/btccrypto/bech32.go:145-183 | case rule, prefix, length and charset loop, each with its own error |
| `Address.AcceptedIff` | internal/btccrypto/bech32.go:110-200 | a lower-case string is accepted if and only if it is "bc1" and 8 to 87 charset characters whose residue is 1 under version 0 with 20 or 32 bytes, or 0x2bc830a3 under version 1 with 32 |
| `Address.StandardIff` | internal/btccrypto/bech32.go:110-140 | and which kind of address it is |
| `Published.WitnessKeyHash` | internal/btccrypto/bech32.go:110-140 | the BIP-173 example is a P2WPKH address and locks to its published program |
| `Published.Taproot` | internal/btccrypto/bech32.go:110-140 | a published BIP-350 address is a P2TR address and locks to its published program |
| `PublishedLegacy.GenesisLocks` | internal/btccrypto/script.go:60-70 | the first block's address decodes to its published hash and checksum, and locks to that hash |
| `Address.SubstitutionTypo` | internal/btccrypto/bech32.go:110-183 | one wrong character after the version is accepted if and only if it exchanges K and the Kelvin sign |
| `Address.TranspositionTypo` | internal/btccrypto/bech32.go:110-183 | the same for two swapped neighbours |
| `Script.ComputeScript` | internal/btccrypto/script.go:36-79 | validation, second decoding and the byte-by-byte build give the script of the address |
| `Script.ScriptTemplates` | internal/btccrypto/script.go:36-79 | the opcodes of the five kinds of locking script, around the address's own hash or program |
| `Script.SegwitPair` | internal/btccrypto/script.go:36-79 | segwit scripts are equal exactly for addresses equal up to case |
| `Script.LegacyPair` | internal/btccrypto/script.go:36-79 | legacy scripts are equal exactly for equal addresses |
| `Script.MixedPair` | internal/btccrypto/script.go:36-79 | a segwit and a legacy script never coincide |
| `Script.ScriptsDistinguishAddresses` | internal/btccrypto/script.go:36-79 | two accepted addresses share a script if and only if they are equal, or segwit and equal up to case |
| `Script.EveryProgramHasAddress` | internal/btccrypto/script.go:36-79 | every standard witness program is the script of an accepted address |
| `Script.KelvinSignAccepted` | internal/btccrypto/bech32.go:145-160 | an accepted address that stays accepted, with the same script, when K becomes the Kelvin sign |
| `Coinbase.ComputeReadCompactSize` | internal/btccrypto/script.go:141-176 | the four widths are read within bounds or refused |
| `Coinbase.CoinbasePaysScript` | internal/btccrypto/script.go:95-137 | on arbitrary bytes no read is out of range, and both loops together turn at most as often as there are bytes |
| `Coinbase.HeadIsRecognised` | internal/btccrypto/script.go:99-102 | the segwit marker is never confused with an input count of at least one |
| `Coinbase.ExactOnTransactions` | internal/btccrypto/script.go:95-137 | for every transaction with an input, legacy or segwit, the answer is whether some output carries the script |
| `CompactTarget.LessOrEqual` | internal/miner/sha256d.go:93-103 | the byte loop decides numeric order of little-endian hashes |
| `CompactTarget.ComputeTargetFromNBits` | internal/miner/sha256d.go:134-173 | shift, range checks, padding and reversal, with all four errors |
| `CompactTarget.TargetIff` | internal/miner/sha256d.go:134-173 | nBits give a target if and only if sign is clear, mantissa positive, exponent at least three and the number below 2^256, which the target then is |
| `CompactTarget.ComputeNBitsFromTarget` | internal/miner/sha256d.go:178-205 | reversal, sign padding and three kept bytes |
| `CompactTarget.NumberInjective` | internal/miner/sha256d.go:93-103 | a hash is determined by its number |
| `CompactTarget.SmallTargets` | internal/miner/sha256d.go:178-205 | below 0x8000 the compact form is rejected by the decoder |
| `CompactTarget.NoCompactBetween` | internal/miner/sha256d.go:134-205 | no representable target lies strictly between the kept part and the target |
| `CompactTarget.RoundTripIsFloor` | internal/miner/sha256d.go:134-205 | the round trip succeeds if and only if the target is at least 0x8000, and gives the largest representable target not above it |
| `CompactTarget.RoundTripExact` | internal/miner/sha256d.go:134-205 | a representable target of that size survives unchanged |
| `CompactTarget.RoundTripMonotone` | internal/miner/sha256d.go:134-205 | rounding never reverses the order of two targets |
| `NonceSpace.Advance` | internal/miner/worker.go:321-331 | the code's wrap test fires exactly when the position enters the next sweep, so (roll, nonce) is quotient and remainder by 2^32 |
| `NonceSpace.Grind` | internal/miner/worker.go:251-335 | the nested loops hash, in order, the headers at start + m*step |
| `NonceSpace.ProbeInjective` | internal/miner/worker.go:287-331 | within 2^32 sweeps, different positions are different (time, nonce) headers |
| `NonceSpace.Stride` | internal/engine/setup.go:89-92 | the doubling loop gives the least power of two not below the total, without overflow |
| `NonceSpace.StartWorkers` | internal/engine/setup.go:77-98 | every worker gets its offset and step |
| `NonceSpace.FirstPositions` | internal/engine/setup.go:77-98 | threads take the first positions in order, worker by worker, when there is room |
| `NonceSpace.PositionsDistinct` | internal/engine/setup.go:77-98 | different (worker, thread, step) triples are at different positions |
| `NonceSpace.NoDuplicateWork` | internal/miner/worker.go:137-145 | within one issue of a job no header is hashed twice, if and only if there is one worker or at most 2^31 threads in all |
| `Reissue.ReissueRepeatsIff` | internal/miner/worker.go:268-276 | two issues of one job share a header, if and only if some thread starts the later-stamped one on a header that the other had hashed; every thread has its own count and the clock may step back |
| `Reissue.PartitionedRepeatsIff` | internal/engine/setup.go:77-98 | with several workers in separate classes: if and only if one thread with work in both had swept past the gap |
| `Reissue.EvenRepeatsIff` | internal/miner/worker.go:268-276 | in any layout, for equal counts: if and only if the clock moved on by less than each thread had swept |
| `Reissue.SameSecondRepeats` | internal/engine/run.go:1331-1335 | a target change within one second of the issue, or before the job's ntime, repeats work of any thread that hashed in both |
| `NonceSpace.NoncesNeverMeet` | internal/engine/setup.go:80-87 | threads of a partitioned layout never meet on a nonce, however long the job runs |
| `NonceSpace.SingleWorkerCovers` | internal/miner/worker.go:137-145 | one worker reaches every position |
| `NonceSpace.SeveralWorkersCover` | internal/engine/setup.go:77-98 | several workers reach exactly the residues below threads times workers |
| `NonceSpace.FullCoverage` | internal/engine/setup.go:77-98 | nothing is left out if and only if that product is a power of two |
| `Ordering.LeTransitive` | internal/arbitration/engine.go:331-336 | the tie-break order on ids is transitive |
| `Ordering.LeAntisymmetric` | internal/arbitration/engine.go:331-336 | and antisymmetric, so distinct ids are never tied |
| `Arbitration.EffectiveRange` | internal/arbitration/engine.go:96-105 | a quote's worth is positive exactly for positive sats and confidence, and below the sats exactly for confidence below one |
| `Worth.ConfidenceWeighs` | internal/arbitration/engine.go:96-105 | worth is additive in confidence up to one, is the quote there, and does not grow beyond |
| `Worth.SatsWeigh` | internal/arbitration/engine.go:96-105 | worth is additive in the sats |
| `Worth.ChoiceLaw` | internal/arbitration/engine.go:376-473 | on raw fields: a device without a stream gets the eligible one whose sats times confidence, at most one, times policy weight is largest, then the smaller id, at that pay; it is idle if and only if none is eligible |
| `Worth.HighestPay` | internal/arbitration/engine.go:376-448 | under maximize-earnings that is the highest pay of any eligible stream |
| `Worth.LeavesIff` | internal/arbitration/engine.go:478-517 | on raw fields: a device leaves its stream if and only if nothing of that is eligible or the choice outweighs it by more than the margin |
| `Worth.KeptOrMoved` | internal/arbitration/engine.go:418-448 | held back exactly when another stream would be the choice; otherwise it has the choice, and a move is reported |
| `Worth.DecidesIff` | internal/arbitration/engine.go:307-329 | a decision is made if and only if the policy is known, margin and floor are not negative and no device id is repeated |
| `Worth.DecisionReports` | internal/arbitration/engine.go:331-365 | the policy, the number of idle devices, and which of them were idle by their last previous assignment |
| `Worth.FirstDecision` | internal/arbitration/engine.go:331-365 | every device of a first decision has its own choice |
| `Arbitration.RankedOrdered` | internal/arbitration/engine.go:405-416 | the ranking is by score, then id |
| `Arbitration.FirstIsBest` | internal/arbitration/engine.go:418-419 | no viable stream scores above the first of the ranking |
| `Arbitration.ChooseAccounts` | internal/arbitration/engine.go:376-448 | yield plus foregone is the best offer, and both are non-negative |
| `Arbitration.ChooseViable` | internal/arbitration/engine.go:455-473 | an assigned stream accepts the family, clears the floor and pays what is promised; idle means no stream would |
| `Arbitration.ChooseBounded` | internal/arbitration/engine.go:478-517 | margin and policy together cost at most their factors |
| `Arbitration.ChooseStable` | internal/arbitration/engine.go:376-448 | choosing again from the result gives the same stream and yield and no switch |
| `Arbitration.SwitchesOnlyForMargin` | internal/arbitration/engine.go:376-517 | a device leaves its stream if and only if that is no longer a candidate, or one that ranks first beats it by more than the margin; with no candidate left it leaves without a switch |
| `Arbitration.RankingUnique` | internal/arbitration/engine.go:405-416 | the same distinct streams have only one ranking |
| `Arbitration.ChooseOrderFree` | internal/arbitration/engine.go:376-448 | the order in which distinct streams are listed does not matter |
| `Decision.CandidateStreams` | internal/arbitration/engine.go:455-473 | the filter loop keeps exactly the viable streams, in order, and notes offers under the floor |
| `Decision.MaxRaw` | internal/arbitration/engine.go:400-403 | the loop finds the raw maximum |
| `Decision.ChooseForDevice` | internal/arbitration/engine.go:376-448 | the whole choice for a device, hold included |
| `Decision.FindDuplicate` | internal/arbitration/engine.go:323-329 | the set-based check finds a repeated device id if there is one |
| `Decision.Decide` | internal/arbitration/engine.go:307-365 | the loop over sorted devices gives the allocation, or one of four errors |
| `Decision.BooksBalance` | internal/arbitration/engine.go:307-365 | total plus everything foregone is the sum of the devices' best offers |
| `Decision.LossBounded` | internal/arbitration/engine.go:307-365 | total times (1 + margin) is at least that sum under maximize-earnings; other policies add a factor of 1.05 or 1.1 |
| `Decision.DecideStable` | internal/arbitration/engine.go:307-365 | deciding again from the result moves no device |
| `Decision.DecideOrderFree` | internal/arbitration/engine.go:331-362 | any permutation of devices and of distinct streams gives the same allocation |
| `LiveStreams.LiveMap.StreamsSlice` | internal/engine/arbitrate.go:361-392 | lists each provider's merged stream once, and leaves the live map with every quoteless representative filled from its provider's other entries |
| `LiveStreams.LiveMap.MergeEntry` | internal/engine/arbitrate.go:363-387 | one round: the representative absorbs the entry, and writes through to the live entry whose table it shares |
| `LiveStreams.LiveMap.UpdateStream` | internal/engine/arbitrate.go:304-352 | a quote replaces its own entry's families and price, or its default |
| `LiveStreams.UpdateExact` | internal/engine/arbitrate.go:304-352 | the entry from the quote's own fields: key, families, net or gross price, default, mining flag |
| `LiveStreams.WrittenSnoc` | internal/engine/arbitrate.go:363-375 | visiting one more entry changes the live map at most at its provider's representative |
| `Streams.MergeSums` | internal/engine/arbitrate.go:361-388 | merging agreeing entries gives a provider every quote, the common attributes and the default, and nothing else |
| `Streams.OrderFreeIffCompatible` | internal/engine/arbitrate.go:361-388 | the merge is independent of iteration order if and only if each provider's entries agree |
| `Streams.AllocationOrderFree` | internal/engine/arbitrate.go:361-392 | for agreeing entries neither the merge order nor the listing order reaches the allocation |
| `LiveRuns.KeyInjective` | internal/engine/arbitrate.go:307 | without the separator in provider ids a key gives back provider and device |
| `LiveRuns.SparesIff` | internal/engine/arbitrate.go:307-308 | in every live map a quote leaves other sources' entries as they are, if and only if no two sources share a key |
| `LiveRuns.CollisionRun` | internal/engine/arbitrate.go:307-309 | two quotes with one key: the entry ends with the second provider's id and both prices |
| `LiveRuns.UpdateHeard` | internal/engine/arbitrate.go:304-352 | after a quote every entry still holds only what its own provider quoted |
| `LiveRuns.TickHeard` | internal/engine/arbitrate.go:361-388 | after a tick too, and only device-less entries are filled |
| `LiveRuns.MixedRun` | internal/engine/arbitrate.go:378-383 | a device-less quote, a device's quote, a tick and a new price: the live map holds two prices for the device |
| `LiveRuns.StaleQuoteRun` | internal/engine/arbitrate.go:378-383 | the same with concrete quotes, and the merge of the map then depends on the visiting order |
| `LiveRuns.PrunedQuoteStays` | internal/engine/arbitrate.go:289-300 | a pruned price lives on in the device-less entry of its provider |
| `LiveRuns.ExpiringIff` | internal/engine/arbitrate.go:271-300 | over every interleaving a price leaves the map with the entry it was quoted for, if and only if no two sources share a key and no provider quotes both no device and a device |
| `LiveRuns.SafeAndExpiringIff` | internal/engine/arbitrate.go:271-392 | agreement and expiry together, for provider ids of any shape: if and only if keys are apart, families are kept and no provider quotes both ways |
| `LiveRuns.SafeIff` | internal/engine/arbitrate.go:304-392 | when no two sources share a key, the live entries agree over every interleaving of quotes, prunings and ticks, if and only if families are kept and no provider with a device-less quote changes a device's price |
| `LiveRuns.AgreeingOrderFree` | internal/engine/arbitrate.go:361-388 | the merge of a live map is independent of the visiting order if and only if its entries agree |
| `LiveRuns.QuotesOrderFree` | internal/engine/arbitrate.go:304-392 | with such quotes, at every tick of every run, iteration order never reaches the merged streams |
| `LiveRuns.QuotesDecideAlike` | internal/engine/arbitrate.go:361-392 | nor the allocation: any two visiting orders and any two listings of the merged streams decide alike |
| `BitStream.GatherOfSpread` | internal/lightning/seed.go:207-228 | numbers written in w bits each are read back |
| `BitStream.SpreadOfGather` | internal/lightning/seed.go:256-270 | a stream of whole groups is rebuilt from its numbers |
| `Mnemonic.NewWordList` | internal/lightning/seed.go:123-148 | accepts exactly 2048 distinct, non-empty, valid words and indexes each at its place |
| `Mnemonic.EntropyToMnemonic` | internal/lightning/seed.go:187-230 | the bit loops compute the encoding |
| `Mnemonic.MnemonicToEntropy` | internal/lightning/seed.go:237-282 | lookup, packing and checksum loops compute the decoding, with its three errors |
| `Mnemonic.MutualInverse` | internal/lightning/seed.go:187-282 | a mnemonic decodes to an entropy if and only if that entropy encodes to the mnemonic, for any word list and digest |
| `Mnemonic.IndicesNumber` | internal/lightning/seed.go:187-230 | the word numbers in base 2048 are the entropy as a number followed by the high bits of the digest, one for four bytes |
| `Mnemonic.LengthsExact` | internal/lightning/seed.go:187-200 | five lengths are taken, with three words for four bytes |
| `Mnemonic.RoundTrip` | internal/lightning/seed.go:187-282 | every valid entropy survives, and no two entropies share a mnemonic |
| `LittleEndian.LeRoundTrip` | internal/stratum/wire.go:101-126 | a fixed-width integer reads back |
| `LittleEndian.LeBytesOfValue` | internal/stratum/wire.go:101-126 | and its bytes are determined by its value |
| `Wire.GetPut` | internal/stratum/wire.go:28-126 | a field reads back whatever follows it |
| `Wire.GetAllPutAll` | internal/stratum/handshake.go:46-87 | a record of any fields reads back whatever follows it |
| `Wire.JobRoundTrip` | internal/stratum/messages.go:105-162 | a job reads back, with an absent ntime reset to zero |
| `Wire.ErrorTextRoundTrip` | internal/stratum/messages.go:331-357 | the two errors with an optional text read back |
| `Wire.HandshakeRoundTrip` | internal/stratum/handshake.go:46-270 | the connection-setup messages read back |
| `Wire.RecordRoundTrip` | internal/stratum/messages.go:181-386 | the fixed-layout mining messages read back |
| `Wire.MessageRoundTrip` | internal/stratum/messages.go:557-568 | every encodable message dispatches to itself if and only if it is canonical |
| `Wire.ChannelIdLeads` | internal/stratum/frame.go:154-162 | the payload of a channel-scoped message starts with its channel id |
| `WireBytes.HeaderExact` | internal/stratum/frame.go:173-187 | the six header bytes, low bytes first |
| `WireBytes.FrameExact` | internal/stratum/messages.go:51-63 | for every message the type byte, the channel bit, the length and the payload |
| `WireBytes.FrameLimits` | internal/stratum/frame.go:125-140 | which frames are written, and which of those can be read |
| `WireBytes.PayloadExact` | internal/stratum/messages.go:105-371 | every encodable message is exactly its fields' bytes in wire order; every other is refused |
| `WireBytes.EncodableIff` | internal/stratum/wire.go:28-66 | refused are exactly a text over 255 bytes and an extranonce over 32 |
| `WireBytes.PacketExact` | internal/stratum/noise.go:303-320 | a packet is the ciphertext's length in two bytes and the ciphertext |
| `WireBytes.FittingIff` | internal/stratum/noise.go:303-310 | a write fits if and only if it is at most 65519 bytes |
| `Wire.HeaderRoundTrip` | internal/stratum/frame.go:173-232 | a header reads back |
| `Wire.FrameRoundTrip` | internal/stratum/frame.go:195-303 | an encoded frame is read back from a stream, and the rest is untouched, if and only if it is within the decoder's limit; otherwise it is refused |
| `Wire.ReadFramed` | internal/stratum/messages.go:394-408 | encode, wrap and frame, then parse and dispatch, give the message and the rest of the stream |
| `WireReader.ByteReader.ReadFull` | internal/stratum/wire.go:139-151 | reading advances over exactly the bytes returned |
| `WireReader.ByteReader.GetText` | internal/stratum/wire.go:37-50 | length byte and bytes, within bounds |
| `WireReader.ByteReader.GetFields` | internal/stratum/handshake.go:62-87 | field-by-field reading is the record decoder |
| `WireReader.AppendFields` | internal/stratum/handshake.go:46-59 | field-by-field appending is the record encoder |
| `WireReader.Encode` | internal/stratum/messages.go:105-371 | the encoders produce the payload or refuse an oversize field |
| `WireReader.ReadSetupConnection` | internal/stratum/handshake.go:62-87 | the reader-driven decoder of SetupConnection |
| `WireReader.ReadSetupConnectionError` | internal/stratum/handshake.go:136-147 | of SetupConnectionError |
| `WireReader.ReadOpenMiningChannel` | internal/stratum/handshake.go:188-207 | of OpenMiningChannel |
| `WireReader.ReadOpenMiningChannelSuccess` | internal/stratum/handshake.go:248-271 | of OpenMiningChannelSuccess, lenient on the extranonce |
| `WireReader.ReadOpenMiningChannelError` | internal/stratum/handshake.go:290-305 | of OpenMiningChannelError, whose text may be missing |
| `WireReader.ReadSubmitSharesError` | internal/stratum/messages.go:338-354 | of SubmitSharesError, whose text may be missing |
| `WireReader.ReadCloseChannel` | internal/stratum/messages.go:374-385 | of CloseChannel |
| `WireReader.ReadNewMiningJob` | internal/stratum/messages.go:130-162 | of NewMiningJob, with its option count |
| `WireReader.EncodeHeader` | internal/stratum/frame.go:173-187 | writes exactly the six header bytes into the buffer, or nothing |
| `Noise.WrittenIsRead` | internal/stratum/noise.go:303-349 | fitting writes come out concatenated, and both counters moved once per write |
| `Noise.LockstepIffAllFit` | internal/stratum/noise.go:79-101 | the counters end equal if and only if no write was too large |
| `Noise.OversizeLosesNext` | internal/stratum/noise.go:303-310 | after an oversize write the next message no longer opens |
| `Noise.EncryptedConn.Write` | internal/stratum/noise.go:303-320 | one packet per fitting write; a rejected write advances the counter only |
| `Noise.EncryptedConn.Read` | internal/stratum/noise.go:326-349 | hands out a prefix of the pending plaintext, of at most the asked size, and loses nothing |
| `Noise.EncryptedConn.ReadFull` | internal/stratum/frame.go:276-278 | collects exactly n bytes over any split into packets, and fails only when fewer are pending |
| `Delivery.Receive` | internal/stratum/frame.go:270-303 | reading a frame over the connection is parsing the pending plaintext |
| `Delivery.StreamRoundTrip` | internal/stratum/messages.go:557-568 | a concatenation of frames reads back as the messages |
| `Delivery.EndToEnd` | internal/stratum/noise.go:303-349 | any messages that fit a packet arrive as the same messages in order, counters in lockstep |
| `Delivery.SendAll` | internal/engine/run.go:2116-2135 | one write per message |
| `Delivery.Deliver` | internal/stratum/noise.go:294-349 | two connection objects: received equals sent, and the counters are equal |
| `EditDistance.Levenshtein` | cmd/otedama/main.go:170-189 | the two-row loop computes the distance |
| `EditDistance.Symmetric` | cmd/otedama/main.go:170-189 | the distance is symmetric |
| `EditDistance.Triangle` | cmd/otedama/main.go:170-189 | and obeys the triangle inequality |
| `EditDistance.ZeroMeansEqual` | cmd/otedama/main.go:170-189 | and separates different strings |
| `EditDistance.NoShorterScript` | cmd/otedama/main.go:168-189 | no edit script is shorter |
| `EditDistance.DistanceIsLeast` | cmd/otedama/main.go:168-189 | it is the least length of an insert, delete and replace script |
| `EditDistance.Suggest` | cmd/otedama/main.go:157-166 | the hint is the first of the nearest commands, given if and only if one is within two edits |

## Left out

- The arbitration pause set inside a session: devices are unpaused there.
- Latency, uptime, rate and hashrate statistics, logging, metrics, the dashboard and the HTTP server: no decision
  depends on them except the yield floor, which is modelled.
- Reject classification: which text counts as a difficulty reject is a parameter.
- The submit rate limiter: whether a token is available is an input of the share step.
- Stratum V1, its JSON parsing and its session loop.
- The Noise handshake and the key schedule.
- SHA-256, HMAC, PBKDF2, scrypt, AES-GCM and ChaCha20-Poly1305: arbitrary functions, or absent.
- Floating-point rounding, NaN and infinity in yields and rates; the difficulty conversions built on big floats.
- The 80-byte block header codec and the double hash: they would only add a fixed-layout round trip.
- Applying an allocation to workers, providers and price fetching; which quotes are stale is an input of a pruning.
- The Stratum V1 session's own degraded exit (internal/engine/run.go:1722-1731): taken to be like the V2 one.
- Configuration, wallet files, service installation, device detection.
- Upper and lower case of letters outside ASCII, other than the Kelvin sign: only the kind of error could differ.
- Regroup.ConvertBits: its accumulator is an unbounded number, where the source's wraps; the bits that wrap away are
  never read again.
- Noise.EncryptedConn.Read: a packet cut short by the end of the stream uses up the remaining bytes at once.
- LiveStreams.LiveMap.StreamsSlice: the table a representative may share with its live entry is modelled by writing to
  both, not by a reference.
- LiveRuns.SafeIff: for sources that share a key, agreement alone is not characterised; `LiveRuns.SafeAndExpiringIff`
  covers them together with expiry.
- Reissue.ReissueRepeatsIff: rolled timestamps stay below 2^32.
- Verdicts.StepOutstanding: the step from the last sequence number, which `Settlement.StepLedger` covers.
- PublishedLegacy.GenesisLocks: the checksum function is a parameter, so acceptance is stated for the published checksum.
- NonceSpace.NoDuplicateWork: thread counts of 2^32 and more, which the source rules out by comment, would be truncated.
- Mnemonic.NewWordList: the UTF-8 test is a parameter.
- Wire.HandshakeRoundTrip: the nominal hashrate is its bit pattern.
- Delivery.Deliver: both ends live in one process and the wire loses nothing.
