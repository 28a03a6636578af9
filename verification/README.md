# Verified models of the gateway plugins

This project models, in Dafny, the parts of the repository that carry its hard guarantees, and
proves those guarantees for every input, every run and every interleaving.

- **Session registry** (`plugins/opencode/registry.go`, `sessionid.go`, `session.go`): the durable map
  from (principal, conversation) to a session id, with leases, termination, TTL and LRU eviction,
  atomic persistence and crash recovery. `Registry` specifies the operations, class
  `SessionRegistry` implements them in place, `RegistryOrder`, `RegistryInvariant`,
  `RegistryRecovery`, `RegistryRuns`, `RegistryClock`, `RegistryIdentity`, `RegistryLru`,
  `RegistryReopening` and `RegistryTermination` prove what they promise, and `RegistryAnswers` says exactly
  what each operation answers and leaves, without the functions it is built from. `SessionId` and class
  `IdGenerator` cover the descending identifier.
- **Handler** (`handler.go`): calls, stream pumps, reconfiguration and shutdown as a transition system
  over the registry, one access to shared state per step; `HandlerProgress` shows that a drain ends.
- **Streaming, OpenCode** (`response.go`, `transport.go`): `Sse` specifies the framing; `Response` and
  class `ResponseDecoder` the decoder; `Assembly` the completion; `Acceptance` which responses are
  accepted at all; `Relay` the commit at the end of the stream; `Pump` the goroutine behind the chunk
  channel, joined with the relay.
- **Streaming, Cline** (`stream.go`, `host_stream.go`, `executor_stream.go`): `ClineStream` and class
  `StreamParser`, `ClineAcceptance`, `HostStream` and class `HostStreamBody`, `ClinePump` and the pump loop
  in `StreamPumps`.
- **Live budget ledger** (`native/opencode/live_safety.py`): `LiveGuard` specifies the operations, class
  `LiveGuard` in `LiveGuards` implements them, `LiveGuardAnswers` says exactly when each of them grants,
  `LiveGuardRuns` and `LiveGuardBarrier` treat successive processes with failing saves and crashes
  between any two steps.
- **Device login** (`device_login.go`): `DeviceLogin` and class `DeviceLoginManager`; `DevicePace` compares
  the pace of a run with the interval that was granted.

`dafny verify dfyconfig.toml` checks the whole project.

## What is assumed

- Clocks, random bytes, freshly minted ids, host answers, emission results, write outcomes and crashes
  are parameters, and the theorems hold for all of them. Minted session ids and login states are
  assumed new. The registry theorems outside `RegistryClock`, and those of the handler, ask for a clock
  that is positive and never runs back (`GoodClock`). The cooldown barriers and
  `SessionId.StrictlyDescending` ask for one that never runs back. Nothing else does.
- A state file or ledger is replaced atomically, or not at all, and a write can fail after the replace.
  An exclusive file lock admits one owner.
- JSON text is parsed by a codec that is a parameter: what a frame says is an arbitrary function of its
  bytes. Dictionaries are iterated in arbitrary order, and the results are proved not to depend on it.

## What came out

Where a property does not hold as one might read it, and other findings, with the members that state
the condition or the example:

- `Create` can answer an id that is neither in memory nor on disk, exactly when the clock jumps by more
  than the TTL between stamping the new entry and evicting (`AnsweredIsDurable`, `CreateCanForget`).
- With a clock that runs back the registry can write a state file that it rejects for good: exactly
  when a call or a recovery stamps an entry that stays with a reading before its creation
  (`StaysOpenIff`, `StepLoadsIff`, `BackwardsClockLocksOut`).
- Crash recovery restarts the idle time of a lapsed lease without moving it in the order, so the
  reopening can itself evict the newest session: exactly when an unexpired entry in the surplus stands
  out of order before one outside it (`ReopeningEvictsOldest`, `EveryBoundEvictsOldest`,
  `RecoveryCanEvictNewest`). `ReopenedOrder` is the same for the evictions after it.
- A cooldown recorded from other evidence can be replaced by the earlier reset of a later rejection
  (`ShorteningIsExact`, `CooldownCanShrink`). A reset recorded by a rejection cannot (`CooldownBarrier`).
- `DoStream` under a context that is cancelled can close its channel early without an error chunk
  (`CancelTruncates`); the handler never cancels that context.
- The 4097th identifier of a millisecond repeats a time part (`NextSortsFirst`, `Collision`).
- Two tests in `response.go` cannot fail: the frame size after joining a data line
  (`JoinNeverOverflows`) and the leftover buffers after DONE (`DoneLeavesNothing`).
- A host read that carries both a payload and an error delivers the payload in the OpenCode transport
  and drops it in the Cline body (`Pump.ChunksAreTheHosts`, `HostStream.ReadsServeTheHost`).
- A device-login interval with a fraction is rounded down, so polls may come up to a second early;
  the interval is honoured in every run exactly when it is whole or no request can come before expiry
  (`DevicePace.GrantHonouredIff`, `DevicePace.HalfSecondEarly`).

## Model

| member | source | states |
|---|---|---|
| SessionId.HexOrder | plugins/opencode/sessionid.go:76-82 | Fixed-width hex text compares, byte by byte, exactly as the numbers it spells, and spells distinct numbers differently. |
| SessionId.Complement | plugins/opencode/sessionid.go:63-69 | The ascending and descending 48-bit values of one (timestamp, counter) are complements, for all timestamps, wrap-around of the 64-bit word included. |
| SessionId.DescendingOrder | plugins/opencode/sessionid.go:57-82 | Inside one 2^36 ms epoch the text order of descending time parts is the reverse of the order of the (timestamp, counter) instants, and equal texts mean equal instants. |
| SessionId.OrderModulo | plugins/opencode/sessionid.go:57-82 | For all states, epochs and wrap-around included: descending text order is the reverse of the order of the instants modulo 2^48, and equal texts mean equal remainders. |
| SessionId.NextSortsFirst | plugins/opencode/sessionid.go:57-69 | The next descending identifier sorts before its predecessor if and only if the clock stands still or no more than 4096 identifiers were handed out per elapsed millisecond. |
| SessionId.Collision | plugins/opencode/sessionid.go:57-69 | Identifier 4097 of a millisecond has the same time part as the first of the next, ascending and descending. |
| SessionId.StrictlyDescending | plugins/opencode/sessionid.go:54-83 | In a run with non-decreasing timestamps, one epoch and at most 4096 identifiers a millisecond, every later time part sorts strictly before every earlier one. |
| SessionId.MintedIsValid | plugins/opencode/session.go:35-52 | Whatever the generator state and the random bytes, a minted identifier has the shape the validator and the state file demand, untrimmed. |
| SessionId.TimePartReads | plugins/opencode/sessionid.go:57-82 | Read as a hexadecimal number, a time part is timestamp times 4096 plus counter, modulo 2^48, or its complement. |
| SessionId.NthOfMillisecond | plugins/opencode/sessionid.go:57-62 | The n-th identifier asked for in one millisecond carries that millisecond and n, whatever came before. |
| SessionId.MintedReads | plugins/opencode/sessionid.go:104-138 | A minted identifier is ses_, twelve digits that read as the complement of the instant, and fourteen characters, each picked by one random byte modulo 62. |
| SessionId.ValidIs | plugins/opencode/session.go:35-52 | The validator accepts, white space at the ends aside, exactly ses_ with twelve lower-case hexadecimal digits and fourteen letters or digits. |
| Text.TrimIs | plugins/opencode/registry.go:175-177 | Trimming takes away the white space at both ends, all of it, and nothing else. |
| Text.SpaceIs | plugins/opencode/registry.go:390-391 | White space is the White_Space of the Unicode standard, code point by code point. |
| IdGenerators.IdGenerator.IdentifierTimeParts | plugins/opencode/sessionid.go:54-83 | The shift-and-mask loops over byte arrays spell exactly the 48-bit time value of the advanced generator state. |
| IdGenerators.IdGenerator.NewSessionId | plugins/opencode/sessionid.go:104-138 | An identifier is minted from the advanced state unless the random source fails; it is always valid. |
| IdGenerators.RandomTail | plugins/opencode/sessionid.go:88-98 | The tail loop maps every random byte into the 62-character alphabet, in order. |
| SessionRegistries.SessionRegistry.Create | plugins/opencode/registry.go:111-140 | A new registry is empty, with the default TTL and idle bound wherever the options are not positive. |
| SessionRegistries.SessionRegistry.Load | plugins/opencode/registry.go:190-257 | Loading the file (missing, unreadable, another version, or entry by entry), evicting, and rewriting it if something was recovered gives what Open gives: a registry, or rejection; an unreadable file or another version is rejected without reading the clock. |
| SessionRegistries.SessionRegistry.PersistLocked | plugins/opencode/registry.go:261-310 | The file becomes the entries in LRU order, or the registry fails for good; a failed directory sync does both. |
| SessionRegistries.SessionRegistry.TouchLocked | plugins/opencode/registry.go:320-328 | The in-place loop moves one key to the tail and keeps the order of the others. |
| SessionRegistries.SessionRegistry.EvictLocked | plugins/opencode/registry.go:333-372 | The two in-place passes leave exactly the map and order of the specification, and report how many went. |
| SessionRegistries.DropExpired | plugins/opencode/registry.go:336-351 | The TTL pass, deleting while it scans, keeps exactly the unexpired keys in order. |
| SessionRegistries.DropOldest | plugins/opencode/registry.go:353-372 | The LRU pass, deleting while it scans, drops the first idle keys beyond the bound and no others. |
| SessionRegistries.CountIdle | plugins/opencode/registry.go:353-358 | The counting loop counts the idle entries of the order. |
| SessionRegistries.SessionRegistry.ResolveLocked | plugins/opencode/registry.go:389-440 | Create and Acquire: state, file, clock readings and answer are those of Registry.Resolve on every path, terminated, failed and unminted ones included. |
| SessionRegistries.SessionRegistry.ReferenceLocked | plugins/opencode/registry.go:445-460 | Reference adds a lease in place without moving the key, or refuses; state, file and clock as specified. |
| SessionRegistries.SessionRegistry.ReleaseLocked | plugins/opencode/registry.go:464-483 | Release takes one lease back, makes the entry idle and newest at the last, then evicts and persists. |
| SessionRegistries.SessionRegistry.TerminateLocked | plugins/opencode/registry.go:489-506 | Terminate marks an unleased entry for good and refuses a leased one. |
| SessionRegistries.SessionRegistry.LookupLocked | plugins/opencode/registry.go:510-521 | Lookup changes nothing but the clock position and answers as specified. |
| SessionRegistries.SessionRegistry.Close | plugins/opencode/registry.go:143-148 | After Close the registry is closed; file and entries stay. |
| RegistryOrder.DropIdleExact | plugins/opencode/registry.go:353-372 | The victims of the LRU pass are precisely the first n idle keys. |
| RegistryOrder.EvictionExact | plugins/opencode/registry.go:333-372 | A key survives eviction if and only if it is listed, unexpired, and not among the first max(0, idle - maxIdle) idle ones; what survives is unchanged. |
| RegistryOrder.EvictedListing | plugins/opencode/registry.go:333-372 | After eviction the order is still a duplicate-free listing of the map. |
| RegistryOrder.EvictedBound | plugins/opencode/registry.go:353-372 | After eviction at most maxIdle entries are idle. |
| RegistryOrder.VictimIsOldest | plugins/opencode/registry.go:353-372 | If idle keys occur by time of last use, an LRU victim was last used no later than any idle entry that stays. |
| RegistryAnswers.ResolveAnswers | plugins/opencode/registry.go:389-440 | Create and Acquire are refused exactly for a blank name or one with NUL, a closed or failed registry, a terminated session in its time, an identifier that cannot be minted, or a write that does not work; otherwise the answer is the id of the entry or the new one, the entry has the new times and leases, the key is the last of order and file, and the others stand as they stood. |
| RegistryAnswers.ReferenceAnswers | plugins/opencode/registry.go:445-460 | Reference succeeds exactly for a running registry, an entry neither terminated nor idle past its time, and a working write; it adds one lease and leaves the order alone. |
| RegistryAnswers.ReleaseAnswers | plugins/opencode/registry.go:464-483 | Release succeeds exactly for a running registry, an entry with leases and a working write; the last lease makes the entry idle from now and its key the last of the order, another leaves key and time in place. |
| RegistryAnswers.TerminateAnswers | plugins/opencode/registry.go:489-506 | Terminate succeeds exactly for a running registry, an entry without leases and a working write; the entry is marked where it stands. |
| RegistryAnswers.LookupAnswers | plugins/opencode/registry.go:510-521 | Lookup changes nothing and answers the id of an entry neither terminated nor idle past its time, else the empty text; Close changes only the closed flag. |
| RegistryAnswers.EvictionAnswers | plugins/opencode/registry.go:333-372 | Eviction keeps exactly the entries in time and, of the idle ones, those after which fewer than maxIdle idle entries in time were used; unchanged, and in the order in which they stood. |
| RegistryAnswers.NewEvicts | plugins/opencode/registry.go:417-440 | A Create or Acquire of a new session so evicts from the entries in time with the new one last, at the reading after its stamp. |
| RegistryAnswers.ReleaseEvicts | plugins/opencode/registry.go:464-483 | A Release so evicts from the memory with the lease given back. |
| RegistryAnswers.OpenAnswers | plugins/opencode/registry.go:111-257 | Any file at any readings: opening is refused exactly for a malformed entry, a session id twice, a name twice (unless the earlier entry is a terminated one past its time), or a write that is due and fails; otherwise what is not gone comes back in order, leased entries idle from now without leases, and is then evicted; a write is due exactly when a lease lapsed or something was evicted. |
| RegistryInvariant.KeyReachesOwnEntry | plugins/opencode/registry.go:175-177 | Whatever the arguments contain (NUL, spaces), a key reaches an entry if and only if they trim to the identity of that entry. |
| RegistryInvariant.Partition | plugins/opencode/registry.go:175-177 | Two pairs that differ after trimming never share an entry nor a session id. |
| RegistryInvariant.StepKeepsInv | plugins/opencode/registry.go:379-521 | Every operation, whatever the write outcome, keeps: duplicate-free listing, active exactly when leased, terminated without leases, distinct ids, sane times, idle count within the bound. |
| RegistryInvariant.StepKeepsOrder | plugins/opencode/registry.go:320-506 | Every operation keeps idle entries in order of last use, although Reference and Terminate change times without moving keys. |
| RegistryInvariant.LeaseAccounting | plugins/opencode/registry.go:389-483 | While no write has failed, the answers of the operations account for every lease: each granted Acquire or Reference adds one, each granted Release takes one, nothing else does. |
| RegistryInvariant.LeaseFloor | plugins/opencode/registry.go:389-483 | Even a failing operation never takes a lease away, except a Release its own. |
| RegistryInvariant.LeaseProtects | plugins/opencode/registry.go:333-506 | A leased entry survives every operation with its session id, and cannot be terminated. |
| RegistryInvariant.SweepDecides | plugins/opencode/registry.go:389-440 | Between operations the first eviction of resolve removes the expired entries and nothing else. |
| RegistryInvariant.LookupIsCreate | plugins/opencode/registry.go:389-521 | A non-empty Lookup is exactly what an immediate Create or Acquire answers; after an empty one it can only answer a fresh id or refuse. |
| RegistryRecovery.LoadAccepts | plugins/opencode/registry.go:190-257 | A file the registry wrote is never rejected entry by entry, and loads to the recovered entries in order. |
| RegistryRecovery.OpenRecovers | plugins/opencode/registry.go:111-257 | Reopening such a file fails only if its write does, and yields exactly recovery then eviction: same ids, no leases, active entries idle from now. |
| RegistryRecovery.LoadOneStep | plugins/opencode/registry.go:214-249 | One entry of a good file is accepted, keeps what was loaded, and is dropped only if it is a lapsed terminated one. |
| RegistryRuns.StepKeepsDisk | plugins/opencode/registry.go:261-506 | Between operations memory and file differ only by entries that had expired at some earlier reading. |
| RegistryRuns.CrashSimulation | plugins/opencode/registry.go:190-257 | So recovering the file after a crash is recovering the memory that was lost. |
| RegistryRuns.AnsweredIsDurable | plugins/opencode/registry.go:389-440 | An id that was answered is on disk under its key if and only if it was leased, or known before, or the clock did not jump by more than the TTL inside the call. |
| RegistryRuns.CreateCanForget | plugins/opencode/registry.go:417-440 | The other case exists: a Create answers an id that neither memory nor file holds. |
| RegistryRuns.RunsKeepWorld | plugins/opencode/registry.go:111-521 | Every run of operations, failed writes, crashes and reopenings keeps the invariant and a readable file. |
| RegistryRuns.ReopenAfterAnyRun | plugins/opencode/registry.go:111-257 | After any such run a reopening whose write succeeds is never refused, and restores exactly the recovery of the lost memory (of the file, if the last process had failed). |
| RegistryClock.LoadExact | plugins/opencode/registry.go:190-257 | Exactly which files are loaded, for every file and reading: every entry acceptable, no session id twice, and no key twice unless the earlier entry is terminated and past its TTL. |
| RegistryClock.StepStamps | plugins/opencode/registry.go:379-521 | Under any clock and write outcome an operation changes the times of one entry at most, and that entry stays exactly if it survives the eviction that follows; all other invariants hold whatever the clock does. |
| RegistryClock.StepLoadsIff | plugins/opencode/registry.go:261-521 | Per operation, under any clock: a loadable file stays loadable at every reading, unless the call writes and the reading it stamps an entry with is before the creation of that entry (or not positive) and the entry stays; then the file is rejected at every reading. |
| RegistryClock.OpenLoadsIff | plugins/opencode/registry.go:227-257 | The same for a reopening: it locks out exactly when it writes and a lease lapses at a reading before the creation of an entry that stays. |
| RegistryClock.StaysOpenIff | plugins/opencode/registry.go:111-521 | Over whole runs with failed writes, crashes and reopenings, under any clock: the file is loadable at every moment if and only if no event writes such a stamp; the first that does leaves a file rejected at every reading. |
| RegistryClock.ReopenIff | plugins/opencode/registry.go:111-257 | After any run under any clock a reopening whose write succeeds is refused exactly for an entry created at no positive time or last used before its creation; otherwise it restores the file, lapsed and evicted. |
| RegistryClock.GoodClockNeverLocks | plugins/opencode/registry.go:111-521 | With a positive clock that never runs back no event of any run locks out. |
| RegistryClock.BackwardsClockLocksOut | plugins/opencode/registry.go:214-221 | An instance: a lease given back at an earlier reading than it was taken leaves a file that no reopening accepts. |
| RegistryIdentity.RecoveryKeepsIdentity | plugins/opencode/registry.go:190-257 | Recovery neither invents nor changes a session id. |
| RegistryIdentity.OpenHasNoLeases | plugins/opencode/registry.go:227-255 | A reopened registry holds no lease of the dead process. |
| RegistryIdentity.NameStable | plugins/opencode/registry.go:389-506 | Across one operation, crash or reopening, with any write outcome and in a process that has failed too (which then answers for its file), the id of a key changes only when the call itself finds the entry expired. |
| RegistryIdentity.IdentityAcrossRuns | plugins/opencode/registry.go:379-506 | Over whole runs with failed writes, crashes and reopenings, a key that stays named keeps one id until its entry expires. |
| RegistryIdentity.SameAnswer | plugins/opencode/registry.go:379-440 | Repeated Create and Acquire: two calls for a key in one run are answered the same id, whatever failed, crashed or reopened between them, while the key was named throughout. |
| RegistryLru.RunsKeepOrder | plugins/opencode/registry.go:320-506 | In any run from a fresh registry without crash recovery the order of use agrees with the times of last use. |
| RegistryLru.DropsAre | plugins/opencode/registry.go:333-506 | What an operation drops goes in its last eviction, except entries already expired when it began. |
| RegistryLru.RunVictimIsOldest | plugins/opencode/registry.go:333-506 | In such a run an idle, unexpired entry that an operation drops (judged where the operation evicts: after the new entry, or after the last lease went back) was last used no later than any idle entry that stays. |
| RegistryLru.VictimExists | plugins/opencode/registry.go:353-440 | Such victims exist: a concrete run in which a second Create drops an idle, unexpired session. |
| RegistryReopening.KeptExactly | plugins/opencode/registry.go:227-255 | What a reopening keeps, entry by entry of the file: exactly what is not expired after recovery and is terminated or has at least the surplus of idle entries (lapsed leases included) before it. |
| RegistryReopening.ReopeningEvictsOldest | plugins/opencode/registry.go:227-255 | The eviction of the reopening itself takes no entry used later than an idle one it leaves, if and only if between every unexpired entry in the surplus and every later one outside it the file is in order of last use, a lapsed lease counting as used at the reopening. |
| RegistryReopening.EveryBoundEvictsOldest | plugins/opencode/registry.go:227-255 | That holds for every idle bound if and only if the file is so ordered between any two unexpired entries: idle ones by last use, and no leased entry before an idle one last used before the reopening. |
| RegistryReopening.RecoveryCanEvictNewest | plugins/opencode/registry.go:227-255 | It can fail: a concrete run of calls, a crash and a reopening that evicts the session in use when the process died and keeps an older one. |
| RegistryReopening.NewestIsSurplus | plugins/opencode/registry.go:227-255 | The file of that run violates the condition: the session in use is in the surplus and stands before an idle one last used before the reopening. |
| RegistryReopening.OrderedIff | plugins/opencode/registry.go:353-372 | Idle entries of a memory are in order of last use if and only if, however many the LRU bound takes from it, each victim was used no later than any idle entry that stays. |
| RegistryReopening.ReopenedOrder | plugins/opencode/registry.go:227-255 | Later evictions, from the memory the reopening leaves: all of them are in order of last use if and only if the entries that stay are so ordered in the file. |
| RegistryTermination.TerminationHolds | plugins/opencode/registry.go:389-521 | Until the TTL has passed since a termination no operation undoes it, no Create, Acquire or Reference of the mapping succeeds, and Lookup answers nothing. |
| RegistryTermination.TerminateRecords | plugins/opencode/registry.go:489-506 | A Terminate that succeeds is on disk. |
| RegistryTermination.TerminationOutlivesRuns | plugins/opencode/registry.go:190-521 | Never silently resurrected: a recorded termination stays in file and memory through every run of operations, failed writes, crashes and reopenings within the TTL. |
| Handler.ExclusiveStep | plugins/opencode/handler.go:172-290 | No step lets a writer of the lock stand beside a reader or another writer. |
| Handler.CountedStep | plugins/opencode/handler.go:193-199 | The stream counter equals the streams that are open, relaying or not yet counted off, after every step. |
| Handler.WakeupStep | plugins/opencode/handler.go:172-199 | After a shutdown request some stream is live, somebody will still look, or the shutdown is complete; every step keeps this. |
| Handler.QuietStep | plugins/opencode/handler.go:172-367 | Once the registry is closing, no call passes admission and no stream can start; only the drain sets the terminal flags. |
| Handler.LeasesStep | plugins/opencode/handler.go:570-701 | Every step of every call, pump and reconfiguration keeps leases and their holders in agreement, on every exit path. |
| Handler.RunsKeepHandler | plugins/opencode/handler.go:172-701 | All of these hold in every reachable state, in any interleaving. |
| Handler.CallGetsIn | plugins/opencode/handler.go:318-330 | A call is turned away when a shutdown was requested; otherwise it is admitted, or waits while a writer is there. |
| Handler.StreamFinishes | plugins/opencode/handler.go:193-199 | A pump that has given its lease back leaves the count; the last one after a shutdown request, and no other, goes on to drain. |
| Handler.ClosedOnlyWhenDrained | plugins/opencode/handler.go:172-191 | The registry is closed only when no admitted call, no live stream and no handler lease is left. |
| Handler.ShutdownCompletes | plugins/opencode/handler.go:172-199 | No wakeup is lost: shutdown requested and everybody settled imply shutdown complete. |
| HandlerProgress.DrainProgresses | plugins/opencode/handler.go:172-290 | In every reachable state with a shutdown requested and not complete, somebody already there can step, however the lock is held; each such step lowers a rank. |
| HandlerProgress.DrainEnds | plugins/opencode/handler.go:172-199 | So every drain ends: those there take at most that many steps in any order, and when none can step the shutdown is complete. |
| Handler.LeasesHold | plugins/opencode/handler.go:235-290 | While a call or pump holds a lease its registry is the current, open one and still maps the conversation to the same session; unless a write failed, each key has exactly as many leases as holders. |
| Sse.LinesAre | plugins/opencode/response.go:60-75 | The lines of a text, each with its LF, and the open line after them make up the text, and no line holds an LF. |
| Sse.StripCrIs | plugins/opencode/response.go:74 | One CR before the LF goes with it; no other byte of a line is dropped. |
| Sse.DataLineIs | plugins/opencode/response.go:91-98 | A line carries the data v exactly when it is `data: ` followed by v, or `data:` followed by v that does not begin with a space, or `data` alone with v empty. |
| Sse.WrittenReadsBack | plugins/opencode/response.go:60-107 | Round trip: any frames without CR, written as events (one data line for each line of a frame, then a blank line), read back as exactly those frames. |
| Sse.PushFollowsSpec | plugins/opencode/response.go:60-107 | Byte by byte the buffers are the open line and the joined data values of section 9.2.6 of the WHATWG HTML standard (LF and CRLF, no byte order mark), and exactly its frames are dispatched. |
| Sse.JoinNeverOverflows | plugins/opencode/response.go:99-106 | The second frame-size test of the byte loop can never fail. |
| ResponseTheorems.ChunkedIsWhole | plugins/opencode/response.go:51-109 | Feeding in chunks fails exactly when the whole text is rejected, and otherwise gives its state and events. |
| ResponseTheorems.ChunkIndependence | plugins/opencode/response.go:51-109 | Two splits of one text fail together or give the same events and final state. |
| ResponseTheorems.WholeFollowsFrames | plugins/opencode/response.go:51-286 | The events and the reply are those of decoding, in order, the frames of the line specification. |
| ResponseTheorems.DoneLeavesNothing | plugins/opencode/response.go:340-346 | After DONE the buffers are empty: two of the three tests at the end of the response cannot fail. |
| Acceptance.BodyFollows | plugins/opencode/response.go:137-338 | A frame is taken if and only if it follows the frames before it: same identity, one choice of index zero before the finish or usage alone, well-formed delta, steady tool identities, supported finish. |
| Acceptance.FramesAccepted | plugins/opencode/response.go:137-286 | Frames are decoded exactly when each follows those before it and DONE comes after a finish reason. |
| Acceptance.TextAccepted | plugins/opencode/response.go:51-109 | A text is not rejected exactly when its frames are so accepted, every line and its pending data fit the limit, and only blanks come after DONE. |
| Acceptance.CollectIsExact | plugins/opencode/response.go:340-441 | The buffered path succeeds exactly on such texts within the total limit that contain DONE, finish with stop or tool_calls (the latter with fragments), and assemble complete tool calls under distinct ids. |
| Assembly.DecodedIsSummary | plugins/opencode/response.go:137-338 | The reply is, field by field, said of the frames: each text is the concatenation in order of its pieces; each tool has as name and arguments the concatenation in order of the strings its fragments carry, and the one id and type they agree on; metadata and usage are the last given; the finish is the reason of the choice that has one, with end as stop and function_call as tool_calls. |
| Assembly.CollectIsSummary | plugins/opencode/response.go:340-441 | So is the completion: one tool per index, in index order, with distinct ids, steady identity, and name and arguments put together in order. |
| Assembly.InterleavingDoesNotMatter | plugins/opencode/response.go:288-384 | Two successful responses whose fragments agree index by index carry the same tool calls. |
| Relay.EventsAreExact | plugins/opencode/response.go:137-285 | The events of a text that is not rejected: one for each frame but DONE, in order, with its bytes; it waits exactly when the frame has usage, tool calls or a finish reason, and carries stop for end and tool_calls for function_call. |
| Relay.FlushEmits | plugins/opencode/response.go:427-432 | The commit emits the held frames in order, up to the first emission that fails. |
| Relay.CommitSafety | plugins/opencode/response.go:388-433 | For every chunk sequence and emitter: success exactly when the input was clean, acceptable, within the held limit and every emission worked; then everything was emitted in order. In every case the emissions are a prefix of the decoded events and stop at the first failing one; without a clean, acceptable input within the limit they are a prefix of what precedes the first waiting event. |
| Relay.PathsAgree | plugins/opencode/response.go:388-441 | With a working emitter and no read error the relay succeeds exactly when the buffered path accepts the concatenated bytes and the held frames fit, and the buffered completion is the fold of the emitted frames. |
| ResponseDecoders.ResponseDecoder.Feed | plugins/opencode/response.go:51-109 | The byte loop over fields gives the events and state of the specification, or fails for good with no events. |
| ResponseDecoders.ResponseDecoder.FeedByte | plugins/opencode/response.go:60-107 | One byte changes line, data and the flags as specified. |
| ResponseDecoders.ResponseDecoder.Decode | plugins/opencode/response.go:137-286 | One frame is added to the reply or rejected, on every path, and leaves the framing alone; the hold flag and the rewritten finish, gathered through the usage, tool and finish branches, are those of the specification. |
| ResponseDecoders.ResponseDecoder.AddMetadata | plugins/opencode/response.go:153-180 | The loop over a frame's fields gives one result in whatever order the map yields them. |
| ResponseDecoders.ResponseDecoder.TakeTexts | plugins/opencode/response.go:214-232 | So does the loop over the text keys of a delta. |
| ResponseDecoders.OneField | plugins/opencode/response.go:153-180 | What one more field does to the metadata, given that the others were already taken in any order. |
| ResponseDecoders.ResponseDecoder.TakeChoice | plugins/opencode/response.go:200-280 | A choice is added or rejected as specified, finish normalization included; it reports whether tool calls or a finish make the frame wait. |
| ResponseDecoders.ResponseDecoder.TakeTools | plugins/opencode/response.go:244-248 | The fragments of a frame are added in order, stopping at the first bad one. |
| ResponseDecoders.ResponseDecoder.TakeTool | plugins/opencode/response.go:288-338 | One fragment extends the tool of its index, or fails on index, form or identity. |
| ResponseDecoders.ResponseDecoder.FinishResponse | plugins/opencode/response.go:340-384 | The completion of the specification or failure for good; the loop over the sorted indices with its id set accepts exactly callable tools with distinct ids. |
| ResponseDecoders.SortedIndices | plugins/opencode/response.go:357-361 | The indices of the tools, collected in whatever order the map yields them, come out strictly increasing and complete. |
| ResponseDecoders.RelayOpenCodeSSE | plugins/opencode/response.go:388-433 | The channel loop with held frames and byte count emits and succeeds exactly as the relay of module Relay, to which CommitSafety applies. |
| ResponseDecoders.TakeAll | plugins/opencode/response.go:404-422 | The inner loop of the relay, held limit included. |
| ResponseDecoders.CollectOpenCodeSSE | plugins/opencode/response.go:435-441 | The buffered path over the same decoder. |
| Pump.RunsKeepPump | plugins/opencode/transport.go:237-322 | In every interleaving of pump, consumer, closers and cancellation the chunks delivered and the read in progress account for all host answers. |
| Pump.ChunksAreTheHosts | plugins/opencode/transport.go:253-322 | The consumer gets the host payloads in order and at most one error chunk, always last; stream_close is called at most once, and exactly once when the channel is closed or Close has returned. |
| Pump.EndMeansDone | plugins/opencode/transport.go:253-322 | Without cancellation and before Close, the channel closes without an error chunk if and only if the host said done, and then all payloads were delivered. |
| Pump.CancelTruncates | plugins/opencode/transport.go:251-264 | With a cancelled context this fails: the channel can close early without an error chunk. |
| Pump.AbandonedAdvances | plugins/opencode/transport.go:237-322 | Once Close was called, every step of anybody brings the end nearer and a step not needing the consumer is possible until the pump has ended: it cannot stay blocked on the channel. |
| Pump.AbandonedEnds | plugins/opencode/transport.go:237-322 | So every run after Close ends: under any schedule at most that many steps are taken, and when none that does without the consumer is left the pump has ended. |
| Pump.HeldNeedsDone | plugins/opencode/transport.go:237-322 | Under the handler's use, a frame that must wait reaches the client only if the host ended the stream with done, every served byte was read and they form an acceptable response; success means all of it was emitted. |
| ClineStream.ChunkIndependence | plugins/cline/stream.go:44-95 | Two splits of one text give the same parser state, hence fail together, and the same events on success. |
| ClineStream.EventsAreFrames | plugins/cline/stream.go:44-143 | An accepted text yields one event per dispatched frame of the line specification, in order. |
| ClineStream.CompleteEndsInDone | plugins/cline/stream.go:97-155 | A stream is complete exactly when its last event, and only that, is terminal; its success flag and reason are those of the recorded finish. |
| ClineAcceptance.TextAccepted | plugins/cline/stream.go:44-143 | A text is not rejected exactly when every byte fits, nothing at all follows DONE, and every frame follows those before it. |
| ClineAcceptance.EventsAreExact | plugins/cline/stream.go:97-143 | The events of an accepted text, frame by frame: its bytes, whether it has tool calls, its finish reason, and for DONE the terminal event with the reason recorded last. |
| ClineAcceptance.FramesAreExact | plugins/cline/executor_stream.go:184-217 | What the pump makes of them: every frame but DONE, in order, and withheld from the first with tool calls or a finish on. |
| ClineAcceptance.AcceptableIsExact | plugins/cline/executor_stream.go:184-224 | The texts that may be committed are exactly those accepted ones whose frames end in DONE after a finish of stop or tool_calls. |
| StreamParsers.StreamParser.Feed | plugins/cline/stream.go:44-95 | The byte loop over fields gives the events and state of the specification, or fails for good with no events. |
| StreamParsers.StreamParser.FeedByte | plugins/cline/stream.go:49-93 | One byte changes the buffers as specified; any byte after the terminal event fails. |
| StreamParsers.StreamParser.Decode | plugins/cline/stream.go:97-143 | One frame gives its event or is rejected. |
| StreamParsers.StreamParser.Finish | plugins/cline/stream.go:146-155 | At EOF the stream is accepted exactly when complete. |
| HostStream.ReadIsNext | plugins/cline/host_stream.go:192-260 | A read of any size returns the next bytes of what the host serves, or its end, or its breakdown, and nothing else. |
| HostStream.ReadsServeTheHost | plugins/cline/host_stream.go:192-260 | Reads of any sizes return a split of a prefix of the served text; EOF is reported exactly at the end of an orderly stream, with all of it read. |
| HostStream.ReadsEnd | plugins/cline/host_stream.go:192-260 | More reads than served bytes always reach the end, whichever it is. |
| HostStream.EndsAreFinal | plugins/cline/host_stream.go:192-260 | A breakdown, a close and the end are final: every later read says the same, returns nothing and asks the host nothing. |
| HostStream.CloseOnce | plugins/cline/host_stream.go:192-295 | With closers beside a read in flight, in any order, stream_close is sent at most once, exactly once when done, broken or closed, and a closed body returns no bytes. |
| HostStream.HeardInOrder | plugins/cline/host_stream.go:192-295 | Under every interleaving of reads and closers nothing is lost or doubled: what the reads returned and what is buffered are, in order, the payloads that came to a reader on an open body; the host is asked only when nothing is buffered, by one read at a time. |
| HostStreamBodies.HostStreamBody.Read | plugins/cline/host_stream.go:192-260 | The fields after a read, and the caller's buffer: the bytes at its front, the rest untouched. |
| HostStreamBodies.HostStreamBody.CopyOut | plugins/cline/host_stream.go:256-257 | The copy loop fills the front of the buffer and advances past what was copied. |
| HostStreamBodies.HostStreamBody.Close | plugins/cline/host_stream.go:265-272 | Close is idempotent and releases the host stream once. |
| ClinePump.PumpCommits | plugins/cline/executor_stream.go:163-241 | Success depends only on the bytes, a real end, the withheld limit and the emissions; then all data frames were emitted in order. In every case the emissions are a prefix of the frames of what was read and stop at the first failing one; without a real end, an acceptable text and room for what is withheld they are a prefix of what precedes the first frame with tool calls or finish. |
| ClinePump.FramesAreTheText | plugins/cline/executor_stream.go:184-217 | The frames of an acceptable text are those of the line specification without the final DONE mark. |
| StreamPumps.PumpUpstreamStream | plugins/cline/executor_stream.go:163-241 | For every host script, payload chunking, read size and emitter: the outcome is the one stated by PumpCommits, on the served text; each exit path closes the bridge, exactly once, with the right flag, and the host stream is closed exactly once. |
| StreamPumps.TakeAll | plugins/cline/executor_stream.go:184-218 | The event loop with its withheld frames and byte count behaves as specified. |
| StreamPumps.EmitAll | plugins/cline/executor_stream.go:226-231 | The commit loop emits in order up to the first failure. |
| LiveGuards.LedgerFile.Replace | native/opencode/live_safety.py:140-152 | A save replaces the ledger, leaves it, or replaces it and still fails. |
| LiveGuards.Sum | native/opencode/live_safety.py:168-172 | A sum over a dictionary is the same in whatever order it yields its items. |
| LiveGuards.LatestAhead | native/opencode/live_safety.py:53-77 | The loop finds the latest reset still ahead. |
| LiveGuards.LiveGuard.New | native/opencode/live_safety.py:81-97 | A guard exists exactly for a valid run id and budgets within the limits. |
| LiveGuards.LiveGuard.Horizon | native/opencode/live_safety.py:53-77 | The latest cooldown still ahead, over the ledger and the other evidence. |
| LiveGuards.LiveGuard.Enter | native/opencode/live_safety.py:99-138 | Admission: ledger, file and outcome of the specification on every path. |
| LiveGuards.LiveGuard.Reserve | native/opencode/live_safety.py:154-176 | A reservation or the stop that refuses it, with the window sums computed by loops; file and fields as specified. |
| LiveGuards.LiveGuard.Stop | native/opencode/live_safety.py:178-201 | Stop marks, records a reset for a rejection and saves, or ignores a repeated block. |
| LiveGuards.LiveGuard.Exit | native/opencode/live_safety.py:203-209 | The final status is saved and the lock released however the save ends. |
| LiveGuardAnswers.PlanAnswers | native/opencode/live_safety.py:81-97 | A guard can be constructed exactly for a run id of permitted characters and length, 1 to 40 requests and 1 to 220 000 tokens. |
| LiveGuardAnswers.EnterAnswers | native/opencode/live_safety.py:99-138 | A probe is admitted exactly when the evidence is readable, no reset is ahead, its window selects it and is recorded unchanged or not at all, its run id was never used and the entry is saved; the ledger then gains that entry and window and nothing else; a reset ahead is recorded, the latest one. |
| LiveGuardAnswers.ReserveAnswers | native/opencode/live_safety.py:154-176 | A reservation is granted exactly when the guard is not stopped, no reset is ahead, the number of tokens and every budget of run and window leave room, and the save works; it adds one request and its tokens to this run and changes nothing else. Refused ones block the guard. |
| LiveGuardAnswers.StopAnswers | native/opencode/live_safety.py:178-201 | Every stop but a repeated block marks the run, and for 401, 403 and 429 records the provider's reset if it is ahead, else a day after the later reading. |
| LiveGuardAnswers.ExitAnswers | native/opencode/live_safety.py:203-209 | An exit changes the status of its run alone: blocked, interrupted or finished. |
| LiveGuard.TotalAtMost | native/opencode/live_safety.py:168-172 | Smaller values over fewer runs never sum to more. |
| LiveGuardRuns.EnterKeepsLedger | native/opencode/live_safety.py:99-138 | Admission keeps every window within its budgets, also when it records the window first. |
| LiveGuardRuns.ReserveKeeps | native/opencode/live_safety.py:154-176 | A reserve, however its saves end, keeps all budgets and only grows the own run; one that returns has durably grown it. |
| LiveGuardRuns.RunsKeepBudgets | native/opencode/live_safety.py:99-209 | Every run of processes, saves that fail and crashes keeps the ledger within budget and dispatches within reservations. |
| LiveGuardRuns.BudgetsHold | native/opencode/live_safety.py:99-209 | In every such run each probe stays within its own limits, the probes of a window together within the budgets of the window, and requests sent never exceed requests durably reserved, per probe and per window. |
| LiveGuardBarrier.AdmittedOnce | native/opencode/live_safety.py:126-135 | A run id is admitted at most once, across crashes. |
| LiveGuardBarrier.BlockedStaysPut | native/opencode/live_safety.py:154-209 | Once a guard is blocked, the count of its run never grows again, in this process or a later one. |
| LiveGuardBarrier.LimitsNeverChange | native/opencode/live_safety.py:111-135 | Window records and run limits stay what they were first recorded as; counts never shrink. |
| LiveGuardAnswers.RejectionBars | native/opencode/live_safety.py:178-201 | A rejection, also one that reaches a guard already stopped by an ordinary block, is a barrier: unless its save is lost, the recorded cooldown is the provider's reset if that is ahead, else 24 hours after the later reading, and nothing is granted before it in any continuation. |
| LiveGuardBarrier.CooldownBarrier | native/opencode/live_safety.py:99-201 | After a durably recorded 401, 403 or 429 stop with reset R, nobody is admitted and nobody reserves before R. |
| LiveGuardBarrier.ShorteningIsExact | native/opencode/live_safety.py:178-201 | Recorded cooldowns stay in force through a step if and only if it is not an effective rejection whose reset is before one still ahead. |
| LiveGuardBarrier.RecordedBarrier | native/opencode/live_safety.py:99-201 | Without such a rejection every recorded cooldown is a barrier, also one taken from other files. |
| LiveGuardBarrier.CooldownCanShrink | native/opencode/live_safety.py:159-201 | With one it is not: a concrete run in which a probe is admitted before a cooldown the ledger had recorded. |
| DeviceLogin.Clamp | plugins/opencode/device_login.go:537-545 | The result is within bounds, and for values within them the whole seconds not above the value. |
| DeviceLogin.RunsKeepLogins | plugins/opencode/device_login.go:197-346 | Every pending login agrees with the record of its requests, in every run. |
| DeviceLogin.PollingPace | plugins/opencode/device_login.go:197-346 | With any clock: at most 16 states; the n-th token request comes at least n intervals after the start and before expiry, so n*i < T; all answers of the server but the last were authorization_pending or slow_down without a token; after k slow_down answers the interval is exactly i + 5k (section 3.5 of RFC 8628); a login succeeds exactly when the last answer grants, once. |
| DeviceLogin.PollAnswers | plugins/opencode/device_login.go:270-358 | One poll by what the server answers: slow_down adds five seconds to the interval, authorization_pending keeps it, every other answer ends the login, and it succeeds exactly with an ok status, both tokens, valid terms and the account. |
| DeviceLogin.StartAnswers | plugins/opencode/device_login.go:197-261 | A login is opened exactly for an open manager with fewer than 16 unexpired states and a code answer whose address, codes, expiry and interval are within bounds; on those terms rounded down to seconds, and at most 900 of them. |
| DevicePace.GrantHonouredIff | plugins/opencode/device_login.go:224-346 | The granted interval (with 5 s per slow_down) is kept between token requests in every run if and only if it is a whole number of seconds, or the login expires before the first request. |
| DevicePace.FractionPollsEarly | plugins/opencode/device_login.go:224-346 | For every other grant a run exists in which the first request comes too early. |
| DevicePace.HalfSecondEarly | plugins/opencode/device_login.go:224-346 | Concretely: 5.5 seconds granted, and a token request after 5. |
| DeviceLogin.GoneForGood | plugins/opencode/device_login.go:270-346 | No replay over runs: a state once gone never comes back, and makes no further request, whatever follows. |
| DeviceLogin.DecidedIsFinal | plugins/opencode/device_login.go:270-346 | authorization_pending and slow_down leave a login open; after any other answer of the server no poll makes another request for it, in the rest of any run. |
| DeviceLogin.ClosedForGood | plugins/opencode/device_login.go:144-149 | After a Close no login is pending, none is opened and no request is made, in the rest of any run. |
| DeviceLogins.DeviceLoginManager.EvictExpired | plugins/opencode/device_login.go:547-554 | The loop that deletes while iterating keeps exactly the unexpired states. |
| DeviceLogins.DeviceLoginManager.Start | plugins/opencode/device_login.go:197-261 | A login is opened, or refused on every failing path, with evicted states gone. |
| DeviceLogins.DeviceLoginManager.Poll | plugins/opencode/device_login.go:270-358 | One poll: gating, at most one request, and the state kept, slowed or consumed as specified. |
| DeviceLogins.DeviceLoginManager.Close | plugins/opencode/device_login.go:144-149 | Close forgets every pending login. |

## Left out

- SessionRegistries.SessionRegistry.Load: the JSON text is not modelled: a file is missing, unreadable, or a version and a sequence of entries, each active, idle or terminated.
- SessionRegistries.SessionRegistry.PersistLocked: temporary file, fsync and rename are one step that succeeds, fails before the replace or fails after it.
- A registry without a path keeps no file; it behaves as one whose writes all succeed.
- SessionId.MintedIsValid: random bytes are arbitrary; that two tails differ is not proved but assumed where ids must be new.
- Handler.LeasesHold: executor errors between admission and dispatch are one nondeterministic step, and the cancelled HTTP calls inside a dispatch are not modelled.
- ResponseDecoders.ResponseDecoder.Decode: JSON parsing and UTF-8 checking are the codec; status and text of errors are not modelled, only that the response fails for good.
- Relay.CommitSafety: frames are compared as events (the upstream frame and the normalized finish reason); how they are rendered to bytes is the codec.
- Pump.ChunksAreTheHosts: opening the stream, and closing it at once on an invalid status, come before the modelled part.
- StreamPumps.PumpUpstreamStream: the text of the close message is reduced to empty or not; the request that opens the stream is not modelled.
- HostStreamBodies.HostStreamBody.Read: runs alone here; readers beside closers are the subject of HostStream.CloseOnce.
- LiveGuards.LiveGuard.Stop: the reason text, upstream code and request id, and the started and finished times of a run, are not part of the ledger here.
- LiveGuards.LiveGuard.Horizon: one clock reading serves all comparisons of one call; unverifiable evidence files are one error.
- LiveGuardBarrier.CooldownBarrier: `oauth_meter.py`, which may shorten a cooldown on purpose, is not part of this model.
- DeviceLogins.DeviceLoginManager.Poll: loading the account and its organizations is one yes or no, and lengths count characters, not bytes.
- HTTP requests, headers, credentials, configuration files, error taxonomies, model catalogs and the RPC envelope: single-branch facts.
- The relays, meters and workers under `native/opencode` apart from LiveGuard, and everything under `staging`, `scripts`, `testing` and `tools`.
