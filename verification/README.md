# Verified models of the messaging backend and its clients

The repository is an end-to-end encrypted messenger: an Express and Socket.io server, and client libraries.
This project models the small pieces of state it keeps and proves what holds of them over whole runs: handlers
that read, wait and then write, caches in front of changing managers, counters that stand for scans, a key
ratchet with a bounded cache, merges of replicated records, and three state machines over lists and maps.

Each component is a module. An object or a handler of the source is a class whose methods change its fields;
each method's contract gives its whole new state as a function of the old one. Runs are lists of events folded
through the same functions, so what is proved about runs is proved about the methods. Where handlers interleave,
a request in flight, with the snapshot it took, is part of the state, and events may come in any order.

| file | what it models |
|---|---|
| `MessageKeyReports.dfy` | message-key report log: counters, maximum and a 500-entry window, read and written in separate steps |
| `IdentityContext.dfy` | identity-context service: TTL cache, session decisions, verification summary |
| `OverlappingLoads.dfy` | the same cache when loads overlap each other, invalidations and backend changes |
| `MessageKeyRatchet.dfy` | deriving per-message keys, opening messages out of order through the skipped-key cache |
| `OverlappingOpens.dfy` | the same opens step by step, with other sessions' opens and re-roots in between |
| `OverlappingSeals.dfy` | sealing step by step, with re-roots in between |
| `ReplicationMerge.dfy` | merging replicated records by strategy, in every order and grouping |
| `GroupReceipts.dfy` | incremental delivery and read counters of a group message, and the tick shown for them |
| `Groups.dfy` | group invitations |
| `OverlappingInvites.dfy` | the same handlers when each loads the group and saves it later |
| `SocketRegistry.dfy` | online-socket registry, its keys, and sockets that close before their handler is attached |
| `Messages.dfy` | unread counts, message status, sends interleaved with reads |
| `Discovery.dfy` | client discovery cache, bounded history and poll loop |
| `Capabilities.dfy` | client negotiation-plan cache and its invalidation |
| `Sequences.dfy` | options and shared facts about sequences |

## Where the code does not do what one would expect

Each of these is proved, with the exact condition under which the expected property does hold.

- Overlapping reports lose updates (`MessageKeyReports.OverlapExample`). A direction's count equals its completed
  reports if and only if no two of them overlapped (`MessageKeyReports.CountsLoseExactlyOverlaps`); the log is the
  last 500 reports if and only if no two of those overlapped (`MessageKeyReports.MessagesLoseExactlyOverlaps`); and
  the highest received number is right, whatever the numbers, if and only if no two receiving reports overlapped
  (`MessageKeyReports.HighestIsRightExactlyWhen`). The metadata block can disagree with the counters beside it
  (`MessageKeyReports.MetadataDrifts`).
- A load that overlaps an invalidation stores what it read before it, so a user whose change was followed by an
  invalidation can still be served the old base (`OverlappingLoads.LateStoreIsStale`). A change and its
  invalidation take hold if and only if no load of that user in flight had read anything
  (`OverlappingLoads.InvalidationHoldsExactlyWhen`).
- The documentation says a message key is used exactly once, also after a failure
  (`LAYER5_SPRINT5_MESSAGE_KEYS.md:91`). The code advances the sending chain only after a successful seal, so a
  failed seal and the next one are given the same key (`MessageKeyRatchet.SealsShareKeysOnlyAfterFailure`). The
  model follows the code.
- A re-root that lands inside a seal makes it seal with the new generation's key under the old label, or advance
  the new chain past a key it never used (`OverlappingSeals.SkippedIndexExample`); exactly when is said by
  `OverlappingSeals.SealedKeyIsRightExactlyWhen` and `OverlappingSeals.IndexSkippedExactlyWhen`.
- An open keeps the generation it read at the beginning, so a re-root that lands inside it makes it derive from
  the new chain, and move that chain past a message that is then refused (`OverlappingOpens.InterruptedExample`). A
  derived key is right if and only if no re-root landed inside its open
  (`OverlappingOpens.DerivedKeyIsRightExactlyWhen`), and of the numbers passed exactly those are lost that such an
  open moved the chain past (`OverlappingOpens.NumberLostExactlyWhen`).
- Merging is said to give one result regardless of who merges or in what order
  (`server/replication/merge/mergeEngine.js:4-7`). Read receipts do (`ReplicationMerge.ReceiptsConverge`); the
  other strategies do if and only if the records agree where it matters
  (`ReplicationMerge.DeliveryConvergesExactlyWhen`, `ReplicationMerge.OpaqueConvergesExactlyWhen`,
  `ReplicationMerge.AttachmentsConvergeExactlyWhen`, and for metadata whose fields each keep one kind of value
  `ReplicationMerge.MetadataConvergesExactlyWhen`; any two records' metadata,
  `ReplicationMerge.MetadataCommutesExactlyWhen`).
- Merging converged replicas again is said to be a no-op (`server/replication/merge/mergeEngine.js:43-44`,
  `LAYER9_SPRINT2_STATE_REPLICATION.md:120`). A metadata list that only one record has is kept as it is by the first
  merge and sorted, without its repetitions, by the second (`ReplicationMerge.RawListExample`). It is a no-op if and
  only if every list taken over whole was sorted and without repetitions
  (`ReplicationMerge.MetadataIsIdempotentExactlyWhen`), and always from the second time on
  (`ReplicationMerge.SecondMergeSettles`).
- The documentation says a blue tick means every read-applicable member has read
  (`LAYER10_SPRINT4_GROUP_RECEIPTS.md:21`). The code counts any member's read, so a member whose reads should not
  count can stand in for one who has not read; and a member listed twice raises the number of reads waited for
  beyond what can be given (`GroupReceipts.BlueIsTrueExactlyWhen`, `GroupReceipts.BlueIsShownExactlyWhen`). The
  model follows the code.
- A read between a send's lookup and its save is undone by the save: the message goes from read back to
  delivered and counts as unread again (`Messages.StatusFallsExactlyWhen`, `Messages.FallCountsAgain`).
- A message sent between a read's two steps is marked read without having been answered
  (`Messages.LateMessageExample`); a read marks only what it answers if and only if each later message was read by
  another (`Messages.MarksOnlyFoundExactlyWhen`).
- Closing one of a user's two sockets removes the user from the registry (`SocketRegistry.TwoSocketsExample`), and a
  socket that closes before the connection handler has attached its disconnect handler is never removed
  (`SocketRegistry.EarlyCloseExample`). A registered socket is open if and only if it did not close that early
  (`SocketRegistry.RegisteredSocketIsOpenExactlyWhen`); whether the registry will be right about a user after an
  event is told before it (`SocketRegistry.OnlineExactlyWhen`).
- Two overlapping invites of one user list the user twice (`OverlappingInvites.TwoInvitesExample`); the lists stay
  duplicate-free and disjoint if and only if no invite is saved after its user came in
  (`OverlappingInvites.CleanExactlyWhenNeverLate`, `OverlappingInvites.LateExactlyWhen`).
- The identity-context cache serves old data within the TTL when a change is not followed by an invalidation: it is
  transparent, whatever the changes are, if and only if no load finds an unexpired entry stored before its user's
  latest change (`IdentityContext.TransparentExactlyWhen`).
- A group creator named in the initial invite list can become a member twice; the admin is a member exactly once in
  every run if and only if that list omits the creator (`Groups.AdminOnceExactlyWhen`).
- A plan negotiated before a capability update and answered after it is cached
  (`Capabilities.PlansAreStoredAfterUpdate`, `Capabilities.OverlapExample`).
- `validateSession` and `sessionValid` differ for a found device whose effective status is not usable
  (`IdentityContext.DecisionsAgree`).
- User ids with a colon are not read back from registry keys, and peer ids with one can share plan keys
  (`SocketRegistry.KeyReadsBack`, `Capabilities.KeysCollideExactlyWhen`).

## Model

| member | source | states |
|---|---|---|
| MessageKeyReports.MessagesFormChain | server/controllers/messageKeyController.js:79-96 | In every interleaving of reports the message log has at most 500 entries, no repetitions, and each entry's report had written before any later entry's took its snapshot, so overlapping reports never both appear; the audit trail lists the same reports. |
| MessageKeyReports.EachFieldIsSerial | server/controllers/messageKeyController.js:79-96 | In every interleaving the log, the audit trail and each counter block are what a serial run of non-overlapping completed reports would have stored, and the metadata block summarizes the counters of two such runs, one for each direction. |
| MessageKeyReports.CountsLoseExactlyOverlaps | server/controllers/messageKeyController.js:92-96 | A direction's count never exceeds its completed reports, and equals their number if and only if no two of them overlapped. |
| MessageKeyReports.MessagesLoseExactlyOverlaps | server/controllers/messageKeyController.js:90-96 | In every interleaving the log is the last 500 reports to write, in order, if and only if no two of those overlapped, whatever happened before them. |
| MessageKeyReports.HighestIsRightExactlyWhen | server/controllers/messageKeyController.js:93 | For one way of interleaving, the stored highest number is at least every completed receiving report's number, whatever numbers the reports carry, if and only if no two receiving reports overlapped. |
| MessageKeyReports.HighestCoversWithoutOverlap | server/controllers/messageKeyController.js:93 | If no two receiving reports overlapped, none carried a number above the stored highest. |
| MessageKeyReports.NumbersAreReported | server/controllers/messageKeyController.js:93 | In every interleaving the last received number is at most the highest, which is -1 or the number of some completed receiving report. |
| MessageKeyReports.MetadataDrifts | server/controllers/messageKeyController.js:94-96 | After a write the metadata block agrees with the counters if and only if the other direction's counters did not change between the report's snapshot and its write. |
| MessageKeyReports.OverlapExample | server/controllers/messageKeyController.js:79-96 | Two overlapping receiving reports with numbers 9 and 4 leave count 1 and highest number 4. |
| MessageKeyReports.SerialRun | server/controllers/messageKeyController.js:90-96 | Serially, the log and the audit trail are the last 500 reports in order, the two counts add up to all reports, the last numbers are the latest in each direction, the highest is the maximum, and the metadata agrees. |
| MessageKeyReports.SerialMetadata | server/message-keys/metadata/metadata.js:52-61 | The six metadata fields of a serial run, from the reports: generation 0, how many were sent and received, the latest number in each direction (-1 for none), and the greatest received number (at least -1). |
| MessageKeyReports.ReportCounts | server/controllers/messageKeyController.js:79-96 | One report: its entry, with the direction, generation and delivery it defaults to, comes last in the log behind the latest 499 entries, and in the audit trail under the action of its direction; that direction's counters move and the other's stay; the metadata agrees. |
| MessageKeyReports.HighestIsMaximum | server/controllers/messageKeyController.js:93 | The folded highest number is the maximum of -1 and all the numbers: an upper bound that is attained. |
| MessageKeyReports.HighestNeverFallsSerially | server/controllers/messageKeyController.js:93 | Serially, more reports never lower the highest received number. |
| MessageKeyReports.RunKeepsInv | server/controllers/messageKeyController.js:79-96 | Every interleaving keeps report ids unique and explains the store, and every snapshot in flight, as serial runs of chains of completed reports. |
| MessageKeyReports.MessageKeyController.Ensure | server/controllers/messageKeyController.js:49-68 | An existing record is answered unchanged; otherwise one with zero counts, numbers at -1 and empty logs is created, and no other session changes. |
| MessageKeyReports.MessageKeyController.BuildPatch | server/controllers/messageKeyController.js:78-95 | The steps between the read and the write compute, from the snapshot alone, the patch that the runs above are made of: both windows with the report's entry last, the counters of its direction only, and the metadata. |
| MessageKeyReports.MessageKeyController.Update | server/message-keys/repository/mongoMessageKeyRepository.js:27-31 | The patched fields are replaced, the others and the other sessions stay; an unknown session is an error that changes nothing. |
| MessageKeyReports.MessageKeyController.ReportMessage | server/controllers/messageKeyController.js:74-101 | With nothing in between, the handler is one serial report on that session, created if it was missing, and touches no other. |
| IdentityContext.CacheIsTransparent | server/integration/identityContextService.js:32-46 | From any state whose clean entries are current, and for every TTL (not positive ones included) and any clock readings: if every change of a user is followed by an invalidation before that user's next load, every output of the run equals that of the service with no cache. |
| IdentityContext.CacheIsTransparentFromStart | server/integration/identityContextService.js:156-182 | The same from an empty cache. |
| IdentityContext.TransparentExactlyWhen | server/integration/identityContextService.js:32-46 | For every order of calls, clock readings and TTL, from an empty cache: the outputs equal the uncached ones, whatever the managers change to, if and only if no load finds an unexpired entry stored before its user's latest change. |
| IdentityContext.UndisciplinedRunIsStale | server/integration/identityContextService.js:163-166 | Load, change, load within a positive TTL: the outputs equal the uncached ones if and only if the change does not show in the context. |
| IdentityContext.DecisionsAgree | server/integration/identityContextService.js:196-204 | `ready` is `sessionValid`; `sessionValid` implies that `validateSession` accepts and that there are no warnings; and each converse fails exactly for the provisioned users and found devices described. |
| IdentityContext.VerdictFromView | server/integration/identityContextService.js:129-137 | On what the managers hold: no identity if and only if there is none; unknown device if and only if there is one and no device has the id asked about; blocked, with its status, if and only if the first device with that id is revoked or blocked; and otherwise valid. |
| IdentityContext.ContextFromView | server/integration/identityContextService.js:85-123 | The context holds the managers' identity, all their devices and their number, the first device with the id asked about, and the counts of all, of verified or trusted, and of trusted verifications. |
| IdentityContext.SessionFromView | server/integration/identityContextService.js:85-123 | On what the managers hold: the session is valid, and ready, if and only if there is an identity and the device asked about, if any, is registered, in a usable effective state and neither revoked nor blocked; and the warnings are exactly those of the shortcomings found. |
| IdentityContext.UncachedAnswers | server/integration/identityContextService.js:129-137 | Without a cache each call is answered from what the managers hold for its user at that moment. |
| IdentityContext.Summarize | server/integration/identityContextService.js:185-193 | The one-pass counts are those of all verifications, of the verified or trusted ones and of the trusted ones, and of those states among the directory's rows. |
| IdentityContext.TallyIgnoresOrder | server/integration/identityContextService.js:185-193 | Reordering the verifications does not change the summary. |
| IdentityContext.Find | server/integration/identityContextService.js:88 | The first device with that id if there is one, and none exactly when no device has it. |
| IdentityContext.TtlCache.Get | server/integration/identityContextService.js:32-40 | Answers the stored value if and only if there is one and, for a positive TTL, it has not expired, changing nothing; otherwise answers none, and the entry is gone. |
| IdentityContext.TtlCache.Set | server/integration/identityContextService.js:41-43 | Stores the value until the clock's time plus the TTL, leaving other keys alone. |
| IdentityContext.TtlCache.Delete | server/integration/identityContextService.js:44-46 | Removes that key only, and says whether it was there. |
| IdentityContext.IdentityContextService.LoadBase | server/integration/identityContextService.js:163-182 | Answers the unexpired cached base, changing nothing; or else the identity, all the devices and the verification counts that the managers hold, which it stores until the later clock reading plus the TTL. |
| IdentityContext.IdentityContextService.LoadContext | server/integration/identityContextService.js:85-123 | The context, warnings included, of the base that the load answers; what it says of what the managers hold is in the rows above. |
| IdentityContext.IdentityContextService.ValidateSession | server/integration/identityContextService.js:129-137 | The verdict on the base that the load answers; what it says of what the managers hold is in the rows above. |
| IdentityContext.IdentityContextService.Invalidate | server/integration/identityContextService.js:156-158 | Removes that user's entry and no other. |
| OverlappingLoads.ServedBaseIsRecent | server/integration/identityContextService.js:163-182 | In every run, a base served from the cache was stored by a completed load of the same user, after the user's last invalidation and, for a positive TTL, less than the TTL ago; each of its three parts is what the managers held at some step since that load began. |
| OverlappingLoads.OthersLeaveEntryAlone | server/integration/identityContextService.js:156-182 | Events of other users, and time passing, leave a user's entry as it is. |
| OverlappingLoads.StaleOnlyFromEarlierLoads | server/integration/identityContextService.js:156-182 | When a user's data has not changed since the last invalidation, an old base can be served only if its load read some part before that invalidation and stored after it. |
| OverlappingLoads.InvalidationHoldsExactlyWhen | server/integration/identityContextService.js:156-182 | From any state, a change of a user followed by an invalidation takes hold, for every change and every continuation without another change of that user, if and only if no load of that user in flight had read a part. |
| OverlappingLoads.QuietRunsAreCoherent | server/integration/identityContextService.js:156-182 | If no user is invalidated while a load for that user is in flight, then, however loads overlap, a user unchanged since the last invalidation is served what the managers hold now. |
| OverlappingLoads.LateStoreIsStale | server/integration/identityContextService.js:168-181 | For any two views there is a run, not quiet, after which an invalidated and settled user is served the old view. |
| OverlappingLoads.RunKeepsInv | server/integration/identityContextService.js:163-182 | Every run keeps, for each entry and each load in flight, where and when each of its parts was read and stored. |
| OverlappingLoads.SoloLoadIsAtomic | server/integration/identityContextService.js:163-182 | A load that finds no unexpired entry, taken step by step with nothing in between, stores the base of what the managers hold until now plus the TTL, as the one-step load does, and leaves every other load alone. |
| OverlappingLoads.ServedLoadEnds | server/integration/identityContextService.js:163-166 | A load that finds an unexpired entry ends at once and changes nothing. |
| OverlappingLoads.RunClock | server/integration/identityContextService.js:32-43 | The clock that entries are stored and expire by moves by the time that passes, and by no other event. |
| OverlappingLoads.InvalidatedIsLatest | server/integration/identityContextService.js:156-158 | The step the rows above call a user's last invalidation is the last one at which that user was invalidated. |
| MessageKeyRatchet.KeysAreUsedAtMostOnce | server/message-keys/manager/messageKeyManager.js:278-304 | Over every run of opens, re-roots, prunes and teardowns no receiving key is handed out twice, each was derived from the chain key at its own number, and the cache stays within its limit. |
| MessageKeyRatchet.ExactlyWhatOpens | server/message-keys/manager/messageKeyManager.js:278-292 | After any run, a message gets a key if and only if it is of the current generation and either at most maxSkip ahead of the chain, or behind it and neither used nor dropped; and it gets the key of its own number. |
| MessageKeyRatchet.ReplaysAreRefused | server/message-keys/manager/messageKeyManager.js:285-289 | Once a key has been handed out, its message gets no key again. |
| MessageKeyRatchet.ExactlyWhyRefused | server/message-keys/manager/messageKeyManager.js:151-183 | After any run, which refusal a message meets: malformed, no chain, another generation, too far ahead, or, behind the chain, used or dropped; a key comes from the cache if and only if the message is behind the chain. |
| MessageKeyRatchet.PruneLeavesYoung | server/message-keys/cache/messageKeyCache.js:66-75 | After any run and a prune, a message the chain passed at some event gets a key if and only if it would have got one before the prune and less than the TTL has passed since that event; and then the same key. |
| MessageKeyRatchet.CachedWhenPassed | server/message-keys/cache/messageKeyCache.js:33-35 | In every run each cached key was cached by the open that moved the chain past its number, and carries that open's time. |
| MessageKeyRatchet.ClockAdds | server/message-keys/cache/messageKeyCache.js:33-35 | The clock that keys are cached and expire by moves by the time that passes, and by no other event. |
| MessageKeyRatchet.OpenCachesSkipped | server/message-keys/manager/messageKeyManager.js:293-303 | After any run, opening ahead of the chain leaves in the cache the last entries, up to its limit, of what it held followed by the skipped keys in order, each with its own chain key and the present time; so the oldest are given up. |
| MessageKeyRatchet.RerootSwitchesGeneration | server/key-hierarchy/manager/chainManager.js:166-218 | After a re-root to a later generation exactly that generation's messages open, from number 0 up to maxSkip, with their own keys; a re-root to no later generation changes no answer. |
| MessageKeyRatchet.TeardownForgets | server/message-keys/cache/messageKeyCache.js:78-89 | After a teardown no message behind that session's chain opens, and every other message is answered as before. |
| MessageKeyRatchet.AnyOrderOpens | server/message-keys/manager/messageKeyManager.js:293-303 | Distinct messages numbered within the cache limit and the skip bound all open, in any order of arrival, each with its own key, and nothing is dropped. |
| MessageKeyRatchet.SealsShareKeysOnlyAfterFailure | server/message-keys/manager/messageKeyManager.js:96-121 | Two seals are given the same key if and only if every seal from the first up to the second failed; the key is the one the receiver derives for that number. |
| MessageKeyRatchet.SealKeyCountsSuccesses | server/message-keys/manager/messageKeyManager.js:96-121 | A seal is given the key whose index and number are the number of seals that succeeded before it. |
| OverlappingSeals.SealedKeyIsRightExactlyWhen | server/message-keys/manager/messageKeyManager.js:96-121 | In every interleaving with re-roots, a message is sealed with the key of the generation and number it is labelled with if and only if no re-root was between its steps as the seal began and none replaced the keys before the derivation. |
| OverlappingSeals.IndexSkippedExactlyWhen | server/message-keys/manager/messageKeyManager.js:121 | Of the indices the current sending chain has passed, no message was sealed from exactly those that were passed by a seal whose key was derived before a re-root. |
| OverlappingSeals.NoKeySealsTwice | server/message-keys/manager/messageKeyManager.js:96-134 | In every interleaving no two successful seals used one chain key. |
| OverlappingSeals.RunsKeepRight | server/key-hierarchy/manager/chainManager.js:166-218 | Every interleaving keeps the record at most one re-root behind the keys, and every seal, under way or done, in step with the re-roots that landed in it. |
| OverlappingSeals.SoloSealIsAtomic | server/message-keys/manager/messageKeyManager.js:96-134 | A seal with nothing in between: if the seal function succeeds, one message is sealed with the key at the chain's index and the chain moves on by one; if it throws, nothing changes. |
| OverlappingSeals.RerootsInTwoSteps | server/key-hierarchy/manager/chainManager.js:166-218 | A re-root to a later generation starts the new chain at index 0 and only afterwards moves the record; one to no later generation does nothing. |
| OverlappingSeals.SkippedIndexExample | server/message-keys/manager/messageKeyManager.js:110-121 | A re-root while the seal function runs leaves index 0 of the new chain passed and never sealed from. |
| MessageKeyRatchet.RunKeepsInv | server/message-keys/manager/messageKeyManager.js:278-304 | In every run the used, cached and dropped slots are disjoint and together are all the slots the current chains have passed. |
| MessageKeyRatchet.MessageKeyCache.Put | server/message-keys/cache/messageKeyCache.js:33-44 | A new slot's entry comes last, a known slot's takes the old one's place; if and only if that exceeds the limit the first entry is evicted, and it is the one answered. |
| MessageKeyRatchet.MessageKeyCache.Take | server/message-keys/cache/messageKeyCache.js:50-56 | Answers the slot's key and removes that entry alone, or answers none and changes nothing. |
| MessageKeyRatchet.MessageKeyCache.PruneExpired | server/message-keys/cache/messageKeyCache.js:66-75 | Keeps exactly the entries put less than the TTL ago, in their order, and counts the others. |
| MessageKeyRatchet.MessageKeyCache.DestroySession | server/message-keys/cache/messageKeyCache.js:78-89 | Keeps exactly the other sessions' entries, in their order, and counts the removed ones. |
| MessageKeyRatchet.MessageKeyManager.SealMessage | server/message-keys/manager/messageKeyManager.js:96-134 | The seal is given the key at the chain's index, and the chain advances only if the seal succeeded. |
| MessageKeyRatchet.MessageKeyManager.OpenMessage | server/message-keys/manager/messageKeyManager.js:151-183 | The outcome (key, replay, too far ahead, wrong generation, no chain, malformed) and the new chains and cache that the runs above are made of. |
| MessageKeyRatchet.MessageKeyManager.DeriveAhead | server/message-keys/manager/messageKeyManager.js:293-303 | The loop that derives, caches and advances leaves the chain one past the target, the skipped keys cached, and answers the target's key. |
| MessageKeyRatchet.MessageKeyManager.AdvanceReceivingChain | server/key-hierarchy/manager/chainManager.js:154-156 | Moves one session's receiving index on by one. |
| MessageKeyRatchet.MessageKeyManager.PruneCache | server/message-keys/manager/messageKeyManager.js:240-244 | Leaves exactly the entries put less than the TTL ago, and answers how many it removed. |
| OverlappingOpens.DerivedKeyIsRightExactlyWhen | server/message-keys/manager/messageKeyManager.js:293-303 | In every interleaving of the steps of opens, re-roots, prunes and teardowns, a key derived from the live chain and given to an open is the key of its own session, generation and number if and only if no re-root was between its two steps as the open began and none replaced the keys before the derivation. |
| OverlappingOpens.UndisturbedKeysAreRight | server/message-keys/manager/messageKeyManager.js:278-304 | Every undisturbed open that is given a key, derived or cached, is given its own. |
| OverlappingOpens.NoKeyIsHandedOutTwice | server/message-keys/manager/messageKeyManager.js:278-304 | In every interleaving, even with re-roots inside opens and two sessions sharing the cache, no two keys handed out come from one chain key, and none handed out is still cached. |
| OverlappingOpens.SoloOpenIsAtomic | server/message-keys/manager/messageKeyManager.js:151-183 | From every state with the record level with the keys, no open of the session in flight and no re-root of it between its steps: an open that nothing interrupts ends, and leaves the chains and the cache, and is given the key or none, as the one-step open does. |
| OverlappingOpens.NumberLostExactlyWhen | server/message-keys/manager/messageKeyManager.js:293-303 | In every interleaving, of the numbers the current chain has passed, no key was ever derived for exactly those that an open of an older generation moved the chain past; such a message has no key anywhere and is refused as already consumed. |
| OverlappingOpens.RunsKeepRight | server/key-hierarchy/manager/chainManager.js:166-218 | Every interleaving keeps records at most one re-root behind the keys, undisturbed opens level with their chain, and cached keys of the current generation right. |
| OverlappingOpens.BeginsExactlyWhen | server/message-keys/manager/messageKeyManager.js:151-158 | An open begins if and only if its number and generation are well formed, the session is known and the generation is the stored record's; nothing else changes. |
| OverlappingOpens.RerootsInTwoSteps | server/key-hierarchy/manager/chainManager.js:166-218 | A re-root to a later generation starts the new chain at index 0 while the record stays, and then moves the record; one to no later generation does nothing. |
| OverlappingOpens.PrunesAndTeardowns | server/message-keys/cache/messageKeyCache.js:66-89 | A prune leaves exactly the keys cached less than the TTL ago, a teardown exactly those of the other sessions. |
| OverlappingOpens.RunsClock | server/message-keys/cache/messageKeyCache.js:33-35 | The clock that keys are cached and expire by moves by the time that passes, and by no other step. |
| OverlappingOpens.InterruptedExample | server/key-hierarchy/manager/chainManager.js:187 | A re-root between an open's reading of the record and its derivation: message 0 of the old generation is given the first key of the new chain, and message 0 of the new one is refused as already consumed. |
| ReplicationMerge.ReceiptsConverge | server/replication/merge/mergeEngine.js:50-54 | Any records' read receipts, with times in one canonical form, merge to the same record in every order and grouping. |
| ReplicationMerge.MergesHoldLatestReads | server/replication/merge/mergeEngine.js:163-169 | With times in one canonical form: however records are merged, the result holds exactly their readers, each with the latest time: nobody un-reads. |
| ReplicationMerge.ReceiptsCarryLatest | server/replication/merge/mergeEngine.js:45-48 | However read receipts are merged, the merge carries the latest version and the latest time among its records, marked as a merge. |
| ReplicationMerge.MergesHoldFurthestState | server/replication/merge/mergeEngine.js:55-61 | However delivery records are merged, the state is some record's: read if any is read, else delivered if any is, else sent if any is; a record without a state is pending. |
| ReplicationMerge.StatesNeverMoveBack | server/replication/types/types.js:110 | In the order pending, sent, delivered, read, no record is further than any merge it went into. |
| ReplicationMerge.DeliveryConvergesExactlyWhen | server/replication/merge/mergeEngine.js:55-61 | Records merge to the same delivery record in every order and grouping if and only if some record is sent, delivered or read, or all have the same state. |
| ReplicationMerge.OpaqueConvergesExactlyWhen | server/replication/merge/mergeEngine.js:66-69 | Last-write-wins gives the same record in every order and grouping if and only if the newest records, of the latest time and among these of the greatest writer, have the same content. |
| ReplicationMerge.MergesHoldNewest | server/replication/merge/mergeEngine.js:201-206 | However last-write-wins records are merged, the merge has the content and writer of a record than which none is later, or as late and by a greater writer; and it carries the latest version and time. |
| ReplicationMerge.TextsCompareByCharacter | server/replication/merge/mergeEngine.js:205 | One writer id is at least another if and only if the first character where they differ is the greater one, or the other id is a beginning of it. |
| ReplicationMerge.AttachmentsConvergeExactlyWhen | server/replication/merge/mergeEngine.js:171-179 | Attachments merge to the same record in every order and grouping if and only if the media types agree wherever defined, so do the thumbnails, and the checksums are all the same wherever defined or the same on every record of the latest version. |
| ReplicationMerge.MergesHoldAttachment | server/replication/merge/mergeEngine.js:171-179 | However attachments are merged, the merge has the greatest size and number of chunks, and a type, a thumbnail and a checksum of some record, each missing only if no record has one. |
| ReplicationMerge.LatestChecksumStays | server/replication/merge/mergeEngine.js:176 | If all records of the latest version have one checksum, the merge has it. |
| ReplicationMerge.FirstStateIsKept | server/replication/merge/mergeEngine.js:55-61 | Of two records neither of which is sent, delivered or read, a merge has the first one's state. |
| ReplicationMerge.FirstContentIsKept | server/replication/merge/mergeEngine.js:201-206 | Of two records of one time and writer, a merge has the first one's content. |
| ReplicationMerge.FirstAttachmentIsKept | server/replication/merge/mergeEngine.js:171-179 | A merge of two attachments has the first one's type and thumbnail if it has them, and the checksum of the later version, of the first at one version, if that has one. |
| ReplicationMerge.MetadataCommutesExactlyWhen | server/replication/merge/mergeEngine.js:181-199 | Two records' metadata, nested objects included, merge to the same either way if and only if the versions differ or no shared field holds two values of which only one can be kept. |
| ReplicationMerge.MetadataMergesByField | server/replication/merge/mergeEngine.js:181-199 | Field by field: what only one record has is taken over; of two numbers the greater is kept, of two lists the items of both, sorted and without repetitions; two objects merge as records with those fields would; and of any other two values that of the later version is kept, or the first at one version. |
| ReplicationMerge.MetadataMergesBeside | server/replication/merge/mergeEngine.js:70-75 | A record without metadata adds none; a merge is deleted if and only if both records are, and carries the later version and time. |
| ReplicationMerge.MetadataCarriesLatest | server/replication/merge/mergeEngine.js:70-75 | However metadata is merged, the merge carries the latest version and time, and is deleted if and only if all records are. |
| ReplicationMerge.MergesHoldGreatestNumber | server/replication/merge/mergeEngine.js:191 | Where fields each keep one kind of value: at every path that holds numbers, nested ones too, a merge of any records in any order holds the greatest of them. |
| ReplicationMerge.MergesHoldAllItems | server/replication/merge/mergeEngine.js:192 | Where fields each keep one kind of value: at every path that holds lists, a merge of any records in any order lists exactly the items of all of them. |
| ReplicationMerge.MetadataIsIdempotentExactlyWhen | server/replication/merge/mergeEngine.js:181-199 | Merging a merge of any two records' metadata with itself changes nothing if and only if every list that the merge took over whole, at any nested place, because the other record has nothing or another kind of value there, was sorted and without repetitions. |
| ReplicationMerge.SecondMergeSettles | server/replication/merge/mergeEngine.js:43-45 | Once a merge has been merged with itself, merging the result with itself again changes nothing. |
| ReplicationMerge.RawListExample | server/replication/merge/mergeEngine.js:189-192 | The list of b and a that only one record has is kept as it is by the merge, and becomes a and b when the merge is merged with itself. |
| ReplicationMerge.OtherMergesAreIdempotent | server/replication/merge/mergeEngine.js:43-45 | Merges of read receipts, delivery, attachments and last-write-wins records, merged with themselves, stay as they are. |
| ReplicationMerge.MetadataConvergesExactlyWhen | server/replication/merge/mergeEngine.js:70-75 | When every path, into nested objects too, holds one kind of value over the records, whole records merge to the same in every order and grouping if and only if at every path that holds scalars these are all the same wherever present, or present and the same on every record of the latest version; numbers, lists, objects, tombstones and missing metadata never matter. |
| ReplicationMerge.ClashExample | server/replication/merge/mergeEngine.js:196 | Two different texts at one version merge differently the two ways. |
| ReplicationMerge.GroupingExample | server/replication/merge/mergeEngine.js:191-196 | Three records of different versions, the latest without the field, merge to different texts depending on which is merged first. |
| ReplicationMerge.MixedKindsExample | server/replication/merge/mergeEngine.js:191-196 | A field holding a number on the latest record, a text on the next and a greater number on the oldest merges to different numbers depending on the grouping, though the versions differ and any two of the records merge the same either way. |
| GroupReceipts.AggregateMatchesScan | server/group-receipts/aggregation/aggregator.js:63-116 | Over every run of reports, delivered and read counts and both latency sums equal a scan of the members (reads capped at the number that count), each milestone is stamped exactly when its count is full, and the counters stay within bounds. |
| GroupReceipts.MembersCountExactlyWhen | server/group-receipts/delivery/deliveryTracker.js:61-96 | A member is delivered if and only if some device reported a delivery or a read, and read if and only if some device reported a read, in any order of reports. |
| GroupReceipts.DevicesShowHighestReport | server/group-receipts/delivery/deliveryTracker.js:65-75 | A device is known if and only if it has reported, and its status is the highest-ranking one it has reported. |
| GroupReceipts.DevicesShowMostAdvanced | server/group-receipts/delivery/deliveryTracker.js:65-75 | Over every run a device shows delivered if it ever reported so or read, else sent if it ever did, else the latest of its reports of a failure or an expiry, else pending. |
| GroupReceipts.TimesAreFirstReports | server/group-receipts/delivery/deliveryTracker.js:61-96 | Over every run a member's first delivery and first read carry the times of the first such reports of any device, and the latencies are the times from sending to delivery and from delivery to read, 0 if negative. |
| GroupReceipts.RetriesAreFailures | server/group-receipts/delivery/deliveryTracker.js:61-96 | Over every run a device's retries are its reported failures, and it is marked as read if and only if it reported a read. |
| GroupReceipts.FailuresAreCounted | server/group-receipts/manager/groupReceiptManager.js:118-142 | Over every run the failures counted are those reported for members who had not been delivered to before. |
| GroupReceipts.MilestonesAreStamped | server/group-receipts/aggregation/aggregator.js:63-116 | A milestone is stamped with the time of the report that completes it, and never again. |
| GroupReceipts.TickNeverFalls | server/group-receipts/aggregation/receiptPolicy.js:30-46 | Under every policy no report takes a blue tick back or a grey one to single, or changes a stamped milestone, and with read receipts disabled the tick is never blue. |
| GroupReceipts.BlueCounts | server/group-receipts/aggregation/receiptPolicy.js:30-46 | Under every policy the tick is blue if and only if read receipts are enabled, someone is counted, all members (or one, as the policy says) have it delivered, and at least as many as are counted (or one) of any of them have read. |
| GroupReceipts.TickCounts | server/group-receipts/aggregation/receiptPolicy.js:30-46 | Under every policy and in every run, from the scan: the tick is single if and only if nobody is addressed or not all (or, as the policy says, none) of the members have it delivered; and grey if and only if enough have it and it is not blue. |
| GroupReceipts.SingleUntilDelivered | LAYER10_SPRINT4_GROUP_RECEIPTS.md:19-20 | By the members: the tick is single if and only if nobody is addressed or not enough of the members addressed have received it. |
| GroupReceipts.BlueIsTrueExactlyWhen | LAYER10_SPRINT4_GROUP_RECEIPTS.md:21 | Under every policy a blue tick means, in every run, that all counted members (or one, as the policy says) have read, if and only if blue is never shown (read receipts disabled, or nobody counted), or nobody can stand in: no fewer are counted than addressed, or, where one read is enough, nobody addressed is read-excluded. |
| GroupReceipts.BlueIsShownExactlyWhen | LAYER10_SPRINT4_GROUP_RECEIPTS.md:21 | Under every policy with read receipts enabled and someone counted, blue is shown in every run as soon as enough have received and enough of the counted have read, if and only if one read is enough or repeated names did not raise the number counted. |
| GroupReceipts.BlueWithoutRepetitions | server/group-receipts/aggregation/receiptPolicy.js:61-95 | For a list without repetitions and every policy, blue is always shown when due, and is true in every run if and only if read receipts are disabled, nobody addressed is read-excluded, or everybody is. |
| GroupReceipts.UniqueMembers | server/group-receipts/aggregation/receiptPolicy.js:94 | The applicable list holds the same members as the kept list, each once; counting it never gives more readers than counting the kept list does. |
| GroupReceipts.KeptKeeps | server/group-receipts/aggregation/receiptPolicy.js:67-78 | The members kept are, in order, exactly those not excluded, the sender only if the policy excludes the sender. |
| GroupReceipts.UniqueKeepsFirst | server/group-receipts/aggregation/receiptPolicy.js:94 | Deduplicating keeps exactly the first appearances, in order. |
| GroupReceipts.AllowedOfKept | server/group-receipts/aggregation/receiptPolicy.js:81-91 | The reads counted are as many as the positions of the list that hold an addressed member not excluded from reading. |
| GroupReceipts.DroppedKeeps | server/group-receipts/aggregation/receiptPolicy.js:67-78 | The exclusions from delivery name, in order, exactly the members not addressed, the sender as the sender and the others by the business rule. |
| GroupReceipts.ReadDroppedKeeps | server/group-receipts/aggregation/receiptPolicy.js:83-91 | The exclusions from reading name, in order, exactly the members delivered to whose reads do not count. |
| GroupReceipts.BuildApplicableSet | server/group-receipts/aggregation/receiptPolicy.js:61-95 | The applicable members, each once: exactly those of the list that are addressed; the number of reads that count, taken before repetitions are removed, or 0 with read receipts disabled; and who was excluded and why, in order. |
| GroupReceipts.NobodyIsForgotten | server/group-receipts/aggregation/receiptPolicy.js:67-91 | Every member is delivered to or excluded for a reason, and of those delivered to, every member's reads count or are excluded for one. |
| GroupReceipts.GroupReceiptManager.RegisterMessage | server/group-receipts/manager/groupReceiptManager.js:86-109 | A new message gets zero counters, a single tick and no milestones over its applicable members, and no receipts; one already registered keeps what it has, and other messages are untouched. |
| GroupReceipts.GroupReceiptManager.TrackDelivery | server/group-receipts/manager/groupReceiptManager.js:118-142 | One delivery report: the member's receipt, and one delivery, one failure or nothing on that message's counters; an unknown message or a member who is not applicable is refused and nothing changes. |
| GroupReceipts.GroupReceiptManager.TrackRead | server/group-receipts/manager/groupReceiptManager.js:149-163 | One read report: the member's receipt, and on a first read one read, and a delivery if it was also the first, on that message's counters; an unknown message or a member who is not applicable is refused and nothing changes. |
| Groups.MembershipInvariant | server/controllers/groupController.js:12-18 | For every initial list and every run: a user other than the admin is a member at most once and never while invited, the admin once or twice, being invited only if the initial list said so, and invitations do not multiply. |
| Groups.StandingIsOwnHistory | server/controllers/groupController.js:29-95 | The admin is always a member; whether any other user is outside, invited or a member is decided by the initial list and that user's own events alone. |
| Groups.MembersWereInvited | server/controllers/groupController.js:59-68 | Every member but the admin accepted, after being invited. |
| Groups.MembersOnlyGrow | server/controllers/groupController.js:63-68 | The members of an earlier state are a prefix of those of any later one. |
| Groups.CleanExactlyWhen | server/controllers/groupController.js:12-18 | Every reachable group has duplicate-free disjoint lists if and only if the initial list is duplicate-free and omits the creator. |
| OverlappingInvites.CleanExactlyWhenNeverLate | server/controllers/groupController.js:32-42 | In every interleaving of loads and saves, from a clean invite list, the two lists stay duplicate-free and disjoint if and only if no invite is saved when its user is no longer outside. |
| OverlappingInvites.LateExactlyWhen | server/controllers/groupController.js:32-42 | In every interleaving, an invite is saved after its user came in if and only if the user's events saved since it loaded the group, taken in order, bring an outsider in; another invite of that user is then among them. |
| OverlappingInvites.StandingIsSavedHistory | server/controllers/groupController.js:29-88 | In every interleaving and from every initial list, each user is member, invited or outside as the user's own saved events, in order, say. |
| OverlappingInvites.ListedExactlyAsSaved | server/controllers/groupController.js:29-88 | In every interleaving and from every initial list, repetitions and the creator allowed, a user is listed as a member once for each saved acceptance, the admin once more; is listed as pending once for each invitation since the latest saved answer; and is accepted no more often than invited. |
| OverlappingInvites.NeverLateKeepsUserInv | server/controllers/groupController.js:29-88 | From every initial list, without late invites overlapping handlers keep the bounds of Groups.MembershipInvariant. |
| OverlappingInvites.SoloHandlerIsStep | server/controllers/groupController.js:29-88 | A handler with nothing between its load and its save changes the group as the one-step handler does. |
| OverlappingInvites.OvertakenHandlers | server/controllers/groupController.js:42-88 | An answer saved after another save has been made changes nothing; an invite is appended all the same. |
| OverlappingInvites.TwoInvitesExample | server/controllers/groupController.js:37-42 | Two invites of one user that both load before either saves leave the user pending twice. |
| Groups.CleanStepsConserve | server/controllers/groupController.js:37-88 | In a clean group an accept moves one user, and the two lists together change size only by a successful invite or by the reject of an invited user. |
| Groups.RemovingKeeps | server/controllers/groupController.js:63 | Filtering a user out of a list keeps exactly everyone else, in order. |
| Groups.AdminOnceExactlyWhen | server/controllers/groupController.js:12-18 | The admin is a member exactly once in every run if and only if the initial list omits the creator. |
| Groups.AcceptingAdminTwice | server/controllers/groupController.js:63-68 | A creator named in the initial list who accepts is listed twice. |
| Groups.GroupController.CreateGroup | server/controllers/groupController.js:6-27 | A new group with the admin as its only member and the invited list, empty if absent. |
| Groups.GroupController.InviteToGroup | server/controllers/groupController.js:29-49 | Appends the user to the end of the pending list, refuses members and pending users, and does not know missing groups; nothing else changes. |
| Groups.GroupController.AcceptInvite | server/controllers/groupController.js:51-75 | Appends a pending user to the members, leaving in the pending list exactly everyone else in order; refuses anyone else and changes nothing. |
| Groups.GroupController.RejectInvite | server/controllers/groupController.js:77-95 | Leaves in the pending list exactly everyone else, in order, and succeeds even if the user was not in it. |
| SocketRegistry.RegistryIsLatestEvent | server/server.js:78-157 | Over every run a user is registered if and only if the latest event that set or removed the entry is a connect, and then with that connect's socket id; a close removes it only if the disconnect handler was attached. |
| SocketRegistry.OnlineExactlyWhen | server/server.js:78-157 | Decided before the event: the registry is right about a user after it if and only if it was right before another's event or an attachment, or the event is the user's connect, or it closes an attached socket and there is no other, or an unattached one and the user is registered exactly if there is another. |
| SocketRegistry.WrongOnlyAfterClose | server/server.js:155-157 | Whenever the registry is wrong about a user, the user is registered with a socket that closed before its handler was attached, no socket being open; or not registered, after a handled close, with a socket still open. |
| SocketRegistry.RegisteredSocketIsOpenExactlyWhen | server/server.js:78-157 | A registered socket id is an open socket of that user if and only if it did not close before its disconnect handler was attached. |
| SocketRegistry.EarlyCloseExample | server/server.js:82-155 | A socket that closes right after registering stays registered. |
| SocketRegistry.RegistryIsOpenSocketsExactlyWhen | server/server.js:78-157 | When users connect only with no socket open, the registry holds exactly a user's open socket, or nothing if there is none, if and only if it does not hold a socket that closed before its handler was attached. |
| SocketRegistry.TwoSocketsExample | server/server.js:155-157 | Two connects and the handled close of the first socket leave an open socket that is not registered. |
| SocketRegistry.SplitRoundTrip | server/lib/redis.js:31 | Joining the parts of a split gives the string back, and no part holds the separator. |
| SocketRegistry.KeyReadsBack | server/lib/redis.js:31 | The id read back from a user's key is the part before its first colon: the whole id if and only if it has none. |
| SocketRegistry.KeyInjective | server/lib/redis.js:18 | Different users have different keys. |
| SocketRegistry.SocketRegistry.GetOnlineUsers | server/lib/redis.js:29-32 | One answer per key; the answers are the registered ids cut at their first colons, and when no id has a colon they are exactly the registered ids, each once. |
| SocketRegistry.SocketRegistry.CacheUserSocket | server/lib/redis.js:17-19 | Sets that user's socket id and no other. |
| SocketRegistry.SocketRegistry.GetUserSocket | server/lib/redis.js:21-23 | The stored socket id, or none. |
| SocketRegistry.SocketRegistry.RemoveUserSocket | server/lib/redis.js:25-27 | Removes that user's entry and no other. |
| SocketRegistry.SocketRegistry.OnConnection | server/server.js:78-83 | The handler's first step registers the socket unless the user id is absent or empty. |
| SocketRegistry.SocketRegistry.Listen | server/server.js:155 | Its last step makes that socket's close handled, and no other's. |
| SocketRegistry.SocketRegistry.OnDisconnect | server/server.js:155-157 | A handled close removes the user's entry, whichever socket it holds, unless the id is absent or empty; a close without a handler does nothing. |
| Messages.UnreadIsConserved | server/controllers/messageController.js:16-36 | The unread badges add up to the messages to the caller, not read, from existing users other than the caller. |
| Messages.ReadingClearsOneBadge | server/controllers/messageController.js:140-151 | Opening a peer's conversation removes exactly that peer's badge, lowers the total by its old value, and changes no other pair's counts or messages. |
| Messages.StatusFallsExactlyWhen | server/controllers/messageController.js:60-81 | In every interleaving an event moves a status back if and only if it is the save of a send whose message was read after it was created, and then from read to delivered. |
| Messages.FinishedNeverFalls | server/controllers/messageController.js:148-151 | Once a message's send has finished its status never moves back; messages are never removed and keep their parties. |
| Messages.FallCountsAgain | server/controllers/messageController.js:77-78 | A save raises a pair's unread count by one if it undoes a read of that pair's message, and changes no count otherwise. |
| Messages.UndisturbedSendsAreMonotone | server/controllers/messageController.js:102-124 | When no read comes between a send's steps, no status ever moves back. |
| Messages.UnfinishedStatus | server/controllers/messageController.js:60-81 | While its send runs, a message is read if a read covered it since its creation, and otherwise sent. |
| Messages.ReadExactlyWhen | server/controllers/messageController.js:148-151 | In every interleaving a message stands as read if and only if a read covered it after its creation and after the save of its send. |
| Messages.FindsConversation | server/controllers/messageController.js:140-145 | Whatever happens before its second step, a read answers, in order and each once, exactly the messages that either of the two users had sent the other at its first step. |
| Messages.MarksOnlyFoundExactlyWhen | server/controllers/messageController.js:140-151 | Every message that a read is about to mark is among those it answers if and only if each message its peer sent since its first step was read by another read, after the save of its send. |
| Messages.SilentPeersAreAnswered | server/controllers/messageController.js:140-151 | In particular when the peer sends nothing between the two steps. |
| Messages.ConversationKeeps | server/controllers/messageController.js:140-145 | A conversation holds, in order and each once, exactly the stored messages that either of the two users sent the other. |
| Messages.LookupDecides | server/controllers/messageController.js:113-117 | In every run a lookup changes no message, and the send goes on to its save if and only if the receiver's latest registry event was a connect with a socket id that is not empty. |
| Messages.StoreHoldsLatestSocket | server/lib/redis.js:17-27 | In every run the registry holds for a user the socket of the latest connect, unless the user disconnected after it. |
| Messages.DeliveredOnlyIfOnline | server/controllers/messageController.js:113-117 | In every run a message stands as delivered only if, at the one lookup of its send, the receiver's latest registry event was such a connect. |
| Messages.SoloSendIsAtomic | server/controllers/messageController.js:102-124 | A send whose steps nothing interrupts adds one message, delivered if and only if the registry holds a socket id for the receiver that is not empty, and is over. |
| Messages.SoloReadIsAtomic | server/controllers/messageController.js:140-151 | A read whose steps nothing interrupts answers exactly the messages the two users exchanged, marks exactly the peer's unread ones, and is over. |
| Messages.LateMessageExample | server/controllers/messageController.js:140-151 | A message sent between the two steps is marked read without having been answered. |
| Messages.InterruptedSendExample | server/controllers/messageController.js:77-78 | A read between lookup and save is overwritten by the save. |
| Messages.MessageController.GetAllUsers | server/controllers/messageController.js:16-36 | Everyone but the caller, in order, and a badge for exactly the peers with unread messages, holding how many stored messages from that peer to the caller are not read. |
| Messages.MessageController.Create | server/controllers/messageController.js:103-110 | Appends the message as sent. |
| Messages.MessageController.SaveDelivered | server/controllers/messageController.js:116-117 | Overwrites that message's status with delivered, whatever it was. |
| Messages.MessageController.SendMessage | server/controllers/messageController.js:47-124 | With nothing in between, the new message is delivered if and only if the registry holds a socket id for the receiver that is not empty, and sent otherwise. |
| Messages.MessageController.FindConversation | server/controllers/messageController.js:140-145 | In order and each once, exactly the stored messages that either of the two users sent the other. |
| Messages.MessageController.MarkIncoming | server/controllers/messageController.js:148-151 | Marks exactly the stored messages from the peer to the caller that are not read, changes no other, and answers how many there were. |
| Messages.MessageController.GetAllMessages | server/controllers/messageController.js:135-161 | With nothing in between, answers exactly the messages either of the two users sent the other, as they were before the update, and marks exactly the incoming ones not read; whatever it marks it has answered. |
| Discovery.CacheAgreesWithLog | client/src/lib/discovery.js:50-55 | Over every run of lookups and clears a peer's history is its last 20 lookups since the clear, newest first, and its cached metadata is that of the newest lookup since the clear that has any. |
| Discovery.ClearForgets | client/src/lib/discovery.js:321-324 | What was looked up before a clear does not matter after it. |
| Discovery.NewestIsFirst | client/src/lib/discovery.js:268-280 | The newest metadata is that of the first entry, newest first, that has any. |
| Discovery.WindowAgreesExactlyWhen | client/src/lib/discovery.js:268-280 | The history and the cache show the same metadata if and only if some entry in the window has metadata or no lookup since the clear had any. |
| Discovery.AwaitResolved | client/src/lib/discovery.js:174-185 | Ends whenever the clock passes the deadline some time; every poll began before the deadline, and it answers the first terminal status polled, or else, once the deadline has passed, the last poll's answer, none if there was no poll. |
| Discovery.PollsWithinTurns | client/src/lib/discovery.js:174-185 | When each turn takes at least a positive interval, the clock passes the deadline, and the polls but the last take less than the timeout: at most timeout over interval polls, rounded up. |
| Discovery.AwaitResolvedIsDetermined | client/src/lib/discovery.js:174-185 | Only one number of polls is possible, so the answer is determined. |
| Discovery.ResolvedIsTerminal | client/src/lib/discovery.js:283-290 | A resolved state is terminal; the terminal states that are not resolved are failed, expired and cancelled. |
| Discovery.DiscoveryClient.Remember | client/src/lib/discovery.js:50-55 | The new entry comes first in that peer's history, with the first 19 earlier entries behind it; the cached metadata is replaced only if there is some; other peers keep what they have. |
| Discovery.DiscoveryClient.Lookup | client/src/lib/discovery.js:68-79 | Remembers and answers a successful reply; any other reply answers nothing and changes nothing. |
| Discovery.DiscoveryClient.GetCachedDeviceIds | client/src/lib/discovery.js:273-275 | The cached metadata's device ids, or none. |
| Discovery.DiscoveryClient.ClearDiscoveryCache | client/src/lib/discovery.js:321-324 | Empties both maps. |
| Capabilities.PlansAreStoredAfterUpdate | client/src/lib/capabilities.js:94-107 | In every interleaving each cached plan arrived after the latest successful update response, and was asked for before it if and only if its negotiation was in flight as that response arrived. |
| Capabilities.PlansAreAskedAfterUpdate | client/src/lib/capabilities.js:139-155 | If no successful update response arrives during a negotiation, every cached plan was also asked for after the latest update. |
| Capabilities.PlansAreLatest | client/src/lib/capabilities.js:139-155 | In every interleaving a plan stays cached as it was answered until an update succeeds, the plans are cleared or a new plan is answered under its key; no other plan is cached. |
| Capabilities.SelfIsLatestSet | client/src/lib/capabilities.js:78-129 | In every interleaving the client's own set is the one of the latest successful registration, update or refresh. |
| Capabilities.UpdatedIsLatest | client/src/lib/capabilities.js:94-107 | The step the rows above call the latest update is the last one at which a successful update response arrived. |
| Capabilities.OriginsNameTheirSteps | client/src/lib/capabilities.js:139-155 | The steps at which a cached plan was asked for and answered are those of a negotiation of its pair and of that request's successful response. |
| Capabilities.RequestsAreAnswered | client/src/lib/capabilities.js:94-155 | A request is sent, an update or a refresh only with a set whose id is not empty, and its response ends it. |
| Capabilities.OverlapExample | client/src/lib/capabilities.js:94-107 | For any capability sets and plan, a negotiation that overlaps an update leaves a plan asked for before it. |
| Capabilities.KeysCollideExactlyWhen | client/src/lib/capabilities.js:148 | Two pairs of peer and device share a plan key if and only if they are equal or a colon-bounded piece moves from one id to the other. |
| Capabilities.KeysInjectiveWithoutColons | client/src/lib/capabilities.js:189 | Plan keys are injective over peer ids without colons, whatever the device ids. |
| Capabilities.CapabilityClient.Register | client/src/lib/capabilities.js:78-88 | A successful response replaces the set and keeps the plans; anything else changes nothing; the current set is answered. |
| Capabilities.CapabilityClient.Update | client/src/lib/capabilities.js:94-107 | Without a set with a non-empty id it answers none and changes nothing. Otherwise a successful response replaces the set and drops every plan; a refusal answers the current set and an error answers none, both changing nothing. |
| Capabilities.CapabilityClient.Refresh | client/src/lib/capabilities.js:119-129 | Without a set with a non-empty id it answers none and changes nothing. Otherwise a successful response replaces the set and keeps the plans. |
| Capabilities.CapabilityClient.Negotiate | client/src/lib/capabilities.js:139-155 | A successful response is stored under its pair's key and answered; anything else answers none and changes nothing. |
| Capabilities.CapabilityClient.GetTransportPlan | client/src/lib/capabilities.js:200-204 | Reads the preferred transport and the fallback chain, empty if absent, from exactly the plan cached for that pair. |
| Capabilities.CapabilityClient.Clear | client/src/lib/capabilities.js:207-209 | Drops every plan and keeps the set. |

## Left out

- Authentication, authorization, routes, HTTP status bodies, Socket.io emits and rooms, React components, uploads and database plumbing: input, output and foreign calls.
- Cryptography: message and chain keys are symbolic terms; key bytes, zeroing and derivation are not modelled.
- Clocks, ids from random sources and backend answers are parameters; report and socket ids are assumed fresh.
- JavaScript numbers: counters, message numbers and times are integers. A report whose message number is missing or is not an integer is not modelled.
- MessageKeyReports.MessageKeyController.Ensure: the created record's handshake id, security block, timestamps and schema version are not modelled, and neither is concurrent first-time creation of one record; interleaved runs start from the created record.
- IdentityContext.IdentityContextService.LoadContext: one call reads one view of the managers; reads at different moments are in OverlappingLoads.
- OverlappingLoads: what the managers compute is abstract, so a status that expires with time counts as a change of the backend.
- MessageKeyRatchet.MessageKeyManager.OpenMessage: one open is one step here; its steps, with other sessions' opens, re-roots and time in between, are in OverlappingOpens.
- MessageKeyRatchet: destroying a chain and establishing it anew is not modelled; the message log the manager keeps beside the keys has the shape of the one in MessageKeyReports.
- OverlappingOpens: two re-roots of one session do not overlap, an open that waits for the session's lock has not begun, and chain metadata other than the generation is not modelled.
- ReplicationMerge: content hashes of merged records, which are computed from the merged metadata, are not modelled; list items are known by their texts, times are in one canonical form, so the same instant is never written in two ways, and every record has a time. Snapshots, deltas and the conflict resolver are not modelled, and when a path holds values of different kinds, say a number in one record and a text in another, merges of two records are decided and of three or more only shown to depend on the grouping (ReplicationMerge.MixedKindsExample).
- GroupReceipts.BuildApplicableSet: the privacy hook is folded into the set of read-excluded members, so a hook that answers differently at different calls is not modelled.
- GroupReceipts: receipt history, versions, events, the receipt cache, the rolled-up delivery status of a member and device metadata are not modelled; the per-message lock makes each report one step.
- Groups.GroupController.InviteToGroup: each handler is one step; handlers that load and save in separate steps are in OverlappingInvites, where the document mapper is taken to append what was pushed and to refuse a reassigned list if the document was saved in between.
- MessageKeyRatchet.SealsShareKeysOnlyAfterFailure: one generation and one step for each seal; seals step by step with re-roots are in OverlappingSeals, for one session.
- Messages.MessageController.GetAllUsers: its queries, one per user, are taken at one moment.
- Messages.MessageController.GetAllMessages: the method is the read with nothing in between; reads in two steps are the Find and Mark events of the same module.
- Messages: group messages, message contents and search are not modelled; `markMessageAsSeen` is left out because it reads a parameter its route does not bind.
- SocketRegistry.SocketRegistry.GetOnlineUsers: the store holds only the keys this registry writes; of the awaits inside the connection handler only those between registering and attaching the disconnect handler are split.
- Discovery.DiscoveryClient.Lookup: the three lookup functions differ only in the request and are one method; the other discovery requests change no client state.
- Capabilities: a request in flight is known by what was asked, not by its payload; feature-flag updates are updates.
- Other subsystems (presence, replication, schedulers, transport, media, sessions, handshakes): not part of this model.
