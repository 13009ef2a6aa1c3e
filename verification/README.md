# A verified model of DWBase

DWBase is a memory store for agents. Atoms (immutable records) are appended to worlds, found again by scan, by id
or by question, collected under a retention policy, and replicated between peers. This project models the
stateful core of it in Dafny and proves what the core promises over whole runs. Verify everything with

    dafny verify --resource-limit 2000000 --verification-time-limit 0 dfyconfig.toml

## What is modelled

- **Storage** (`Sled*.dfy`, on `Text`, `OrderedMap`, `Atoms`). The store is one flat ordered map from textual keys to
  values, as in the code: bodies, checksummed log frames and the id index live side by side and are kept apart only
  by their keys. `SledStorage.Storage` edits the map in place; `SledStore` says what each operation computes;
  `SledLogs` says what a reader sees, and `SledScan` what a scan selects. On top: crash recovery at every insert
  (`SledCrash`), repair of arbitrary damage, whole and cut short (`SledRepair`), deletion whole and cut short
  (`SledDelete`), the maintained index against the rebuilt one (`SledIndex`), refinement over whole runs, crashes
  included (`SledRuns`), lookup by id for any index contents (`SledLookup`), and bodies without frames
  (`SledOrphans`).
- **Engine** (`Reflex`, `Conflicts`, `Sorting`, `Policy`, `Gc`, `Lifecycle`, `Quarantine`, `Engine`). The engine model
  keeps a log of atoms per world. What it answers is said over whole runs and without its own tests: which atoms an
  answer lists and in which order (`Answers`), where a submission is filed and who sees it (`Submissions`), and which
  atoms a collection takes, down to the label that decides (`Eviction`). `EngineStore`, `EngineCollect` and
  `EngineRuns` prove that the flat store refines it: every step reads and writes the flat map alone, and over whole
  runs of remember, ingest and collect the map represents the engine's logs, so the engine's theorems are about the
  flat store too.
- **Swarm** (`ReplayGuard`, `Inbox`, `Bloom`) and **rate limits** (`TokenBucket`, `Gatekeeper`).
- **Time as text** (`Timestamps`): when comparing timestamps as strings agrees with comparing them as instants.
- **Examples** (`Examples`): concrete inputs on which promises fail.

Objects that the code edits in place are classes whose methods are proved against functions of the old state; the
lemmas are then about those functions, over every input and every run. Serialisation is a pair of functions with
`decode(encode(x)) == x`, and `SledStore.CodecsExist` gives one for every checksum; checksums, hashes, the
replication policy and the RFC 3339 parser are arbitrary functions; time is a parameter; `f32`/`f64` are `real`.
Visiting orders that the code leaves to a hash map or hash set are arbitrary here: every theorem holds for all of
them. Reopening always has an outcome (`SledStorage.ReopenExists`).

A world name is *plain* when neither `/log/` nor `/atoms/` occurs in it (with a closing slash added). Tenant
worlds such as `tenant:acme/alpha` are plain although they contain a slash. Distinct plain worlds never share a
key, which is all that appends, scans and deletions need.

## What the code does that its documentation does not say

The model follows the code. Where a promise fails, a lemma gives the exact condition, and another, mostly in
`Examples`, an input.

- World discovery keeps only the second segment of a key (`SledKeys.WorldOfLogKey`). A world whose name has a slash,
  as tenant worlds have, is never repaired (`SledRepair.SlashedLogNotRepaired`; the others are,
  `SledRepair.RepairAllPrefix`). Its atoms drop out of the id index on reopening (`SledIndex.ReopenedIndex`) and can
  no longer be looked up by id although they could before, while those of the others can
  (`EngineStore.LookupAfterReopen`, `Examples.TenantAtomLost`); delivered again by a peer they are logged a second
  time (`EngineStore.RedeliveredAfterReopen`). It is never collected, whatever its retention policy
  (`EngineCollect.CollectionSkipsTenants`).
- A deletion removes bodies before frames. Cut short and reopened, it can cost atoms that nobody deleted: which ones
  is `SledDelete.CrashedDeleteKeeps`, and for a given cut when none, `SledDelete.CrashedDeleteCostsNothing`
  (`Examples.BystanderLost`). No cut can cost any exactly when no other atom comes after a deleted one in the log
  (`SledDelete.CrashesNeverCost`), which a caller can see beforehand. In a world with a slash only the deleted atoms
  are lost (`SledDelete.CrashedDeleteUnrepaired`).
- A repair cut short by a second crash leaves no trace of what it removed. The next repair keeps the good prefix and
  no more exactly when the removals reached the end or stopped before another bad frame
  (`SledRepair.RepairCutShortKeepsPrefix`); otherwise the log has a gap (`Examples.GapLeft`). No cut can leave one
  exactly when no good frame follows the first bad one (`SledRepair.EveryCutKeepsPrefix`).
- Reusing an id puts the new atom in both places of the log. The next reopening cuts the log at the old place exactly
  when the two bodies differ in checksum and the world has no slash; otherwise it leaves both (`SledLookup.ReusedId`,
  `SledLookup.ReusedIdTruncates`, `Examples.ReuseEmptiesLog`). `new_id` restarts at 1 with each engine
  (`crates/dwbase-engine/src/lib.rs:508`, `543-546`), so freshness of ids is an assumption of the storage theorems,
  not something the engine provides.
- An append leaves a body without a frame exactly when it is cut just after a body (`SledOrphans.TornOrphans`). Just
  then, and only in a world without a slash, lookups find an id that no log has (`SledOrphans.TornAppendLookup`,
  `Examples.OrphanLeft`), and no remote ingest ever logs that id (`EngineStore.OrphanIsSkipped`).
- A scan limit of zero still yields one atom (`SledLogs.ScanMeaning`, `Examples.ZeroLimitYieldsOne`).
- A namespace wildcard is a bare prefix test (`Inbox.NamespaceWildcardIsPrefix`): `tenant:a:*` subscribes to
  `tenant:ab/chat` as well (`Examples.OtherTenantMatches`).
- A recorded action is in force exactly when it is later than the status before it or repeats it
  (`Lifecycle.ActionTakesEffect`): a resume in the instant of the archive is ignored (`Examples.ResumeIgnored`).
- A retention expires every readable atom, the newest included, exactly from 2^63 days on
  (`Gc.HugeRetentionExpiresAll`, `Examples.LargestRetention`), unless it panics: a pass panics exactly when an
  unprotected, readable atom meets a day count between the two bounds of `Gc.OverflowRange`
  (`Examples.OneDayTooMany`). What a pass leaves depends on the order of worlds exactly when one world panics and
  another, which does not, has an atom to lose (`Gc.OrderMatters`, `Examples.OrderDecides`).
- String order and time order of UTC timestamps agree except as `Timestamps.StringOrderIsTimeOrder` says: a fraction
  of a second sorts before the whole second it follows (`Timestamps.FractionSortsEarly`,
  `Timestamps.HalfPastMidnight`), so the two `since` tests of the system disagree on it.
- A question's flags exclude atoms on the reflex path and are required on the storage path; an atom passes both
  tests exactly when the question has no flags (`Reflex.FlagTestsAgree`, `Examples.FlagsDisagree`).
- The last scan of a question, and the filter that drops quarantined atoms, never change an answer
  (`Answers.Gathered`, `Answers.CandidatesExactly`): every log and index holds atoms of its own world only, so there is
  nothing to drop, and the last scan repeats the one before it.
- The documentation speaks of per-worker ask limits; the code keeps a single bucket for all askers. An ask about a
  readable world is refused exactly when the asks granted since some earlier one, to anybody, leave no room under
  the rate (`Gatekeeper.AskRefusedExactly`, `Examples.SecondAskRefused`).

## Model

| member | source | states |
|---|---|---|
| Text.ParsePadded | crates/dwbase-storage-sled/src/lib.rs:257-289 | every u64 written with twenty digits parses back to itself |
| Text.ParsedNumber | crates/dwbase-storage-sled/src/lib.rs:285-289 | a text parses as a u64 if and only if it is digits, with or without a plus sign, whose number fits |
| Text.PaddedOrder | crates/dwbase-storage-sled/src/lib.rs:265-289 | for all u64 pairs, byte order of the padded numbers is numeric order |
| OrderedMap.ScanInsertLast | crates/dwbase-storage-sled/src/lib.rs:261-283 | a key above all others of its prefix comes last in a prefix scan, the rest unmoved |
| OrderedMap.ScanRemove | crates/dwbase-storage-sled/src/lib.rs:355-369 | removing any keys leaves a prefix scan with the others, in order |
| SledKeys.Separate | crates/dwbase-storage-sled/src/lib.rs:257-273 | two marked keys with the same text have the same plain world, marker and rest |
| SledKeys.AtomKeyInjective | crates/dwbase-storage-sled/src/lib.rs:257-259 | a body key determines its plain world and its id |
| SledKeys.LogKeyInjective | crates/dwbase-storage-sled/src/lib.rs:261-273 | a log key determines its plain world and its sequence number |
| SledKeys.LogKeyUnderPrefix | crates/dwbase-storage-sled/src/lib.rs:261-273 | a log key lies below the prefix of its own world and of no other plain world |
| SledKeys.AtomKeyNotUnderLog | crates/dwbase-storage-sled/src/lib.rs:257-263 | no body key lies below any log prefix |
| SledKeys.SeqOfLogKey | crates/dwbase-storage-sled/src/lib.rs:265-289 | the sequence number read off a log key is the one it was built from |
| SledKeys.LogKeyOrder | crates/dwbase-storage-sled/src/lib.rs:265-283 | inside a world, key order is append order |
| SledKeys.WorldOfLogKey | crates/dwbase-storage-sled/src/lib.rs:311-321 | discovery reads a world's own name back if and only if the name has no slash |
| SledStore.CodecsExist | crates/dwbase-storage-sled/src/lib.rs:373-392 | serialisation pairs that round-trip exist, whatever the checksum |
| SledStorage.Storage.Open | crates/dwbase-storage-sled/src/lib.rs:176-194 | opening repairs every discovered log, then leaves the index of what remains |
| SledStorage.Storage.RepairWorldLog | crates/dwbase-storage-sled/src/lib.rs:323-371 | removes precisely the log keys at or past the first bad frame |
| SledStorage.Storage.ListWorlds | crates/dwbase-storage-sled/src/lib.rs:685-694 | the set of second segments of the keys below `world/` |
| SledStorage.Storage.RepairLogs | crates/dwbase-storage-sled/src/lib.rs:297-309 | in any visiting order, removes at once what each discovered world's repair removes on its own |
| SledStorage.RepairIndependent | crates/dwbase-storage-sled/src/lib.rs:297-371 | repairing other worlds first changes nothing about what repairing this one removes |
| SledStorage.Storage.ClearIndex | crates/dwbase-storage-sled/src/lib.rs:503-514 | removes every index key and no other key |
| SledStorage.Storage.RebuildIndex | crates/dwbase-storage-sled/src/lib.rs:516-536 | in any visiting order: an entry for exactly the readable frames of discovered worlds, each naming one of them; returns the number of frames |
| SledStorage.Storage.AppendAtoms | crates/dwbase-storage-sled/src/lib.rs:408-437 | performs body, frame and index insert per atom from the next sequence number, up to the first atom of another world, and fails if and only if there is one |
| SledStorage.Storage.GetByIds | crates/dwbase-storage-sled/src/lib.rs:546-585 | per id the indexed body, else the first body the key search reaches, in request order; decode errors end it |
| SledStorage.Storage.Scan | crates/dwbase-storage-sled/src/lib.rs:587-614 | walks the log in key order, skips unreadable frames and missing bodies, stops at the limit |
| SledStorage.Storage.DeleteAtoms | crates/dwbase-storage-sled/src/lib.rs:664-683 | removes bodies and index entries per id, then the frames naming a deleted id; returns the number of frames |
| SledLogs.ScanMeaning | crates/dwbase-storage-sled/src/lib.rs:587-614 | a scan is the world's log filtered, then cut at the limit, where a limit of zero acts as one |
| SledScan.ScanSelects | crates/dwbase-storage-sled/src/lib.rs:448-469 | without a limit, a logged atom is returned if and only if its kind is asked for or none is, it carries every label and flag asked for, and its timestamp text is from `since` to `until` |
| SledScan.ScanInOrder | crates/dwbase-storage-sled/src/lib.rs:587-614 | what a scan returns is in log order |
| SledScan.ScanLimited | crates/dwbase-storage-sled/src/lib.rs:587-614 | a limit cuts the unlimited scan after that many atoms, and never before the first |
| SledScan.ScanInWindow | crates/dwbase-storage-sled/src/lib.rs:458-467 | on UTC timestamps without fractions the window is one of epoch seconds |
| SledLogs.LogIdsDistinct | crates/dwbase-storage-sled/src/lib.rs:408-437 | in a sound world the ids of the log are pairwise distinct |
| SledLogs.NextSeqIsNew | crates/dwbase-storage-sled/src/lib.rs:275-283 | the next sequence number exceeds every stored one, and its key is new and last |
| SledLogs.WorldUnchanged | crates/dwbase-storage-sled/src/lib.rs:587-614 | a world's log depends only on its own log keys and the bodies they name |
| SledCrash.AtomSteps | crates/dwbase-storage-sled/src/lib.rs:408-437 | across the three inserts of one atom its world's log grows at the second and no other log ever changes |
| SledCrash.TornAppend | crates/dwbase-storage-sled/src/lib.rs:408-437 | a batch cut after any number of inserts leaves every log sound, extended by exactly the atoms whose frames are in |
| SledCrash.WholeAppend | crates/dwbase-storage-sled/src/lib.rs:408-437 | a completed append extends its world's log by the batch and leaves all others |
| SledCrash.RepairNoOp | crates/dwbase-storage-sled/src/lib.rs:297-371 | repair removes nothing from a store with sound logs |
| SledCrash.CrashRecovery | crates/dwbase-storage-sled/src/lib.rs:176-194 | cut an append after any insert and reopen in any order: each log is its pre-call self, plus a prefix of the batch in the target world |
| SledRepair.RepairKeepsLongestGoodPrefix | crates/dwbase-storage-sled/src/lib.rs:323-371 | for any damage, repair leaves exactly the longest prefix of frames that decode and match a stored body, moves no other key, and is idempotent |
| SledRepair.RepairedExactly | crates/dwbase-storage-sled/src/lib.rs:323-371 | a log key survives repair if and only if its frame and every frame before it decode and match a stored body's checksum |
| SledRepair.RepairAllPrefix | crates/dwbase-storage-sled/src/lib.rs:297-309 | after repairing all discovered worlds each slash-free log is its longest good prefix |
| SledRepair.SlashedLogNotRepaired | crates/dwbase-storage-sled/src/lib.rs:311-321 | a log in a world with a slash is left as it is, whatever its damage |
| SledRepair.RepairCutShort | crates/dwbase-storage-sled/src/lib.rs:355-369 | a repair cut after any number of removals and then run again leaves the good prefix followed by the good run after the gap |
| SledRepair.RepairCutShortKeepsPrefix | crates/dwbase-storage-sled/src/lib.rs:355-369 | that is the good prefix alone if and only if the removals reached the end or the next frame is bad too |
| SledRepair.EveryCutKeepsPrefix | crates/dwbase-storage-sled/src/lib.rs:355-369 | every cut leaves the good prefix alone if and only if no good frame follows the first bad one |
| SledDelete.WholeDelete | crates/dwbase-storage-sled/src/lib.rs:664-683 | a completed deletion filters its world's log by id, keeps the order, and leaves every other log |
| SledDelete.DeleteCount | crates/dwbase-storage-sled/src/lib.rs:664-683 | the count returned is the number of atoms that leave the log |
| SledDelete.CrashedDelete | crates/dwbase-storage-sled/src/lib.rs:664-683 | a deletion cut after any removal and reopened leaves a sound store whose log lacks the frames gone and ends at the first dead body; other logs are unmoved |
| SledDelete.EarlyCrashKeeps | crates/dwbase-storage-sled/src/lib.rs:323-371 | while only bodies are gone, a position survives if and only if no atom up to it lost its body |
| SledDelete.LateCrashKeeps | crates/dwbase-storage-sled/src/lib.rs:664-683 | once all bodies are gone, an atom survives if and only if it is not named and no more named atoms precede it than frames are gone |
| SledDelete.CrashedDeleteKeeps | crates/dwbase-storage-sled/src/lib.rs:664-683 | for a cut at any removal: which atoms the reopened log still has |
| SledDelete.CrashedDeleteCostsNothing | crates/dwbase-storage-sled/src/lib.rs:664-683 | for a given cut, a deletion costs no unnamed atom if and only if every unnamed atom is safe, as the log alone tells |
| SledDelete.CrashesNeverCost | crates/dwbase-storage-sled/src/lib.rs:664-683 | no cut of a deletion, reopened in any way, can cost an unnamed atom if and only if no unnamed atom follows a named one in the log |
| SledDelete.CrashedDeleteUnrepaired | crates/dwbase-storage-sled/src/lib.rs:664-683 | in a world with a slash a cut deletion hides the atoms whose bodies are gone and no other, and their frames stay |
| SledDelete.CrashedTwice | crates/dwbase-storage-sled/src/lib.rs:297-371 | a deletion cut short, a reopening cut short in its repair, and another reopening: the exact log, and a sound store |
| SledIndex.IncrementalIsRebuilt | crates/dwbase-storage-sled/src/lib.rs:516-536 | the maintained index equals the rebuilt one, as a map and for every visiting order, if and only if all logged worlds are slash-free |
| SledIndex.ReopenedIndex | crates/dwbase-storage-sled/src/lib.rs:516-536 | after reopening, the index has exactly the ids logged in slash-free worlds, and each entry leads to its atom |
| SledIndex.ReopenIgnoresIndex | crates/dwbase-storage-sled/src/lib.rs:503-536 | what a reopening leaves does not depend on the index it finds, so a crash while the index is rebuilt costs nothing |
| SledStorage.ReopenExists | crates/dwbase-storage-sled/src/lib.rs:176-194 | every store can be reopened |
| SledIndex.ReopenRestoresIndex | crates/dwbase-storage-sled/src/lib.rs:516-536 | when all logged worlds are slash-free a reopening leaves an exact index, whatever it found |
| SledIndex.PutAtomKeepsIndex | crates/dwbase-storage-sled/src/lib.rs:496-501 | appending an atom with an id logged nowhere keeps the index exact |
| SledIndex.AppendKeepsIndex | crates/dwbase-storage-sled/src/lib.rs:408-437 | so does appending a batch |
| SledIndex.DeleteKeepsIndex | crates/dwbase-storage-sled/src/lib.rs:664-683 | so does deleting ids of one's own world |
| SledRuns.StepRefines | crates/dwbase-storage-sled/src/lib.rs:408-437 | append, delete, append or deletion torn at any step and reopened, a second crash in that reopening, and reopen each do to every log what the plain model says |
| SledRuns.RunRefines | crates/dwbase-storage-sled/src/lib.rs:176-194 | at every point of every such run from the empty store, every log is that of the plain model |
| SledRuns.ScanOfRun | crates/dwbase-storage-sled/src/lib.rs:587-614 | hence every scan in a run returns the modelled log, filtered and limited |
| SledRuns.RunKeepsIndex | crates/dwbase-storage-sled/src/lib.rs:496-501 | with globally fresh ids the index stays exact over runs of appends and deletes in any worlds, and over runs with crashes and reopens in slash-free worlds |
| SledRuns.RunIndexIsRebuilt | crates/dwbase-storage-sled/src/lib.rs:516-536 | over the same runs it equals what a rebuild computes if and only if every logged world is slash-free |
| SledLookup.LookupMeaning | crates/dwbase-storage-sled/src/lib.rs:439-446 | for any index contents, a lookup finds nothing if and only if no world it tries stores a body, finds only such bodies, and fails only on an unreadable one |
| SledLookup.GetByIdsMeaning | crates/dwbase-storage-sled/src/lib.rs:546-585 | bodies come back in request order, one for each reachable id and none for the others |
| SledOrphans.TornOrphans | crates/dwbase-storage-sled/src/lib.rs:425-433 | a cut append leaves a body without a frame if and only if the cut is just after a body |
| SledOrphans.LookupWithoutOrphans | crates/dwbase-storage-sled/src/lib.rs:546-585 | without such bodies a reopened store finds by id exactly what slash-free worlds log |
| SledOrphans.TornAppendLookup | crates/dwbase-storage-sled/src/lib.rs:546-585 | for any plain world: after a cut append and a reopening, lookups find exactly what slash-free worlds log if and only if the cut was not just after a body or the world has a slash |
| SledLookup.TenantAtomsUnreachable | crates/dwbase-storage-sled/src/lib.rs:546-585 | after reopening, an atom of a world with a slash stays in its log and is not found by id |
| SledLookup.ReusedId | crates/dwbase-storage-sled/src/lib.rs:323-371 | for any plain world: re-appending a logged id shows the new atom in both places; the next reopening keeps that if the checksums agree or the world has a slash, and otherwise cuts the log before the old place |
| SledLookup.ReusedIdTruncates | crates/dwbase-storage-sled/src/lib.rs:323-371 | re-appending a logged id cuts the log at the old place on the next reopening if and only if the checksums differ and the world has no slash |
| SledLookup.SlashedLogReopened | crates/dwbase-storage-sled/src/lib.rs:311-321 | whatever its frames and bodies are, the log of a world with a slash reads the same after a reopening |
| TokenBucket.TokenBucket.constructor | crates/dwbase-security/src/lib.rs:87-95 | a bucket starts full, with capacity max(rate, 1) |
| TokenBucket.TokenBucket.Allow | crates/dwbase-security/src/lib.rs:97-107 | refills by elapsed time up to the capacity and takes one token if there is one |
| TokenBucket.RunKeepsValid | crates/dwbase-swarm-nats/src/swarm.rs:108-130 | tokens stay between zero and the capacity over every run, for every clock |
| TokenBucket.AllowedIsPaidFor | crates/dwbase-security/src/lib.rs:97-107 | allowed calls never exceed the tokens at hand plus the refill |
| TokenBucket.RateBound | crates/dwbase-security/src/lib.rs:97-107 | in any window of any run at most max(rate,1) + rate*(t-s) calls are allowed |
| TokenBucket.DeniedSplit | crates/dwbase-security/src/lib.rs:97-107 | a denied call in between leaves the bucket of the unsplit wait |
| TokenBucket.DeniedCallsAreFree | crates/dwbase-security/src/lib.rs:97-107 | dropping all denied calls from a run leaves the same calls allowed |
| TokenBucket.LevelIsTightestRoom | crates/dwbase-security/src/lib.rs:97-107 | the refilled level is the least of the capacity and the room left in every window opened by an earlier call |
| TokenBucket.AllowsIffRoom | crates/dwbase-security/src/lib.rs:97-107 | a call is allowed if and only if no window bound would be broken by allowing it |
| Gatekeeper.Gatekeeper.CheckRemember | crates/dwbase-security/src/lib.rs:212-224 | world, kind, label and importance checks in order, then the worker's bucket; a check that objects touches no bucket |
| Gatekeeper.Gatekeeper.CheckAsk | crates/dwbase-security/src/lib.rs:226-235 | the read-world check, then one bucket for all askers at a sixtieth of the per-minute rate |
| Gatekeeper.Gatekeeper.RateLimit | crates/dwbase-security/src/lib.rs:189-209 | a key without a bucket gets a full one; only that key's bucket changes |
| Gatekeeper.RememberVerdict | crates/dwbase-security/src/lib.rs:140-224 | which of the five denials a submission gets, check by check, and which bucket it touches |
| Gatekeeper.AskVerdict | crates/dwbase-security/src/lib.rs:226-235 | which of the two denials an ask gets, and which bucket it touches |
| Gatekeeper.WorkersAreIndependent | crates/dwbase-security/src/lib.rs:189-224 | what a worker is granted is what a lone bucket grants its own unobjectionable calls |
| Gatekeeper.WorkerRateBound | crates/dwbase-security/src/lib.rs:189-224 | in any window of any run over all workers, one worker's accepted submissions obey the rate bound |
| Gatekeeper.AsksShareOneBucket | crates/dwbase-security/src/lib.rs:226-235 | all asks about readable worlds, whoever makes them, draw on one bucket that sees nothing else |
| Gatekeeper.AskRefusedExactly | crates/dwbase-security/src/lib.rs:226-235 | after any asks, one is rate limited if and only if its world is readable and the asks granted since some earlier readable one fill the window since then |
| ReplayGuard.ReplayGuard.ShouldAccept | crates/dwbase-swarm-nats/src/replication.rs:59-78 | drops from the front while too old or too long, refuses a carried id, else pushes and bounds the queue; no other peer's queue changes |
| ReplayGuard.QueueIsRecent | crates/dwbase-swarm-nats/src/replication.rs:59-78 | after any run in time order the queue is exactly those of the last maxEntries accepted entries still within the window |
| ReplayGuard.RefusedExactly | crates/dwbase-swarm-nats/src/replication.rs:59-78 | a call is refused if and only if one of the last maxEntries accepted entries carries its id and is within the window |
| ReplayGuard.AcceptedTwice | crates/dwbase-swarm-nats/src/replication.rs:59-78 | an id is accepted again only after the window passed or maxEntries other accepts came between |
| ReplayGuard.PeersAreIndependent | crates/dwbase-swarm-nats/src/replication.rs:59-78 | a peer's queue is a function of its own calls |
| Inbox.NamespaceWildcardIsPrefix | crates/dwbase-swarm-nats/src/replication.rs:231-242 | a namespace wildcard is a bare prefix test, the same as the plain wildcard |
| Inbox.MatchesTakes | crates/dwbase-swarm-nats/src/replication.rs:231-242 | a pattern matches if and only if it is `*`, is the world, or ends in `*` or `:*` after a prefix of the world |
| Inbox.Replicator.constructor | crates/dwbase-swarm-nats/src/replication.rs:290-333 | the start of a run that conserves, with an inbox bound of at least one |
| Inbox.Replicator.Receive | crates/dwbase-swarm-nats/src/swarm.rs:237-247 | an arrival extends the run by one step and keeps conservation |
| Inbox.Replicator.Poll | crates/dwbase-swarm-nats/src/swarm.rs:322-324 | polls take from the back |
| Inbox.Replicator.HandleEnvelope | crates/dwbase-swarm-nats/src/replication.rs:360-382 | one envelope has exactly one outcome, with its effect on guard, inbox and counters |
| Inbox.Replicator.PollInbox | crates/dwbase-swarm-nats/src/replication.rs:359-384 | handles the whole buffer newest first, stops at an undecodable message, extends the run by those single steps and keeps conservation |
| Inbox.Replicator.PollAtomBatch | crates/dwbase-swarm-nats/src/replication.rs:390-392 | delivers the oldest queued batch and keeps conservation |
| Inbox.AdvanceKeeps | crates/dwbase-swarm-nats/src/replication.rs:359-392 | each arrival, poll and delivery keeps conservation, the replay verdict of every polled envelope included |
| Inbox.EveryRunConserves | crates/dwbase-swarm-nats/src/replication.rs:359-400 | over every run: bound kept, enqueued = delivered + dropped + queued in order, counters exact, every arrival polled once or waiting, an envelope refused exactly when the guard's history refuses it, and every enqueued batch passed replay, subscription and policy checks |
| Inbox.ReplayedExactly | crates/dwbase-swarm-nats/src/replication.rs:360-364 | over every run in time order an envelope is refused if and only if an earlier one of its peer and id was let through, within the window, with fewer than maxEntries of that peer let through since |
| Inbox.OutcomesExactly | crates/dwbase-swarm-nats/src/replication.rs:359-384 | over every run in time order, the outcome of every polled envelope: refused if and only if an earlier one holds it off, and otherwise by its payload, the patterns and the policy alone |
| Inbox.EnqueuedExactly | crates/dwbase-swarm-nats/src/replication.rs:359-384 | a polled batch is enqueued if and only if nothing holds it off, a pattern takes its world and its peer may send it; and then it has left the inbox, delivered or dropped, or is in it |
| Inbox.EnqueueFills | crates/dwbase-swarm-nats/src/replication.rs:376-380 | an enqueue drops a batch if and only if the inbox is at its bound, and leaves it one fuller otherwise |
| Inbox.EnqueuedTwice | crates/dwbase-swarm-nats/src/replication.rs:359-384 | one correlation id of a peer is enqueued twice only after the window or after maxEntries others |
| Inbox.DrainOrder | crates/dwbase-swarm-nats/src/replication.rs:359-384 | one poll handles envelopes newest first, and all of them if and only if none is undecodable |
| Inbox.DrainIsARun | crates/dwbase-swarm-nats/src/replication.rs:359-384 | one poll is a run of single steps, so run properties hold across it |
| Bloom.BloomFilter.FromIds | crates/dwbase-swarm/src/lib.rs:134-149 | sets exactly the bits that are probes of some given id |
| Bloom.BloomFilter.Set | crates/dwbase-swarm/src/lib.rs:167-174 | sets exactly the probes of one id and clears nothing |
| Bloom.BloomFilter.Contains | crates/dwbase-swarm/src/lib.rs:176-185 | true if and only if every probe of the id is set |
| Bloom.BloomFilter.Missing | crates/dwbase-swarm/src/lib.rs:187-193 | the order-preserving sublist of ids not contained |
| Bloom.ProbeMeaning | crates/dwbase-swarm/src/lib.rs:151-165 | a probe is the first hash plus a multiple of the second, less multiples of 2^64, modulo the number of bits |
| Bloom.SetBit | crates/dwbase-swarm/src/lib.rs:167-174 | or-ing one mask into one byte sets that bit and changes no other |
| Bloom.ContainedExactly | crates/dwbase-swarm/src/lib.rs:133-185 | no false negatives, and false positives exactly where every probe is some inserted id's |
| Bloom.MissingIsDisjoint | crates/dwbase-swarm/src/lib.rs:187-193 | reported ids were not inserted; ids not reported have all probes set |
| Bloom.SameIdsSameBits | crates/dwbase-swarm/src/lib.rs:134-149 | filters of the same id set have the same bytes, whatever the order and repetition |
| Timestamps.EpochOrder | crates/dwbase-engine/src/lib.rs:245-249 | calendar order is epoch-second order, and epoch seconds determine the calendar fields |
| Timestamps.BaseOrder | crates/dwbase-storage-sled/src/lib.rs:458-467 | on the fixed-width part, byte order is calendar order |
| Timestamps.StringOrderIsTimeOrder | crates/dwbase-storage-sled/src/lib.rs:458-467 | string and epoch comparison agree unless both name one second and their tails are in string order |
| Timestamps.SameShapeAgrees | crates/dwbase-engine/src/lib.rs:312-317 | without fractions the storage and the reflex `since` tests agree on all UTC timestamps |
| Timestamps.FractionSortsEarly | crates/dwbase-storage-sled/src/lib.rs:458-467 | any fraction sorts before the whole second it follows although its epoch second is the same |
| Timestamps.HalfPastMidnight | crates/dwbase-storage-sled/src/lib.rs:458-467 | a concrete pair on which the two tests differ |
| Reflex.ReflexIndex.Insert | crates/dwbase-engine/src/lib.rs:268-277 | pushes into the atom's bucket and trims its world from that bucket; fails if and only if the timestamp does not parse |
| Reflex.ReflexIndex.FilterBucket | crates/dwbase-engine/src/lib.rs:299-332 | keeps the passing atoms of one bucket, order and repetition included |
| Reflex.ReflexIndex.Filter | crates/dwbase-engine/src/lib.rs:279-336 | returns, bucket by bucket and for any visiting order, exactly the passing atoms of the asked world |
| Reflex.FilterSelects | crates/dwbase-engine/src/lib.rs:279-336 | an indexed atom is returned if and only if it meets every part of the filter that is there |
| Reflex.BucketMeaning | crates/dwbase-engine/src/lib.rs:251-260 | buckets are spans of the configured width on both sides of 1970, and the window is the recency in whole buckets, or one |
| Reflex.FlagTestsAgree | crates/dwbase-engine/src/lib.rs:230-330 | an atom passes the reflex and the storage flag tests both if and only if there are no flags; when the two tests agree |
| Reflex.ContentAfterInsert | crates/dwbase-engine/src/lib.rs:256-277 | what one insert does to every bucket of every world |
| Reflex.StillLive | crates/dwbase-engine/src/lib.rs:256-277 | one more insert leaves an earlier one live unless it trims that one's bucket |
| Reflex.ExactContent | crates/dwbase-engine/src/lib.rs:251-277 | after any inserts each bucket holds exactly its live atoms, with multiplicity and in insertion order |
| Reflex.RetainedIffLive | crates/dwbase-engine/src/lib.rs:251-277 | an atom is retained if and only if no later insert of its world has a bucket more than the window above its own |
| Sorting.SortIsSorted | crates/dwbase-engine/src/lib.rs:955-977 | sorting by a total preorder gives a sorted permutation |
| Sorting.SortStable | crates/dwbase-engine/src/lib.rs:955-977 | any class of mutually tied elements keeps its order |
| Conflicts.ConflictIndex.Register | crates/dwbase-engine/src/lib.rs:156-181 | records each link of an atom, in order |
| Conflicts.ConflictIndex.Score | crates/dwbase-engine/src/lib.rs:591-605 | reads the score off the recorded links |
| Conflicts.ScoreOfLinks | crates/dwbase-engine/src/lib.rs:591-605 | after any registrations the score is a function of the bag of links alone |
| Conflicts.OrderDoesNotMatter | crates/dwbase-engine/src/lib.rs:156-208 | equal bags of links give equal scores, whatever the registration order |
| Conflicts.AnswerOrderIsTotal | crates/dwbase-engine/src/lib.rs:955-977 | score, time, importance, trust order is a total preorder |
| Conflicts.DeduplicatedIds | crates/dwbase-engine/src/lib.rs:950-952 | after deduplication no id occurs twice |
| Conflicts.RankedMeaning | crates/dwbase-engine/src/lib.rs:950-977 | a ranked list has distinct ids, is in answer order, and covers exactly the candidate ids |
| Gc.Collector.ReadPolicy | crates/dwbase-engine/src/lib.rs:607-675 | one pass over the labels of the world's own, its policy world's and its tenant's policy atoms yields the world's policy |
| Gc.Collector.ReadLabels | crates/dwbase-engine/src/lib.rs:638-664 | one pass over an atom's labels applies each in turn |
| Policy.PolicyMeaning | crates/dwbase-engine/src/lib.rs:607-675 | field by field: the last readable label wins, lists collect all nonempty values in order, retention is never below the last readable floor |
| Policy.OnlyPolicyAtomsCount | crates/dwbase-engine/src/lib.rs:637-665 | atoms without a policy label do not influence the folded policy |
| Policy.PolicyDependsOnPolicyAtoms | crates/dwbase-engine/src/lib.rs:607-675 | stores that agree on policy-labelled atoms give every world the same policy |
| Gc.Collector.DeleteAtoms | crates/dwbase-engine/src/lib.rs:1102-1104 | filters one world's log by id and returns how many left |
| Gc.Collector.DoomedIds | crates/dwbase-engine/src/lib.rs:1066-1101 | the ids of exactly the unprotected atoms that are expired or below the minimum importance, unless some comparison of ages panics |
| Gc.Collector.Judge | crates/dwbase-engine/src/lib.rs:1074-1101 | one atom's turn in that loop, branch by branch, panic included |
| Gc.Collector.GcWorld | crates/dwbase-engine/src/lib.rs:1058-1105 | one world's turn extends the specification of the pass by that world, or panics and leaves the store as it is |
| Gc.Collector.GcOnce | crates/dwbase-engine/src/lib.rs:1055-1111 | a pass goes through if and only if no visited world panics at its start, and then leaves one and the same store for every visiting order and returns the number of evicted atoms; otherwise it leaves what some order of the visited worlds comes to before the first that panics |
| Gc.OrderMatters | crates/dwbase-engine/src/lib.rs:1055-1111 | all orders of the visited worlds leave the same store if and only if none of them panics or none that does not panic has an atom to lose |
| Gc.CollectedKeepsPolicyAtoms | crates/dwbase-engine/src/lib.rs:677-681 | a pass keeps every policy-labelled atom of every world, in order |
| Gc.CollectedKeepsPolicies | crates/dwbase-engine/src/lib.rs:607-681 | no part of a pass changes any world's policy |
| Gc.DeletedExactly | crates/dwbase-engine/src/lib.rs:1074-1101 | an atom of a visited world goes if and only if it is unprotected and expired or below the minimum importance |
| Eviction.ReadingDecides | crates/dwbase-engine/src/lib.rs:607-665 | what a world's labels are read as is what the last readable label says, over the world, its policy world and its tenant's policy world, in this order |
| Eviction.DaysAreKeptFor | crates/dwbase-engine/src/lib.rs:638-675 | the days that atoms are kept for: the deciding label's, 365 without one, and at least the deciding floor |
| Eviction.KeptForSome | crates/dwbase-engine/src/lib.rs:638-675 | some number of days is decided for every world |
| Eviction.MinimumIs | crates/dwbase-engine/src/lib.rs:638-665 | the minimum importance is the deciding label's |
| Eviction.ReplicationListed | crates/dwbase-engine/src/lib.rs:638-665 | the allow and deny lists hold exactly the nonempty names on some governing label |
| Eviction.EvictedExactly | crates/dwbase-engine/src/lib.rs:1055-1104 | an atom of a world the pass gets to goes if and only if no label of its own and no link of a stored atom shields it, and it is older than the newest by more than the days decided, or less important than the minimum decided |
| Eviction.SurvivorsInOrder | crates/dwbase-engine/src/lib.rs:1055-1104 | what a collection leaves is in the old order |
| Eviction.PanicsExactly | crates/dwbase-engine/src/lib.rs:1084-1092 | a world ends the pass if and only if its days do not fit and it has an unshielded atom with a readable timestamp |
| Gc.OverflowRange | crates/dwbase-engine/src/lib.rs:1090 | exactly which day counts panic |
| Gc.NewestExpires | crates/dwbase-engine/src/lib.rs:1084-1092 | the newest atom expires if and only if the day count wraps to a negative number |
| Gc.HugeRetentionExpiresAll | crates/dwbase-engine/src/lib.rs:1084-1092 | a retention expires every readable atom if and only if it is at least 2^63 days, and which of these panic |
| Gc.CollectionKeepsTargets | crates/dwbase-engine/src/lib.rs:1061-1080 | one pass never takes the target of a link from an atom stored beside it |
| Gc.LiveLinksHold | crates/dwbase-engine/src/lib.rs:1055-1104 | over any interleaving of fresh appends and passes, a stored link target stays as long as the linking atom |
| Gc.ReachableSurvive | crates/dwbase-engine/src/lib.rs:1055-1104 | so does everything transitively reachable from a survivor |
| Lifecycle.WorldManager.Status | crates/dwbase-engine/src/lib.rs:683-714 | the status read off the world's metadata atoms in one pass |
| Lifecycle.StatusMeaning | crates/dwbase-engine/src/lib.rs:683-714 | it is what the first status label of a metadata atom of the log says than which none is later, and none before it as late |
| Lifecycle.WorldManager.ManageWorld | crates/dwbase-engine/src/lib.rs:1125-1185 | appends one metadata atom unless the action is idle |
| Lifecycle.ActionRecorded | crates/dwbase-engine/src/lib.rs:1125-1185 | nothing is recorded if and only if the status is right and the action brings neither labels nor a description; otherwise one metadata atom with the status and the labels a creation brings |
| Lifecycle.ActionTakesEffect | crates/dwbase-engine/src/lib.rs:683-714 | a recorded action is in force if and only if it is strictly later than the status before it, or repeats it |
| Lifecycle.CollectionKeepsMetas | crates/dwbase-engine/src/lib.rs:1055-1104 | a collection keeps all world metadata |
| Lifecycle.RunInForce | crates/dwbase-engine/src/lib.rs:1125-1185 | at every point of an orderly run the metadata in force is that of the last action |
| Lifecycle.ArchivedIffLastAction | crates/dwbase-engine/src/lib.rs:716-721 | a world reads as archived if and only if the last action on it was to archive, short-circuited actions included |
| Quarantine.SuspicionTracker.RecordSuspicion | crates/dwbase-engine/src/lib.rs:552-565 | pushes the time, drops what is older than a second, returns the length |
| Quarantine.SuspicionTracker.ShouldQuarantine | crates/dwbase-engine/src/lib.rs:576-581 | suspect if and only if more than five recent submissions, an impossible payload, or low trust with high importance |
| Quarantine.QueueIsLastSecond | crates/dwbase-engine/src/lib.rs:552-565 | a worker's queue holds exactly its submissions of the last second |
| Submissions.PlayIsRun | crates/dwbase-engine/src/lib.rs:819-878 | submissions, deliveries and collections are a run of the engine, so what is proved of those holds |
| Submissions.SuspectMeaning | crates/dwbase-engine/src/lib.rs:552-581 | over such runs a submission is suspect if and only if its payload says nan, infinity or impossible in any case of letters, five others of its worker are in the last second, or a low-trust worker claims over 0.7 |
| Submissions.SubmissionFiled | crates/dwbase-engine/src/lib.rs:836-872 | a suspect submission extends the log of its world's quarantine world, marked; any other the log of its world; no other log changes |
| Submissions.SuspiciousNeverAnswered | crates/dwbase-engine/src/lib.rs:836-843 | whatever comes later, no answer about its world lists a suspect submission |
| Submissions.SubmissionAnswered | crates/dwbase-engine/src/lib.rs:881-977 | any other submission with a readable timestamp is in an unfiltered answer about its world right after |
| Engine.Engine.AdmitAtom | crates/dwbase-engine/src/lib.rs:1042-1048 | vector, log, reflex index, conflicts, stream in that order; a bad timestamp stops after the log |
| Engine.Engine.Remember | crates/dwbase-engine/src/lib.rs:819-878 | a suspect submission is filed, marked, under its quarantine world; it succeeds if and only if its timestamp parses; the worker's queue records it |
| Engine.Engine.IngestRemoteAtoms | crates/dwbase-engine/src/lib.rs:1031-1052 | skips stored ids, admits the others, stops at the first failure |
| Engine.Engine.Ask | crates/dwbase-engine/src/lib.rs:881-977 | candidates from the reflex index or a scan, quarantine filter, fetched atoms, last-resort scan; deduplicated and ranked |
| Engine.IngestStores | crates/dwbase-engine/src/lib.rs:1031-1052 | an ingest stores exactly the union of old and new atoms, each id once |
| Engine.IngestReports | crates/dwbase-engine/src/lib.rs:1031-1052 | it reports exactly the ids that were not stored, each once |
| Engine.IngestConverges | crates/dwbase-engine/src/lib.rs:1030-1052 | any order, batching and repetition of the same atoms stores the same set; delivering again changes and reports nothing |
| Engine.IngestInParts | crates/dwbase-engine/src/lib.rs:1031-1052 | ingesting two batches is ingesting their concatenation |
| Engine.IngestSucceedsExactly | crates/dwbase-engine/src/lib.rs:1031-1052 | a batch goes through if and only if every atom not stored already has a readable timestamp |
| Engine.RunGrounded | crates/dwbase-engine/src/lib.rs:819-878 | after any run all logs, vectors and indexes come from atoms once appended to the world they are filed under |
| Engine.CandidatesSound | crates/dwbase-engine/src/lib.rs:888-948 | as long as no id stands for two different atoms, every candidate was once appended to the world asked about |
| Engine.AskIsSound | crates/dwbase-engine/src/lib.rs:881-977 | over any run in which no id stands for two different atoms, redelivery after eviction included, an answer lists distinct atoms once appended to the world asked about, in answer order, hence none from a quarantine world unless asked |
| Answers.RunIndexed | crates/dwbase-engine/src/lib.rs:866-872 | over every run the stream and the reflex and conflict indexes are those of all appended atoms with readable timestamps, and the vector index has the ids of all appended atoms with a vector |
| Answers.CandidatesExactly | crates/dwbase-engine/src/lib.rs:888-948 | over every run the candidates are the relevant atoms: recent ones that meet the question, else the first logged ones that do, and the fetched ones |
| Answers.Gathered | crates/dwbase-engine/src/lib.rs:888-948 | with logs of their own worlds, neither the quarantine filter nor the last scan changes the candidates |
| Answers.AnswerCovers | crates/dwbase-engine/src/lib.rs:881-977 | over every run an answer has the ids of exactly the relevant atoms, each once |
| Answers.AnswersExactly | crates/dwbase-engine/src/lib.rs:881-977 | when no id stands for two atoms, an answer lists an atom if and only if it is relevant |
| Answers.AnswerInOrder | crates/dwbase-engine/src/lib.rs:591-605 | an answer descends by standing, as counted on the links of all appended atoms, then time, importance and trust |
| EngineStore.LookupIsLog | crates/dwbase-storage-sled/src/lib.rs:546-585 | in an intact store a lookup by id returns precisely the atom that the one log with the id holds, tenant worlds included, and nothing otherwise |
| EngineStore.LookupAfterReopen | crates/dwbase-storage-sled/src/lib.rs:311-321 | reopening an intact store keeps every logged atom of a slash-free world findable by id, and makes every logged atom of a world with a slash unfindable |
| EngineStore.StoredIsLookup | crates/dwbase-engine/src/lib.rs:1035-1041 | the engine's test for a known id on its logs is the lookup on the flat store |
| EngineStore.ScanIsLog | crates/dwbase-storage-sled/src/lib.rs:587-614 | a scan of the flat store is the engine's log filtered and limited |
| EngineStore.AppendRefines | crates/dwbase-storage-sled/src/lib.rs:540-544 | appending one fresh atom to the flat store appends it to the engine's log and keeps the store intact |
| EngineStore.DeleteRefines | crates/dwbase-storage-sled/src/lib.rs:664-683 | deleting a world's own ids from the flat store filters the engine's log and keeps the store intact |
| EngineCollect.ReadsPolicy | crates/dwbase-engine/src/lib.rs:607-636 | what scans of the flat store yield for a world's policy is the policy of the engine's logs |
| EngineCollect.CollectRefines | crates/dwbase-engine/src/lib.rs:1058-1105 | one world's turn, with atoms and policy read by scanning the flat store, collects that world |
| EngineCollect.PassRefines | crates/dwbase-engine/src/lib.rs:1055-1111 | turns of any worlds in any order on the flat store leave the store of the collected logs |
| EngineCollect.PassGoesThrough | crates/dwbase-engine/src/lib.rs:1084-1092 | a pass over given worlds goes through if and only if none of them panics at its start |
| EngineCollect.CollectionSkipsTenants | crates/dwbase-storage-sled/src/lib.rs:685-694 | collecting discovered worlds, panic or not, leaves each collected world its survivors and nothing else changed; no world with a slash is ever among them |
| EngineStore.ReopenRefines | crates/dwbase-storage-sled/src/lib.rs:176-194 | reopening an intact store of slash-free worlds keeps it intact and representing the same logs |
| EngineStore.IngestRefines | crates/dwbase-engine/src/lib.rs:1031-1052 | remote ingest on the flat store refines ingest on the logs |
| EngineStore.OrphanIsSkipped | crates/dwbase-engine/src/lib.rs:1035-1041 | once a slash-free world stores the body of an id that no slash-free log has, no later ingest into slash-free worlds logs it |
| EngineStore.RedeliveredAfterReopen | crates/dwbase-engine/src/lib.rs:1031-1052 | after a reopening, delivering a logged atom again changes nothing in a slash-free world and logs it twice in one with a slash |
| EngineRuns.StepRefines | crates/dwbase-engine/src/lib.rs:819-878 | each engine step, a relation on the flat store alone, keeps it intact and representing the engine's logs |
| EngineRuns.RunRefines | crates/dwbase-engine/src/lib.rs:1031-1111 | over every run of remember, ingest and collect the flat store represents the engine's logs |
| EngineRuns.ReadsOfRun | crates/dwbase-storage-sled/src/lib.rs:546-614 | at every point of such a run, scans and lookups on the flat store answer from the engine's logs |
| EngineRuns.AskOnStore | crates/dwbase-engine/src/lib.rs:923-934 | in the same runs, answers stay sound with the fetch by ids done on the flat store, whatever upserted ids vector search returns |
| Examples.TenantIsPlain | crates/dwbase-storage-sled/src/lib.rs:257-273 | tenant worlds have plain names |
| Examples.TenantAtomLost | crates/dwbase-storage-sled/src/lib.rs:311-321 | an input: a tenant's atom found by id before a reopening and not after |
| Examples.BystanderLost | crates/dwbase-storage-sled/src/lib.rs:664-683 | an input: two atoms, one deleted, a crash after one removal, an empty log |
| Examples.GapLeft | crates/dwbase-storage-sled/src/lib.rs:355-369 | an input: three frames, a bad one, a cut repair, a gap |
| Examples.ReuseEmptiesLog | crates/dwbase-storage-sled/src/lib.rs:323-371 | an input: a reused id empties the log |
| Examples.OrphanLeft | crates/dwbase-storage-sled/src/lib.rs:425-433 | an input: a body found by id and logged nowhere |
| Examples.OtherTenantMatches | crates/dwbase-swarm-nats/src/replication.rs:231-242 | an input: one tenant's wildcard takes in another tenant |
| Examples.ResumeIgnored | crates/dwbase-engine/src/lib.rs:683-714 | an input: a resume in the instant of the archive is recorded and not in force |
| Examples.LargestRetention | crates/dwbase-engine/src/lib.rs:1084-1092 | an input: the largest retention expires the newest atom |
| Examples.OneDayTooMany | crates/dwbase-engine/src/lib.rs:1084-1092 | an input: the first day count that panics, and the last that does not |
| Examples.OrderDecides | crates/dwbase-engine/src/lib.rs:1055-1111 | an input: two worlds, and an atom that goes in one visiting order and stays in the other |
| Examples.SecondAskRefused | crates/dwbase-security/src/lib.rs:226-235 | an input: two asks about different worlds in one instant, the second refused |
| Examples.ZeroLimitYieldsOne | crates/dwbase-storage-sled/src/lib.rs:587-614 | an input: a scan for no atoms that yields one |
| Examples.FlagsDisagree | crates/dwbase-engine/src/lib.rs:299-332 | an input: an atom that passes the storage test and not the reflex test |

## Left out

- SledStorage.Storage.AppendAtoms: assumes sequence numbers fit in 64 bits (`next_seq + batch <= 2^64`); what the code does past that is not modelled.
- SledLogs.ScanMeaning: assumes that the stored bodies decode; a body that does not makes a scan fail, as `SledStorage.Storage.Scan` states.
- SledRuns.RunKeepsIndex: does not cover runs that reopen a store with worlds whose names have a slash, because the index then is not exact; `SledIndex.ReopenedIndex` says what it is.
- SledDelete.CrashedDelete: requires a slash-free world, because a log in another world is not repaired on reopening; `SledDelete.CrashedDeleteUnrepaired` is about those.
- SledRuns.StepRefines: torn deletions are steps in slash-free worlds only; in others they leave frames without bodies, and the logs are then no longer sound.
- SledRepair.RepairKeepsLongestGoodPrefix: assumes that log keys have the twenty-digit form the store writes; the damage is to frames and bodies.
- SledRepair.RepairCutShort: stated for one world's repair; `SledDelete.CrashedTwice` and `SledIndex.ReopenIgnoresIndex` carry it to reopening.
- EngineRuns.RunRefines: runs without crashes or reopening, because the engine's in-memory indexes do not survive them; `EngineStore.ReopenRefines` carries the logs over a reopening, and `SledRuns` covers both at the level of the store.
- Timestamps.StringOrderIsTimeOrder: covers UTC timestamps with capital `T` and `Z`; numeric offsets, lower case and leap seconds are not modelled.
- Bloom.BloomFilter.FromIds: takes the sizes as given (at least 256 bits and one probe); the logarithms that choose them are floating point.
- Engine.Engine.Remember: takes the atom with its id, timestamp and embedding already filled in, and after the gatekeeper has passed it.
- Engine.Engine.Ask: what vector search fetches is a parameter, which `Engine.AskIsSound` constrains to stored atoms upserted for the world and `EngineRuns.AskOnStore` fetches from the store; the quality of the search, warnings and index readiness are not modelled.
- Gatekeeper.Gatekeeper.CheckRemember: the trust store, which the code only reports to metrics, is left out.
- Gc.Collector.GcOnce: works on logs by world; `EngineCollect.PassRefines` carries it over to the flat map. Errors of the storage engine other than the panic are not modelled.
- Inbox.Replicator.PollInbox: one clock reading per envelope is a parameter; the message codec and the replication policy are arbitrary functions.
- Encryption of bodies (AES-GCM) and key management: foreign libraries; the store is modelled in plaintext mode.
- The internals of CRC32, SipHash and MessagePack: arbitrary functions, with round trips assumed for the serialisation only.
- Rounding and non-finite values of `f32`/`f64` scores, importances, thresholds and token counts: modelled over `real`.
- The bytes of stored values: a value is whatever the codec makes of it, and only codecs, sizes and checksums look inside.
- Interleavings of threads: `append_atoms` takes no lock around `next_seq` and its inserts; operations are modelled one at a time.
- Disk, flush and network failures other than a crash between two inserts or removals.
- Keys that are not UTF-8: the store never writes one.
- `stats`, `list_ids_in_window`, the summary catalog, peer membership and back-off, the subscription table and its persistence, the sending path, local streams and world events: simpler members of the same kinds.
- HTTP node, command line, backup, deployment helpers, component and WIT adapters: glue and I/O.
