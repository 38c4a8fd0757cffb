# Motor claim copilot: verified model

A Dafny model of the stateful parts of the motor claim platform, with proofs of what they promise. Each
module is one file; `dafny verify dfyconfig.toml` checks them all.

**The champion lifecycle** (`KpiGate`, `ModelDirs`, `JobEffects`, `ChainJobs`, `ServingMode`, `ChainRuns`,
`ModeHistory`). Per head a candidate, a champion with its mode file, and an archive. `ChainJobs` holds the jobs step
by step, `ModelDirs` and `JobEffects` what a whole job does to the directories, and `ChainRuns` and `ModeHistory` the
histories: any sequence of chain runs, with any training result, failed build, failed deployment or kill inside job
04 and its rollback, mixed with mode changes, each with the score table it finds.

**The assistant's memory** (`ChatThread`, `CompactionHistory`, `Slugs`, `LongTermFacts`, `FactHistory`,
`FullStore`, `AssistantStore`, `Backfill`, `Reruns`). Threads with their messages and a summariser that may fail, the capped store of
long-term facts, the session and thread tables, and the re-runnable backfill of the legacy chats, cut between any
two statements and run again. Messages, advances, merges and threads are stamped by a clock that may stand still
or be set back.

**The claim world and its landing files** (`ClaimWorld`, `Landing`, `LandingReplay`, `AppendDates`,
`Telematics`, `CrashDates`). Claims drawn from one random stream, policy changes from another, crash events from
one up to the frozen date and one for each later date, and the files delivered per business date. The streams
are abstract pure functions of a state.

**Lakehouse side** (`PointInTime`, `ScoreTable`, `ClaimExport`, `Governance`). The point-in-time history
join, the partition rewrite of the scores, the export of decided claims, and the classification reconciler.

**Smaller algorithms** (`LiveWindow`, `Chunks`, `TimeSplit`, `Drift`, `DeepMerge`).

`Options`, `Numbers`, `Sets`, `Text` and `Leading` hold an optional value, minimum and maximum, the size of subsets,
the strip of a text and a counting helper.

## What the code does differently from what it says

- The eviction of long-term facts (comment at `backend/services/assistant_memory_service.py:325`) keeps, on
  equal hits, the facts seen longest ago, not the newest (`LongTermFacts.MergeShape`). So while the clock does not go
  back a full store admits no new key that a batch mentions once (`FullStore.OnceIsNotAdmitted`), and with stable keys
  it can stay as it is for ever (`FullStore.FullStoreIsFrozen`).
- `_slug` is called a normalisation to a stable slug (line 41), but it is not idempotent when the cut at 64
  characters leaves a dash at the end. Such a key is never found again; its hits do not add up, and of any number of
  mentions two entries of one hit are left (`Slugs.SlugIsStableIff`, `FactHistory.CutKeyIsNeverFound`,
  `FactHistory.CutFactKeepsTwo`).
- A message is meant to be folded into the summary once (comment at line 393). With a clock set back behind the stamp
  of a message, it is folded again (`CompactionHistory.HandedAgainIff`, `CompactionHistory.ClockSetBackFoldsTwice`).
- The backfill is said to skip what is already there (line 564). It looks in the session's default thread only, so when
  a newer general thread has become the default, the session's messages are copied again
  (`Reruns.RerunAfterUseIff`, `Reruns.CopiedAgain`).
- A failed summariser call is harmless only for a thread without a summary. With one, `_compact_older_text`
  returns the old summary, the bound moves on, and the handed messages never reach a summary
  (`CompactionHistory.FailedCallFoldsSilently`).
- Job 04's own check of the gate result compares the git sha only, and training keeps an old
  `gate_result.json`; that only gated models are served rests on the order of the jobs
  (`ChainRuns.RetrainedIsDeployableUngated`, `ChainRuns.EveryServingChampionPassedTheGate`).
- Job 04 may run 5400 s (`ci/cai_jobs.py:38`), no more than its build attempts and its deployment may wait for
  together (`serve/deploy_champion.py:107-126`), so it can be killed anywhere, its rollback included. Killed
  between the move and the copy of one head, or in the rollback between the delete and the move back, it leaves the
  head without a champion, and the next gate has nothing to compare with (`ChainRuns.ChampionIsLostIff`,
  `ChainRuns.LostChampionLiftsTheBound`). `ChainRuns.MixedIff` lists the ends that leave the heads mixed.
- The oldest general thread is called the stable primary
  (`backend/services/assistant_memory_service.py:175-177`). Oldest is by time stamp: a general thread created later
  on request (`backend/services/universal_assistant_service.py:42`) but stamped at or before it takes its place
  (`AssistantStore.DefaultStaysIff`). Live chats and the backfill add no second one (`AssistantStore.DefaultIsKept`).
- Appending dates is said never to change loaded history (`config/lakehouse.json:11`); it does if the new date is
  the very next day: claim rows take the mobile of the following midnight, so a mobile change on the next day shows
  in them (`AppendDates.EarlierFilesStay`, `AppendDates.AppendedDayChangesAFile`). And a third date appended to two
  takes the first approval of the second date out of its status file (`AppendDates.StatusStaysIff`).
- The same is said of crash events (`generators/universe.py:367-368`). Their list does grow at its end only, but a
  crash lies near the incident, up to 25 days before the FNOL, so an appended claim can have one in a period
  already sent, the vendor file of the first date included (`CrashDates.CrashRecordsStayIff`,
  `CrashDates.AppendedCrashShows`).
- The configured business dates skip a day (`config/lakehouse.json:9-13`). Status events of a skipped day are
  delivered by no file (`LandingReplay.DeliveredExactlyOnce` is exact for any dates).
- The export marks a claim with the status it has then. A later approval, or any other change, does not reach the
  bronze table (`ClaimExport.MarkedIsFinal`).

## Model

| member | source | states |
|---|---|---|
| KpiGate.GateIsExact | gate/kpi_gate.py:37-50 | the checks all pass if and only if the candidate meets every threshold that is switched on and loses no more AUROC than allowed against a champion of the same feature hash |
| KpiGate.ChecksAreHonest | gate/kpi_gate.py:39-49 | the verdict recorded beside each check is the comparison of its value and limit that its operator names |
| ChainJobs.Deploy | serve/deploy_champion.py:107-128 | succeeds iff within the allowed attempts a build ends well after only given-up ones and the deployment comes up; an API error ends it at once, a given-up build is replaced |
| ChainJobs.Project.TrainJob | train/train_validate.py:120-137 | the candidates after training head by head, up to the first failure, an old gate result being kept |
| ChainJobs.Project.GateJob | gate/kpi_gate.py:53-87 | every head gets its result file; success iff all passed; an unreadable candidate stops the job |
| ChainJobs.Project.Promote | serve/deploy_champion.py:39-55 | refuses without effect exactly when there is no passing result for this git sha; else the champion is archived, then the candidate copied, also when killed in between |
| ChainJobs.Project.Rollback | serve/deploy_champion.py:58-63 | drops the new champion and moves the archived one back, if there was one |
| ChainJobs.Project.DeployJob | serve/deploy_champion.py:131-168 | the state of all heads and the outcome for every end: refused at some head, deployed, rolled back, or killed between any two steps, those of the rollback included |
| ChainJobs.Project.RegisterAndServe | serve/deploy_champion.py:142-168 | registration and deployment of all promoted heads, all put back when the deployment fails, or stopped between two heads or between deleting and moving back one |
| ChainJobs.RestoreUndoesPromote | serve/deploy_champion.py:46-63 | rolling back a promoted and registered head gives back the head as it was, archive and mode file included |
| JobEffects.TrainingIs | train/train_validate.py:120-137 | what training leaves of each head: reached only if all before it were fitted; model file before meta file; gate result, champion and archive kept |
| JobEffects.GatingIs | gate/kpi_gate.py:53-69 | what the gate job leaves of each head: a result with the verdict of its rules, its git sha, version and checks, and nothing else |
| JobEffects.DeployIs | serve/deploy_champion.py:131-168 | what the deploy job leaves of each head, for every refusal and every one of its ends |
| ServingMode.DecideIsExact | serve/promote_champion.py:60-74 | no reason to refuse if and only if an approver is named, the mode is known, and for "assist" the gate passed and the evidence suffices |
| ServingMode.MovedIff | serve/promote_champion.py:45-98 | the job writes a mode file with the mode asked for, the approver, the champion's version and its evidence, and changes nothing else, iff a person is named, the mode is known, and for "assist" the gate passed and the table has enough rows of that version of which enough agree; else it changes nothing |
| ModeHistory.RunMode | serve/promote_champion.py:77-102 | the job on the model directories succeeds and has that effect on the approval head exactly then |
| ModeHistory.ModeChangeIs | serve/promote_champion.py:89-98 | a mode change serves the mode asked for exactly when it may, and leaves model, metrics, gate result, archive and all other heads |
| ModeHistory.NewIsShadow | serve/promote_champion.py:85-87 | a champion that a run puts in place has no mode file and is served in shadow |
| ModeHistory.ServedModeIs | serve/promote_champion.py:77-98 | over any history in which no run touches the champion, the mode served is the target of the last change that it may have, else the one it had |
| ChainRuns.RunChain | ci/cai_jobs.py:6-8 | the jobs in order on the model directories, each started only if the one before succeeded, give the specified step |
| ChainRuns.GatedChainIsNotRefused | ci/cai_jobs.py:28-38 | after a job 03 that passed all heads, job 04 refuses none |
| ChainRuns.RunIsAllOrNothing | serve/deploy_champion.py:131-168 | a run that is not killed replaces every head's champion by the model it trained and gated, or leaves all champions and archives exactly as they were |
| ChainRuns.RunAndServedMode | serve/promote_champion.py:85-87 | a deployed run puts every head in shadow; a failed or rolled-back run leaves the served modes |
| ChainRuns.CandidatesAreNew | train/train_validate.py:120-137 | what job 04 finds after jobs 02 and 03 is the newly trained model with this run's verdict |
| ChainRuns.EveryServingChampionPassedTheGate | gate/kpi_gate.py:53-64 | in every history, each serving or archived champion passed the gate with its own metrics, and each mode file names its champion's version and was allowed for it |
| ChainRuns.AssistIsEarned | serve/promote_champion.py:60-98 | in every reachable state "assist" has a passing gate, and a mode change of the history asked for it with a named approver and with a score table whose rows of this very model version were enough and in agreement; or the champion had its mode file from the start |
| ChainRuns.ModeOrigin | serve/promote_champion.py:85-98 | every mode file that any champion, serving or archived, has in any history was written by a mode change for that champion's own version, or was there at the start |
| ChainRuns.AurocFloor | gate/kpi_gate.py:47-49 | under one feature hash and N promotions the AUROC is at least max(min_auroc, first AUROC - N * max_auroc_regression), if no run loses the champion |
| ChainRuns.ChampionIsLostIff | serve/deploy_champion.py:48-63 | a head with a champion is left without one by exactly the runs that passed the gate and were killed between move and copy, or in the rollback between delete and move back |
| ChainRuns.LostChampionLiftsTheBound | serve/deploy_champion.py:48-63 | after either kill there is no champion and the next gate asks for the absolute thresholds only |
| ChainRuns.MixedIff | serve/deploy_champion.py:136-168 | the ends of job 04 after which the heads are neither all as before nor all new, exactly |
| ChainRuns.HeadsAreMixedIff | serve/deploy_champion.py:131-168 | a chain run ends with mixed heads iff the gate passed all and job 04 ended so; a run that does not reach job 04 keeps all champions |
| ChainRuns.RetrainedIsDeployableUngated | train/train_validate.py:120-137 | without job 03, a retrained model is deployable iff an earlier result passed at the same git sha, whatever its metrics |
| ChainRuns.GatedIsDeployableIfSound | serve/deploy_champion.py:40-45 | after job 03 a head is deployable iff it meets its gate now |
| ChainRuns.RefusalKeepsEarlierHeads | serve/deploy_champion.py:136-141 | job 04 alone, refusing one head, leaves the heads before it promoted and the others untouched |
| ChatThread.Thread.PersistExchange | backend/services/assistant_memory_service.py:337-367 | two rows and `message_count` plus two, together, as `ExchangeIs` says |
| ChatThread.ExchangeIs | backend/services/assistant_memory_service.py:337-367 | the user's message and then the reply are added, each with its own time, and nothing else but the count changes |
| ChatThread.Thread.MaybeCompact | backend/services/assistant_memory_service.py:369-436 | nothing changes unless the call is due; then the capped summary of the reply is stored, the bound is now and its facts are passed on, and what is kept of a reply without summary, without facts, or of none |
| ChatThread.OutsideWindow | backend/services/assistant_memory_service.py:387-388 | the rows outside the window of recent ids are exactly the older ones by position; a limit of 0 keeps all |
| ChatThread.WindowIds | backend/services/assistant_memory_service.py:387-388 | a message is in the window of ids iff its position is among the last `limit` |
| ChatThread.DueIff | backend/services/assistant_memory_service.py:384-412 | something is handed to the summariser iff `message_count` is over its threshold or the characters of summary and messages are over theirs, and a message outside the window is newer than the last advance |
| ChatThread.HandedAre | backend/services/assistant_memory_service.py:395-414 | what is handed over then: all newer messages outside the window, in their order |
| ChatThread.CapIsStable | backend/services/assistant_memory_service.py:425-429 | a stored summary exceeds the cap by the ellipsis at most and is not cut again |
| CompactionHistory.BooksBalance | backend/services/assistant_memory_service.py:369-436 | while no advance finds a row stamped after its own time, every message is folded, left in the window of an advance, late, or newer than the last advance, and in one of these only |
| CompactionHistory.BooksBalanceIff | backend/services/assistant_memory_service.py:395-430 | the books balance all along a history, with any clock, iff no advance in it finds a row stamped after its own time |
| CompactionHistory.EveryRowIsCovered | backend/services/assistant_memory_service.py:369-436 | with any clock no message is passed over: it is newer than the last advance, or folded, in the window of an advance, or late |
| CompactionHistory.Conservation | backend/services/assistant_memory_service.py:384-430 | under the same condition, messages = folded + recent_limit * advances + newer than the last advance + late |
| CompactionHistory.SettledIsNeverHanded | backend/services/assistant_memory_service.py:395-400 | under the same condition, a message folded, left in a window or late is handed to no later call, whether that call advances or not |
| CompactionHistory.HandedAgainIff | backend/services/assistant_memory_service.py:395-430 | with any clock, a message that an advancing call handed over goes to a later call iff that call is over a threshold, the message is outside its window, and it is stamped after the time of the last advance before it |
| CompactionHistory.FoldedAtMostOnce | backend/services/assistant_memory_service.py:395-430 | two calls of which the first advanced share no message, if no advance from the first on is earlier than the stamps of what the first handed over |
| CompactionHistory.ClockSetBackFoldsTwice | backend/services/assistant_memory_service.py:395-430 | a history with a clock set back in which two advancing calls hand over the same message |
| CompactionHistory.FailedCallFoldsSilently | backend/services/assistant_memory_service.py:488-489 | a failed call advances iff a summary exists, and then its messages count as folded with the summary unchanged |
| CompactionHistory.SummaryIsStored | backend/services/assistant_memory_service.py:425-429 | in every reachable state storing the summary again would change nothing |
| CompactionHistory.SummaryIsNeverLost | backend/services/assistant_memory_service.py:425-430 | a thread that has a summary keeps one, whatever is answered later |
| Slugs.SlugShape | backend/services/assistant_memory_service.py:37-43 | a slug has at most 64 characters, lower-case letters, digits and single dashes, none at the front |
| Slugs.SlugIsStableIff | backend/services/assistant_memory_service.py:40-43 | a slug is its own slug iff the cut did not leave a dash at its end |
| Slugs.SlugOfSlug | backend/services/assistant_memory_service.py:40-43 | the slug of a slug, in every case |
| Slugs.SlugSettles | backend/services/assistant_memory_service.py:40-43 | two applications always reach the fixed point |
| Slugs.SlugIsEmptyIff | backend/services/assistant_memory_service.py:272 | the slug is empty, so that the hash is used, iff there is no letter or digit |
| Slugs.SlugKeepsLetters | backend/services/assistant_memory_service.py:40-43 | up to the cut a slug has all letters and digits of the lowered value, in order, and no others |
| Slugs.LowerCharIs | backend/services/assistant_memory_service.py:42 | an upper-case letter becomes the same letter; lower-case letters, digits and dashes stay |
| LongTermFacts.Session.MergeFacts | backend/services/assistant_memory_service.py:292-333 | the stored list after a merge; nothing happens for no facts |
| LongTermFacts.MentionIs | backend/services/assistant_memory_service.py:307-323 | newest phrasing and time, one more hit, first time kept, or a new entry with one hit; no other entry changes |
| LongTermFacts.LoadLongTermMemory | backend/services/assistant_memory_service.py:257-282 | malformed entries and those with an empty fact are skipped, a fact of spaces is kept as an empty text, missing fields are upgraded |
| LongTermFacts.LoadIs | backend/services/assistant_memory_service.py:267-281 | each entry that is loaded has its own key and text, its times or now, its hits or one, in the stored order |
| LongTermFacts.KeyIs | backend/services/assistant_memory_service.py:272 | the key is the slug of the raw key, or the hash of the text if that has no letter and no digit |
| LongTermFacts.BuildDict | backend/services/assistant_memory_service.py:305 | the comprehension gives the dict of the list, for which `DictIs` holds |
| LongTermFacts.DictIs | backend/services/assistant_memory_service.py:305 | every key of the list is in the dict, with the last entry of the key, in the order in which the keys first came |
| LongTermFacts.MergeShape | backend/services/assistant_memory_service.py:325-331 | after any merge: at most the cap, distinct keys, non-increasing hits, no dropped fact with more hits than a kept one, and on equal hits the older `last_seen` kept |
| LongTermFacts.SortSorts | backend/services/assistant_memory_service.py:326-329 | the sort orders by hits, then by `last_seen`, and keeps the entries |
| LongTermFacts.RankedShape | backend/services/assistant_memory_service.py:305-329 | the ranked facts have distinct keys and are sorted, whatever was stored before |
| FactHistory.Reload | backend/services/assistant_memory_service.py:257-282 | loading a stable store gives back the same facts in the same order |
| FactHistory.MergeAccounts | backend/services/assistant_memory_service.py:292-333 | whatever the keys, the hits kept, evicted, and replaced when loading are the old hits plus the non-blank facts |
| FactHistory.MergeCounts | backend/services/assistant_memory_service.py:292-333 | with stable keys loading replaces nothing, and kept hits plus evicted hits are the old hits plus the non-blank facts |
| FactHistory.HitsAreAccounted | backend/services/assistant_memory_service.py:292-333 | over any sequence of merges, whatever the keys: stored hits, hits of evicted facts and hits of replaced facts are the non-blank facts merged |
| FactHistory.OverwrittenIff | backend/services/assistant_memory_service.py:305 | building the dict replaces nothing iff no two loaded facts have the same key |
| FactHistory.HitsAreConserved | backend/services/assistant_memory_service.py:292-333 | over any sequence of merges with stable keys, stored hits plus hits of evicted facts are the non-blank facts merged |
| FactHistory.SlugStableItem | backend/services/assistant_memory_service.py:271-272 | a key is stable when the cut leaves no dash at the end of its slug |
| FactHistory.FoundAgainIff | backend/services/assistant_memory_service.py:271-316 | in any store, a merge finds a key iff some stored entry loads under it |
| FactHistory.CutKeyIsNeverFound | backend/services/assistant_memory_service.py:271-316 | in a store whose keys are slugs no merge finds a key with a dash at its end |
| FactHistory.StoredKeysAreSlugs | backend/services/assistant_memory_service.py:271-308 | every key that a merge stores is a slug, whatever was stored before |
| FactHistory.StartsAnew | backend/services/assistant_memory_service.py:307-323 | the entry of a key that is not found has the hits of its batch alone, so they never add up over merges |
| FactHistory.ShiftedKeepsTwo | backend/services/assistant_memory_service.py:271-329 | however often a fact with an unstable key is merged, at whatever times and without eviction, two entries of one hit each are all that is kept |
| FactHistory.CutFactKeepsTwo | backend/services/assistant_memory_service.py:271-329 | so for every key whose slug the cut left with a dash at its end |
| FactHistory.CutSlugExists | backend/services/assistant_memory_service.py:40-43 | there is such a key: 63 letters, a dash and a letter |
| FactHistory.CutSlugIsUnstable | backend/services/assistant_memory_service.py:40-43 | every slug left with a dash at its end is unstable |
| FullStore.FullStoreChangesIff | backend/services/assistant_memory_service.py:305-329 | any batch changes the keys of a full store, so that it takes in a new one, iff a new key has more mentions than some entry then has hits, or as many and that entry is stamped later |
| FullStore.AdmittedBeatsOne | backend/services/assistant_memory_service.py:325-329 | every new key that a full store takes in ranks so before some entry |
| FullStore.OnceIsNotAdmitted | backend/services/assistant_memory_service.py:325-329 | unless the clock was set back, a new key mentioned once is not taken in, whatever else is in the batch |
| FullStore.FullStoreKeepsItsKeys | backend/services/assistant_memory_service.py:325-329 | so a batch that mentions no new key twice changes no key of a full store |
| FullStore.TiesKeepPlaces | backend/services/assistant_memory_service.py:326-329 | the sort keeps the order of equally ranked facts |
| FullStore.FullStoreIsFrozen | backend/services/assistant_memory_service.py:325-329 | nor does any sequence of such batches, when the stored keys are stable and the clock does not go back |
| AssistantStore.Store.GetOrCreateSession | backend/services/assistant_memory_service.py:54-83 | the session of owner and persona: nothing changes if there is one, else exactly that one is added with a commit |
| AssistantStore.Store.CreateThread | backend/services/assistant_memory_service.py:110-125 | exactly one new thread with the time given, and everything pending becomes permanent |
| AssistantStore.Store.GeneralThread | backend/services/assistant_memory_service.py:713-730 | a general thread of the session that none is older than; one is created only if there is none |
| AssistantStore.Store.ClaimThread | backend/services/assistant_memory_service.py:127-156 | the session's thread of that claim, created only if there is none |
| AssistantStore.Store.ResolveThread | backend/services/assistant_memory_service.py:158-189 | claim id before thread id before the default; a thread id that is not of the session is an error and changes nothing |
| AssistantStore.Store.PersistExchange | backend/services/assistant_memory_service.py:337-367 | two rows for the thread, its count plus two, committed; `message_count` stays the row count |
| AssistantStore.DefaultStaysIff | backend/services/assistant_memory_service.py:175-189 | whatever is added, the default thread stays the only answer of the query iff every later general thread of the session is stamped after it |
| AssistantStore.DefaultNeverChangesIff | backend/services/assistant_memory_service.py:175-189 | over any sequence of growing states the default thread is the same to the end iff no general thread the session got on the way is stamped at or before it |
| AssistantStore.DefaultIsKept | backend/services/assistant_memory_service.py:713-730 | as long as no session gets a second general thread, no clock can change the default |
| Backfill.MigrateOne | backend/services/assistant_memory_service.py:540-558 | a message is added and counted iff no committed row has its thread, role and time |
| Backfill.EnsureSession | backend/services/assistant_memory_service.py:589-600 | the dicts give the session and its default thread, both in the tables; nothing is added for another owner, and nothing at all if they were there |
| Backfill.Locate | backend/services/assistant_memory_service.py:687-696 | the thread used is the message's target, from dict or table |
| Backfill.MigrateItem | backend/services/assistant_memory_service.py:584-614 | adds at most the one session, its general thread and the thread of the message's own target, and at most its one copy, also when broken off between two statements |
| Backfill.Phase | backend/services/assistant_memory_service.py:580-615 | one legacy table, complete or cut between any two statements: every row it commits is the one copy of a message whose key was not in the table |
| Backfill.BackfillLegacy | backend/services/assistant_memory_service.py:561-698 | from any state: tables only grow, counts stay exact, every row added is the copy of another legacy message in the thread where that belongs, with a key that no row had, complete or cut; after a complete run every customer's, claim's and agent's message is in its thread |
| Backfill.OwnContentIsIn | backend/services/assistant_memory_service.py:603-698 | a message of which no other shares thread, role and time is there after a complete run with its own content |
| Backfill.NoSecondCopy | backend/services/assistant_memory_service.py:540-558 | no run adds a row with the thread, role and time of a row that an earlier run, complete or cut, left |
| Reruns.RerunChangesNothing | backend/services/assistant_memory_service.py:561-577 | after a complete run a further one, complete or cut, changes nothing, unless two oldest general threads of a session share their time |
| Reruns.RerunAfterUseIff | backend/services/assistant_memory_service.py:561-577 | with ordinary use between two complete runs, the second changes nothing iff every default thread that is new has every legacy message of its session already |
| Reruns.YoungerThreadsAreFine | backend/services/assistant_memory_service.py:561-577 | which holds while every general thread created in between is stamped after its session's default |
| Reruns.CopiedAgain | backend/services/assistant_memory_service.py:540-558 | where a new default lacks a message, the next run leaves two copies of it, in the old default and in the new one |
| Reruns.TiedRerun | backend/services/assistant_memory_service.py:540-558 | where oldest general threads share their time, a further run can only copy general messages into another of them; it adds no session and no thread |
| Backfill.MigratedIsStable | backend/services/assistant_memory_service.py:540-558 | what is migrated stays so however the tables grow, short of a second general thread |
| Reruns.MigratedStaysIff | backend/services/assistant_memory_service.py:540-558 | with second general threads too: a migrated message stays so iff it belongs to a claim, or no later general thread of its session is stamped before its own, or the one then found has its key |
| Backfill.CopiesComeFromOneMessage | backend/services/assistant_memory_service.py:603-614 | a message whose key no other message of its table shares is copied with its own content |
| ClaimWorld.World.BuildClaims | generators/universe.py:358-364 | the claims of all dates, numbered on and appended in order, each the one that its own draws make it |
| ClaimWorld.ClaimsAreDrawn | generators/universe.py:282-364 | for each date and each claim of it, by the draws at its place in the one stream: customer, details and FNOL; approved with the amount or rejected with the reason, as drawn; by whom and at which exact time |
| ClaimWorld.AdjudicationIsInSequence | generators/universe.py:315-338 | every claim is decided after its FNOL, with any review in between; it has an approved amount iff approved and a reason iff rejected |
| ClaimWorld.WhoDecides | generators/universe.py:315-338 | AUTO decides exactly the unreviewed claims, only to approve and within four hours; SIU rejects for fraud; an adjuster decides half a day after the FNOL or later, and an hour after the review |
| ClaimWorld.World.BuildCdc | generators/universe.py:409-433 | the change files and the changed book for all dates after the first |
| ClaimWorld.World.ApplyChange | generators/universe.py:416-433 | one change of one policy or mobile, dated after the frozen date |
| ClaimWorld.OneChangeIs | generators/universe.py:416-433 | what a renewal, a lapse, a new mobile and an NCB reset do, to that policy and holder alone, and the row they add to the date's file |
| ClaimWorld.ChangeRowsAre | generators/universe.py:409-433 | every later date has one row for each change that it draws from the one stream, in order |
| Landing.ClaimFileIs | generators/landing.py:94-116 | the claim rows of a date are exactly the history on the first, the claims filed that day as of the next midnight, the first claim again on the second, and the orphan on the fourth |
| Landing.RowIs | generators/universe.py:471-487 | a claim row has the claim as filed, the holder's mobile of the day and what is shown at its midnight |
| Landing.ShownIs | generators/universe.py:472-487 | what is shown at a time: the outcome from the decision on, before it only under review or filed |
| Landing.StatusEventsAre | generators/universe.py:488-500 | the one or two status events of a claim |
| Landing.ChangeFileIs | generators/landing.py:98-102 | no changes on the first date, then the date's, on the second and one of an unknown policy a second after its first |
| Landing.BureauFileIs | generators/landing.py:103-106 | every customer on the first date, then the date's sample, with the mobiles of the date |
| Landing.StatusFileIs | generators/landing.py:118-123 | the status file has exactly the events of its day but the held one, in the order of time, and on the third date the held one behind them |
| Landing.HeldBackIs | generators/landing.py:127-129 | with three dates or more the earliest approval of the second date is held back, iff there is one |
| LandingReplay.ClaimsAreWellBuilt | generators/universe.py:343-364 | every world built has distinct claim ids and decisions in sequence |
| LandingReplay.DeliveredCounts | generators/landing.py:118-123 | how often an event is in the first k files: as often as it occurs if its day is among the dates and it is not held, the held one once from the third file on |
| LandingReplay.DeliveredExactlyOnce | generators/landing.py:118-129 | over the first k >= 3 files an event is delivered once if its day is among the dates, else never |
| LandingReplay.ContiguousCovers | generators/landing.py:120 | without gaps the covered times are one period |
| LandingReplay.DeliveredOf | generators/landing.py:118-129 | the delivered events of a claim are its own on covered days |
| LandingReplay.RebuiltIff | generators/universe.py:471-500 | for any dates, row plus events equal the snapshot iff the last event was delivered, or the row shows it and nothing else was |
| LandingReplay.RowOrigin | generators/landing.py:107-112 | a delivered row shows its claim at a midnight of the period |
| LandingReplay.LogRebuildsSnapshot | generators/landing.py:107-129 | without gaps, from the third date on, any delivered row plus the delivered events give status, amount, reason and decider at day end, the re-sent row and the late event included |
| LandingReplay.EveryClaimHasARow | generators/landing.py:94-109 | every claim filed by then has a row in some file |
| AppendDates.ClaimsArePrefix | generators/universe.py:343-364 | more dates append claims and change none of the earlier ones |
| AppendDates.StatusStaysIff | generators/landing.py:118-129 | the status file of an earlier date stays iff not a third date was appended to two and the second date has an approval |
| AppendDates.BookIsLater | generators/universe.py:424-429 | change files of earlier dates stay; customers only gain dated mobiles |
| AppendDates.ClaimFileStaysIff | generators/universe.py:471-480 | between two worlds a claim file stays iff no claim filed that day has another mobile at the next midnight |
| AppendDates.NextMobile | generators/universe.py:424-429 | what the appended world shows of a customer on the first appended date is the last mobile drawn for it, else the one shown before |
| AppendDates.EarlierFilesStay | generators/landing.py:74-124 | each earlier date keeps its change and bureau files; its status file but for the taken-over event; its claim file iff the first appended date is not the very next day or its drawn changes give no holder of a claim filed that day another mobile |
| AppendDates.AppendedDayChangesAFile | generators/universe.py:471-480 | a whole world in which appending the next day changes an earlier claim file |
| AppendDates.NextDayChangeShows | generators/universe.py:135-136 | a dated mobile shows from its day on and never before |
| Telematics.Recorder.RecordCrash | generators/universe.py:371-379 | one numbered crash event near the claim's incident, one draw of the stream |
| Telematics.Recorder.RecordCrashes | generators/universe.py:392-394 | the crashes of the claims picked, in claim order |
| Telematics.Recorder.RecordNoise | generators/universe.py:381-390 | a day's noise events, numbered on |
| Telematics.Recorder.RecordFrozen | generators/universe.py:391-398 | crashes and noise up to the frozen date from one stream |
| Telematics.Recorder.Build | generators/universe.py:366-407 | all events, the later dates from their own streams, in stable order of their time stamps |
| Telematics.NoiseIsOn | generators/universe.py:381-407 | a day has its number of noise events iff it is between 60 days before the first date and the last one and not after the frozen one, or a later date; else none |
| CrashDates.CrashesArePrefix | generators/universe.py:366-407 | appended dates leave the recorded events, numbers included, as a prefix; what is added lies after the earlier dates or is a crash of an appended claim |
| CrashDates.CrashRecordsStayIff | generators/landing.py:96 | the records of a period stay iff no crash time drawn for an appended claim falls into it, which is sure more than the longest reporting time before the first appended date |
| CrashDates.AppendedCrashShows | generators/universe.py:367-368 | every appended claim whose incident, with the jitter, lies in a period changes its records |
| CrashDates.EventsAreNumbered | generators/universe.py:369-377 | one counter runs through all streams, so every event has an id of its own |
| CrashDates.WorldsAreApart | generators/universe.py:358-364 | the claims of every world and of its appended dates are filed apart, as the laws on crashes ask |
| PointInTime.JoinIsCounts | lakehouse/score_claims.py:96-111 | the OR-join with conditional sums equals five separate counts; both-matching claims count once in each, NULLs never |
| PointInTime.CountsAre | lakehouse/score_claims.py:97-111 | each of the five features is the number of claims of the table with the same key, times and status that its expression asks for |
| PointInTime.NoLookAhead | lakehouse/score_claims.py:84-111 | two snapshots alike in what was known before the FNOL give the same features |
| PointInTime.LaterClaimsDoNotCount | lakehouse/score_claims.py:110 | claims filed at or after the FNOL change nothing |
| PointInTime.LaterDecisionsDoNotCount | lakehouse/score_claims.py:100-107 | decisions made at or after the FNOL change nothing |
| PointInTime.ScoreIsStrict | lakehouse/score_claims.py:124 | the smoothed garage score lies strictly between 0 and 1 |
| PointInTime.RoundedScore | lakehouse/score_claims.py:124 | after rounding to four places exactly when it still does |
| PointInTime.Claims | lakehouse/score_claims.py:84-126 | a claim has an item iff it was filed on day `since` or later or is neither approved nor rejected; one each, in table order, with copied contexts patched by its own counts, absent contexts staying absent |
| ScoreTable.Table.Write | lakehouse/score_claims.py:168-178 | the table after a delete and batches of 200, stopped after any statement |
| ScoreTable.StatementsAre | lakehouse/score_claims.py:172-177 | a complete write is the delete and as many inserts of 200 rows as it takes |
| ScoreTable.WriteReplacesOneDate | lakehouse/score_claims.py:172-177 | a complete write leaves the new scores in order on its date and all other dates |
| ScoreTable.RewriteRecovers | lakehouse/score_claims.py:172-177 | after any broken-off write a complete one gives the table of a clean one |
| ClaimExport.Collect | backend/scripts/export_claims_to_lakehouse.py:178-194 | the rows and the claims to mark are those decided, unmarked and linked to a numbered policy |
| ClaimExport.ReadyIff | backend/scripts/export_claims_to_lakehouse.py:134-143 | a claim is exported iff it is decided, not marked, and linked to a policy with a number |
| ClaimExport.RowIs | backend/scripts/export_claims_to_lakehouse.py:146-164 | the row of a claim, with the status in the lakehouse's words and an amount only if approved |
| ClaimExport.Exporter.Run | backend/scripts/export_claims_to_lakehouse.py:167-235 | the database after a run: complete, dry, stopped before the insert or between insert and commit |
| ClaimExport.RowsAreReadyClaims | backend/scripts/export_claims_to_lakehouse.py:178-194 | an insert holds exactly the rows of the claims that are ready |
| ClaimExport.RowsAreMarkPlusCuts | backend/scripts/export_claims_to_lakehouse.py:206-234 | in every history a claim's rows are one for its mark plus one per run cut between its insert and its commit |
| ClaimExport.MarkedIsInBronze | backend/scripts/export_claims_to_lakehouse.py:230-234 | every marked claim is in the bronze table |
| ClaimExport.MarkedIsFinal | backend/scripts/export_claims_to_lakehouse.py:134-143 | a mark stays, and the table gains no row of that claim whatever happens later |
| ClaimExport.CompleteRunSettles | backend/scripts/export_claims_to_lakehouse.py:167-235 | the next complete run exports and marks all that is owed and nothing else, and a further run changes nothing |
| ClaimExport.RowOrigin | backend/scripts/export_claims_to_lakehouse.py:146-164 | every row is what one ready claim was when a run read it: its status in the lakehouse's words, and an approved amount iff it was approved then |
| Governance.ReadColumns | scripts/governance.py:145-160 | all matching columns once and in order, also at a multiple of the page size |
| Governance.ReadAll | scripts/governance.py:141-142 | the columns of all governed databases, both column types |
| Governance.ColumnsAre | scripts/governance.py:141-160 | a column is read iff it is a table or view column of a governed database |
| Governance.ColumnsAreDistinct | scripts/governance.py:194 | no column is read twice |
| Governance.ClassificationChanges | scripts/governance.py:60-73 | the planned adds and removes are exactly those of the columns, counted |
| Governance.ColumnTagIs | scripts/governance.py:53-57 | the tag asked for is that of the lowered name: the fixed one, or by the lowered type the one for dates or the one for texts |
| Governance.PlannedIs | scripts/governance.py:60-73 | which tag is added to a column and which are removed, by the tag asked for, the prefix and the kept profiler tags |
| Governance.TargetIs | scripts/governance.py:66-72 | other tags are never touched, of ours the wanted one is left, or joins the profiler's on a kept Iceberg column |
| Governance.SettlesIff | scripts/governance.py:67-70 | a column needs nothing more after one apply iff its wanted tag has the prefix |
| Governance.Atlas.TagInBatches | scripts/governance.py:204-206 | batches of 50 tag all columns of a tag and no other |
| Governance.Atlas.Classifications | scripts/governance.py:193-210 | the count of changes; with apply every column read is on its target and no other column changed, or, stopped after any call, each is part of the way; without it nothing changes |
| Governance.ConvergesIff | scripts/governance.py:278-280 | `verify` passes after one apply iff every wanted tag has the prefix |
| Governance.PlanIsPartlyApplied | scripts/governance.py:199-210 | wherever the adds or the removes stop, every column read has some of its planned changes and every other column is as it was |
| Governance.ConvergesFromAnyCut | scripts/governance.py:199-210 | from the state that an apply broken off after any of its calls leaves, the next one ends in the same tagging |
| LiveWindow.NextIsNext | stream/live_window.py:20-23 | the next time of day is at that hour and minute of a day, after now, and the one a day before is not |
| LiveWindow.TruncatedIs | stream/live_window.py:31 | the seconds are whole ones towards zero |
| LiveWindow.GrantIsTheLongest | stream/live_window.py:26-35 | the seconds granted are the longest run clear of every day's guarded batch, ending by the stop and within the cap; zero iff not even the minimum fits |
| LiveWindow.ProducerFits | stream/live_window.py:36 | the producer stops its lead earlier where that leaves a minute; it gets no longer than the stream iff the lead is not negative and a minute was granted |
| LiveWindow.ProducerNeverOutlives | stream/live_window.py:34-36 | with a minimum of a minute it never gets longer |
| LiveWindow.MinimumMustBePositive | stream/live_window.py:34-36 | without a positive minimum the producer can outlive a stream of no seconds |
| Chunks.ChunkText | backend/rag/chroma_store.py:69-84 | terminates for every size and overlap with the chunks of its rounds; blank text gives none, a short one itself |
| Chunks.ChunkingIsUnique | backend/rag/chroma_store.py:76-84 | the rounds leave no choice of the chunks |
| Text.StripIs | backend/rag/chroma_store.py:70 | only whitespace at the two ends is lost |
| Text.IsSpaceIs | backend/rag/chroma_store.py:70 | the characters that count as whitespace |
| Chunks.ChunkIs | backend/rag/chroma_store.py:78-83 | each chunk is the text between its bounds, and only the last reaches the end |
| Chunks.SliceIs | backend/rag/chroma_store.py:79 | a slice stops at the end of the text, a negative end counts from there |
| Chunks.ChunkCount | backend/rag/chroma_store.py:76-84 | a longer text gives ceil((len - size) / step) + 1 chunks |
| Chunks.RebuildsTheText | backend/rag/chroma_store.py:76-84 | dropping min(overlap, size - 1) characters of each later chunk gives the text back |
| Chunks.SafeLengthIs | backend/rag/chroma_store.py:76-84 | every passage of a length lies in one chunk iff the length is at most min(overlap + 1, size) |
| Chunks.RebuildsIff | backend/rag/chroma_store.py:76-84 | a text longer than one chunk comes back from the new parts iff the overlap is not negative |
| TimeSplit.RanksAreDense | features/build_feature_table.py:70 | the ranks are 1, 2, 3, ... without gap or repetition |
| TimeSplit.PartsFollowTime | features/build_feature_table.py:69-72 | an earlier row, by position on equal times, is never in a later part; a row without a time is in the test part |
| TimeSplit.PartSizes | features/build_feature_table.py:69-72 | train has exactly floor(train * n) rows, or all with a time, and the others follow |
| Drift.ComputePsi | monitor/drift.py:49-62 | the index with its early zeros, the outer edges overwritten in place |
| Drift.UniqueIs | monitor/drift.py:55 | the cut points are the distinct quantiles in increasing order |
| Drift.EveryValueIsCounted | monitor/drift.py:58-60 | the histogram counts every finite value exactly once |
| Drift.BinsCoverBothSamples | monitor/drift.py:58-60 | so for both samples of the index |
| Drift.PsiIs | monitor/drift.py:53-62 | never negative, and zero iff an early return applies or every bin's shares agree up to the clipping |
| Drift.PsiSums | monitor/drift.py:49-62 | the index is the sum over the bins between the distinct quantiles of (c - r) * ln(c / r), of the shares of finite values in both samples, none below one in ten thousand; zero without finite values or with less than three cut points |
| DeepMerge.MergeInto | common.py:15-19 | the loop over the overlay's keys gives the merge, in any order of the keys |
| DeepMerge.MergeWithEmpty | common.py:15-19 | an empty mapping changes nothing on either side |
| DeepMerge.MergeOfSame | common.py:15-19 | merging a value over itself gives it |
| DeepMerge.MergeTwice | common.py:15-19 | an overlay given twice counts once |
| DeepMerge.PathIs | common.py:15-19 | what a merge holds at any path, from what its two sides hold there |
| DeepMerge.CoversIff | common.py:15-19 | merging over a value leaves just the overlay iff it covers all the value holds |
| DeepMerge.MergeIsAssociativeIff | common.py:15-19 | the grouping of three layers does not matter iff no scalar of the middle one stands between two mappings of which the last does not cover the first |
| DeepMerge.ScalarBetweenMappings | common.py:15-19 | an example where it does matter |
| DeepMerge.LoadConfig | common.py:30-40 | the overlays folded over the base, then the model's view of it; an overlay that is neither empty nor a mapping is an error, a base that is none too unless an overlay makes `dict` take it |
| DeepMerge.OneMoreOverlay | common.py:37-39 | an empty overlay changes nothing, any other is merged on top |
| DeepMerge.LoadsIff | common.py:43-49 | a configuration loads iff it has the model, as a mapping whose overrides are a mapping or nothing; a model is unknown iff there are no models or none of that name |
| DeepMerge.FoldIsOneMerge | common.py:37-39 | folding overlays equals merging them first if base and overlays agree on what is a mapping |
| DeepMerge.LastSetterWins | common.py:37-39 | a scalar of an overlay stands unless a later one has something at or on the way to its path |
| DeepMerge.OverridesGoOnTop | common.py:43-50 | outside "model" the overrides win and what they leave open shows the layers below |
| DeepMerge.ModelNameIs | common.py:47-49 | the "model" entry carries the asked name, unless the specification has its own, and no overrides |

## Left out

- Archive directories with the same name: the names come from a clock in seconds and are taken to be new at each promotion.
- Two chain runs at once, and a mode change during job 04: the chain is one run at a time.
- The spaces around the approver and the mode of a mode change: they are taken as stripped.
- Kills of job 03 between two heads: the chain stops, and no job 04 reads a result before a complete job 03 has written it anew.
- Kills inside one file operation: moving, copying and writing a directory or file are single steps.
- Model fitting, metrics, MLflow, the model registry and event publishing: a training result, a registry version and an outcome are parameters.
- Concurrent database sessions: each service call runs alone; lost updates of `message_count` are not modelled.
- The parser of the summariser's JSON answer and the prompt text: the parsed answer is a parameter.
- Reading `long_term_memory_json` as text: the stored list is a value, with malformed entries as a case of their own.
- Case folding outside ASCII in slugs and column names.
- The three legacy loops of the backfill are one loop over messages with their target; the differences are in how the items are made.
- Deleting sessions, threads or messages: the tables of the model only grow.
- World: customers, policies, garages and the history before the first date are given, and the claim fields that no property needs are dropped.
- Crash events: the forces, speeds and positions, and which policies have a device, are one drawn value.
- The policy file of the first date: it is made before any dated step of the world, so no date can change it.
- File formats, control totals, manifests and the planted faults of that policy file.
- Time stamps in files are cut to seconds; the model compares the full times.
- The model score itself (`score`), its bands and factors: another part of the platform.
- Rounding of floating-point numbers: amounts and metrics are reals; the rounding of the garage score is any function within half a unit.
- Claim rows of the export without type, dates and requested amount; the escaping of SQL text is not part of this model.
- Changes of a claim by the app while an export run is between its read and its commit.
- Policies that are renumbered: a claim's policy link and number may change between runs, but one run reads one state.
- Governance: type definitions, glossary, masking policies, and the order in which tags are applied; the search answers the same list on every page.
- Governance: a column without a name attribute, whose name is taken from its qualified name.
- The live window's minutes are integers; the daily times are valid times of day.
- Quantiles of the drift report: any function of the reference sample; `status` and the report rows.
- Configuration files as text: parsing YAML, the environment variable with the list of overlays, missing files.
- HTTP routers, authentication, streaming answers, prompts, dashboards, launchers, and the Spark jobs of the lakehouse.
- Governance.ClassificationChanges: says which tags are removed from a column, not in which order; the code sorts them.
- Governance.Atlas.TagAll: goes through the tags in any order; the code sorts them.
- DeepMerge.MergeInto: goes through the overlay's keys in any order; the order of keys in a mapping is not part of this model.
- Drift.ComputePsi: the quantiles and the logarithm are parameters, the logarithm with the two laws of `Drift.IsLog`.
- PointInTime.RoundedScore: says nothing of an exact tie at half a unit of the fourth decimal place, where the code's answer depends on the binary fraction that stands for the score.
- ChainRuns.AurocFloor: leaves out the runs that lose the champion, for which `ChainRuns.LostChampionLiftsTheBound` shows that the bound is lost.
- ChainRuns.AssistIsEarned: says nothing of where the evidence came from for a champion whose mode file is older than the history.
- AssistantStore.Store.GeneralThread: of equally old general threads the database may return any, the method the first; its contract, and all that is proved from it, holds for any.
