# Verification of the email sales assistant

The program reads a company's sales mailbox, links messages to customers and cases, quotes and
negotiates prices, runs reactivation campaigns, and builds a conversation data set from its history.
This project models the algorithms and durable state machines underneath and proves what they promise.

* **Conversation data set** (`app/rag_history.py`): `Connectivity`, `DisjointSet`, `ThreadGrouping`,
  `ThreadPairing`, `ConversationPairing`, `DatasetPacking`, `DatasetSplit`. Union-find over arrays, thread
  closure, greedy pairing and exact packing, each a method proved against an independent definition
  (closure by walks, best choice, least reachable sum).
* **Reactivation campaigns** (`app/reactivation.py`): `CampaignSlots`, `Campaigns` (the steps), then
  `CampaignEffects` (each step column by column), `CampaignExclusivity`, `CampaignLifecycle`, `CampaignContacts`,
  `CampaignPauses`, `CampaignRaces` over whole runs, and `CampaignTables` with the operations as methods over rows.
* **History reconciliation** (`app/history.py`): `HistoryLinking`, `HistoryFixpoint`, `HistoryReviews`.
* **Job queue** (`app/jobs.py`): `Jobs`, `JobRuns`, `JobTimes`.
* **IMAP cursor** (`app/mail.py`, `app/imap_poller.py`): `ImapFetch`, `ImapCursor`, `ImapRuns`,
  `ImapHistory`, `ImapPoller`.
* **Knowledge index** (`app/nas_knowledge.py`): `KnowledgeChunks`, `KnowledgeIndex`, `KnowledgeFacts`,
  `KnowledgeScanner`.
* **Draft stream** (`app/ai.py`): `JsonStrings`, `JsonSpelling`, `DraftFields`, `DraftStream`,
  `DraftDocument`.
* **Selection, import, pricing**: `Candidates`, `EvenSample`, `CustomerImport`, `CustomerReimport`,
  `CustomerEffects`, `CustomerImporter`, `Commercial`, `CommercialRuns`, `CommercialEffects`, `CommercialDesk`,
  `Negotiation`.
* `Options`, `Powers`, `Sorting` and `Times` are shared.

Database rows are plain records, each commit is one atomic step, instants are integers, and hashes, the
network, extraction and other processes are parameters or steps of an environment.

Some promises hold only under a condition, and the project says which:

* contacts stay exclusive to one campaign exactly when no start commits while a recipient it leaves selected has a
  contact of another running or paused campaign (`CampaignContacts.ContactsStayExclusive`); that never happens if
  selection does not touch a campaign while it is being started (`CampaignExclusivity`);
* a closed campaign stays closed exactly when no start of it commits (`CampaignLifecycle.RunsStayOrderly`), the
  business key never blocks a due recipient exactly when no start schedules a frozen one
  (`CampaignLifecycle.KeysStayFree`), and each resume undoes its pause exactly when no start commits over rows
  that a pause stopped (`CampaignPauses.NothingIsLeftOver`); a start that commits on a draft breaks none of these,
  and `CampaignRaces` has the runs in which a stale start breaks each;
* a job has one runner and keeps its final state if handlers settle only while the row carries their claim, a
  check the settling commit does not make; without it a finished job stays finished exactly when no late
  settlement contradicts it (`JobRuns.FinishedIsFinal`, `JobRuns.LateFinishIsUndone`), and budget and single runner
  last exactly until a late settlement of one of two kinds (`JobRuns.RunsSoundExactly`);
* a second reconciliation is idle if linking stopped before its 20-round cap; fewer than twenty unlinked
  messages are enough;
* an incremental knowledge scan equals a rebuild if a snapshot is replaced as one and equal reasons never
  stand for different classes; the explanation text of extracted candidates is not restored
  (`KnowledgeScanner`);
* a comment at `app/api.py:2443` calls double clicks of a price confirmation idempotent; a request that was applied
  is turned away when it comes again, because it names templates that are no longer active, and only the request
  of a reloaded page is recognised (`CommercialDesks.ResentRequestExactly`, `ReloadedRequestIsRecognised`);
* price policies stay disjoint if rows are validated against the policies they are applied to
  (`CommercialRuns.ApplyKeepsDisjointExactly`);
* thread ids agree for linked messages; the parts of unlinked ones coincide exactly when every part of either thread
  occurs in the other (`ThreadGrouping.EqualPartsExactly`), as a duplicated Message-ID can bring about.

`dafny verify dfyconfig.toml` checks the whole project.

## Model

| member | source | states |
|---|---|---|
| DisjointSets.DisjointSet.constructor | app/rag_history.py:210-212 | every item starts as its own representative, at rank 0, with no links recorded |
| DisjointSets.DisjointSet.Find | app/rag_history.py:214-218 | terminates at the representative of the item; path halving changes parents but no representative |
| DisjointSets.DisjointSet.Union | app/rag_history.py:220-229 | adds exactly one link to the closure that the representatives stand for; union by rank keeps the forest and its ranks valid |
| DisjointSets.ClimbReachesRoot | app/rag_history.py:214-218 | the parents alone determine every representative: climbing them ends at the one the partition names |
| DisjointSets.HalvingKeepsForest | app/rag_history.py:216 | pointing an item at its grandparent keeps every representative and still climbs in rank |
| DisjointSets.HangingKeepsForest | app/rag_history.py:225-229 | hanging the lower-ranked root under the other merges the two classes and keeps ranks increasing towards the root |
| DisjointSets.MergedRepresents | app/rag_history.py:220-229 | after a union two items share a representative exactly when the closure of the old links and the new one connects them |
| DisjointSets.LinkInsideClass | app/rag_history.py:223-224 | a union inside one class changes no class, and the closure agrees |
| DisjointSets.MergedHeavy | app/rag_history.py:225-229 | a root of rank r keeps at least 2^r members |
| DisjointSets.PathsAreLogarithmic | app/rag_history.py:209-229 | two to the length of any parent path is at most the size of its class, so paths are at most log2(n) long |
| ThreadGrouping.UniteThreads | app/rag_history.py:769-802 | two messages share a root exactly when links connect them: one source hint, an In-Reply-To or References entry that first appears as the other one's Message-ID, or one known customer and subject at most 10368000 seconds apart |
| ThreadGrouping.UniteSources | app/rag_history.py:773-779 | first pass: every message is united with the first of its source hint, the first owner of each Message-ID is remembered, and no link beyond the direct ones is made |
| ThreadGrouping.UniteReferences | app/rag_history.py:780-783 | second pass: every referenced Message-ID that is known is united with its first owner, and every link it adds is such a one |
| ThreadGrouping.UniteNeighbours | app/rag_history.py:785-802 | third pass: in each customer-and-subject group the time-sorted neighbours at most 120 days apart are united |
| ThreadGrouping.NeighboursConnect | app/rag_history.py:794-802 | linking only sorted neighbours connects every pair of the group that is at most 120 days apart |
| ThreadGrouping.PassesAreClosure | app/rag_history.py:773-802 | when the passes are done the united links have the same closure as all direct links |
| ThreadGrouping.BucketByRoot | app/rag_history.py:804-806 | the buckets partition the messages by representative |
| ThreadGrouping.AssignThreadIds | app/rag_history.py:769-823 | each message gets the name made of the set of stable parts of its whole thread |
| ThreadGrouping.LinkedShareName | app/rag_history.py:807-823 | linked messages get equal thread ids |
| ThreadGrouping.DistinctPartsSeparateThreads | app/rag_history.py:809-820 | when no stable part occurs in two threads, equal parts mean the same thread, in both directions |
| ThreadGrouping.EqualPartsExactly | app/rag_history.py:807-823 | the parts of two threads, linked or not, coincide exactly when every part of either occurs in the other |
| ThreadGrouping.DuplicateMessageIdMergesNames | app/rag_history.py:774-775 | the converse fails for a duplicated Message-ID: two unlinked messages get one thread id |
| ThreadPairing.Quality | app/rag_history.py:831-867 | the score always lies between 15 and 95, so the final clamp to 0..100 never acts |
| ThreadPairing.QualityAtDefault | app/rag_history.py:831-873 | at the default threshold two short bodies never pass; one short body passes exactly for a direct reply within 30 days, or a reference to the request within 7 days or with its subject within 30; without a short body a match fails exactly when it came after 30 days with no link, subject or substance in its favour |
| ThreadPairing.QualityEnds | app/rag_history.py:831-867 | scores move in fives; 95 and 15 are reached exactly by the match with everything for it and by the one with everything against it |
| ThreadPairing.FirstLatest | app/rag_history.py:927-931 | the first of the latest candidates |
| ThreadPairing.RemoveFirstEqual | app/rag_history.py:948-1003 | removes the first record equal to the given one and keeps the order of the rest |
| ThreadPairing.FirstEqualIsChosen | app/rag_history.py:948-1003 | removing by equality removes the very request that was chosen |
| ThreadPairing.AnswerWith | app/rag_history.py:907-1003 | an answer takes an unused, causal, timely request of the same customer, the best of the direct ones or else of the eligible ones; no answer means no eligible request was left |
| ThreadPairing.PairThread | app/rag_history.py:897-1003 | one pass over a sorted thread is a greedy matching: one-to-one, each choice the best at its time, nothing eligible missed, and the used body pairs are exactly the accepted ones |
| ThreadPairing.CrossingIsSimultaneous | app/rag_history.py:907-931 | without a direct link, matches of one customer cross only when their requests carry the same instant |
| ThreadPairing.MatchesAreInReach | app/rag_history.py:897-1003 | every match joins a kept inbound and a later kept outbound message of one customer within the delay, direct exactly when the response names the request's Message-ID; it is refused for quality exactly below the threshold; two such messages are never both left over |
| ThreadPairing.BestIsTaken | app/rag_history.py:918-931 | no request that was still free and in reach was better than the one taken: none was named by the response unless the one taken was, and none of the same standing was later |
| ConversationPairing.GroupItems | app/rag_history.py:883-885 | messages are grouped by thread id, each group in order, the threads in order of first appearance |
| ConversationPairing.SortItems | app/rag_history.py:891-896 | sorting a thread keeps its messages and puts none before an older one, undated ones first, or at one instant before one with a smaller source file |
| ConversationPairing.MatchThread | app/rag_history.py:890-1003 | one thread adds matches that use each message once, keeps all accepted body pairs distinct and leaves no eligible request before an unanswered outbound |
| ConversationPairing.MatchAllThreads | app/rag_history.py:870-1003 | over all threads: every outcome is causal, in time, of one customer in one thread; no message is used twice, accepted or rejected; accepted body pairs are globally distinct; every thread is exhausted |
| ConversationPairing.RepetitionsAreRefused | app/rag_history.py:937-947 | no two accepted pairs repeat both bodies, and what is refused as a repetition repeats both bodies of an accepted pair |
| ConversationPairing.PairsCarryResponses | app/rag_history.py:975-1003 | every accepted outcome gives one pair, of its thread and at the instant of its response, in order, and nothing else gives one |
| ConversationPairing.PairIdsDistinct | app/rag_history.py:975-981 | distinct body pairs give distinct pair ids, if the naming hash is injective |
| DatasetPacking.ReachableTotals | app/rag_history.py:1045-1054 | the table holds exactly the totals reachable within the bound, each with the selection whose oldest group is as new as possible |
| DatasetPacking.TableStep | app/rag_history.py:1046-1054 | one round of the dynamic programme extends the table exactly by the new group |
| DatasetPacking.Thin | app/rag_history.py:1043-1044 | any selection that reaches the target thins to one within target plus the largest group, so the bound loses nothing |
| DatasetPacking.LeastOvershoot | app/rag_history.py:1055-1056 | the least total reaching the target overshoots it by less than any picked group |
| DatasetPacking.ChooseGroups | app/rag_history.py:1042-1057 | the packing picks the least achievable total at or above the target with the newest possible oldest group, or every group if no total reaches it |
| DatasetSplits.TakeRecencyBiasedGroups | app/rag_history.py:1036-1074 | the picked pairs are those of the best packing, sorted, and the rest are the other groups in their order |
| DatasetSplits.TakeReachesTarget | app/rag_history.py:1055-1056 | a split misses its target exactly when the remaining pairs are fewer, and then takes all of them |
| DatasetSplits.GroupByThread | app/rag_history.py:1023-1025 | grouping by thread keeps every pair and puts one thread in each group |
| DatasetSplits.OrderGroups | app/rag_history.py:1026-1029 | the groups come out by newest response, with every pair and every thread whole |
| DatasetSplits.NewestIsLatest | app/rag_history.py:1028 | the time a thread is ordered by is the latest of its responses |
| DatasetSplits.WithoutIsComplement | app/rag_history.py:1088-1091 | with distinct ids, dropping the selected ids leaves exactly the unselected pairs |
| DatasetSplits.SplitsAreDisjoint | app/rag_history.py:1076-1087 | the three splits share no thread and take no pair twice |
| DatasetSplits.SplitGroups | app/rag_history.py:1076-1087 | test, development and knowledge base are taken one after the other, each a best packing of the groups left, in their order |
| DatasetSplits.RestStaysOrdered | app/rag_history.py:1062-1074 | what a call leaves is still ordered by newest response |
| DatasetSplits.TakesTheNewest | app/rag_history.py:1036-1074 | no set of whole threads reaches the target with fewer pairs, and none with equally many pairs is newer than the oldest thread picked |
| DatasetSplits.UnusedIsTheRest | app/rag_history.py:1088-1091 | splits and unused pairs together are the input, with multiplicity |
| DatasetSplits.SliceIsNewest | app/rag_history.py:1021-1022 | of sorted pairs the candidates are the newest: as many as the total target, or all, and no pair outside them is later under time and id than one inside |
| DatasetSplits.DesiredIsTarget | app/rag_history.py:1031-1034 | the test split aims at what the other two leave of the candidates, at least the minimum and at most the maximum |
| DatasetSplits.SplitConversationPairs | app/rag_history.py:1009-1097 | the splits share no thread; with distinct pair ids they and `unused` hold each pair once; they are packed one after the other from the threads of min(pairs, total target) candidates, of which no pair left out is later than one taken in |
| DatasetSplits.SplitsAreNewest | app/rag_history.py:1009-1087 | so each split in turn has as few pairs as reach its target, takes the newest threads that make up that number, and comes out in order of time |
| CampaignSlots.NextWeekday | app/reactivation.py:208-212 | the first workday at or after a date |
| CampaignSlots.ScheduleSlots | app/reactivation.py:229-253 | terminates with exactly the first `count` points after now of the workday-by-limit grid from the start date, strictly increasing and all inside the send window |
| CampaignSlots.SlotsFitExactlyWithRoom | app/reactivation.py:238-246 | a day's slots all lie in the window exactly when it has one second for each, as it has for every limit up to 100 |
| CampaignSlots.DailyLimitHolds | app/reactivation.py:245-252 | no local date receives more than the daily limit |
| CampaignSlots.WindowIsLeast | app/reactivation.py:215-226 | the guard passes an instant exactly inside the window and otherwise names the least later instant inside it |
| CampaignSlots.SlotsPassTheGuard | app/reactivation.py:215-253 | every scheduled slot passes the guard |
| CampaignSlots.GridExactly | app/reactivation.py:229-253 | the slots are exactly, on every day from the start date that is neither Saturday nor Sunday, the daily limit of instants from the start hour, an even share of the window apart but at least one second |
| CampaignSlots.WindowExactly | app/reactivation.py:215-226 | a send is in the window exactly on such a weekday from the start hour until the end hour |
| CampaignTables.CampaignTables.PauseCampaign | app/reactivation.py:680-711 | rejects a campaign that is not running; otherwise stops exactly the pending and failed rows of the campaign and queues their recipients |
| CampaignTables.CampaignTables.ResumeCampaign | app/reactivation.py:714-747 | rejects a campaign that is not paused; otherwise re-arms exactly the rows a pause stopped, never before their slot |
| CampaignTables.CampaignTables.CancelCampaign | app/reactivation.py:750-775 | leaves closed campaigns alone; otherwise skips every waiting recipient and cancels its undelivered row |
| CampaignTables.CampaignTables.CommitStartedCampaign | app/reactivation.py:638-663 | rejects a start with nobody free; otherwise excludes the reserved recipients and schedules the others |
| CampaignTables.CampaignTables.SyncDeliveryStates | app/reactivation.py:983-1032 | a queued recipient becomes sent exactly when its row was delivered and skipped exactly when its row was stopped for anything but a pause; no other recipient and no row changes; a running campaign completes exactly when nobody waits |
| CampaignEffects.PausePauses | app/reactivation.py:680-711 | a pause, read off the columns: exactly the pending and failed rows of the campaign are stopped with its note and exactly their recipients are queued |
| CampaignEffects.ResumeResumes | app/reactivation.py:714-747 | a resume, read off the columns: exactly the rows stopped by a pause become pending, available at the later of now and their slot |
| CampaignEffects.CancelCancels | app/reactivation.py:750-775 | a cancellation, read off the columns: exactly the waiting recipients are skipped and their undelivered rows stopped |
| CampaignEffects.StartReads | app/reactivation.py:605-620 | a start reads exactly the eligible, selected recipients of its campaign that are candidates or selected |
| CampaignEffects.StartFinds | app/reactivation.py:256-278 | it finds reserved exactly the contacts of its recipients that another running or paused campaign has selected |
| CampaignEffects.CommitStarts | app/reactivation.py:638-663 | its commit excludes exactly the recipients it read whose contact is reserved, schedules exactly the others at their slots, and runs the campaign |
| CampaignEffects.SelectSelects | app/api.py:762-793 | a selection changes only the rows it names, in selection and status alone |
| CampaignEffects.FreezeQueues | app/reactivation.py:778-800 | a dispatch queues one recipient with one new pending row of its own and changes nothing else |
| CampaignEffects.ReplyReplies | app/reactivation.py:1192-1240 | a reply closes its recipient and stops exactly the other waiting recipients of the contact with their undelivered rows |
| CampaignEffects.SyncSyncs | app/reactivation.py:983-1032 | a sync, read off the columns, as the row of the method says |
| CampaignEffects.StepsAreAllowed | app/reactivation.py:601-786 | a step may happen exactly as the columns say: selections and starts on a draft, a lock when no start that holds its locks has a contact of this one, a commit when somebody is free, a pause on a running and a resume on a paused campaign, a cancellation on an open one, a dispatch of a scheduled selected recipient of a running campaign without a row |
| CampaignEffects.OthersStay | app/reactivation.py:789-797 | a skipped recipient is only skipped and a delivery report only reports |
| CampaignExclusivity.CommitIsExclusive | app/reactivation.py:633-660 | a start that holds its locks and read the whole selection commits without sharing a contact |
| CampaignExclusivity.StepIsSafe | app/reactivation.py:256-278 | every step, starts split into read, lock-and-check and commit, keeps contacts exclusive, when selection leaves campaigns with a start in flight alone |
| CampaignExclusivity.RunsKeepContactsExclusive | app/reactivation.py:595-677 | in every such interleaving at most one running or paused campaign holds a contact as a selected recipient |
| CampaignContacts.CommitExclusiveExactly | app/reactivation.py:605-660 | a commit keeps contacts exclusive exactly when no recipient it leaves selected, read or not, shares a contact with another running or paused campaign |
| CampaignContacts.ExclusiveExactly | app/reactivation.py:256-278 | exclusive means: no two different running or paused campaigns have selected recipients of one contact |
| CampaignContacts.ContactsStayExactly | app/reactivation.py:595-1032 | a step makes two running or paused campaigns share a contact exactly when it is a commit that shares one |
| CampaignContacts.ContactsStayExclusive | app/reactivation.py:595-1032 | along any run contacts are exclusive at every moment exactly when no start commits while it shares one |
| CampaignRaces.SelectionDuringStartBreaksExclusivity | app/api.py:762-793 | a selection between a start's read and its commit leads to a shared contact: a concrete run |
| CampaignRaces.TakenAfterLockBreaksExclusivity | app/reactivation.py:619-660 | a start that left nobody unread shares a contact that another campaign took, with a late selection, between its locks and its commit: a concrete run |
| CampaignRaces.StaleStartReopensCancelled | app/reactivation.py:601-662 | a start that read DRAFT before another start committed reopens a cancelled campaign: a concrete run |
| CampaignRaces.StaleStartOutrunsResume | app/reactivation.py:601-747 | such a start on a paused campaign leaves a due recipient whose own key blocks its dispatch, and lets the next pause stop nothing while its resume re-arms an older row: a concrete run |
| CampaignLifecycle.FrozenAtMostOnce | app/reactivation.py:778-786 | on every run a recipient is frozen into the outbox at most once, and only at a moment at which its campaign runs |
| CampaignLifecycle.StepKeepsLinks | app/reactivation.py:595-1032 | every step keeps recipients, outbox rows and starts in flight with their campaigns |
| CampaignLifecycle.StepRests | app/reactivation.py:680-1032 | that a closed campaign has no selected waiting recipient is kept by every step, a start that reopens the campaign included |
| CampaignLifecycle.RunsStayOrderly | app/reactivation.py:595-1032 | a closed campaign stays closed along a run exactly when no start of it commits, and then it never again has a selected waiting recipient |
| CampaignLifecycle.ClosedIsFinal | app/reactivation.py:750-775 | a step changes the status of a closed campaign exactly when it commits a start of it |
| CampaignLifecycle.ClosedStayExactly | app/reactivation.py:601-662 | all closed campaigns keep their status in a step exactly when it commits no start on a closed one |
| CampaignLifecycle.UnfrozenExactly | app/reactivation.py:638-663 | a step makes a recipient due although it has its outbox row exactly when it commits a start that schedules it |
| CampaignLifecycle.DispatchIsNeverBlocked | app/reactivation.py:785-786 | the unique business key blocks a due recipient exactly when it has an outbox row, so never while due recipients are unfrozen |
| CampaignLifecycle.KeysStayFree | app/reactivation.py:595-786 | along a run no due recipient of the campaign finds its key taken exactly when no start of it schedules a frozen recipient |
| CampaignPauses.PauseMarks | app/reactivation.py:685-701 | right after a pause the rows a resume would find are the rows the pause stopped exactly when none was left from before |
| CampaignPauses.PausedRowsStay | app/reactivation.py:680-747 | no step while the campaign stays paused adds or loses such a row |
| CampaignPauses.PausedRowsReachResume | app/reactivation.py:680-747 | after any steps of a pause the resume finds the rows that pause stopped and those left from before |
| CampaignPauses.SyncSparesPaused | app/reactivation.py:997-1006 | sync between pause and resume skips no recipient whose row the pause stopped |
| CampaignLifecycle.SyncSettles | app/reactivation.py:983-1029 | after a sync no queued recipient has a reported row left, every running campaign still waits for somebody, and a completed one for nobody |
| CampaignLifecycle.SyncIsIdempotent | app/reactivation.py:983-1032 | a second sync with nothing delivered in between changes nothing |
| CampaignPauses.RearmedRowsAreUnique | app/reactivation.py:714-747 | only one set of stopped rows fits what a resume did |
| CampaignPauses.ResumeUndoesPause | app/reactivation.py:680-747 | pause, any steps, then resume re-arms exactly the rows the pause stopped, none before its slot, and touches no other row, if and only if no row of an earlier pause was left |
| CampaignPauses.NotesExactly | app/reactivation.py:595-747 | a step leaves rows stopped by a pause to a campaign neither paused nor cancelled exactly when it commits a start of it |
| CampaignPauses.NothingIsLeftOver | app/reactivation.py:595-747 | along a run every pause is undone by its resume exactly when no start of the campaign commits over such rows |
| CampaignPauses.DraftStartsAreHarmless | app/reactivation.py:601-662 | a start that commits on a draft breaks none of the three: closed stays closed, keys stay free, resume undoes pause |
| HistoryLinking.LinksAreUnambiguous | app/history.py:95-139 | a message joins a case only without a rival: the only case of its thread with the contact taking part, or the only match by product, by subject, or at all, among the contact's open cases |
| HistoryLinking.JoinsExactly | app/history.py:95-139 | a message joins a case if and only if its thread names that case alone and its contact took part, or, when no case comes from the thread, the case is the one of its contact's open cases that its product codes or, without any, its subject or their being only one singles out |
| HistoryLinking.ContactIsSettled | app/history.py:219-231 | a message without a known contact gets the only contact among its participants and that contact's customer, and nothing else of it changes |
| HistoryLinking.LinkRound | app/history.py:218-273 | the in-place round leaves the rows, the links and the count of the specified round |
| HistoryLinking.LinkUntilStable | app/history.py:217-275 | at most 20 rounds, stopping at the first that links nothing |
| HistoryFixpoint.ProcessKeepsCase | app/history.py:219-273 | processing a message never moves a linked one and leaves it with the customer and contact of its case |
| HistoryFixpoint.RoundKeepsCases | app/history.py:217-275 | a round only adds links, and shrinks the unlinked set by exactly what it linked |
| HistoryFixpoint.RoundsKeepCases | app/history.py:217-275 | over all rounds a linked message never changes case and its identity matches the case |
| HistoryFixpoint.FewUnlinkedStop | app/history.py:217-275 | fewer unlinked messages than rounds always stop the loop before its cap |
| HistoryFixpoint.QuietRoundRepeats | app/history.py:217-275 | a round that links nothing is repeated without effect |
| HistoryFixpoint.RoundsReachFixpoint | app/history.py:196-275 | a loop that stops on its own leaves a fixpoint of the next run, which reads its links from the tables again |
| HistoryFixpoint.SecondLinkingChangesNothing | app/history.py:142-275 | linking a reconciled mailbox again changes no message |
| HistoryReviews.LatestRows | app/history.py:279-289 | the dictionaries hold the last row of each case and the last human row of each contact |
| HistoryReviews.Reconciler.ReviewEveryCase | app/history.py:317-370 | activity dates, statuses and case reviews are those of the specification (`ReviewReviews`, `NewIsDue`), in whatever order the dictionary is walked |
| HistoryReviews.Reconciler.ReviewEveryContact | app/history.py:372-402 | one review for each contact whose latest human message is inbound, without a case and not yet reviewed |
| HistoryReviews.Reconciler.Run | app/history.py:142-402 | after the run, every case stands as its last linked message says: inbound and not overtaken by live mail it waits for a human unless taken over or closed, outbound and not overtaken an active case is paused, otherwise the status stays; its activity date is the latest of the three; handoffs grow by exactly the reviews due |
| HistoryReviews.ReconcileReconciles | app/history.py:142-402 | the same of the specification, in statuses, dates and the last message by position |
| HistoryReviews.ReviewReviews | app/history.py:317-345 | one case: its status by the last message that carries its id and the live activity, and its activity date |
| HistoryReviews.NewIsDue | app/history.py:336-402 | a review is raised exactly for the inbound last message of a case, not overtaken, and for the inbound last human message of a contact without a case, in both only if the message has no review yet |
| HistoryReviews.LatestIsLast | app/history.py:279-286 | the dictionary finds a row for a case exactly when one carries its id, and then the last |
| HistoryReviews.ReviewIsStable | app/history.py:317-370 | reviewing a case twice is reviewing it once |
| HistoryReviews.NoNewHandoffs | app/history.py:301-313 | a message that raised a review raises no second one |
| HistoryReviews.SecondReconcileChangesNothing | app/history.py:142-402 | if linking stops before the cap, an immediate second reconciliation changes nothing: no link, identity, handoff, status or activity date |
| HistoryReviews.SmallMailboxSettles | app/history.py:217-275 | fewer than twenty unlinked messages always settle in one reconciliation |
| HistoryReviews.ReconcileKeepsCases | app/history.py:142-402 | reconciling never moves a linked message, leaves identities matching their cases and drops no handoff |
| Jobs.JobQueue.Enqueue | app/jobs.py:38-64 | inserts exactly when the idempotency key is new, and otherwise leaves the table as it was |
| Jobs.JobQueue.Claim | app/jobs.py:141-158 | claims the first job that is pending or whose lease lapsed, and none only if there is none |
| JobRuns.TotalBackoffBounded | app/jobs.py:204-211 | the backoff charged, which is what rows wait (`JobTimes.RetryIsTimed`), is at most both 2^max_attempts - 2 and 300 * (max_attempts - 1) seconds, whatever the deferrals and crashes |
| JobTimes.RetryIsTimed | app/jobs.py:141-214 | in times of steps: after an error with attempts left the next claim is possible exactly from the time of the error plus min(300, 2^attempts) seconds, which is what the ledger is charged; after a deferral exactly from the time it names; after an interruption at once; after a success or the last error never |
| JobTimes.AttemptIsGivenBack | app/jobs.py:161-214 | a deferral or interruption gives the attempt back, a success and an error keep it; the job is then done, waiting or, after its last attempt, failed, and unlocked |
| JobTimes.LeaseIsTimed | app/jobs.py:140-158 | a claimed job carries its worker and one more attempt, and is claimable again exactly after its lease |
| JobTimes.NewJobIsTimed | app/jobs.py:38-64 | a queued job is claimable exactly from the time it was queued for |
| JobRuns.ClaimAccounted | app/jobs.py:155-158 | a claim keeps the ledger: attempts are errors plus lapsed claims plus one for the current or final one |
| JobRuns.SettleAccounted | app/jobs.py:161-214 | settling a running job keeps the ledger, the error budget and the bound on backoff for every outcome; the ledger's charge is the wait of the row by `JobTimes.RetryIsTimed` |
| JobRuns.StepIsSound | app/jobs.py:132-215 | each claim, settlement, crash, wait or insert keeps the ledgers, one live runner a job, and finished rows, if a handler settles only while the row carries its claim |
| JobRuns.LeaseKeepsLock | app/jobs.py:144-158 | a handler that ends inside its lease still carries its claim |
| JobRuns.RunsAreSound | app/jobs.py:132-215 | on every such run, leases lapsed or not, errors stay within the budget, one live runner exists for a job, and DONE and FAILED are final |
| JobRuns.LedgerStaysExactly | app/jobs.py:161-214 | a settlement keeps the ledger and the error budget of whatever row it re-reads, exactly unless that row is waiting or failed; there only giving back an attempt that does not exist is harmless |
| JobRuns.SoundExactly | app/jobs.py:132-215 | a step breaks ledgers, budget or the one live runner exactly when it is a late settlement of a waiting or failed job of that kind, or of a job another live runner has |
| JobRuns.RunsSoundExactly | app/jobs.py:132-215 | along any run all of it holds at every moment exactly when no such settlement occurs |
| JobRuns.FinishedStayExactly | app/jobs.py:161-214 | whoever holds which lock, a step changes a finished row exactly when it is a late settlement that contradicts how the job finished |
| JobRuns.FinishedIsFinal | app/jobs.py:132-215 | along any run a finished job keeps its row at every moment exactly when no late settlement contradicts it |
| JobRuns.LateFinishIsUndone | app/jobs.py:161-170 | a late success, settled without the lock, is undone by the second runner's error: a concrete run |
| ImapFetch.AboveIsFilter | app/mail.py:1325-1333 | the local lower bound keeps exactly the listed UIDs above it, in order |
| ImapFetch.HighestUid | app/mail.py:1334 | the largest available UID, or the lower bound itself when there is none |
| ImapFetch.FetchOne | app/mail.py:1338-1362 | up to three attempts, re-opening after a loss; it ends with the first message, the first uncaught error, or after three losses |
| ImapFetch.EndsOnce | app/mail.py:1338-1362 | the network decides one ending for each message |
| ImapFetch.EndsExactly | app/mail.py:1338-1362 | a message counts exactly when an attempt got its body after attempts that were all lost, from the first opening or one re-opened under the UIDVALIDITY of the search; a re-opening that is refused or renumbered ends the batch; three losses give up |
| ImapFetch.FetchAfter | app/mail.py:1303-1375 | the messages are the oldest available ones, complete up to a stop by batch size, byte budget or dead connection; an error is raised exactly for a folder that does not open at first, a rejected search, a first message that fails three times, or a folder that changes or refuses to re-open |
| ImapCursors.SearchGivesBatch | app/mail.py:1319-1334 | a reply to the resumed search gives an ascending batch above the cursor with no message of the folder missing in between |
| ImapCursors.PositionKeeps | app/imap_poller.py:60-78 | creating or resetting the cursor keeps coverage and the agreement of flags and cutoffs; what the cutoff is: `ImapHistory.FirstSearchDecides` |
| ImapCursors.IngestKeeps | app/imap_poller.py:80-96 | ingesting the next message keeps coverage and flags it by the cutoff of its UIDVALIDITY |
| ImapCursors.AdvanceKeeps | app/imap_poller.py:97-100 | moving the cursor past an ingested message leaves nothing below it missing |
| ImapCursors.ServeKeeps | app/imap_poller.py:60-100 | arrivals, expunges and renumberings at any moment keep all of it |
| ImapCursors.FinishChangesNothing | app/imap_poller.py:103-107 | the commit after the loop never has anything to do |
| ImapCursors.FlagIsStable | app/imap_poller.py:85-96 | ingesting again after a crash would give the stored message the flag it has |
| ImapRuns.StepIsSound | app/imap_poller.py:15-108 | every commit, crash, server change and new day keeps the folder invariants and the byte ledger, and takes nothing back |
| ImapRuns.MailboxIsSynchronised | app/imap_poller.py:15-108 | from an untouched mailbox, over any run: every server message up to the cursor under the current UIDVALIDITY is stored, flagged by the cutoff of its first synchronisation; a day's record stays under the limit plus one message and misses exactly the bytes of broken polls |
| ImapHistory.FirstSearchDecides | app/imap_poller.py:28-96 | over any run, before, during and after the poll that first positions the cursor under a UIDVALIDITY: a stored message of it is history if the server had it at the SEARCH of that poll, and is not if it arrived later |
| ImapHistory.HighestSeparates | app/mail.py:1325-1334 | the highest UID of a first SEARCH separates the messages the server had from those it gives out later |
| ImapRuns.CursorNeverDrops | app/imap_poller.py:97-100 | between any two moments of a run the cursor only moves forward and stored messages keep their flag |
| ImapRuns.PollIsItsCommits | app/imap_poller.py:46-108 | an uninterrupted poll is its commits in turn |
| ImapPollers.Poller.IngestBatch | app/imap_poller.py:80-101 | the loop ingests and passes each message of the batch once, in order |
| ImapPollers.Poller.PollFolderOnce | app/imap_poller.py:15-108 | nothing changes when the budget is spent or the fetch fails; otherwise the folder and the byte record are those of the commits of `ImapRuns.PollIsItsCommits`, within the remaining budget |
| KnowledgeChunks.FindLast | app/nas_knowledge.py:249 | the last occurrence wholly between the bounds, or -1 if there is none |
| KnowledgeChunks.WindowEnd | app/nas_knowledge.py:247-251 | a window reaches the end of the text, or is cut right behind the last line break or full stop of its second half, or has the full size when there is none |
| KnowledgeChunks.Chunks | app/nas_knowledge.py:242-257 | rejects exactly an overlap that is not below the size; otherwise windows start at 0, always advance, fit the size, overlap by at most the overlap, cover the whole text, and the chunks are their trimmed non-blank texts |
| KnowledgeChunks.ChunksKeepInk | app/nas_knowledge.py:252-254 | every non-blank character lies in some chunk at its own place |
| KnowledgeChunks.ChunksAreSmall | app/nas_knowledge.py:246-254 | chunks are not empty and not longer than the size |
| KnowledgeIndex.FirstRuleDecides | app/nas_knowledge.py:91-94 | the first matching rule decides; review is required by default only when no rule matches |
| KnowledgeFacts.PatternCovers | app/nas_knowledge.py:97-103 | a directory pattern covers exactly the directory and what lies below it, two stars cover everything, any other pattern is a glob |
| KnowledgeFacts.WhoDecides | app/nas_knowledge.py:83-94 | an override decides before everything, then system files and excluded types are left out, and only then the rules decide |
| KnowledgeIndex.ReasonTellsBase | app/nas_knowledge.py:83-94 | where equal reasons never stand for different classes, the reason determines the base classification |
| KnowledgeIndex.CandidatesAreDecided | app/nas_knowledge.py:436-491 | an extractable candidate becomes customer-ready exactly when it was extracted whole, within the size limit and without a marker, and goes to review otherwise; other files keep the class of their path |
| KnowledgeFacts.UnreadExactly | app/nas_knowledge.py:436-441 | excluded files and other types are not read and files over the limit neither; their entries carry no digest, marker, chunk or error |
| KnowledgeFacts.ReadExactly | app/nas_knowledge.py:442-491 | a failed extraction carries its error, an empty one its digest, a text its digest, exactly the markers found in it, and its chunks in order |
| KnowledgeFacts.ClassExactly | app/nas_knowledge.py:436-491 | a candidate that is read is ready exactly for a text within the limit and without markers, and reviewed otherwise; every other file keeps its class |
| KnowledgeFacts.CacheDecides | app/nas_knowledge.py:402-435 | a file is served from the cache exactly when fingerprint and reason are the same and its chunks are there, with everything found before but the explanation; otherwise it is looked at afresh |
| KnowledgeFacts.CollectedExactly | app/nas_knowledge.py:356-505 | a complete scan holds exactly the files of the walk, each as it was scanned |
| KnowledgeFacts.CheckpointExactly | app/nas_knowledge.py:374-388 | a checkpoint holds what was seen as it was seen and everything else as before |
| KnowledgeIndex.RowsCarryClass | app/nas_knowledge.py:473-484 | chunks are numbered from one, counted in the document and carry its class |
| KnowledgeIndex.ReadyIsCleared | app/nas_knowledge.py:356-505 | in every reachable snapshot, checkpoints included, a customer-ready document has a ready path or a clean candidate's content, and so do its chunks |
| KnowledgeIndex.ScannedIsRebuilt | app/nas_knowledge.py:396-493 | for one file, cached or not, the scan says what a fresh look says (but for the explanation text) |
| KnowledgeIndex.CheckpointIsFaithful | app/nas_knowledge.py:374-388 | a checkpoint of seen entries and previous unseen ones is faithful again |
| KnowledgeIndex.ScanIsRebuild | app/nas_knowledge.py:356-505 | an incremental scan from a faithful snapshot gives the documents and chunks of a rebuild |
| KnowledgeIndex.ReachableIsFaithful | app/nas_knowledge.py:356-505 | every snapshot reached by complete and interrupted scans is faithful |
| KnowledgeIndex.AnyHistoryThenRebuild | app/nas_knowledge.py:356-505 | after any history of scans under changing policies and overrides the next complete scan equals a rebuild from nothing |
| KnowledgeScanner.Scanner.ScanFiles | app/nas_knowledge.py:356-505 | persists the collected snapshot at the end, and on the way only checkpoints after some number of files |
| KnowledgeScanner.ExplanationIsRestoredExactly | app/nas_knowledge.py:428-435 | an unchanged document keeps a rebuild's explanation exactly when its path is not an extractable candidate |
| KnowledgeScanner.AnalysedIsLook | app/nas_knowledge.py:436-491 | the entry of an extracted file is what extraction gave and the class decided from it |
| KnowledgeScanner.ReusedReasonIsIgnored | app/nas_knowledge.py:399-410 | reusing a reason text for another classification reaches a cached file exactly when both extract it, see the same in it and decide the same class |
| KnowledgeScanner.TornPersistServesOldRows | app/nas_knowledge.py:536-552 | if only the manifest is replaced, the next scan serves the old rows, and agrees with a rebuild only if they did not change |
| JsonStrings.DecodeIsStable | app/ai.py:442 | a string that decodes on a prefix decodes the same on every extension |
| JsonStrings.InnerQuotesAreEscaped | app/ai.py:442 | a quote inside a decoded string is preceded by a backslash |
| JsonStrings.DecodeUndoesEncode | app/ai.py:442 | decoding undoes encoding at any place of a text (section 7 of RFC 8259) |
| JsonSpelling.StringIsSpelling | app/ai.py:442 | a text is a string of a value if and only if it spells it under section 7 of RFC 8259: characters as themselves, short escapes, four hex digits, or two of them for a surrogate pair, which is never left in halves |
| JsonSpelling.SpellingIsRead | app/ai.py:442 | every spelling is read as its value, at any place of a text |
| JsonSpelling.ReadIsSpelling | app/ai.py:442 | whatever is read is spelled by the text up to its closing quote |
| DraftFields.FindIsStable | app/ai.py:438-450 | the first match of a key stays the first match when more text arrives |
| DraftFields.StringFieldIsStable | app/ai.py:436-445 | a completed string field never changes |
| DraftFields.ReadItems | app/ai.py:448-469 | the loop returns the whole strings of the array up to the first thing that is not one |
| DraftFields.ItemsArePrefixMonotone | app/ai.py:448-469 | the items of any prefix are a prefix of the items of every extension |
| DraftStreams.DraftStream.OnText | app/ai.py:1391-1422 | a text event shows the greeting once it is complete, then every new whole paragraph, and stops at a refused block |
| DraftStreams.DraftStream.Finish | app/ai.py:1423-1446 | the final message adds the greeting if still owed, the remaining paragraphs and the closing, unless it is refused |
| DraftStreams.StreamIsWholeExactly | app/ai.py:1391-1446 | streamed and final blocks make up the draft exactly when the greeting agrees and the streamed paragraphs are a beginning of the final ones |
| DraftDocuments.ParagraphsAreRead | app/ai.py:448-469 | on a complete document, members in any order, any blanks and escapes, the partial reader finds exactly its paragraphs |
| DraftDocuments.GreetingIsRead | app/ai.py:436-445 | and exactly its greeting |
| DraftDocuments.NotInToken | app/ai.py:438-450 | no value is ever taken for a key |
| DraftDocuments.StreamShowsDraft | app/ai.py:1391-1446 | for every such document and every prefix seen, the stream shows the greeting, each paragraph once and in order, and the closing |
| DraftDocuments.EveryDraftHasDocument | app/ai.py:1391-1446 | every greeting and list of paragraphs has such a document, with the usual spacing or none and the greeting on either side |
| EvenSamples.RoundExactly | scripts/select_imap_rag_candidates.py:61-65 | positions round to the nearest integer, and of two equally near to the even one |
| EvenSamples.SampleIndexRises | scripts/select_imap_rag_candidates.py:61-65 | consecutive positions round (half to even) to different indexes |
| EvenSamples.SampleIndexEnds | scripts/select_imap_rag_candidates.py:61-65 | the first and last indexes are the two ends |
| EvenSamples.EvenSample | scripts/select_imap_rag_candidates.py:56-66 | for 1 < limit < length: exactly `limit` distinct entries in order, both ends included, each within half a place of an even spread; otherwise everything, or the last entry |
| Candidates.KeepEligible | scripts/select_imap_rag_candidates.py:109-132 | keeps exactly the eligible headers |
| Candidates.Representatives | scripts/select_imap_rag_candidates.py:134-157 | one message for each eligible thread, the best of it, in order of preference |
| Candidates.Draw | scripts/select_imap_rag_candidates.py:170-182 | passes over messages of capped senders for good and takes the first other one |
| Candidates.SelectCandidates | scripts/select_imap_rag_candidates.py:159-188 | terminates with at most `target` items sorted by UID; no unmarked sender above its cap; if short, every unselected representative is of a capped unmarked sender; a bucket with items left trails no other by more than one pick, and its picks rank ahead of what is left |
| Candidates.SelectedIsBestOfThread | scripts/select_imap_rag_candidates.py:142-157 | one item a thread, and no eligible message of that thread is better |
| Candidates.SelectionIsSound | scripts/select_imap_rag_candidates.py:109-188 | the selection in reasons and scores: only company replies to customers, marked senders first, then by score and UID, at most max(40, target // 4) an unmarked sender; a reply of an unseen thread that could still be taken means that the target is reached or another of its thread goes before it |
| CustomerImport.DryRunAgreesWithApply | app/full_customer_import.py:464-488 | created contacts equal previewed new addresses and created customers equal previewed new companies |
| CustomerImport.PreviewIgnoresOrder | app/full_customer_import.py:456-470 | the preview counts the same in every order of the endpoints |
| CustomerImport.Selected | app/full_customer_import.py:508-515 | the address's contact at the company, else its first; none only if the address is unknown |
| CustomerImport.CompanyContactComesFirst | app/full_customer_import.py:508-515 | among contacts of an address one of the company is chosen first, and of equals the first |
| CustomerImport.CreatedBelongsToCompany | app/full_customer_import.py:516-547 | a new contact belongs to a customer of the endpoint's company |
| CustomerImport.ActivityOnlyWidens | app/full_customer_import.py:349-361 | the first contact date is the earliest known, the last the latest, and suppression is never lifted |
| CustomerEffects.ImportedImports | app/full_customer_import.py:504-624 | importing an address writes one contact, its owner and its cases and nothing else: a generic name gives way to a proper one, suppression stays, dates widen, associations are merged; automatic mail is switched on exactly by the choice for an owner not marked do-not-contact; a case for each product when wanted |
| CustomerEffects.WorkbookRespects | app/full_customer_import.py:504-624 | over a whole workbook no key, owner, address or do-not-contact mark changes, nobody so marked is switched to automatic mail, no suppression is lifted and no case is lost |
| CustomerReimport.MergedHoldsAll | app/full_customer_import.py:329-346 | after merging, every association of the workbook stands under its key |
| CustomerReimport.RecordedKeepsOthers | app/full_customer_import.py:341-344 | recording one association keeps those of other keys |
| CustomerReimport.MergedTwice | app/full_customer_import.py:311-346 | merging the same source associations again changes nothing |
| CustomerReimport.UpdatedTwice | app/full_customer_import.py:349-361 | name, suppression, activity dates and associations of a contact settle after one import |
| CustomerReimport.ImportSettles | app/full_customer_import.py:504-624 | after importing an endpoint, importing it again would find its contact and change nothing |
| CustomerReimport.ImportLeavesSettled | app/full_customer_import.py:504-624 | importing another address does not disturb that |
| CustomerReimport.ReimportChangesNothing | app/full_customer_import.py:504-624 | importing the same workbook again creates no customer, contact or case and changes no name, flag, date or association |
| CustomerImporters.CustomerImporter.ImportOne | app/full_customer_import.py:504-624 | one endpoint with its dictionaries: the tables change as specified and the dictionaries keep indexing them |
| CustomerImporters.CustomerImporter.Import | app/full_customer_import.py:490-626 | the loop writes the specified tables and its counters are exact |
| CommercialDesks.ValidateRows | app/imports.py:556-601 | accepts exactly rows with ordered dates that clash neither with each other nor, without replacement, with an active policy |
| CommercialEffects.RowsOkExactly | app/imports.py:556-601 | rows are accepted exactly when their periods are ordered and no day falls under two automatic rows of one product and currency or, without replacement, under a row and an active policy |
| CommercialDesks.CommercialDesk.ImportPrices | app/imports.py:633-785 | applies exactly when the rows were valid for the policies the validation read, one is not manual, the batch is new and no quote is in flight; then the tables change as `CommercialEffects.ImportImports` says, otherwise not at all |
| CommercialDesks.CommercialDesk.ConfirmPrices | app/api.py:2364-2527 | accepts exactly a request that saw the current week and batch and names exactly the templates shown, each for its product and with its stock, with no quote in flight; changes nothing if the batch stands already, and else prices and stock of the cycle as `CommercialEffects.ConfirmConfirms` says |
| Commercial.TemplateIsListed | app/api.py:2243-2250 | a request lists every product that has a template |
| Commercial.RequestListsOnce | app/api.py:2394-2420 | and lists none twice |
| CommercialDesks.ResentRequestExactly | app/api.py:2375-2508 | an accepted request sent once more is accepted again exactly when its batch stood already; one that was applied is turned away, whatever reference it names |
| CommercialDesks.SecondClickIsTurnedAway | app/api.py:2396-2445 | a double click whose first request is applied and whose second is turned away: a concrete input |
| CommercialDesks.AppliedRequestNeverAgain | app/api.py:2396-2508 | an applied request is never accepted again, in any week, whatever imports and confirmations follow |
| CommercialDesks.ReloadedRequestIsRecognised | app/api.py:2436-2445 | the same prices and stock sent from a reloaded page are recognised: the request is current and its batch stands |
| CommercialDesks.CommercialDesk.ConfirmInventory | app/api.py:2593-2700 | accepts exactly known stock for priced products, each once, for the current price batch with no quote in flight; the cycle is confirmed exactly when priced and stocked products coincide |
| CommercialEffects.ImportImports | app/imports.py:693-785 | an import deactivates exactly, under a replacement, the policies of the scope in the currencies of its automatic rows, adds one active policy with the row's columns for each of these rows, unconfirms the stock of its cycle and forgets it, and touches no other cycle, scope, currency or stock |
| CommercialEffects.ConfirmConfirms | app/api.py:2448-2527 | a confirmation deactivates exactly the rupee policies of the scope or of no cycle, adds one policy an item valid from the first to the last day of the week, and records exactly the stock of the items for the cycle |
| CommercialEffects.ShownExactly | app/api.py:2217-2250 | the editor shows of each product the policy of the week before any other, and of equals the newest |
| CommercialEffects.RequestOkExactly | app/api.py:2396-2420 | a request is accepted exactly when it names each policy shown once and nothing else, each for its product, out of stock or available in a positive quantity |
| CommercialEffects.InventoryTakes | app/api.py:2664-2700 | a stock confirmation records the items and confirms the cycle exactly when the products it prices are those with known stock |
| CommercialEffects.InventoryOkExactly | app/api.py:2611-2663 | it is accepted for a cycle with confirmed prices, each product once, known, and priced by the cycle |
| Commercial.ImportKeepsDisjoint | app/imports.py:566-601 | an import, with or without replacement, keeps the active policies of one product, currency and scope disjoint |
| Commercial.ImportKeepsStock | app/imports.py:713-723 | an import keeps confirmed inventories complete, and unconfirms its own cycle |
| CommercialRuns.ImportedRowIsActive | app/imports.py:731-785 | every automatic row of an applied import is an active policy afterwards |
| CommercialRuns.ReplacementLeavesOnlyNew | app/imports.py:693-711 | a replacement leaves no older policy of the scope active in its currencies |
| CommercialRuns.KeptAfterConfirm | app/api.py:2448-2474 | a policy that browser confirmation leaves active is not a rupee policy of the scope |
| CommercialRuns.ConfirmKeepsDisjoint | app/api.py:2448-2508 | browser confirmation keeps the policies disjoint |
| CommercialRuns.ConfirmKeepsStock | app/api.py:2475-2524 | and confirms only products whose stock it records |
| CommercialRuns.InventoryKeepsGood | app/api.py:2664-2699 | stock confirmation confirms a cycle only when each of its rupee-priced products has known stock |
| CommercialRuns.RunsStayGood | app/imports.py:633-785 | both invariants over every run of imports and confirmations |
| CommercialRuns.ApplyKeepsDisjointExactly | app/imports.py:566-785 | applied to whatever is there by then, rows keep the policies disjoint exactly when they meet nothing that stays active in the scope |
| CommercialRuns.StaleValidationLetsPoliciesOverlap | app/imports.py:566-634 | two imports validated before either takes the lock leave overlapping policies: a concrete run |
| Negotiation.MoneyIsNearest | app/domain.py:84-85 | rounding to the nearest 0.0001, ties away from zero |
| Negotiation.MoneyIsIdempotent | app/domain.py:84-85 | a rounded amount rounds to itself |
| Negotiation.InitialQuoteIsHighEnough | app/domain.py:93-118 | a first quote exists exactly for a fitting quantity and is never below the hard minimum |
| Negotiation.ApprovedPrice | app/domain.py:134-160 | an approved price lies between the minimum and the current price, gives way by at most one rounded step, and is at or above the request exactly when the request does not exceed the current price |
| Negotiation.ApprovedPriceIsLowest | app/domain.py:150-160 | the approved price is, if and only if, the lowest that respects the floor, the request and the current price less a step of standard price times concession, or the current price if that is not lower |
| Negotiation.CounterofferExactly | app/domain.py:134-150 | a counteroffer is approved exactly when the running price is not below the floor, the quantity is on sale, rounds are left, and the request lies above the absolute floor and not below the floor; otherwise the first of these to fail is the reason |
| Negotiation.FloorIsHigher | app/domain.py:88-90 | the floor is the rounded absolute floor or discounted standard price, whichever is higher |
| Negotiation.QuoteExactly | app/domain.py:93-118 | a quote is given exactly for a quantity on sale, at the standard price raised by the markup of the first tier, in multiples of the minimum quantity, that the quantity has not outgrown |
| Negotiation.NextOffer | app/domain.py:134-160 | one more offer is decided at the price reached so far |
| Negotiation.RunKeepsPrice | app/domain.py:134-160 | over any offers: never below the minimum, never above the start, total concession at most approvals times the step, never "current quote below hard minimum" |
| Negotiation.RunKeepsRounds | app/domain.py:148-149 | with round numbers counting up, at most the permitted rounds are approved |
| Negotiation.PriceNeverRises | app/domain.py:134-160 | from any moment of a run to a later one the price never rises |
| Negotiation.NegotiationIsSafe | app/domain.py:93-160 | all of it from the first quote of any policy the import accepts |

## Left out

- Conversation pairs carry ids, thread, times and verdicts; intent, risk flags, texts, attachments and delay hours are computed by other code and not kept.
- `ConversationPairing.PairIdsDistinct: assumes an injective naming, because the hash is a parameter.`
- Undated messages sort before every dated one: dates are taken as later than the source's minimum date.
- Candidate refresh, history scans, batch dispatch and the send guard's daily cap of campaigns: the cap counts values that sync copies later.
- Delivery, dispositions and replies enter campaigns as environment steps on rows; `record_reactivation_reply` is modelled for its row effects only.
- Daylight saving: a campaign's zone is a fixed offset.
- `CampaignSlots.ScheduleSlots: requires one window second a send, which the accepted limits always give.`
- Product-code and subject recognition in history matching are parameters; audit events and counters are not kept.
- Job kinds, payloads, error texts and the logging of the worker loop.
- Mail accounts without credentials, for which a fetch returns nothing.
- IMAP, SMTP and HTTP sessions: the network is a function from attempts to answers; SEARCH output is assumed ascending and a new UIDVALIDITY larger.
- `ImapRuns.MailboxIsSynchronised: one poller serves the mailbox, because the source starts one.`
- Ingestion is idempotent by UID; its own duplicate detection by Message-ID is not part of this model.
- File walking, hashing, MIME and document extraction of the knowledge scan; extraction depends on path, fingerprint and timeout class alone, paths are taken normalised, and the order of rows in the persisted files is not kept.
- TF-IDF search over the knowledge index and all similarity scores.
- Prompts, model calls and the validation rules of drafts: validation is a parameter that may refuse any block.
- Draft documents: members are strings and lists of strings, as the draft schema has them, and names are words without escapes.
- Header scoring, intent patterns and subject normalisation of the candidate selection: score, bucket and thread key are inputs.
- Even sampling divides exactly; the source divides in floating point.
- Workbook parsing, preferred names, customer interests, consent text and the reconciliation that follows an import: an endpoint comes with its folded company key and product ids.
- Price rows keep product, currency and dates; amounts, product creation and margin classes are not kept, and products count as active.
- Decimal arithmetic is exact; the source's context rounds to 28 digits.
- Currencies, incoterms, payment terms and quote validity dates of a price policy.
- Dashboard, pages, authentication, settings and migrations.
