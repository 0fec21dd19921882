# scitex-cards: a verified model of the card store and its delivery rail

scitex-cards keeps a board of task cards in SQLite and pushes notifications about
them to the agents who own them. This project models the parts where a mistake loses
data or goes silent, and proves what they promise over all documents, all graphs, all
dates and all runs.

* **Store mirror** (`StoreTables`, `StoreMirror`, `StoreLaws`, `StoreRuns`,
  `StoreGraph`). Every write hands over a whole document. The shrink guard compares it
  with the stored ids; the mirror then compares card hashes and touches only what
  changed. The model keeps the tables (cards, comments, edges, roles, hashes, two
  opaque sections) as fields of a class, with one method per SQL-issuing function. The
  fast incremental mirror is proved to refine the plain full rebuild exactly when the
  write accounts for every stored card, and no interleaving of stale writers makes a
  card disappear without a write that says so.
* **Inboxes and the channel** (`Inbox`, `InboxTable`, `InboxMaint`, `Delivery`,
  `Drain`, `DrainSteps`, `Provenance`). A file-backed and a table-backed inbox that
  are documented as identical, and a drain that pushes before it acknowledges. They
  are proved bisimilar up to one exactly characterised case; on every interleaving of
  enqueues, drains, failed pushes and failed acknowledgements no accepted record is
  lost, except by that same case, and what is delivered is what was enqueued.
* **Reminders** (`Stale`, `Reminders`, `ReminderLaws`, `Nudge`). The detectors, the
  sweep with its cadence, deliver-on-change suppression, escalation latches and
  pruning, and the second nudge rail. Laws are about whole runs of sweeps.
* **Deadlines** (`Calendar`, `Deadlines`). Repeaters on the Gregorian calendar and
  the overdue predicate.
* **Scheduling and card verbs** (`Cards`, `Scheduler`, `SchedulerDrain`,
  `DrainByVerb`, `StoreEvents`, `CardVerbs`, `Backlog`). The dependency gate, what
  draining the board leaves behind, what a completion announces, reassignment in bulk
  and singly, and the age clock of the deferred backlog.
* **Channel size guard** (`ChannelGuard`). UTF-8 truncation (RFC 3629, section 3).

Code that changes state step by step is modelled as classes and methods with loops,
each proved against a specification function or predicate; the laws are lemmas about
those specifications.

## Where the code and its documentation differ

The model follows the code. Each difference has a lemma.

* The two inbox backends are documented as behaving identically. A superseding
  enqueue that is then deduplicated drops the unseen predecessors in the table backend
  and not in the file backend (`InboxTable.BackendsAgreeIff`). On the table backend
  this can lose a record nobody received (`Delivery.TableCanLose`).
* The bulk reassignment does not skip removed cards, the single one does
  (`CardVerbs.BulkEqualsSinglesIff`, `CardVerbs.BulkMovesRemoved`).
* Completing a card whose status was already `goal`, or that had none, can announce
  cards as unblocked that were runnable all along (`StoreEvents.GoalOverReports`).
* The blocked view is described as the inverse of the runnable one; a startable card
  that carries a blocker and waits for nothing open is in neither
  (`Scheduler.ViewsPartitionUnlessGated`, `Scheduler.GatedCardInNeitherView`).
* A card id equal to a section's hash key is rewritten on every write
  (`StoreLaws.WriteBackChangesNothing`, `StoreLaws.ReservedIdIsRewritten`).
* The pushed body is documented as never over 262144 bytes; the pointer suffix is
  never cut, so a long enough card id exceeds it (`ChannelGuard.ContentCappedIff`).
* A card blocked with the legal blocker `none` is documented to stay on the tight
  clock; the reminder sweep drops it (`Stale.BlockedOnNoneIsNeverNagged`).
* A date-only deadline of today hides a timed one that has passed
  (`Deadlines.OverdueIffUnmasked`, `Deadlines.TodayMasksNine`).
* Escalation is described as for cards that survived enough digests; what is counted is
  the owner's ticks, so a newly stale urgent card of an owner already nagged can be
  escalated at the first sweep that lists it (`ReminderLaws.SurvivedEnoughIff`,
  `ReminderLaws.NewCardEscalatedAtOnce`).

## Model

| member | source | states |
|---|---|---|
| StoreTables.CardTables.DropCardRows | src/scitex_cards/_db_mirror.py:95-111 | clears exactly the rows a card owns (comments, roles, outbound edges); every other card's rows, and edges pointing at it, stay |
| StoreTables.CardTables.WriteCard | src/scitex_cards/_db_mirror.py:114-120 | after an upsert the card's rows are those its content calls for and no other card's rows moved |
| StoreTables.CardTables.DeleteCard | src/scitex_cards/_db_mirror.py:123-134 | removes the card, all its rows, every edge at it and its hash, and nothing else |
| StoreTables.CardTables.InsertTask | src/scitex_cards/_db_bootstrap.py:138-191 | inserts the card and adds its comments, edges and roles to what is there |
| StoreTables.CardTables.InsertComments | src/scitex_cards/_db_bootstrap.py:194-214 | appends the card's comments in order |
| StoreTables.CardTables.InsertEdges | src/scitex_cards/_db_bootstrap.py:217-232 | adds one edge per distinct non-empty link: a depends_on row for each entry of depends_on, a blocks row for each entry of blocks |
| StoreTables.CardTables.InsertRoles | src/scitex_cards/_db_bootstrap.py:235-250 | adds one role row per distinct non-empty name: collaborator for the one list, subscriber for the other |
| StoreTables.RewritesCompose | src/scitex_cards/_db_mirror.py:248-251 | writing cards one at a time amounts to rewriting the whole set at once, the later write of an id winning |
| StoreTables.RemovesCompose | src/scitex_cards/_db_mirror.py:264-266 | deleting cards one at a time amounts to deleting the whole set |
| StoreMirror.DedupeLastWins | src/scitex_cards/_db_bootstrap.py:104-135 | picks one entry per id, the last occurrence |
| StoreMirror.WinnersAreTheDocument | src/scitex_cards/_db_bootstrap.py:104-135 | the picked entries have distinct ids and mean the same document as the whole list |
| StoreMirror.RebuildFromDoc | src/scitex_cards/_db_bootstrap.py:261-300 | whatever was stored, the tables end as the document's cards with exactly the rows they derive; hashes untouched |
| StoreMirror.SyncSections | src/scitex_cards/_db_mirror.py:305-329 | a section is rewritten only when its hash moved, and its hash is then on record |
| StoreMirror.MirrorDocIncremental | src/scitex_cards/_db_mirror.py:192-291 | a database without hashes is rebuilt; otherwise changed cards are rewritten, named ones removed, the rest left alone; with the counts reported |
| StoreMirror.WriteDocToDb | src/scitex_cards/_store_backend.py:117-184 | refuses a database stamped for another store first, then exactly when shrinking is not allowed and some stored id is neither mentioned in the document nor named, and then changes nothing; otherwise mirrors, reports the counts, and without allow_shrink no unnamed id goes missing |
| StoreLaws.IncrementalIsRebuildIff | src/scitex_cards/_db_mirror.py:137-284 | from agreeing tables, the incremental mirror leaves the cards, comments, edges and roles of the full rebuild if and only if every stored id is in the document or named and no kept card points at a removed one |
| StoreLaws.UpdatedContent | src/scitex_cards/_db_mirror.py:211-284 | after an incremental write, which ids are stored and with what content: the document over the stored cards, minus the named |
| StoreLaws.UpdatedRows | src/scitex_cards/_db_mirror.py:211-284 | after an incremental write, the derived rows of every id, including edges swept away with a removed target |
| StoreLaws.UpdateKeepsAgreementIff | src/scitex_cards/_db_mirror.py:211-284 | hashes are right after every write; derived rows agree again if and only if no document card it keeps, and no stored card it leaves alone, points at an id it asks to remove |
| StoreLaws.RebuildAgrees | src/scitex_cards/_db_bootstrap.py:261-300 | the full rebuild ends in agreement with complete hashes |
| StoreLaws.EveryWriteRecordsSections | src/scitex_cards/_db_mirror.py:298-329 | after any write the hash table is not empty, so the destructive branch is closed |
| StoreLaws.ExportDoc | src/scitex_cards/_store_canonical_read.py:156-201 | one snapshot lists every stored card once, and the listed count equals the table's |
| StoreLaws.ExportIsTheStore | src/scitex_cards/_db_export.py:101-143 | an exported document, read as a document, is the stored id-to-card map |
| StoreLaws.WriteBackChangesNothing | src/scitex_cards/_db_export.py:101-143 | writing an export back leaves cards, rows and sections as they were, and reports nothing removed and zero changed if and only if no card id is a section's hash key |
| StoreLaws.CountsAreContent | src/scitex_cards/_db_mirror.py:214-291 | the reported counts in terms of content: changed are the document's cards not stored or stored with other content, removed the named ids that are stored |
| StoreLaws.ReservedIdIsRewritten | src/scitex_cards/_db_mirror.py:294-302 | concrete agreeing tables on which an untouched write-back rewrites a card, whose id is a section's hash key |
| StoreLaws.WriteThenRead | src/scitex_cards/_store_backend.py:117-184 | after an accepted write the store returns every written card with its written content and every other stored card unchanged |
| StoreRuns.StepKeepsCards | src/scitex_cards/_store_backend.py:69-114 | one step of any writer keeps the check meaningful and loses an id only with a licence |
| StoreRuns.NoCardDisappears | src/scitex_cards/_store_backend.py:51-114 | over every interleaving of checks and mirrors with arbitrarily stale documents, an id that goes missing was named, or shrinking was allowed, by a committed write in between |
| StoreRuns.RebuildAtMostOnce | src/scitex_cards/_db_mirror.py:192-209 | after any committed mirror the database has hashes for good, so the rebuild happens at most once |
| StoreRuns.CheckIsExactOnRebuild | src/scitex_cards/_store_backend.py:69-114 | on a database without hashes the rebuild keeps every stored id the write did not name if and only if the shrink check passes |
| StoreRuns.StepSettlesIff | src/scitex_cards/_db_mirror.py:192-284 | from full agreement, a step of any writer ends in it if and only if it does not commit a write that keeps a link to an id it removes |
| StoreRuns.SettledIff | src/scitex_cards/_db_mirror.py:192-284 | along every interleaving, rows, hashes and sections agree at every point since the first committed mirror if and only if no committed write left such a link |
| StoreRuns.WriteBackAlong | src/scitex_cards/_db_export.py:101-143 | at any such point an export written back unmodified changes nothing |
| StoreRuns.QuietWrite | src/scitex_cards/_store_backend.py:168-184 | a check and a mirror that nothing interrupts commit exactly when the write call does, with its effect |
| StoreGraph.EdgesAreWaits | src/scitex_cards/_db_bootstrap.py:217-232 | on agreeing tables the edge rows are the scheduler's waiting graph: a card waits for another exactly when its depends_on row or the other's blocks row is stored |
| StoreGraph.RolesReadBack | src/scitex_cards/_db_bootstrap.py:235-250 | a collaborator row is stored exactly for the card's collaborators, a subscriber row exactly for its subscribers |
| StoreGraph.CommentsReadBack | src/scitex_cards/_db_bootstrap.py:194-214 | a card's thread reads back from the comment rows whole, in order and numbered |
| StoreGraph.NoEdgeAtRemoved | src/scitex_cards/_db_mirror.py:123-134 | after an incremental write no edge starts or ends at a removed id |
| Inbox.FileInbox.Enqueue | src/scitex_cards/_inbox.py:352-390 | supersede, then dedup, then append, with the early return that saves nothing; an accepted record has every field it was given, unseen, and comes last; other recipients untouched |
| Inbox.FileInbox.Poll | src/scitex_cards/_inbox.py:393-456 | returns the selected records oldest first, and marks exactly those when asked |
| Inbox.FileInbox.Ack | src/scitex_cards/_inbox.py:459-506 | flips exactly the unseen records with a listed id and returns exactly their ids in order |
| Inbox.IsDuplicate | src/scitex_cards/_inbox.py:254-271 | true exactly when a record with the same event, card, timestamp and actor is present |
| Inbox.EnqueueMeans | src/scitex_cards/_inbox.py:354-390 | an enqueue is refused exactly when a record it does not replace has the same event, card, timestamp and actor; what stays is what it does not replace, then the new record with every field given |
| Inbox.PollAndAckMean | src/scitex_cards/_inbox.py:424-502 | which records a poll reads and an acknowledgement flips, and that no other field of any record moves |
| Inbox.KeysStayUnique | src/scitex_cards/_inbox.py:254-271 | no operation of either backend makes two records with one dedup key |
| Inbox.OnePendingStays | src/scitex_cards/_inbox.py:356-370 | a topic only ever enqueued with supersede keeps at most one unseen record |
| Inbox.SeenStays | src/scitex_cards/_inbox.py:354-390 | no operation removes a seen record or makes it unseen |
| Inbox.RunLaws | src/scitex_cards/_inbox.py:354-390 | the three laws over every run of either backend |
| InboxTable.TableInbox.Enqueue | src/scitex_cards/_inbox_sqlite.py:201-269 | the same enqueue over rows, with the deletion committed before the dedup answer; an accepted record has every field it was given and comes last; other recipients untouched |
| InboxTable.TableInbox.Poll | src/scitex_cards/_inbox_sqlite.py:272-332 | the rows of one recipient in rowid order, and an update by id that marks exactly the rows returned |
| InboxTable.TableInbox.Ack | src/scitex_cards/_inbox_sqlite.py:335-373 | flips exactly the recipient's unseen rows with a listed id |
| InboxTable.UpdateByIdMarks | src/scitex_cards/_inbox_sqlite.py:318-328 | select-then-update-by-id touches exactly the selected rows, because an id names one row |
| InboxTable.BackendsAgreeIff | src/scitex_cards/_inbox_sqlite.py:223-262 | for one operation the replies agree always; the stored lists agree unless a superseding enqueue drops unseen records and is then deduplicated, and then the table holds the file's records minus those |
| InboxTable.DivergenceDupIsSeen | src/scitex_cards/_inbox.py:371-378 | the deduplicating record in that case has been seen |
| InboxTable.BackendsBisimilarIff | src/scitex_cards/_inbox_sqlite.py:201-373 | the backends hold the same list after every prefix of a run if and only if the run never meets that case |
| InboxMaint.CollapseBox | src/scitex_cards/_inbox_maint.py:72-98 | the loops compute the collapsed list and count exactly the records they flip |
| InboxMaint.CollapseKeepsNewest | src/scitex_cards/_inbox_maint.py:72-98 | exactly the newest pending digest stays pending, only older pending digests are flipped, no record is lost or otherwise changed, and collapsing again does nothing |
| InboxMaint.CollapseDigests | src/scitex_cards/_inbox_maint.py:38-102 | every inbox is collapsed, and the two counts are the recipients touched and the records flipped over all of them |
| Delivery.StepKeepsInvIff | src/scitex_cards/_mcp_channel.py:204-237 | every step of enqueues, polls, pushes and acknowledgements keeps each accepted record waiting, delivered or superseded if and only if it is not the losing step |
| Delivery.DeliveredOnlyBy | src/scitex_cards/_mcp_channel.py:210-237 | a record becomes delivered exactly by a successful send of it or by a marking poll that returns it |
| Delivery.MarkedOnlyBy | src/scitex_cards/_mcp_channel.py:227-237 | a stored record becomes seen only by a marking poll of its recipient or a successful acknowledgement of it |
| Delivery.NothingIsLostIff | src/scitex_cards/_mcp_channel.py:204-237 | over a whole run, every accepted record is waiting, delivered or superseded at every point if and only if no step is the losing one; and then everything marked seen was delivered |
| Delivery.FileLosesNothing | src/scitex_cards/_inbox.py:371-378 | on the file backend nothing is lost at any point of any run |
| Delivery.TableCanLose | src/scitex_cards/_inbox_sqlite.py:236-245 | a three-enqueue run on the table backend loses a record that was never delivered |
| Provenance.DeliveredAsEnqueued | src/scitex_cards/_inbox.py:379-390 | on either backend, at every point of every run, each record accepted, stored, polled or about to be pushed has the recipient, event, card, text, actor and timestamp of an enqueue made before |
| Drain.RecipientKeys | src/scitex_cards/_mcp_channel.py:120-145 | the raw name first, then what it resolves to, without repetition |
| Drain.DrainOnce | src/scitex_cards/_mcp_channel.py:202-237 | pushes the first fifty sendable records across the keys, in order, and marks exactly those pushed and acknowledged |
| Drain.DrainKey | src/scitex_cards/_mcp_channel.py:207-237 | draining one more key extends the pushed prefix of the whole backlog, whatever earlier keys left |
| Drain.PushRecords | src/scitex_cards/_mcp_channel.py:210-237 | the inner loop pushes the sendable records in order up to the cap, skipping failures, and marks exactly those acknowledged |
| Drain.SendableAfterMark | src/scitex_cards/_mcp_channel.py:228-237 | what remains sendable is what was, minus the acknowledged ids |
| Drain.DrainShortensBacklog | src/scitex_cards/_mcp_channel.py:202-237 | a drain whose acknowledgements work drops exactly the first fifty sendable records |
| Drain.DrainTimes | src/scitex_cards/_mcp_channel.py:202-237 | n drains of a quiet inbox push the first 50n sendable records, each once; records that never send do not hold up the others |
| DrainSteps.QuietDrain | src/scitex_cards/_mcp_channel.py:202-237 | the steps of a drain nothing interrupts push and mark exactly the prefix of the backlog that the drain call does, on either backend |
| Scheduler.BuildTables | src/scitex_cards/_runnable.py:115-131 | the lookup tables read the board: last status of an id wins, and blocks is inverted |
| Scheduler.DepsSatisfiedReads | src/scitex_cards/_runnable.py:177-203 | the gate decides exactly: no card waited for, by depends_on or inverse blocks, is open; unknown ids do not gate |
| Scheduler.RunnableTasks | src/scitex_cards/_runnable.py:115-153 | returns exactly the matching runnable cards, and the counts add up |
| Scheduler.ListedWhen | src/scitex_cards/_runnable.py:133-203 | card by card on a board with unique ids: ready when deferred or in progress, unblocked and upstream of it everything done, a goal or without a status; in the inverse view when blocked, or startable and waiting for some other |
| Scheduler.DiagnosisExplains | src/scitex_cards/_runnable.py:356-400 | a diagnosis is the first reason that applies, with exactly the open upstream cards of that kind |
| Scheduler.BlockedTasks | src/scitex_cards/_runnable.py:294-353 | returns exactly the considered cards with a reason, each correctly explained, and the number of cards per reason |
| Scheduler.TalliesMean | src/scitex_cards/_runnable.py:326-353 | which diagnoses each of the four counts counts |
| Scheduler.ViewsPartitionUnlessGated | src/scitex_cards/_runnable.py:88-153 | no card is in both views, and a considered card is in neither exactly when it is startable, carries a blocker and waits for nothing open |
| Scheduler.GatedCardInNeitherView | src/scitex_cards/_runnable.py:156-161 | a concrete deferred card with a blocker that neither view lists |
| SchedulerDrain.DrainTerminates | src/scitex_cards/_runnable.py:115-153 | every completion of a runnable card closes exactly one open card |
| SchedulerDrain.CompleteKeepsDoomed | src/scitex_cards/_runnable.py:177-203 | completing a runnable card neither dooms nor saves another |
| SchedulerDrain.StuckMeansDoomed | src/scitex_cards/_runnable.py:177-203 | when nothing is runnable every open card leads into a cycle or to a card nobody may start |
| SchedulerDrain.DrainLeavesExactlyDoomed | src/scitex_cards/_runnable.py:115-203 | in whatever order runnable cards are completed, what is left is exactly the cards that could reach a waiting cycle or an unstartable card at the start |
| SchedulerDrain.AcyclicDrainsFully | src/scitex_cards/_runnable.py:115-203 | with no cycle and every open card startable, nothing is runnable only when nothing is open |
| DrainByVerb.VerbCompletes | src/scitex_cards/_store_lifecycle.py:104-127 | on a runnable card the completion verb changes what the scheduler sees as the model of a completion does |
| DrainByVerb.VerbFollowsRun | src/scitex_cards/_store_lifecycle.py:104-127 | calling the verb along any run of runnable ids follows the model's run |
| DrainByVerb.VerbDrainLeavesExactlyDoomed | src/scitex_cards/_store_lifecycle.py:70-141 | draining by the verb leaves open exactly the cards that could reach a waiting cycle or an unstartable card at the start; removed cards being cancelled |
| StoreEvents.UnblockedBy | src/scitex_cards/_store_events.py:59-78 | the loop computes the direct dependents that are runnable now |
| StoreEvents.DependentsWait | src/scitex_cards/_store_events.py:59-72 | being a direct dependent is waiting for the card, by either link |
| StoreEvents.RunnableAfterResolve | src/scitex_cards/_runnable.py:177-203 | what resolving one card does to whether another is runnable |
| StoreEvents.AnnouncementExactIff | src/scitex_cards/_store_events.py:59-78 | the announcement is exactly the newly runnable cards if and only if, before the call, the card was open or no other card waiting for it was runnable |
| StoreEvents.AnnouncedExactly | src/scitex_cards/_store_events.py:59-78 | from an open status the announcement is the newly runnable cards; from any other it is the cards waiting for this one that were runnable already; it never misses a freed card |
| StoreEvents.GoalOverReports | src/scitex_cards/_store_events.py:59-78 | completing a goal can announce a card that was runnable before |
| CardVerbs.CardStore.CompleteTask | src/scitex_cards/_store_lifecycle.py:70-141 | error cases and the already-done case change nothing; otherwise exactly one card changes; the announced ids are those newly runnable when the card was open, and those waiting for it and runnable all along when it was not |
| CardVerbs.CardStore.ResolveTask | src/scitex_cards/_store_lifecycle.py:274-335 | clears the blocker and comments even when already done; announces only on a real transition, the same ids as a completion |
| CardVerbs.CardStore.ReassignTask | src/scitex_cards/_store_lifecycle.py:388-527 | hands over the first live card of the id or fails without change; a card already owned by the target is left alone |
| CardVerbs.CardStore.ReassignAll | src/scitex_cards/_store_reassign.py:26-167 | hands over every card of the old owner in one pass, removed ones included, and lists them in order |
| CardVerbs.CompletionWrites | src/scitex_cards/_store_lifecycle.py:104-119 | a completion writes the status, who and when, and nothing else |
| CardVerbs.ResolutionWrites | src/scitex_cards/_store_lifecycle.py:298-317 | a resolution closes the card, clears its blocker, adds one remark by the actor, and changes nothing else |
| CardVerbs.HandoverWrites | src/scitex_cards/_store_lifecycle.py:466-498 | a handover names the new owner in all three places, adds one remark, keeps subscribed exactly who was, the former owner and the creator unless they are the new owner, and changes nothing else |
| CardVerbs.BulkEqualsSinglesIff | src/scitex_cards/_store_reassign.py:108-140 | the bulk form equals the single form applied to each live card of the owner if and only if no removed card belongs to the owner |
| CardVerbs.BulkMovesRemoved | src/scitex_cards/_store_reassign.py:108-140 | a concrete removed card that the bulk form hands over and the single form leaves |
| CardVerbs.PastOwnersStayAnswerable | src/scitex_cards/_store_lifecycle.py:456-497 | after any run of reassignments everyone who ever owned a card is its owner or a subscriber |
| CardVerbs.RunHandsOn | src/scitex_cards/_store_lifecycle.py:466-498 | over any run of reassignments of either kind a card loses no remark and no subscriber, its creator stays informed once it was handed over, and nothing but its ownership moves |
| Backlog.CardFile.EditFields | src/scitex_cards/_store_mutate.py:306-310 | the field loop sets, deletes and keeps exactly the right keys |
| Backlog.CardFile.UpdateTask | src/scitex_cards/_store_mutate.py:244-336 | succeeds exactly when the id is given, the status is not being blanked, a live card has the id and the validator accepts the updated list; then that list is stored and its card returned, otherwise nothing changes |
| Backlog.Candidates | src/scitex_cards/_backlog_triage.py:226-255 | the loop returns exactly the drawable cards in order |
| Backlog.BlankNeverWritten | src/scitex_cards/_store_enums.py:68-104 | a blank status is refused, a blank blocker or kind becomes a deletion, and no other edit is touched |
| Backlog.ProposedWhen | src/scitex_cards/_store_mutate.py:285-324 | when a call gets as far as the validator, and that it touches only the first live card of the id |
| Backlog.UpdateWritesOnly | src/scitex_cards/_store_mutate.py:304-324 | what every key of the updated card holds: the edit's value, or the two stamps, or what it held |
| Backlog.ClockReads | src/scitex_cards/_backlog_triage.py:138-148 | the age clock is the entry stamp when there is one, else the creation |
| Backlog.DrawnAndExpiredWhen | src/scitex_cards/_backlog_triage.py:159-273 | who is drawn and who has expired, by the card's fields and the two horizons, and their defaults |
| Backlog.SameCard | src/scitex_cards/_backlog_triage.py:221-223 | the raw mapping and the typed card agree on being live, on being deferred and, up to stripping, on the owner |
| Backlog.ClockMovesOnlyOnEntry | src/scitex_cards/_store_mutate.py:212-228 | entering the backlog starts the age clock; no other edit that does not write it moves it |
| Backlog.ClockNeverMoves | src/scitex_cards/_store_mutate.py:304-324 | over any run of field updates of the whole board through which a card stays deferred its age clock does not move |
| Backlog.ExpiredStaysExpired | src/scitex_cards/_backlog_triage.py:159-185 | an expired card stays expired until it is parked or leaves the backlog, and is never drawn again meanwhile |
| Backlog.EveryDeferredCardHasItsPlace | src/scitex_cards/_backlog_triage.py:226-273 | drawn and expired exclude each other, parked excludes both, anything else is cooling down, and an undatable card never expires |
| Stale.Detect | src/scitex_cards/_stale_active.py:276-326 | the loop files exactly the reported cards under their owners, and no owner without a card |
| Stale.DetectorsMean | src/scitex_cards/_stale_active.py:203-229 | which detector reports a card: by its status, by its blocker being one of the five external ones, and by its own threshold |
| Stale.AgeReads | src/scitex_cards/_stale_active.py:188-200 | the age counts from the last activity when there is one, else from the creation, and cannot be told otherwise |
| Common.StripMeans | src/scitex_cards/_stale_active.py:184-216 | stripping takes off exactly the blank ends |
| Stale.DetectorsPartition | src/scitex_cards/_stale_active.py:203-229 | the three detectors never share a card, and together cover the active cards and the deferred ones that are not parked |
| Stale.MakeBuckets | src/scitex_cards/_reminders.py:335-349 | an allowed owner's bucket is what the tight detector found followed by what the backlog detector found |
| Stale.MakeSweep | src/scitex_cards/_reminders.py:325-349 | merges two detectors per owner under the allow list; unique ids give buckets in which a card occurs once |
| Stale.RowsAreCards | src/scitex_cards/_reminders.py:334-349 | every row of a bucket is an allowed owner's card under its own id and status, marked as backlog exactly when deferred |
| Stale.LookupReads | src/scitex_cards/_reminders.py:329-330 | what the sweep looks up about a card is what the card says: priority, interval in minutes, blocker, creator |
| Stale.UniqueIdsOneOwner | src/scitex_cards/_reminders.py:335-349 | on a board with unique ids no card is in two buckets or twice in one |
| Stale.NaggedIff | src/scitex_cards/_reminders.py:362-372 | exactly which card an owner is nagged about: in progress, or blocked with nothing written as blocker, or deferred and not parked, each past its own clock |
| Stale.BlockedOnNoneIsNeverNagged | src/scitex_cards/_reminders.py:248-251 | a stale card blocked with the value none is reported by the tight detector and dropped by the sweep |
| Reminders.TightestIsMinimum | src/scitex_cards/_reminder_cadence.py:70-74 | the cadence is a lower bound of the active cards' intervals and one of them attains it |
| Reminders.Clocks | src/scitex_cards/_config.py:121-137 | a card's clock is its own positive one, else the configured, else five minutes; the backlog's is the configured or a day |
| Reminders.BacklogNeverTightens | src/scitex_cards/_reminder_cadence.py:51-75 | merged backlog cards never change the cadence of an owner with active cards; backlog alone rides the backlog clock |
| Reminders.ReminderEngine.EscalateToCreators | src/scitex_cards/_reminders.py:380-395 | a dead owner's cards go to their creators once each, setting only that latch |
| Reminders.ReminderEngine.EscalateToOperator | src/scitex_cards/_reminders.py:456-474 | unlatched cards with a priority at or below the configured number go to the operator once each, setting only that latch |
| Reminders.ReminderEngine.NagOwner | src/scitex_cards/_reminders.py:374-474 | one owner's turn changes that owner's entry and that owner's cards' latches, and nothing else |
| Reminders.ReminderEngine.Prune | src/scitex_cards/_reminders.py:476-483 | keeps exactly the entries of owners and cards still nagged |
| Reminders.ReminderEngine.SweepReminders | src/scitex_cards/_reminders.py:264-491 | the whole effect of a sweep, owner by owner and card by card, stated from the saved state it started in, whatever the order of owners |
| ReminderLaws.EscalatedIsUrgent | src/scitex_cards/_reminders.py:259-261 | whatever any sweep of a run escalates has a priority at or below the configured number, and its notice was taken |
| ReminderLaws.MoreUrgentToo | src/scitex_cards/_reminders.py:456-474 | when one of an owner's cards is escalated, so is every other at least as urgent that has not been |
| Reminders.NeverNagged | src/scitex_cards/_reminders.py:362-370 | nobody is nagged about a card without an id or a blocked card with a blocker, and the unassigned bucket not at all |
| ReminderLaws.SameDigestHeldBack | src/scitex_cards/_reminders.py:436-454 | two consecutive digests with the same content are more than the floor less one second apart |
| ReminderLaws.ChangedIsSent | src/scitex_cards/_reminders.py:434-454 | once a card has joined or left the list, or changed its status, since the last digest, a sweep delivers exactly when it is due and the inbox accepts, however recent that digest |
| ReminderLaws.FailedIsRetried | src/scitex_cards/_reminders.py:436-454 | from any saved state, a digest that failed is not suppressed later while nothing has gone out and its content is the same |
| ReminderLaws.FirstIsNeverHeldBack | src/scitex_cards/_reminders.py:436-454 | until a first digest of the streak has gone out none is held back, whatever its content |
| ReminderLaws.TruncationCostsUpToASecond | src/scitex_cards/_reminder_enqueue.py:54-55 | that second is real: a concrete repeat one microsecond inside it |
| ReminderLaws.NeverLeftAlone | src/scitex_cards/_reminders.py:409-454 | after any delivery, at every sweep of a steadily nagged owner some digest is less than floor plus interval old |
| ReminderLaws.NewlyStaleNeverLeftAlone | src/scitex_cards/_reminders.py:409-454 | the same for a newly stale owner from the first sweep on |
| ReminderLaws.SilenceIsBounded | src/scitex_cards/_reminders.py:409-454 | consecutive digests are less than floor plus interval plus sweep gap apart, from any saved state and whatever happened before the first |
| ReminderLaws.CountIsTicks | src/scitex_cards/_reminders.py:409-422 | from any saved state, the stored count grows by exactly the due ticks, suppressed ones included |
| ReminderLaws.LatchedWhenDue | src/scitex_cards/_reminders.py:456-474 | from any saved state, a card nagged throughout is latched exactly when it was at the start or some due tick had to escalate it |
| ReminderLaws.EscalatedAtThreshold | src/scitex_cards/_reminders.py:420-474 | from any saved state, an urgent card not yet escalated reaches the operator at the first due tick at which its owner's count meets the threshold and at no other, whatever became of that tick's digest |
| ReminderLaws.SurvivedEnoughIff | src/scitex_cards/_reminders.py:456-474 | the escalated card has been listed at as many due ticks as its owner's count still lacked, so it survived as many as the threshold if and only if the threshold is at most one or that count was zero |
| ReminderLaws.NewCardEscalatedAtOnce | src/scitex_cards/_reminders.py:456-474 | a concrete card escalated at the first sweep that lists it, with a threshold of three |
| ReminderLaws.CreatorToldAtOnce | src/scitex_cards/_reminders.py:374-395 | from any saved state, a dead owner's card whose creator has not been told reaches the creator at the first sweep that can send it and at no later one of the stall, due or not |
| ReminderLaws.OneEscalationPerStall | src/scitex_cards/_reminders.py:381-395 | two escalations of one card to the operator, or to its creator, have a sweep between them at which it was not nagged |
| Nudge.NudgeRail.Visit | src/scitex_cards/_stale_active_nudge.py:303-357 | one owner's turn changes that owner's entry only and counts one outcome |
| Nudge.NudgeRail.DeliverPerOwner | src/scitex_cards/_stale_active_nudge.py:268-368 | the whole effect of a sweep of one kind, and the four counts it returns |
| Nudge.CountsAddUp | src/scitex_cards/_stale_active_nudge.py:300-349 | detected is delivered plus failed plus suppressed |
| Nudge.SameNudgeHeldBack | src/scitex_cards/_stale_active_nudge.py:303-335 | consecutive nudges with the same content are more than the floor less one second apart |
| Nudge.ChangedIsSent | src/scitex_cards/_stale_active_nudge.py:322-349 | once a card has joined or left the list since the last nudge, the next goes out exactly when the inbox accepts |
| Nudge.FailedIsRetried | src/scitex_cards/_stale_active_nudge.py:324-361 | from any saved state, after a failed nudge a later sweep with the same content delivers exactly when the inbox accepts, while nothing has gone out since |
| Nudge.FirstIsNeverHeldBack | src/scitex_cards/_stale_active_nudge.py:324-361 | an owner never sent a nudge gets one exactly when the inbox accepts, whatever its content |
| Nudge.SilenceIsBounded | src/scitex_cards/_stale_active_nudge.py:303-335 | consecutive nudges are less than floor plus sweep gap apart |
| Calendar.AddDaysOrdinal | src/scitex_cards/_deadlines.py:331-355 | adding days lands on a valid date exactly that many days later |
| Calendar.LengthsOfMonths | src/scitex_cards/_deadlines.py:358-361 | the length of every month, February by the leap rule |
| Calendar.AddMonthsForward | src/scitex_cards/_deadlines.py:340-348 | a month step with month-end clamping moves at least one day and at most 31 a month |
| Calendar.AddYearsForward | src/scitex_cards/_deadlines.py:349-355 | a year step moves at least one day and at most 366 a year |
| Calendar.YearsAreMonths | src/scitex_cards/_deadlines.py:340-355 | the leap-day fallback is the month clamp taken twelve months at a time |
| Deadlines.AdvanceForward | src/scitex_cards/_deadlines.py:331-355 | every period in every unit is strictly forward, bounded by its span, and valid |
| Deadlines.NextOccurrence | src/scitex_cards/_deadlines.py:277-312 | the stepping loop terminates with the specified occurrence, not before now, at the base's time of day, the base itself when it is not past, or with the out-of-range error |
| Deadlines.NextOccIsLeast | src/scitex_cards/_deadlines.py:299-312 | the result is the least iterate at or after now, less than one period past it when the base was before |
| Deadlines.NextInAnyZone | src/scitex_cards/_deadlines.py:277-312 | the next occurrence moves with the zone its base is written in and ignores the zone of now |
| Deadlines.MonthlyDrift | src/scitex_cards/_deadlines.py:340-348 | the k-th monthly occurrence is k periods on, on the base day clamped by every month visited |
| Deadlines.StepIsJumpIff | src/scitex_cards/_deadlines.py:299-312 | stepping equals jumping with one clamp if and only if no visited month was too short for the day jumped to |
| Deadlines.YearlyIsMonthly | src/scitex_cards/_deadlines.py:340-355 | yearly repeaters drift as monthly ones twelve times over |
| Deadlines.Candidates | src/scitex_cards/_deadlines.py:89-148 | the loop gathers the next date of each entry in list order, and raises exactly when some entry does |
| Deadlines.PickMeans | src/scitex_cards/_deadlines.py:119-148 | what an entry puts forward: nothing, its own date, or for a repeater a date not before now at the entry's time of day and granularity |
| Deadlines.Soonest | src/scitex_cards/_deadlines.py:109-116 | the minimum by key: the place of the soonest candidate, the first of equals |
| Deadlines.NextDeadline | src/scitex_cards/_deadlines.py:89-148 | raises exactly when some entry does; otherwise the soonest candidate, the first of equals |
| Deadlines.IsOverdue | src/scitex_cards/_deadlines.py:178-233 | a closed status, stripped, is never overdue; otherwise the soonest candidate decides, at its own granularity |
| Deadlines.PastInAnyZone | src/scitex_cards/_deadlines.py:31-44 | whether a timed deadline has passed does not depend on the zone it or now is written in |
| Deadlines.AheadIsEarlier | src/scitex_cards/_deadlines.py:31-44 | the same wall clock further east is an earlier moment |
| Deadlines.NineHoursAhead | src/scitex_cards/_deadlines.py:219-233 | a concrete 09:00 at +09:00 that is overdue at 00:30 UTC |
| Deadlines.RepeatingNeverOverdue | src/scitex_cards/_deadlines.py:219-233 | for any now at any offset, a card whose deadlines all repeat is not overdue |
| Deadlines.OverdueIffUnmasked | src/scitex_cards/_deadlines.py:219-233 | overdue if and only if some deadline is past and no bare date of today or later comes before all that are past, these being timed |
| Deadlines.OneGranularityIsExact | src/scitex_cards/_deadlines.py:219-233 | with one granularity, overdue exactly when some candidate is past |
| Deadlines.TodayMasksNine | src/scitex_cards/_deadlines.py:219-233 | a concrete deadline list with one past that is not overdue |
| Deadlines.GatheredIsPlain | src/scitex_cards/_deadlines.py:119-148 | candidates keep the documented forms, repeated or not |
| ChannelGuard.FrontOfEncoding | src/scitex_cards/_channel_guard.py:37-49 | an encoded character is read back, with its length, whatever follows |
| ChannelGuard.OnlyEncodingsAreRead | src/scitex_cards/_channel_guard.py:41-49 | conversely, what is read as a character is exactly its encoding |
| ChannelGuard.OctetsOf | src/scitex_cards/_channel_guard.py:37-49 | the octets of a character, range by range, put its code point back together |
| ChannelGuard.StandardExamples | src/scitex_cards/_channel_guard.py:37-49 | two published encodings |
| ChannelGuard.CutCharVanishes | src/scitex_cards/_channel_guard.py:41-49 | a character cut short decodes to nothing |
| ChannelGuard.RoundTrip | src/scitex_cards/_channel_guard.py:37-49 | decoding an encoded text gives the text |
| ChannelGuard.TruncateIsLongestPrefix | src/scitex_cards/_channel_guard.py:37-49 | a prefix of the text fits the budget exactly when it is no longer than the result |
| ChannelGuard.TruncateFits | src/scitex_cards/_channel_guard.py:37-49 | the result fits, and wastes at most three bytes when anything was cut |
| ChannelGuard.ContentCappedIff | src/scitex_cards/_channel_guard.py:52-81 | the cap holds if and only if the body or the pointer fits; a fitting body is unchanged, another becomes a prefix and the pointer |
| ChannelGuard.CutBodyPointsToTheCard | src/scitex_cards/_channel_guard.py:70-81 | a body that was cut ends by naming its card, or the board when it has none |
| ChannelGuard.LongCardIdBreaksTheCap | src/scitex_cards/_channel_guard.py:60-63 | every card id as long as the cap breaks the promised bound for every over-long body |

## Left out

- SQLite itself: a mirror, a read snapshot and an inbox statement are atomic, and the read of prior hashes belongs to the mirror's transaction. The store lock is mutual exclusion.
- File formats: JSON and YAML parsing, atomic rename, the mtime gate of the file backend's drain, inbox migration between backends.
- Hashing: a card hash is the card and a fingerprint is the multiset it digests, so collisions are not modelled, nor values the JSON encoder can only render as text.
- Row order: `row_order` is not kept by the incremental mirror, so results are about id-to-card maps; comment surrogate keys are not modelled.
- Sections: `users` and `inboxes` are opaque values; the rows behind them, `inbox_recipients` among them, are not modelled.
- Documents with rows that are not cards or that lack an id: the validator in front of every write rejects them.
- Random ids: an enqueued record's id is assumed fresh.
- Scheduler.RunnableTasks: returns the runnable cards in document order; the dispatch sort by priority, recency and id is not modelled.
- Stale.LookupReads: a card's own reminder interval is in whole minutes; a fractional one is not modelled.
- Stale.Detect: keeps an owner's cards in document order; the oldest-first sort for display is not modelled.
- Deadlines.IsOverdue: takes a full timestamp as now; a bare-date now, which falls to day granularity and cannot be compared with a repeater, is not modelled.
- StoreMirror.WriteDocToDb: whether the database's stamp names this store is a parameter; stamping itself is not modelled.
- Orders of announced ids and of the owners in a sweep; announcements and sweep reports are sets.
- Events, heartbeats, liveness look-up and the wording of notices: whether an owner is alive and whether an enqueue succeeds are parameters of a sweep.
- Configuration: environment variables, config files and defaults layering become parameters. The forced flat interval of a sweep is not modelled.
- Recipient resolution is assumed injective on owners: when two owners resolve to one inbox, the second digest of a sweep replaces the first there, while both are remembered as delivered.
- Backlog.ClockNeverMoves: its runs are of field updates; the comment and reassignment verbs are not part of them.
- A state save that fails: the sidecar is assumed written after each sweep.
- Deadline text: entries are given parsed, in the documented forms; a bare date is midnight with no offset. The two default clocks are not modelled: `now` is always explicit.
- Values of the wrong type in clock, owner or blocker fields: strings are modelled, and a truthy non-string there, on which the source raises, reads as absent.
- `add_task`, `delete_task`, `restore_task` and `reopen_task`; the snapshot that undo keeps shares structure with the live card.
- Lone surrogates in pushed text, on which encoding raises.
- The triage draw: weights and sampling use floating point and randomness.
- InboxMaint.CollapseDigests: marks digests seen that were never delivered, by design, so it is not a step of the delivery runs.
- The HTTP server, MCP wrappers, push wires, the optional echo of a nudge, installers, health and org exports.
