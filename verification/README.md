# Verification of the CAI durable workflows

A Dafny 4.11 model of the parts of the CAI backend that must not lose, repeat or misreport work, with proofs of
what they keep over every run. `dafny verify dfyconfig.toml` checks the whole project.

What is modelled, and where:

- **The durable Request operation** (`RequestProvider`, `RequestOperations`, `RequestProtocol`, `RequestSafety`,
  `RequestTheorems`, `RequestOwners`, `RequestStranded`, `RequestMapping`). One row per conversation cycle guards the creation
  of a Request at a provider that has no idempotency key. `RequestStore` performs each transaction in place; `RequestProtocol` lets
  any number of invocations interleave at every transaction and every POST, with crashes, lease expiry, changing
  classifications and mappings, and operators who reconcile. The results: a POST that may have created a Request
  is never followed by another one unless an operator released the row with proof of absence; attempts are
  conserved; rows keep their shape; and the safety of the POSTs holds exactly when distinct invocations write
  distinct claim owners.
- **The two-source reconciliation** (`Sorting`, `Tables`, `Directory`, `DirectoryValidation`, `SnapshotHash`, `DirectoryFetch`, `DirectoryStore`,
  `DirectoryRepository`, `DirectorySizes`, `DirectoryRefresh`, `Contacts`, `ContactAcquisition`, `ContactReconciliation`,
  `ReconciliationPlan`, `Reconciliation`). Two independent implementations publish a provider snapshot, in
  opposite orders, to four tables with surrogate ids and nullable flags; both are proved, statement by statement,
  to leave the same facts. The plan counts exactly the rows that applying adds and the named rows that it alters;
  the rows that lose their flags because they are not named are counted by no change, and exactly these are left
  out. Applying is a fixpoint of the plan and of the facts.
- **Conversation cycles** (`Selection`, `Numbering`, `Cycles`, `CycleSafety`, `CycleClaims`, `CycleMessages`):
  opening, closing, transitions, leases and exclusive message ownership.
- **Versioned department mapping** (`DepartmentMapping`, `DepartmentMappingSafety`, `DepartmentReplays`,
  `DepartmentEvaluation`): rules, their audit log, replays by operation key, and immutable evaluations.
- **Smaller loops**: hydration leases (`HydrationLeases`), ticket history (`TicketHistory`), and the retirement of
  legacy Redis lists (`QueueRetirement`, `QueueApply`).

How the source is rendered:

- A PostgreSQL table is a map or a sequence held by a class. One method is one transaction; where an error rolls
  back, the method restores the tables. Each method's contract equates the new tables with a function of the old
  ones, and the lemmas about runs are about those functions. What such a function computes is stated once more from
  its arguments alone, by the lemmas whose names end in `Meaning` and their like.
- Time is an integer. The database clock and the clock of the Python process are one clock that never goes back.
- Providers, Redis, other tables and other workers are arbitrary: a sequence or function of answers, parameters of
  a transaction, or steps of a run.
- The two publications of a directory snapshot make the same upsert statements in their own code, in different
  orders and around different marking steps; they share `Repository.UpsertSnapshot` here.
- SHA-256 is a function parameter, without collisions where a result needs it. Confidence is a real number.
- Advisory locks and `FOR UPDATE` are what makes a transaction atomic; `SKIP LOCKED` never has anything to skip.

Where the code does not do what a reader might expect, the model follows the code, and a lemma says exactly when
it does:

- A claim is fenced by its owner string alone (`RequestOwners.SafeExactlyWithDistinctOwners`).
- A confidence block after an earlier attempt leaves the row `attempting`, and after the lease the row needs a manual
  reconciliation for a POST that this claim never made. In every reachable state this happens exactly when a marker
  of the cycle was ever set (`RequestStranded.BlockedRetryIsStranded`), and a run from an empty database shows it
  (`RequestStranded.StrandingRunHappens`).
- A reopen event that an open cycle absorbs does not record its key (`CycleSafety.OpenRedeliverySafe`).
- `transition_cycle` is not fenced by the lease owner. It lets another owner claim the cycle before a lease ends
  exactly when the row that it leaves has no lease or an earlier end of it, and is scheduled before that end, or is
  blocked by media, or is still open (`CycleClaims.TransitionOpensLease`). A claim before the end of another one's
  lease happens only after such a transition (`CycleClaims.EarlyClaimNeedsLift`).
- The default evaluation of a cycle that was first evaluated under another key answers that first snapshot and stores
  none, while the Request operation reads only a default one: such a cycle has no mapping for its operation, ever
  (`RequestMapping.ReadableExactly`, `RequestMapping.MissingForever`), although the evaluation may report it resolved
  (`RequestMapping.ResolvedButMissing`).
- Applying clears the flags of rows that the snapshot does not name, and the plan counts them as retained, not as
  changed. "Changed" counts every altered row if and only if no such row was present or active
  (`Reconciliation.PlanCountsAllExactly`, `Reconciliation.DroppedCompanyUncounted`).
- A refresh that is recorded as deduplicated has published its snapshot all the same. It is recorded so exactly when
  the provider sent the same at any earlier publication, the latest one or not
  (`DirectoryRefresh.DeduplicatedExactly`).
- A derived operation key makes mapping back to an earlier target a replay that does nothing
  (`DepartmentReplays.RemapBackIsReplay`, `DepartmentReplays.ActivationTakesEffect`). A replay does not compare the
  DigiSac department or the actor (`DepartmentReplays.SharedKeyAnswers`), and ids with a bar can derive the key of
  another department (`DepartmentReplays.DerivedKeysEqual`, `DepartmentReplays.OtherDepartmentAnswered`). An
  inactivation that finds no active rule is logged on the latest rule even if that has another target, and its own
  retry is then refused (`DepartmentReplays.RetryExactly`). A replacement logs a second, longer key, so an operation
  key of more than 229 characters can never replace a rule (`DepartmentMappingSafety.FreshKeyTakesEffect`).
- Contacts that are `unordered` change rows and are not in the plan's count of changed contacts: it counts every
  altered contact exactly when there is none of them (`Reconciliation.PlanPredicts`). Older contacts are counted apart too, and change nothing.
- A hydration token is a lease time. After the holder's own failure the contact can be claimed again under the same
  token, and the first holder can then end the second claim: exactly when the failure is recorded before the lease
  ends, without a schedule or with one before that end (`HydrationLeases.TokenReusedExactly`). Otherwise every later
  token is greater (`HydrationLeases.TokensIncrease`).
- The page limit of the directory adapter refuses a directory that has as many pages as the limit, even if the
  next page is empty (`DirectoryFetch.FetchCompanies`).
- Nothing locks the report of a queue apply between its reading and its writing. Over all interleavings, each family
  is applied at most once and no entry is lost exactly when no command writes over a report that another one wrote
  since it read it (`QueueApply.OnceExactlyWithoutOverlap`); two commands can always overlap
  (`QueueApply.OverlapBreaks`).
- A crash between the first removal and the report of a queue apply leaves a report that no family can be applied
  with (`QueueApply.CrashBlocks`).

## Model

| member | source | states |
|---|---|---|
| RequestProvider.CreateRequest | src/core/acessorias_request_provider.py:266-340 | one call makes at most `max_attempts` sends; every send but the last is proven unsent; the result is retryable exactly when the last one is too; completed exactly on a safe id; the statement after the loop is unreachable; the recorded id says the id of the last reply: a text between its spaces, or a number that reads back as it was sent |
| RequestProvider.ReplyMeaning | src/core/acessorias_request_provider.py:291-339 | one reply, by its meaning: go on only with proof that nothing was created, complete only on a safe id, and exactly which replies are definitive |
| RequestProvider.SafeCategory | src/core/acessorias_request_provider.py:164-166 | every category satisfies the column's check |
| RequestProvider.SafeCategoryKeeps | src/core/acessorias_request_provider.py:164-166 | a category that is safe already is itself |
| RequestProvider.SafeCategoryLetters | src/core/acessorias_request_provider.py:164-166 | a category keeps the safe characters of its value, in lower case and in order, as far as there is room |
| RequestProvider.DigitsRead | src/core/acessorias_request_provider.py:293-297 | the text of a number reads back as that number, without leading zeros |
| RequestProvider.ReplyIdMeaning | src/core/acessorias_request_provider.py:291-302 | a reply has an id exactly when its body has a text that is not blank, an integer or a boolean, and the id's text says it |
| RequestProvider.ReplyCategory | src/core/acessorias_request_provider.py:284-339 | the category and the status that each reply is reported with |
| RequestOperations.EligibilityMeaning | src/core/acessorias_requests.py:177-248 | a cycle is ready exactly when it passes thirteen checks; then facts and payload name its own company, mapping, department and texts; otherwise the reason is that of the first check that fails |
| RequestOperations.RequestStore.Ensure | src/core/acessorias_requests.py:257-314 | inserts the row that eligibility calls for, or returns the existing one unchanged; a new row is not started exactly when every check passes, with the cycle's own facts and payload, and otherwise a definitive failure with the category of the first check that fails |
| RequestOperations.RequestStore.ClaimOperation | src/core/acessorias_requests.py:317-371 | an expired lease becomes a retry before the marker and a reconciliation after it; then only a claimable row is claimed |
| RequestOperations.RequestStore.ClaimMappingRecovery | src/core/acessorias_requests.py:390-444 | claims only a row whose mapping was missing and that was never tried, against no live other owner |
| RequestOperations.RequestStore.RecordRecoveryBlocked | src/core/acessorias_requests.py:447-489 | the owner of the recovery claim, and nobody else, gives it up with a reason |
| RequestOperations.RequestStore.ReopenPrepared | src/core/acessorias_requests.py:492-554 | reopens a recovered row exactly when it is still untried and is eligible now; the reopened row names the cycle's own facts and payload |
| RequestOperations.RequestStore.FinishConfidenceBlocked | src/core/acessorias_requests.py:602-640 | ends the row only if it is held and no marker was ever set |
| RequestOperations.RequestStore.RefreshPayload | src/core/acessorias_requests.py:643-669 | refreshes only a held row without a marker |
| RequestOperations.RequestStore.MarkPostStarted | src/core/acessorias_requests.py:672-736 | the marker needs the owner and an allowed confidence; it counts the attempt and keeps the first attempt's time |
| RequestOperations.RequestStore.FinishOperation | src/core/acessorias_requests.py:739-795 | only the holder finishes; other outcomes than the four, and a completion without an id, are refused |
| RequestOperations.RequestStore.RecordReconciliation | src/core/acessorias_requests.py:929-1034 | the whole verdict: invalid, not found, replay, conflict, or one audit row and one row change |
| RequestOperations.ClaimMeaning | src/core/acessorias_requests.py:317-371 | which rows a claim takes, what becomes of an expired lease, and that no other claim succeeds before the new lease ends |
| RequestOperations.ClaimRecoveryMeaning | src/core/acessorias_requests.py:390-444 | when a recovery claim succeeds, and that it changes only owner and lease |
| RequestOperations.RecordBlockedMeaning | src/core/acessorias_requests.py:447-489 | who may record a blocked recovery, and what it leaves |
| RequestOperations.ReopenMeaning | src/core/acessorias_requests.py:492-554 | exactly when a row is reopened, and what it then says |
| RequestOperations.FinishBlockedMeaning | src/core/acessorias_requests.py:602-640 | exactly when a confidence block ends the row, and with which category |
| RequestOperations.RefreshMeaning | src/core/acessorias_requests.py:643-669 | exactly when a refresh acts, and that it changes only payload and gate |
| RequestOperations.MarkMeaning | src/core/acessorias_requests.py:672-736 | exactly when the marker is set, with its times and its count, and the claim left as it is |
| RequestOperations.FinishMeaning | src/core/acessorias_requests.py:739-795 | exactly when an outcome is recorded, column by column |
| RequestOperations.ParseMeaning | src/core/acessorias_requests.py:929-948 | exactly which commands are valid, and what they then say |
| RequestOperations.VerdictMeaning | src/core/acessorias_requests.py:946-977 | when an order acts, when it is a replay, and what refuses it |
| RequestOperations.ResolveMeaning | src/core/acessorias_requests.py:995-1034 | a record completes the row with its id; a release lets any later claim take it, with its attempts kept |
| RequestSafety.StepKept | src/core/acessorias_requests.py:317-371 | every step of invocations with distinct owners keeps the protocol invariant |
| RequestSafety.RunKept | src/core/acessorias_requests.py:798-908 | every run whose own invocations have distinct owners keeps the protocol invariant |
| RequestTheorems.EveryPostIsPaid | src/core/acessorias_requests.py:672-795 | before any POST, the cycle's earlier POSTs that may have created a Request are at most its releases with proof of absence |
| RequestTheorems.NoSecondSideEffect | src/core/acessorias_requests.py:798-867 | without a release, no POST follows one that may have created the Request, over every interleaving |
| RequestTheorems.SecondCallIsSettled | src/core/acessorias_requests.py:739-795 | a second provider call starts only after the first one's own holder recorded it as retryable, or after a release |
| RequestTheorems.MarkedAttemptFate | src/core/acessorias_requests.py:317-371 | a marked row leaves its holder only by the holder's finish or by expiry into reconciliation; a closed row reopens only by a release |
| RequestTheorems.LateFinishIsNoOp | src/core/acessorias_requests.py:739-795 | a finish by an invocation that lost its row changes no table, however much later |
| RequestTheorems.AttemptsConserved | src/core/acessorias_requests.py:722-736 | `attempt_count` is the number of markers, and at most 1 + recorded retryable finishes + release rows of the audit |
| RequestTheorems.ReachableRow | src/core/acessorias_requests.py:739-795 | `sol_id` exactly when completed, and safe; completed and reconciliation rows carry a marker; a marker exactly when attempts > 0 |
| RequestTheorems.MarkersAreConfident | src/core/acessorias_requests.py:686-721 | a marker is set only with a confidence from 0.5 to 1 |
| RequestTheorems.CompletedForever | src/core/acessorias_requests.py:957-977 | `completed` is absorbing with one fixed `sol_id` |
| RequestTheorems.DefinitiveFailureLeft | src/core/acessorias_requests.py:492-554 | a definitive failure is left only when the mapping was missing and no attempt was made, by the recovery owner |
| RequestTheorems.KeyReplay | src/core/acessorias_requests.py:929-1034 | a recorded reconciliation key changes nothing, on its operation or another |
| RequestStranded.BlockedRetryIsStranded | src/core/acessorias_requests.py:602-721 | in every reachable state with distinct owners, a held row that is blocked by its confidence, by the marker or by the block, ends in a definitive failure if and only if no marker of its cycle was ever set; otherwise no table changes and expiry asks for reconciliation |
| RequestStranded.StrandedUntilReconciled | src/core/acessorias_requests.py:317-371 | over any run, a stranded row stays as it is until its expiry turns it to reconciliation |
| RequestStranded.StrandingRunHappens | src/core/acessorias_requests.py:798-867 | from an empty database: marker, POST that provably never left, retryable finish, second claim, block, expiry; the second claim makes no POST and the row asks for reconciliation |
| RequestMapping.ReadableExactly | src/core/acessorias_requests.py:159-174 | over any run of evaluations, a cycle has the snapshot that its operation reads if and only if its first evaluation used the default key |
| RequestMapping.MappingMeaning | src/core/acessorias_requests.py:159-174 | the mapping facts are those of the default snapshot, resolved exactly when it is |
| RequestMapping.MissingForever | src/core/acessorias_requests.py:492-511 | a cycle whose first snapshot has another key is never eligible and never reopened, whatever is evaluated later |
| RequestMapping.ResolvedButMissing | src/core/department_mapping.py:580-604 | when the first snapshot is resolved, the default evaluation answers it forever, and the operation misses its mapping exactly when it has another key |
| RequestMapping.MappingIsFixed | src/core/acessorias_requests.py:159-174 | a default snapshot is never replaced, so what it says about eligibility is fixed |
| RequestOwners.SharedOwnerPostsTwice | src/core/acessorias_requests.py:123-128 | two invocations with one owner string both POST, after a lease expiry before the first marker |
| RequestOwners.SafeExactlyWithDistinctOwners | src/core/acessorias_requests.py:672-736 | for any set of invocations, finite or not: the POST safety of all their runs holds if and only if distinct ones have distinct owners |
| Tables.OrdersAgree | src/core/acessorias_directory.py:613-767 | clear everything then upsert, or upsert then clear the rest: the same cells, null activity included |
| DirectoryFetch.ReadRecords | src/core/acessorias_directory.py:492-497 | one page adds exactly its parsed companies, or stops at a record that does not parse or repeats an id; the error is that of the first record that is refused |
| DirectoryFetch.FetchCompanies | src/core/acessorias_directory.py:469-512 | succeeds exactly when reading to the first empty page, below the page limit, gives a valid snapshot; the checks of repeated pages and companies only stop it earlier; an error says why reading stops |
| Directory.ValidateCompanies | src/core/acessorias_directory.py:523-528 | no error exactly when every company has known departments and distinct contact keys |
| DirectoryValidation.ValidateMeaning | src/core/acessorias_directory.py:515-533 | a snapshot is valid exactly when no department, company, provider id or contact repeats and every department is known; otherwise the category of what fails first |
| Directory.SortingKeepsFacts | src/core/digisac_acessorias_reconciliation.py:565-609 | visiting a valid snapshot in sorted order states the same facts |
| SnapshotHash.CanonicalForm | src/core/acessorias_directory.py:100-144 | the sorted forms of two valid snapshots are equal exactly when they say the same in any order |
| SnapshotHash.HashTellsExactly | src/core/acessorias_directory.py:100-144 | without a collision of the two, the hashes of two valid snapshots are equal exactly when the provider sent the same, in any order: the normalised contact fields make no difference, everything else does |
| SnapshotHash.RawContactMeaning | src/core/acessorias_directory.py:125-134 | the hash sees of a contact its key, its name, and its mobile and email as they were sent |
| DirectoryStore.PublicationOrdersAgree | src/core/digisac_acessorias_reconciliation.py:560-679 | both publication orders leave the same facts on every company, department, contact and relation |
| DirectoryStore.PublicationMeaning | src/core/digisac_acessorias_reconciliation.py:560-679 | what a publication leaves, row by row: what was sent as it was sent, present and active, and the rest retired |
| DirectoryRepository.Repository.UpsertChildren | src/core/digisac_acessorias_reconciliation.py:573-629 | the child loops upsert exactly the snapshot's contacts and relations under surrogate ids |
| DirectoryRepository.Repository.MarkMissing | src/core/digisac_acessorias_reconciliation.py:631-679 | marks exactly the rows that the snapshot does not name, and leaves untouched a row that is neither present nor active |
| DirectoryRepository.Repository.PublishSnapshot | src/core/acessorias_directory.py:613-767 | what the tables say afterwards, no row lost, every id kept, and the count of inactivated rows; every department, company, contact and relation that was sent is there with its fields, present and active, a company with its own activity, and every other row is retired with its fields |
| DirectoryRepository.InactivatedMeaning | src/core/acessorias_directory.py:625-642 | the count of a publication is the number of rows that its blanket updates alter |
| DirectoryRepository.Repository.ApplyDelta | src/core/digisac_acessorias_reconciliation.py:560-679 | the same for the second publication, from any prior state, including what was sent and what is retired, row by row |
| DirectoryRefresh.Refresher.Refresh | src/core/acessorias_directory.py:825-850 | one refresh: a failed row and no change, or the published tables and a row that is succeeded or deduplicated by its hash |
| DirectoryRefresh.DeduplicatedExactly | src/core/acessorias_directory.py:770-785 | over any run of overlapping and crashing refreshes, a publication is recorded as deduplicated if and only if the provider had sent the same, in any order, at any earlier publication |
| DirectorySizes.SnapshotSizes | src/core/acessorias_directory.py:92-98 | a valid snapshot states as many facts as it counts; relations agree exactly when no company repeats a department |
| Contacts.MergeFields | src/core/digisac_contact_repository.py:128-148 | the field loop and the time assignment compute the merge of the 13 provider fields; by the two times: an older observation changes nothing, one without a time fills the nulls, any other replaces every field that it has |
| Contacts.MergeMeaning | src/core/digisac_contact_repository.py:128-148 | the same of the merge that every other result is about |
| Contacts.UpsertMeaning | src/core/digisac_contact_repository.py:86-184 | the whole row after an upsert, and no other row: merged fields, later sight, and the source unless the observation is older or untimed |
| Contacts.MergeIdempotent | src/core/digisac_contact_repository.py:86-184 | storing the same observation again changes no provider field |
| Contacts.UpsertMonotone | src/core/digisac_contact_repository.py:137-152 | never lowers `provider_updated_at` or `last_seen_at`, never forgets a known field, and fills a null from what was observed |
| Contacts.ContactChangeKind | src/core/digisac_acessorias_reconciliation.py:288-325 | the planner's own loop: unchanged or older exactly when the upsert alters no provider field |
| Contacts.KindMeaning | src/core/digisac_acessorias_reconciliation.py:288-325 | each kind, by the two times and the fields |
| Contacts.UpsertSettlesKind | src/core/digisac_acessorias_reconciliation.py:288-325 | after its upsert a contact is unchanged or older |
| Contacts.FirstGreatestMeaning | src/core/digisac_contact_backfill.py:44-83 | which duplicate is the first with the greatest time |
| Contacts.MergeAllMeaning | src/core/digisac_contact_backfill.py:44-83 | the merged record has the greatest time, keeps the known fields of the first record with it, takes every value from some duplicate, and has a null only where all have |
| ContactAcquisition.CollectPage | src/core/digisac_contact_backfill.py:172-183 | the dictionary holds the merge of each id's duplicates, and the duplicates are counted |
| ContactAcquisition.Acquire | src/core/digisac_contact_backfill.py:127-196 | reads exactly pages 1 to `lastPage` or fails; succeeds exactly when all are acceptable; unique contacts plus duplicates equal the contacts received; every page of a success is sound, its last page being the one that total and limit need; a failure names the first page that is not |
| ContactAcquisition.GoodPageMeaning | src/core/digisac_contact_backfill.py:86-124 | exactly which pages are acceptable, in plain arithmetic |
| ContactReconciliation.CountContacts | src/core/digisac_acessorias_reconciliation.py:430-434 | the counts of kinds, whatever the order of the contacts |
| ContactReconciliation.StoreAllAt | src/core/digisac_acessorias_reconciliation.py:682-691 | storing distinct contacts does to each row what its own contact says, and nothing to others |
| ContactReconciliation.KindsPredict | src/core/digisac_acessorias_reconciliation.py:682-691 | new contacts are the rows that appear; changed and unordered ones are the rows whose provider fields are altered |
| ContactReconciliation.KindsSettle | src/core/digisac_acessorias_reconciliation.py:430-434 | after applying, no contact is new, changed or unordered |
| ReconciliationPlan.Load | src/core/digisac_acessorias_reconciliation.py:225-285 | the joined queries read exactly what the tables say by external ids |
| ReconciliationPlan.CountResource | src/core/digisac_acessorias_reconciliation.py:361-423 | the counter loop counts the keys of each change, with a null activity as not active |
| ReconciliationPlan.CountsPredict | src/core/digisac_acessorias_reconciliation.py:361-423 | "new" are the rows that appear, "changed" the named rows that come out different; nothing disappears, and rows that are not named keep their business fields and end without flags |
| ReconciliationPlan.AlteredExactly | src/core/digisac_acessorias_reconciliation.py:631-679 | the stored rows that applying alters are the changed ones and, apart from them, exactly those that are not named and were present or active |
| ReconciliationPlan.ChangedCountsAllExactly | src/core/digisac_acessorias_reconciliation.py:361-447 | "changed" counts every altered row if and only if every row that is not named is neither present nor active already |
| ReconciliationPlan.CountsSettle | src/core/digisac_acessorias_reconciliation.py:361-447 | counting again after applying gives nothing new or changed and the same rows to retain |
| Reconciliation.BuildPlan | src/core/digisac_acessorias_reconciliation.py:328-454 | validation errors, or the plan that the tables call for |
| Reconciliation.ContactStore.Upsert | src/core/digisac_contact_repository.py:86-184 | the whole new contacts table after one upsert, by the times and the fields |
| Reconciliation.ContactStore.Apply | src/core/digisac_acessorias_reconciliation.py:682-691 | the contacts are stored in sorted order |
| Reconciliation.Reconcile | src/core/digisac_acessorias_reconciliation.py:932-1005 | a dry run changes nothing; an apply returns the plan of the old state and publishes both sources; a missing lock or an invalid snapshot changes nothing |
| Reconciliation.PlanSums | src/core/digisac_acessorias_reconciliation.py:351-434 | per resource the counts sum to the number of facts of the snapshot |
| Reconciliation.PlanPredicts | src/core/digisac_acessorias_reconciliation.py:328-454 | on all resources, "new" are the rows that appear and "changed" the named rows that are altered; all altered rows of the directory are those and the dropped ones, which no change counts; altered contacts are the changed and the unordered ones |
| Reconciliation.PlanCountsAllExactly | src/core/digisac_acessorias_reconciliation.py:328-454 | the plan counts every altered row of the four tables if and only if no row that is not named was present or active; the rows left out are among the retained ones |
| Reconciliation.DroppedCompanyUncounted | src/core/digisac_acessorias_reconciliation.py:646-653 | one present or active company and an empty snapshot: changed 0, one row altered |
| Reconciliation.PlanSettles | src/core/digisac_acessorias_reconciliation.py:328-454 | planning again after applying gives zero new, changed and unordered, and the same retained count |
| Reconciliation.PublishedFixed | src/core/digisac_acessorias_reconciliation.py:560-679 | publishing the same snapshot again leaves every fact of the four tables as it is |
| Reconciliation.ReconcileTwice | src/core/digisac_acessorias_reconciliation.py:932-1005 | running the command again after an apply, with the same snapshots, returns a plan of nothing with the same retained rows, and leaves the directory's facts and the contacts' provider fields as the first run left them |
| Reconciliation.PublishThenPlan | src/core/acessorias_directory.py:613-767 | planning the snapshot that a refresh has just published finds nothing to do in the directory |
| Selection.ChosenMeaning | src/core/conversation_cycle_repository.py:596-598 | ORDER BY with a tie-break by id and LIMIT: in order, each once, as many as there are, ahead of the rest |
| Cycles.NormalizeContact | src/core/conversation_cycle_repository.py:66-76 | which contact ids are refused and which are read as none; any other is its stripped text, not long and without control characters |
| Cycles.CycleRepository.CreateOpenCycle | src/core/conversation_cycle_repository.py:79-172 | the whole new table: replay, creation under the next number, or absorption by the open cycle; a new cycle is open with what the event says, and never due |
| Cycles.CycleRepository.CloseCycle | src/core/conversation_cycle_repository.py:179-297 | the whole new table: replay, closing of the open cycle, or a cycle that is born closed; the closed row is pending with what the event says, due from the delayed attempt on and not before |
| Cycles.ClosedMeaning | src/core/conversation_cycle_repository.py:212-297 | what a close with a new key writes on an open cycle, and on one that is born closed |
| Cycles.OpenedMeaning | src/core/conversation_cycle_repository.py:120-168 | what an opening with a new key writes on a new cycle, and on an open one |
| Cycles.CycleRepository.TransitionCycle | src/core/conversation_cycle_repository.py:424-515 | refuses fields that are not permitted; otherwise sets exactly the given fields if the status is expected, whoever holds the lease; every column of the row is accounted for |
| Cycles.AssignedMeaning | src/core/conversation_cycle_repository.py:470-515 | each given field gets its value, and every other column keeps its own |
| Cycles.LeaseMeaning | src/core/conversation_cycle_repository.py:540-564 | a claimed cycle is due again when its lease ends, and not before |
| Cycles.DueMeaning | src/core/conversation_cycle_repository.py:534-564 | which cycles are due |
| Cycles.CycleRepository.ClaimCycle | src/core/conversation_cycle_repository.py:534-564 | claims exactly a due cycle |
| Cycles.CycleRepository.ClaimNextCycle | src/core/conversation_cycle_repository.py:578-616 | claims the first due cycle of the order, if any |
| Cycles.CycleRepository.WakeUnblockedMediaCycles | src/core/conversation_cycle_repository.py:699-752 | wakes the first blocked cycles without exhausted media, and no other row changes |
| Cycles.WokenMeaning | src/core/conversation_cycle_repository.py:699-752 | only blocked cycles none of whose audio or image messages has failed for good are woken, each once, the longest unchanged first, and all of them when fewer than the limit are |
| Cycles.WakeMeaning | src/core/conversation_cycle_repository.py:735-750 | a woken cycle waits for its media without its errors, due as soon as its lease allows |
| Numbering.NumberedExact | src/core/conversation_cycle_repository.py:121-131 | one more than the count of earlier rows gives exactly 1 to n, increasing |
| CycleSafety.RunKept | src/core/conversation_cycle_repository.py:79-297 | every run keeps the invariant, and every row keeps its conversation, number, keys, close time and known contact |
| CycleSafety.ReachableNumbers | src/core/conversation_cycle_repository.py:121-131 | sequence numbers are exactly 1 to n per conversation, and only number n may be open |
| CycleSafety.ClosedCyclesAreCloseKeys | src/core/conversation_cycle_repository.py:200-293 | closed cycles are in bijection with the distinct close keys delivered |
| CycleSafety.CloseReplays | src/core/conversation_cycle_repository.py:200-211 | a close key that was delivered once never does anything again |
| CycleSafety.RecordedNeverCreates | src/core/conversation_cycle_repository.py:99-119 | a recorded open key never creates a cycle again |
| CycleSafety.AbsorbedKeyCreatesLater | src/core/conversation_cycle_repository.py:156-168 | an absorbed open key creates a cycle when it is delivered again after the close |
| CycleSafety.OpenRedeliverySafe | src/core/conversation_cycle_repository.py:99-168 | redelivery is safe for good if and only if the key was recorded or the conversation had no open cycle |
| CycleClaims.ClaimsSeparated | src/core/conversation_cycle_repository.py:534-616 | two claims of one cycle are separated by the end of the first lease or by a transition that made it end earlier |
| CycleClaims.ClaimableBeforeExactly | src/core/conversation_cycle_repository.py:534-752 | some continuation without a transition lets an owner claim a cycle before a time if and only if its lease ends before that, and it is scheduled before it, blocked by media, or open for a close in time |
| CycleClaims.TransitionOpensLease | src/core/conversation_cycle_repository.py:424-515 | a transition after a claim lets another owner in before the lease ends if and only if the row that it leaves meets that condition |
| CycleClaims.EarlyClaimNeedsLift | src/core/conversation_cycle_repository.py:424-616 | in any run, a claim before the end of an earlier lease needs a transition in between that brings that condition about |
| CycleClaims.ClaimMoves | src/core/conversation_cycle_repository.py:898-935 | one claim moves one cycle from due to leased |
| CycleClaims.MetricsMeaning | src/core/conversation_cycle_repository.py:898-935 | of the cycles at work, those that are not due are exactly the scheduled and the leased ones |
| CycleClaims.CallsDrain | src/core/conversation_cycle_repository.py:578-616 | repeated claims at one time take exactly the due cycles, each once, in order, then none; due becomes 0, leased grows by it, scheduled stays |
| CycleMessages.MessageStore.SaveCycleMessages | src/core/conversation_cycle_repository.py:765-824 | the whole new table, the accepted ids and the conflicts, in order |
| CycleMessages.OthersUntouched | src/core/conversation_cycle_repository.py:786-822 | other cycles' memberships are untouched |
| CycleMessages.SavedMeaning | src/core/conversation_cycle_repository.py:790-822 | the cycle has exactly the listed messages that no other cycle has, each at its last position |
| CycleMessages.IdsSplit | src/core/conversation_cycle_repository.py:800-824 | accepted and conflicts split the list; conflicts are exactly the ids owned elsewhere |
| CycleMessages.IdsInOrder | src/core/conversation_cycle_repository.py:800-824 | the accepted ids and the conflicts are the list read at increasing positions, which are exactly those of their kind |
| CycleMessages.SavedTwice | src/core/conversation_cycle_repository.py:765-824 | saving the same list again changes nothing |
| CycleMessages.RunExclusive | src/core/conversation_cycle_repository.py:765-824 | over any saves, a message is in at most one cycle and positions are distinct |
| DepartmentMapping.ExternalId | src/core/department_mapping.py:61-67 | which ids are refused, and what an accepted id is |
| DepartmentMapping.MappingStore.AppendTransition | src/core/department_mapping.py:134-181 | appends, accepts the same change under a taken key, or refuses |
| DepartmentMapping.AddTransitionMeaning | src/core/department_mapping.py:134-181 | appended under a free key that fits, accepted without change under a key that says the same, refused otherwise |
| DepartmentMapping.KeyTextMeaning | src/core/department_mapping.py:223-236 | the text that a derived key hashes, part by part |
| DepartmentMapping.MappingStore.Configure | src/core/department_mapping.py:216-471 | the whole new tables and the returned rule, or the error with everything rolled back |
| DepartmentMapping.MappingStore.ConfigureRequest | src/core/department_mapping.py:184-471 | the whole call: refused arguments change nothing, otherwise the transaction under the given or the derived key |
| DepartmentMappingSafety.UsedKeyChangesNothing | src/core/department_mapping.py:238-269 | a used operation key changes no table |
| DepartmentMappingSafety.FreshKeyTakesEffect | src/core/department_mapping.py:271-471 | an operation with a new key succeeds exactly when it is acceptable; a fresh activation leaves its target active, a fresh inactivation leaves none |
| DepartmentMappingSafety.FreshKeyWrites | src/core/department_mapping.py:271-471 | what a successful operation with a new key writes, in each case: rules, log and answer |
| DepartmentMappingSafety.RefusalMeaning | src/core/department_mapping.py:271-330 | what refuses an operation with a new key, in order |
| DepartmentMappingSafety.ReplacementLogged | src/core/department_mapping.py:143-181 | the key of a replacement is either free or a conflict: it is never accepted as the same change |
| DepartmentMappingSafety.Run | src/core/department_mapping.py:184-471 | every run keeps the invariant; targets never change, inactive rules never reactivate, the log only grows |
| DepartmentMappingSafety.ReachableRules | src/core/department_mapping.py:339-380 | versions are exactly 1 to n, the active rule is version n, keys are unique, transitions form a chain |
| DepartmentReplays.ParseExactly | src/core/department_mapping.py:184-222 | exactly which calls are accepted for the transaction |
| DepartmentReplays.ActivationTakesEffect | src/core/department_mapping.py:184-320 | a successful activating call leaves its target active if and only if its key was new or the target was active already |
| DepartmentReplays.SharedKeyAnswers | src/core/department_mapping.py:238-269 | after a successful call and any others, every call with its key, given or derived, answers its rule if and only if state, reason and a given target agree, and is a conflict otherwise; department and actor make no difference |
| DepartmentReplays.RetryExactly | src/core/department_mapping.py:383-400 | a retry of a successful call answers the same rule, unless the call was an inactivation without an active rule whose latest rule has another target: then it is a conflict |
| DepartmentReplays.RetryRefused | src/core/department_mapping.py:383-400 | from empty tables, for any two targets, a run whose last call succeeds and is refused when it is retried |
| DepartmentReplays.RemapBackIsReplay | src/core/department_mapping.py:223-269 | from any tables, with any calls in between: mapping back to the first target with the same reason and no key succeeds and does nothing |
| DepartmentReplays.RemapBackHappens | src/core/department_mapping.py:223-269 | from empty tables, for any department and two targets: the first two calls succeed, and mapping back does nothing |
| DepartmentReplays.DerivedKeysEqual | src/core/department_mapping.py:223-236 | two calls derive one key exactly when state, reason, and the text of department, bar and target agree |
| DepartmentReplays.OtherDepartmentAnswered | src/core/department_mapping.py:223-269 | a department whose id contains a bar is answered with the rule of another one, though it has none |
| DepartmentEvaluation.Latest | src/core/department_mapping.py:648-664 | the latest assignment within the bounds, by time and then id |
| DepartmentEvaluation.LatestMeaning | src/core/department_mapping.py:648-664 | none exactly when no assignment is within the bounds; otherwise none within them comes later |
| DepartmentEvaluation.MakeSnapshot | src/core/department_mapping.py:606-847 | the checks in order, with the validation dictionary filled as they pass |
| DepartmentEvaluation.EvaluationStore.Evaluate | src/core/department_mapping.py:553-847 | answers an existing snapshot or appends one |
| DepartmentEvaluation.EvaluatedMeaning | src/core/department_mapping.py:570-604 | an unknown cycle is refused, a snapshot is answered exactly when the key has one, or any does for the default key |
| DepartmentEvaluation.ResolvedExactly | src/core/department_mapping.py:755-847 | resolved exactly when a latest assignment, a confirmed company, an active rule and three present and active rows are there, and then it names them |
| DepartmentEvaluation.JudgeMeaning | src/core/department_mapping.py:606-847 | a snapshot says what was found, with the verdict and the reason of the first check that fails |
| DepartmentEvaluation.RunKept | src/core/department_mapping.py:499-550 | no snapshot ever changes, and there is one per cycle and key |
| DepartmentEvaluation.AnswersAreStable | src/core/department_mapping.py:580-604 | a key answers its snapshot, and the default answers the cycle's first one, forever |
| HydrationLeases.HydrationStore.Request | src/core/digisac_contact_repository.py:291-384 | the placeholder, the decision, and a new pending row only where there was none |
| HydrationLeases.DecisionMeaning | src/core/digisac_contact_repository.py:332-384 | each decision; a failure keeps its backoff exactly while it cannot be claimed |
| HydrationLeases.ReferenceMeaning | src/core/digisac_contact_repository.py:300-331 | a reference adds an empty contact, or moves the sight of a known one forward |
| HydrationLeases.HydrationStore.Claim | src/core/digisac_contact_repository.py:404-457 | the first claimable row by request time and id; a lease that is not positive is refused |
| HydrationLeases.TakenMeaning | src/core/digisac_contact_repository.py:411-433 | no claimable row is missed, and none comes before the one taken |
| HydrationLeases.HydrationStore.MarkSuccess | src/core/digisac_contact_repository.py:469-492 | accepted only from a running row with the same lease time |
| HydrationLeases.HydrationStore.MarkFailure | src/core/digisac_contact_repository.py:514-573 | the same, with a schedule exactly when it is retryable below the limit |
| HydrationLeases.FailedMeaning | src/core/digisac_contact_repository.py:514-573 | a failure can be claimed from its schedule on when it is retryable below the limit, and at once otherwise |
| HydrationLeases.ClaimedMeaning | src/core/digisac_contact_repository.py:436-449 | a claim counts an attempt, and the row can be claimed again when its lease ends |
| HydrationLeases.SettledMeaning | src/core/digisac_contact_repository.py:185-199 | a webhook ends the hydration of its contact and keeps an earlier completion time |
| HydrationLeases.ReferenceUntouched | src/core/digisac_contact_repository.py:332-364 | a message reference never touches an existing row |
| HydrationLeases.SucceededForever | src/core/digisac_contact_repository.py:185-199 | a succeeded row is the same row forever |
| HydrationLeases.RetakenIsDead | src/core/digisac_contact_repository.py:404-457 | a claim that was retaken after its lease ended is dead |
| HydrationLeases.DeadForever | src/core/digisac_contact_repository.py:469-573 | a dead token never changes the row again |
| HydrationLeases.TokensIncrease | src/core/digisac_contact_repository.py:404-573 | the tokens of successive claims increase, unless in between the first holder recorded a failure before its lease ended, with no schedule or one before that end |
| HydrationLeases.TokenReused | src/core/digisac_contact_repository.py:514-573 | after such a failure, whatever the other rows are, the same token is claimed again in some continuation, and then the first holder can end the second claim |
| HydrationLeases.TokenReusedExactly | src/core/digisac_contact_repository.py:404-573 | some continuation claims a failed contact again under the same token if and only if the failure came before the lease's end, and its schedule, if any, is before that end |
| HydrationLeases.AttemptsCountClaims | src/core/digisac_contact_repository.py:436-449 | attempts count the claims, no more and no less |
| TicketHistory.TallyPage | src/core/digisac_client.py:406-417 | the message loop of one page: first positions, last payloads, duplicates and rejected items |
| TicketHistory.GetTicketHistory | src/core/digisac_client.py:367-436 | ends exactly when some prefix of the responses is a full run of pages; items are messages plus duplicates plus rejected ones; complete exactly when totals agree, equal the distinct ids, nothing was rejected and a named last message is there; each reason is given exactly when it holds |
| TicketHistory.FirstSeenMeaning | src/core/digisac_client.py:415-419 | the order of first occurrences, without repetition |
| TicketHistory.LastPayloadMeaning | src/core/digisac_client.py:406-417 | the payload of a message is that of its last item |
| QueueRetirement.RetiringIsFiltering | scripts/retire_legacy_ia_queue.py:325-338 | one LREM per validated value leaves exactly the list filtered of them, in order, and each finds its value |
| QueueRetirement.RetainedSurvive | scripts/retire_legacy_ia_queue.py:334-338 | under pushes by others, every value that is not validated survives, in order |
| QueueRetirement.OccurrencesConserved | scripts/retire_legacy_ia_queue.py:334-338 | no value is removed more often than asked, and every occurrence is accounted for |
| QueueRetirement.RemovedAtMostInspected | scripts/retire_legacy_ia_queue.py:252-338 | under pushes by others, no value is removed more often than it was inspected, and no value that is not validated is removed |
| QueueRetirement.InventoryList | scripts/retire_legacy_ia_queue.py:252-322 | from a length read earlier than the values: the counts, the entries of each cycle, the removable values in order, and truncation exactly when that length is above the number of values read |
| QueueRetirement.RemovableMeaning | scripts/retire_legacy_ia_queue.py:296-308 | a value is removable when its cycle is known, and on the dead-letter list only when that is at an end |
| QueueRetirement.Retire | scripts/retire_legacy_ia_queue.py:325-338 | refuses a truncated inventory; otherwise what both lists become and how many entries went |
| QueueRetirement.InventoryAndRetire | scripts/retire_legacy_ia_queue.py:252-338 | malformed values, unknown cycles and dead letters of cycles that are not terminal are all that is left |
| QueueApply.AssertSecondSnapshot | scripts/retire_validated_legacy_redis_queues.py:310-331 | accepts exactly an unmoved snapshot, and names a family that moved |
| QueueApply.SecondSnapshotMeaning | scripts/retire_validated_legacy_redis_queues.py:310-331 | with a digest that does not collide on the values in the lists, the check on digests is the check on values and their order |
| QueueApply.Retirement.RunApply | scripts/retire_validated_legacy_redis_queues.py:422-496 | one command alone: refused and nothing changed, or the family's lists without the validated values and the family in the report |
| QueueApply.OnceExactlyWithoutOverlap | scripts/retire_validated_legacy_redis_queues.py:430-496 | over every interleaving of commands, crashes and changes by others: each family is applied at most once per report and no entry is lost, if and only if no command wrote over a report written since it read it |
| QueueApply.SerialOnce | scripts/retire_validated_legacy_redis_queues.py:430-496 | commands that start only when no other one is at work apply each family at most once and lose no entry |
| QueueApply.OverlapBreaks | scripts/retire_validated_legacy_redis_queues.py:430-496 | from every state in which two commands are applicable, some run completes both and keeps only the second entry |
| QueueApply.CrashBlocks | scripts/retire_validated_legacy_redis_queues.py:456-496 | after a crash that follows any number of removals, another apply is possible if and only if nothing was removed |

## Left out

- RequestOperations.RequestStore.FinishOperation: does not model `failure_message`, which the source sets equal to the category.
- RequestOperations.RequestStore.Ensure: does not model the conversation and classification columns, which only name the cycle's parents, nor the mapping id of a row that is refused; the payload's fingerprint and metadata are determined by the payload and the confidence.
- RequestTheorems.EveryPostIsPaid: takes owners as a function of the invocation, distinct among the invocations of the run; that sanitising and truncating an owner may make two of them equal is what `RequestOwners` is about.
- RequestProvider.CreateRequest: does not model backoff, rate limiting and provider doubles other than the adapter; an exception of the limiter is a provider that raises.
- DirectoryFetch.FetchCompanies: takes departments and company records as parsed, and a page's own records as its fingerprint.
- Reconciliation.BuildPlan: does not model the two hashes of the plan, nor the count of confirmed links, which comes from the identity tables.
- DirectoryRefresh.Refresher.Refresh: does not model the counts and messages of the execution row apart from the inactivated rows.
- Reconciliation.Reconcile: does not model its own execution rows, reports, hashes, the count of confirmed links and identity matching.
- ContactReconciliation.StoreAllAt: `last_seen_at` and `last_source` follow the row function; creation and update times are not modelled.
- ContactAcquisition.Acquire: does not model retries inside the client.
- Cycles.CycleRepository.TransitionCycle: does not model the checks of the database on the values of the snapshot, context and counter columns.
- CycleMessages.MessageStore.SaveCycleMessages: does not model `created_at`, and refuses nothing that the column checks would refuse.
- DepartmentMapping.MappingStore.Configure: takes metadata as sanitised or refused, and does not model creation and update times.
- DepartmentEvaluation.EvaluationStore.Evaluate: takes the identity resolution of a cycle as given.
- HydrationLeases.HydrationStore.MarkFailure: takes the delay as given; hydration attempts have no bound in the source and none is claimed.
- TicketHistory.GetTicketHistory: takes the responses as a finite sequence, so a provider that raises `lastPage` forever is not modelled; running out of responses is a client error.
- QueueApply.Retirement.RunApply: takes operator, confirmation, recovery point and runtime checks as one condition.
- Unicode: case is changed for ASCII letters only, and normalisation is not modelled.
- SnapshotHash.HashTellsExactly: takes JSON rendering and SHA-256 together as one function without collisions.
- `normalize_*`, record parsing and activity derivation of the directory adapter: pure renderings, easy or library-bound.
- Publication bookkeeping of cycles (`get_recoverable_cycles`, `release_cycle_publication`): only moves `enqueued_at`.
- The audio and image copies of the queue script, `dispose_retained_redis_storage.py`, Docker and Git commands.
- HTTP routes, sessions, the admin UI, cursors, cookies, pools, migrations, logging and metrics export.
- Liveness of stale `attempting` rows: nothing in the source establishes it.
