# Verified models of the repository's graph tools, protocols and migrations

Dafny models, with proofs, of the parts of the repository whose correctness spans
several functions or a whole run. Check everything with `dafny verify dfyconfig.toml`.

| files | what they model |
|---|---|
| `MigrationCatalog`, `MigrationGraph`, `CycleSearch`, `MergeHeads` | the revision graph of `analyze_migrations.py`: edges filled in place, heads, roots, broken chains, cycles by recursive search, the path to a root, and the recommended merge of all heads |
| `MergeParents` | the merge audit of `backend/scripts/check_alembic_merge_parents.py`: ancestry by an explicit stack, redundant parents, suggested merges |
| `IdempotencyRecord`, `Idempotency`, `IdempotencyReplay`, `IdempotencySession` | the idempotency keys of `backend/app/api/idempotency.py`: the record, a step machine over all interleavings of requests, what a claimer leaves for replays, and one call inside a session |
| `Base64Url`, `PhotoTokens`, `PhotoTokenProofs` | signed photo links of `backend/app/api/photo_tokens.py`: printing, parsing, checking, and the one-time store with expiry |
| `WarningsLog`, `WarningsAggregate`, `WarningsFilter`, `WarningsAudit` | `backend/scripts/warnings_audit.py`: parsing classified lines, grouping, noise filter, totals, CI gate |
| `PiiRows`, `PiiTables`, `PiiClients`, `PiiRekey` | the two PII migrations: paginated encryption, then blind indexes per organisation |
| `TeamOverlap` | the exclusion constraint over active bookings of a team |
| `TeamCleanup` | the de-duplication of team names |
| `Collections`, `Reachability`, `Ranking`, `Sums`, `Text` | dictionaries with an order, reachability, stable sorting by score, sums, `str.strip` |

Classes stand for what the code changes in place: `MigrationGraph` and its search,
the idempotency record and its context, a database session, the Redis store, the tables of
the migrations. Their methods are proved equal to functions on values, and the theorems are
about those functions, for all inputs or all runs. What the code gets from a library is a
parameter with the law the code relies on stated as a predicate: HMAC and SHA-256
(`MacInjective`, `Injective`), Fernet and JSON (`Sound`), `str.lower`, regular expressions,
the clock.

## Where the code does not do what one would expect

Each of these is a lemma with a concrete input, a condition that holds if and only if the
expected behaviour does, or both.

- A cycle is reported with its first revision at the end twice: the path already ends in
  it when line 149 of `analyze_migrations.py` appends it (`CycleSearches.ReportedCycle`, which `DetectCycles` ensures).
- `find_roots` says "no parents" but looks for no references. The two agree on a revision
  if and only if it has no reference or one that exists (`MigrationGraphs.RootsWithoutParents`);
  `MergeHeads.BrokenRevisionIsNoRoot` is the smallest disagreement.
- Writing the suggested merges keeps all ancestors if and only if no merge lies on a cycle
  and ties between parents are broken by a third (`MergeParents.ReductionExactly`), so on
  every acyclic map; `MergeParents.CyclicMapLosesAncestors` is a map that loses some.
- A row stays pending, and its key is answered with 409 for ever, if and only if nothing
  but the pending status was in force at the claimer's last commit
  (`IdempotencyReplay.PendingExactly`, `PendingForEver`); a handler that works, commits and
  then fails does that (`PendingHappens`).
- A warning is attributed to the test named last before the next warning, which may be a
  later test (`WarningsLog.AttributedToLaterTest`, `AttributedWhen`).
- Message and file are not separated in a signature key: warnings of two files share a
  signature if and only if one file name absorbs the end of the other's message at a bar
  (`WarningsAggregate.SharedSignature`). Without bars in file names signatures are exact
  (`SignatureDetermines`).
- A third-party `RuntimeWarning` that was "never awaited" but mentions no coroutine is
  high-risk and can still be filtered (`WarningsFilter.HighRiskCanBeDropped`,
  `HighRiskDropped`). The gate does not depend on the allowlist.
- The first PII migration creates its unique index over e-mail hashes without the
  organisation, so the backfill fails if the addresses of two clients agree after stripping
  and lower-casing, even in two organisations (`PiiClients.SucceedsWhenAddressesDiffer`);
  the rekey that follows only forbids duplicates inside one organisation.
- Running the backfill twice encrypts names and phones of rows without an e-mail a second
  time, exactly those (`PiiRekey.SecondBackfill`, `SecondWorkerBackfill`), and exactly the
  phones of such workers no longer read as they were (`PiiRows.WorkerRerun`).

## Model

| member | source | states |
|---|---|---|
| MigrationGraphs.MigrationGraph.constructor | analyze_migrations.py:82-87 | the graph object holds, for every revision, exactly the children and the parents that the references of all migrations give, in order and with their repetitions |
| MigrationGraphs.MigrationGraph.BuildGraph | analyze_migrations.py:89-112 | the loop over the migrations fills both maps as the step-by-step functions say |
| MigrationGraphs.MigrationGraph.LinkDownRevision | analyze_migrations.py:92-103 | one `down_revision`, string or tuple, adds its existing entries to both maps |
| MigrationGraphs.MigrationGraph.LinkDependencies | analyze_migrations.py:105-112 | `depends_on` adds a child every time and a parent only if it is not listed yet |
| MigrationGraphs.GraphBuilt | analyze_migrations.py:89-112 | filling the maps one append at a time gives, for each revision, the list computed for that revision alone |
| MigrationCatalog.EdgesAreReferences | analyze_migrations.py:89-112 | an edge is in either map if and only if both revisions exist and one names the other; both maps are acyclic or neither is |
| MigrationGraphs.MigrationGraph.FindHeads | analyze_migrations.py:114-120 | exactly the revisions without children, sorted, each once |
| MigrationGraphs.MigrationGraph.FindRoots | analyze_migrations.py:122-129 | exactly the revisions without references, sorted, each once; for a revision this says the same as having no parents if and only if it has no reference or one that exists |
| MigrationGraphs.RootsWithoutParents | analyze_migrations.py:122-129 | on every graph, "no references" and "no parents" agree on a revision if and only if it has no reference or one that names a migration |
| MigrationGraphs.MigrationGraph.FindBrokenChains | analyze_migrations.py:169-186 | exactly the references to missing revisions, in the order they are met; none if and only if no chain is broken |
| MigrationCatalog.BrokenIsEmpty | analyze_migrations.py:169-186 | the report is empty if and only if every reference names a migration |
| MigrationGraphs.MigrationGraph.DetectCycles | analyze_migrations.py:139-167 | empty if and only if no revision reaches itself, on every finite graph; every reported list without its last entry is a simple directed cycle; every revision on a cycle shares a strongly connected component with the first revision of some report |
| CycleSearches.CycleSearch.Visit | analyze_migrations.py:145-161 | the recursion ends, restores the stack, keeps what was found, and has left the revision or reported a cycle that closes with the edge to it |
| CycleSearches.CycleSearch.VisitChildren | analyze_migrations.py:158-159 | after the loop every child has been left, or a reported cycle closes with the edge to it |
| CycleSearches.CycleFromPath | analyze_migrations.py:146-150 | the recursion path is the stack without repeats, so cutting it at the repeated revision gives a simple cycle |
| CycleSearches.ComponentIsReported | analyze_migrations.py:139-167 | in a list in which every child comes earlier or closes a reported cycle, every revision on a cycle has a report in its strongly connected component |
| MigrationGraphs.SearchCycles | analyze_migrations.py:163-167 | the loop over all revisions leaves such a list, with all of them |
| MigrationGraphs.MigrationGraph.GetPathToRoot | analyze_migrations.py:188-215 | ends on every graph; the path ends in the requested revision, repeats nothing, follows first `down_revision` entries, and could not have gone on |
| MigrationGraphs.PathWalk.Extend | analyze_migrations.py:188-215 | one recursive call with the shared visited set: what it returns, what it marks, and where it stops |
| MigrationGraphs.PathStartsAtRoot | analyze_migrations.py:188-215 | on an acyclic graph without broken chains the path starts at a revision without `down_revision` |
| MergeHeads.HeadAbove | analyze_migrations.py:114-120 | on an acyclic graph every revision is a head or an ancestor of one |
| MergeHeads.HeadsAreApart | analyze_migrations.py:114-120 | no head is an ancestor of another |
| MergeHeads.RootBelow | analyze_migrations.py:122-129 | on an acyclic graph without broken chains every revision is or descends from a root |
| MergeHeads.BrokenRevisionIsNoRoot | analyze_migrations.py:122-129 | an example of the disagreement: a revision without parents in the graph that is no root |
| MergeHeads.MergeIsTheHead | analyze_migrations.py:346-353 | merging all heads under a new name keeps the graph acyclic, leaves that one head, and gives it every other revision as an ancestor |
| MergeHeads.MergeIsNotRedundant | backend/scripts/check_alembic_merge_parents.py:97-107 | the merge audit finds no redundant parent in that merge |
| MergeParents.IsAncestor | backend/scripts/check_alembic_merge_parents.py:66-81 | ends on every map, cyclic or not, and is true if and only if the two differ and one reaches the other over parents |
| MergeParents.PushParents | backend/scripts/check_alembic_merge_parents.py:78-80 | the parents not seen yet are on the stack, and nothing is lost from it |
| MergeParents.FindsOther | backend/scripts/check_alembic_merge_parents.py:102-107 | the inner loop finds another parent exactly if one descends from this one |
| MergeParents.RedundantParents | backend/scripts/check_alembic_merge_parents.py:100-107 | the redundant parents, in order and with repetitions |
| MergeParents.RemainingParents | backend/scripts/check_alembic_merge_parents.py:109 | the suggestion is exactly the parents that no other parent descends from |
| MergeParents.Audit | backend/scripts/check_alembic_merge_parents.py:94-131 | the problems of all merges and the exit status |
| MergeParents.BuildParentsMap | backend/scripts/check_alembic_merge_parents.py:94 | exactly the revisions of the files, each with the parents of the last file that has it |
| MergeParents.ReductionExactly | backend/scripts/check_alembic_merge_parents.py:97-118 | on every map, writing all suggestions at once changes no ancestors if and only if no revision with two different parents lies on a cycle and, of two parents that reach each other, some other parent is strictly above |
| MergeParents.ReductionKeepsAncestors | backend/scripts/check_alembic_merge_parents.py:97-118 | so it changes none on any acyclic map |
| MergeParents.SuggestionIsAntichain | backend/scripts/check_alembic_merge_parents.py:97-118 | a suggestion is empty only if the parents were, and no entry is an ancestor of another |
| MergeParents.ReductionIsLeast | backend/scripts/check_alembic_merge_parents.py:97-118 | every other way of dropping parents without losing ancestors keeps at least these |
| MergeParents.SecondRunIsClean | backend/scripts/check_alembic_merge_parents.py:94-131 | on every map, after the suggestions are written into the files a second run reports nothing; ancestors are as before exactly under that condition |
| MergeParents.CyclicMapLosesAncestors | backend/scripts/check_alembic_merge_parents.py:97-118 | an example of the loss: on a cyclic map the suggestion can be empty |
| IdempotencyRecords.FailedHttpStatus | backend/app/api/idempotency.py:32-37 | a failure is never replayed with a status below 400 |
| IdempotencyRecords.SuccessIsStored | backend/app/api/idempotency.py:40-58 | a replay below 400 repeats the stored status and body; `Retry-After` marks exactly the pending rows |
| IdempotencyRecords.FailureReplaysAs500 | backend/app/api/idempotency.py:94-103 | what `mark_failed` stores is replayed as the same 500 document |
| IdempotencyRecords.IdempotencyContext.SaveResponse | backend/app/api/idempotency.py:84-92 | stores status and, if it is a dictionary or a list, body; does nothing beside an existing response |
| IdempotencyRecords.IdempotencyContext.MarkFailed | backend/app/api/idempotency.py:94-103 | stores the failure sentinel and document; does nothing beside an existing response |
| IdempotencyRecords.AdminIdempotency.constructor | backend/app/api/idempotency.py:122-129 | a record is inserted pending, without a body |
| IdempotencySessions.Session.InsertOrNothing | backend/app/api/idempotency.py:132-141 | inserts if neither a committed row nor one of its own has the slot, and counts it |
| IdempotencySessions.RequireIdempotency | backend/app/api/idempotency.py:106-169 | without a key 400 and no row; on a free slot a pending row and the context; on a taken one the replay, or 409 for another fingerprint, and no row |
| IdempotencySessions.CallIsTheProtocol | backend/app/api/idempotency.py:122-169 | whatever others do between insert and lookup, a request ends as that call does on the rows of those moments |
| Idempotency.StepKeepsInv | backend/app/api/idempotency.py:106-169 | every step of every request keeps the invariant that ties rows, owners, contexts and answers together |
| Idempotency.RunKeepsInv | backend/app/api/idempotency.py:106-169 | every run keeps it |
| Idempotency.OneClaim | backend/app/api/idempotency.py:141-167 | at most one request at a time holds the context of a slot, and of a committed row only the one that committed it |
| Idempotency.WorkedOnce | backend/app/api/idempotency.py:141-167 | all committed work of a slot was done by the one request that claimed it |
| Idempotency.LookupFinds | backend/app/api/idempotency.py:143-149 | the select after the insert finds its row in every interleaving |
| Idempotency.StepKeepsRows | backend/app/api/idempotency.py:84-103 | a committed row changes only in a commit of its claimer; its fingerprint and claimer never change |
| Idempotency.RunKeepsRows | backend/app/api/idempotency.py:84-103 | the same over every run |
| Idempotency.MismatchIsConflict | backend/app/api/idempotency.py:151-158 | a fingerprint other than the committed one gets 409, writes nothing and never gets the context |
| Idempotency.SuccessWasSaved | backend/app/api/idempotency.py:40-58 | a replay below 400 was passed to `save_response` by the claimer, not by the replayed request |
| Idempotency.AnswersFollowRow | backend/app/api/idempotency.py:143-169 | as long as the claimer does not commit again, the row does not change and every answer is its verdict |
| Idempotency.SettledForEver | backend/app/api/idempotency.py:143-169 | once the claimer has returned, that holds for ever |
| IdempotencyReplay.RowIsLived | backend/app/api/idempotency.py:84-103 | in every run a committed row is what the saves, failure marks, rollbacks and commits of its claimer make of it, and nothing else counts |
| IdempotencyReplay.InForceExactly | backend/app/api/idempotency.py:84-103 | the record holds the last write that no rollback has undone, and is pending if there is none |
| IdempotencyReplay.RowIsWriteInForce | backend/app/api/idempotency.py:84-103 | in every run a committed row holds the write in force at its claimer's last commit |
| IdempotencyReplay.FinalResponseIsReplayed | backend/app/api/idempotency.py:84-169 | once a claimer has saved a response and committed it, every later request with the same fingerprint gets exactly the saved status and storable body, and every other one 409, until the claimer commits again |
| IdempotencyReplay.PendingExactly | backend/app/api/idempotency.py:40-43 | a committed row is pending if and only if at its claimer's last commit no failure mark was in force and no save of another status |
| IdempotencyReplay.PendingForEver | backend/app/api/routes_admin.py:6515-6588 | then, when the claimer has returned, the key is answered 409 for ever and never claimed again |
| IdempotencyReplay.PendingHappens | backend/app/api/routes_admin.py:6515-6588 | a run in which a handler works, commits and fails: committed work and a pending row |
| Idempotency.AbortFreesSlot | backend/app/api/idempotency.py:122-148 | a claimer that ends without a commit, even between its insert and its select, lets a waiting request claim the slot |
| Base64Url.RepadRestores | backend/app/api/photo_tokens.py:63-72 | stripping `=` and adding `-len % 4` of them restores the text, for every byte string |
| Base64Url.ScanInverts | backend/app/api/photo_tokens.py:74 | the lenient decoder inverts the padded text (section 5 of RFC 4648) |
| Base64Url.RoundTrip | backend/app/api/photo_tokens.py:61-76 | decoding undoes encoding |
| PhotoTokens.NormalizeTwice | backend/app/api/photo_tokens.py:50-58 | a normalised variant is its own normalisation |
| PhotoTokens.LastDot | backend/app/api/photo_tokens.py:69-71 | the last dot, if there is one |
| PhotoTokenProofs.LastDotAt | backend/app/api/photo_tokens.py:71 | splitting at the last dot recovers both parts |
| PhotoTokenProofs.DecodeUndoesEncode | backend/app/api/photo_tokens.py:61-84 | decoding a printed payload gives the payload and its signature |
| PhotoTokenProofs.OnlySignedPayloads | backend/app/api/photo_tokens.py:68-84 | what is accepted carries the MAC of the bytes the payload was read from |
| PhotoTokenProofs.CheckUndoesBuild | backend/app/api/photo_tokens.py:123-152 | for all arguments: a built token checks out to the stripped ids, expiry, variant and resource it was built for, and is refused exactly for empty ids or another bound agent |
| PhotoTokenProofs.ParsePayload | backend/app/api/photo_tokens.py:87-112 | parsing the claims of a built payload |
| PhotoTokenProofs.BuildFails | backend/app/api/photo_tokens.py:133-137 | building fails exactly on an unknown resource or a malformed variant |
| PhotoTokenProofs.BuiltLinkOpens | backend/app/api/photo_tokens.py:180-192 | before `exp` a built link returns what it was built for, from `exp` on 401 |
| PhotoTokens.RedisStore.Set | backend/app/api/photo_tokens.py:173 | set if absent, with expiry |
| PhotoTokens.EnforceOneTime | backend/app/api/photo_tokens.py:165-177 | the effect on the store, and 410 exactly if the key was there |
| PhotoTokens.VerifyPhotoDownloadToken | backend/app/api/photo_tokens.py:180-192 | the result and the store afterwards, for every token |
| PhotoTokenProofs.SignatureFixesExpiry | backend/app/api/photo_tokens.py:165-192 | two genuine tokens with one signature expire together |
| PhotoTokenProofs.HeldUntilExpiry | backend/app/api/photo_tokens.py:165-192 | after a token was let through, its key stays in the store until the token has expired, whatever is verified meanwhile |
| PhotoTokenProofs.HeldMeansOpened | backend/app/api/photo_tokens.py:165-192 | a key is in the store only if its signature was let through |
| PhotoTokenProofs.OpensExactlyOnce | backend/app/api/photo_tokens.py:115-192 | in one-time mode, in every run with a clock that does not go back, a genuine token is let through if and only if it has not expired and its signature was not let through before |
| WarningsLog.ParseSummary | backend/scripts/warnings_audit.py:215-279 | the loop with one pending warning computes the plain segmentation of the lines |
| WarningsLog.OnePerStart | backend/scripts/warnings_audit.py:232-279 | exactly one warning per warning line, in order, with its file, line, category and message |
| WarningsLog.SegmentAt | backend/scripts/warnings_audit.py:232-279 | the raw text of each warning is its message and the lines up to the next warning |
| WarningsLog.AttributedWhen | backend/scripts/warnings_audit.py:226-247 | a warning goes to the test named before it if and only if no other test is named last before the next warning |
| WarningsLog.AttributedToLaterTest | backend/scripts/warnings_audit.py:226-247 | a log in which a warning goes to the test after it |
| WarningsLog.ParseLog | backend/scripts/warnings_audit.py:192-303 | summary warnings first, then every inline match outside the summary |
| WarningsAggregate.AggregateWarnings | backend/scripts/warnings_audit.py:306-338 | the grouping loop computes the groups of all warnings |
| WarningsAggregate.GroupCounts | backend/scripts/warnings_audit.py:310-336 | a signature is listed if and only if a warning has it, with the number of those warnings and the first five distinct tests |
| WarningsAggregate.GroupIsFirstSeen | backend/scripts/warnings_audit.py:318-331 | everything else comes from the first warning with the signature, with message, full text and example cut to 200, 1000 and 500 characters |
| WarningsAggregate.GroupsConserve | backend/scripts/warnings_audit.py:306-338 | the counts sum to the number of warnings, even if digests collide |
| WarningsAggregate.SameSignature | backend/scripts/warnings_audit.py:145-149 | without digest collisions, warnings of one signature have one category, whatever their files |
| WarningsAggregate.SharedSignature | backend/scripts/warnings_audit.py:145-149 | what a signature determines, exactly: category, line, and message and file up to moving a piece at a bar from the end of the message to the front of the file |
| WarningsAggregate.SignatureDetermines | backend/scripts/warnings_audit.py:145-149 | for file names without a bar a signature is shared if and only if category, normalised message, file and line agree |
| WarningsAggregate.FilesCanCollide | backend/scripts/warnings_audit.py:145-149 | a bar in a file name is enough for a collision with another file |
| WarningsAggregate.CategoriesConserve | backend/scripts/warnings_audit.py:306-338 | without digest collisions, the groups count the warnings of every set of categories exactly |
| WarningsFilter.ShouldFilter | backend/scripts/warnings_audit.py:356-389 | the exemptions and the allowlist loop drop a signature exactly if it is unprotected and an entry matches; empty and malformed patterns match nothing |
| WarningsFilter.ApplyNoiseFilter | backend/scripts/warnings_audit.py:341-396 | what is kept, in order, and the count of what is dropped |
| WarningsFilter.KeptAt | backend/scripts/warnings_audit.py:341-396 | exactly the signatures that are not dropped stay, unchanged |
| WarningsFilter.FilterConserves | backend/scripts/warnings_audit.py:341-396 | every measure of signatures splits into what is kept and what is dropped |
| WarningsFilter.HighRiskDropped | backend/scripts/warnings_audit.py:367-408 | a high-risk signature is dropped if and only if it is listed and a third-party `RuntimeWarning` that was never awaited and mentions no coroutine |
| WarningsFilter.HighRiskConserves | backend/scripts/warnings_audit.py:367-408 | the high-risk count shrinks by exactly the count of those signatures |
| WarningsFilter.HighRiskCanBeDropped | backend/scripts/warnings_audit.py:367-408 | such a signature exists |
| WarningsAudit.BuildTally | backend/scripts/warnings_audit.py:422-436 | the tally loops |
| WarningsAudit.TallyEntry | backend/scripts/warnings_audit.py:422-436 | each entry is the number of warnings with its category or file |
| WarningsAudit.TallyKeys | backend/scripts/warnings_audit.py:422-436 | there is an entry if and only if a signature has the key |
| WarningsAudit.BuildAuditResult | backend/scripts/warnings_audit.py:411-480 | origins, categories and listed signatures each sum to the total, the high-risk count is that of the high-risk signatures, the signatures are the given ones with most warnings first, and the top files have no more warnings than the total |
| WarningsAudit.AuditAddsUp | backend/scripts/warnings_audit.py:411-480 | origins, categories, files and listed signatures each sum to the total, and the high-risk count is the count of the high-risk signatures |
| WarningsAudit.TopFilesAreTop | backend/scripts/warnings_audit.py:433-437 | no file outside the top twenty has more warnings than one inside |
| Ranking.RankedIsStable | backend/scripts/warnings_audit.py:437-440 | sorting by descending count permutes, descends, and keeps the order of equal counts |
| WarningsAudit.RunAudit | backend/scripts/warnings_audit.py:739-756 | grouping, filtering and totalling in sequence: total plus filtered noise is the number of parsed warnings |
| WarningsAudit.CheckGateConditions | backend/scripts/warnings_audit.py:651-683 | the messages, and that the gate passes if and only if there are none |
| WarningsAudit.GateIgnoresAllowlist | backend/scripts/warnings_audit.py:651-683 | for every allowlist the gate has the messages it has for the unfiltered signatures |
| WarningsAudit.GateSeesEveryRemoval | backend/scripts/warnings_audit.py:659-666 | without digest collisions the gate reports exactly the number of pytest removal warnings in the log |
| PiiRows.EncryptedReadsSame | backend/alembic/versions/20231027_1400_rekey_blind_indexes.py:63-86 | decrypting what the backfill wrote into a cell gives what was in it |
| PiiRows.ClientMigrated | backend/alembic/versions/20231027_1200_encrypt_pii.py:93-109 | after both migrations a client's e-mail is encrypted, decrypts to the original and is indexed by the MAC of organisation and normalised address; name and phone decrypt to the originals |
| PiiRows.WorkerMigrated | backend/alembic/versions/20231027_1200_encrypt_pii.py:128-146 | the same for a worker, with the phone index |
| PiiRows.ClientRerun | backend/alembic/versions/20231027_1200_encrypt_pii.py:93-109 | a second backfill leaves a client as it is if and only if it has an e-mail, or neither name nor phone |
| PiiRows.WorkerRerun | backend/alembic/versions/20231027_1200_encrypt_pii.py:128-146 | a second backfill leaves a worker as it is if and only if it has an e-mail, or neither name nor phone; its phone reads as before if and only if it has an e-mail or no phone |
| PiiTables.Page | backend/alembic/versions/20231027_1200_encrypt_pii.py:83-89 | what LIMIT and OFFSET select in key order |
| PiiTables.PageRow | backend/alembic/versions/20231027_1200_encrypt_pii.py:82-112 | a page holds the next rows, and none that was updated before |
| PiiTables.MappedAt | backend/alembic/versions/20231027_1200_encrypt_pii.py:80-112 | each row is done exactly once |
| PiiTables.BackfillWorkers | backend/alembic/versions/20231027_1200_encrypt_pii.py:115-149 | for every batch size the loop visits the workers once each, in order, and encrypts each once |
| PiiClients.BackfillClientBatch | backend/alembic/versions/20231027_1200_encrypt_pii.py:93-111 | one transaction: all rows of the page, or none if a blind index is taken |
| PiiClients.BackfillClientUsers | backend/alembic/versions/20231027_1200_encrypt_pii.py:80-112 | for every batch size every client is done once; it fails at the first row whose index is taken, with the batches before committed by the session |
| PiiClients.SucceedsWhenUnique | backend/alembic/versions/20231027_1200_encrypt_pii.py:80-160 | it goes through if and only if its result satisfies the unique index |
| PiiClients.SucceedsWhenAddressesDiffer | backend/alembic/versions/20231027_1200_encrypt_pii.py:80-160 | on a table of plain addresses: if and only if no two clients share a normalised address, in whatever organisations |
| PiiRekey.RekeyTable | backend/alembic/versions/20231027_1400_rekey_blind_indexes.py:162-243 | for every batch size the rekey loop does each row once; it raises at the first row that does not decrypt, with the batches before committed by the session |
| PiiRekey.Upgrade | backend/alembic/versions/20231027_1400_rekey_blind_indexes.py:134-274 | when each of the four failures is raised and what the tables hold otherwise |
| PiiRekey.BothAt | backend/alembic/versions/20231027_1400_rekey_blind_indexes.py:162-243 | after backfill and rekey each row is the rekeyed backfilled original |
| PiiRekey.ClientsMigrated | backend/alembic/versions/20231027_1400_rekey_blind_indexes.py:162-259 | after a backfill no client raises, and the duplicate check fires if and only if two clients of one organisation share a normalised address |
| PiiRekey.EveryClientMigrated | backend/alembic/versions/20231027_1400_rekey_blind_indexes.py:162-199 | the whole table after both migrations: every e-mail is encrypted, decrypts to the original and has its organisation's index; names and phones keep their first encryption |
| PiiRekey.SecondBackfill | backend/alembic/versions/20231027_1200_encrypt_pii.py:80-112 | a second backfill of the clients goes through, and leaves the table as it is if and only if every client has an e-mail, or neither name nor phone |
| PiiRekey.SecondWorkerBackfill | backend/alembic/versions/20231027_1200_encrypt_pii.py:115-149 | the same for the workers, and which phones read as before |
| PiiRekey.BackfillRulesOutDuplicates | backend/alembic/versions/20231027_1400_rekey_blind_indexes.py:245-259 | clients that passed the first unique index pass the duplicate check |
| PiiRekey.WorkersMigrated | backend/alembic/versions/20231027_1400_rekey_blind_indexes.py:200-274 | after a backfill no worker raises, and the duplicate check fires if and only if two workers of one organisation share a normalised phone |
| PiiRekey.EveryWorkerMigrated | backend/alembic/versions/20231027_1400_rekey_blind_indexes.py:200-243 | the whole worker table after both migrations: e-mail and phone are encrypted, read as before and have their organisation's indexes |
| PiiRekey.SamePayload | backend/alembic/versions/20231027_1400_rekey_blind_indexes.py:117-131 | inside an organisation the hashed text determines the normalised value |
| TeamOverlap.OverlapIsSharedInstant | backend/alembic/versions/9d3e4f5a6b7c_booking_team_overlap_exclusion.py:47-51 | the range test holds if and only if the two bookings share an instant |
| TeamOverlap.CheckIsExact | backend/alembic/versions/9d3e4f5a6b7c_booking_team_overlap_exclusion.py:39-55 | a write is admitted if and only if the table satisfies the constraint afterwards |
| TeamOverlap.ValidationIsExact | backend/alembic/versions/9d3e4f5a6b7c_booking_team_overlap_exclusion.py:40-55 | adding the constraint row by row, in any order, succeeds if and only if the rows there satisfy it |
| TeamOverlap.RunKeepsExclusive | backend/alembic/versions/9d3e4f5a6b7c_booking_team_overlap_exclusion.py:39-55 | every run of inserts, reschedules, reassignments, status changes, archiving and deletes keeps the constraint |
| TeamOverlap.DisjointFit | backend/alembic/versions/9d3e4f5a6b7c_booking_team_overlap_exclusion.py:47-51 | pairwise disjoint bookings fill any window at most once |
| TeamOverlap.TeamIsNeverDoubleBooked | backend/alembic/versions/9d3e4f5a6b7c_booking_team_overlap_exclusion.py:32-55 | after any run, the active bookings of a team take up at most the length of any window inside it |
| TeamCleanup.Database.MergeNamed | backend/alembic/versions/0008_default_team_unique.py:28-53 | one name done: its first team stays and its bookings follow |
| TeamCleanup.Database.Upgrade | backend/alembic/versions/0008_default_team_unique.py:19-59 | whatever the order of the duplicated names, the result is the closed form over all names, with the default team added if missing |
| TeamCleanup.AllDone | backend/alembic/versions/0008_default_team_unique.py:25-53 | doing only the duplicated names, one by one, does all names at once |
| TeamCleanup.MigrationMakesNamesUnique | backend/alembic/versions/0008_default_team_unique.py:25-59 | names are unique afterwards, and are the names of before and the default one |
| TeamCleanup.BookingsFollow | backend/alembic/versions/0008_default_team_unique.py:39-46 | every booking is still there, for an existing team of the same name |
| TeamCleanup.BookingsMeet | backend/alembic/versions/0008_default_team_unique.py:39-46 | two bookings end up with one team if and only if their teams had one name |

## Left out

- Reading revision metadata and log lines with regular expressions or `ast`: the models start from parsed revisions, classified lines and matches with their offsets. Printing, the tree display, `find_branches` and argument parsing.
- HMAC, SHA-256, PBKDF2, Fernet, JSON and regular expressions themselves: parameters with stated laws. `str.lower`, `int` and `str` on JSON values are parameters too.
- Redis absent or raising, where the one-time check is skipped, and a Redis clock other than the server's: clock reading and SET are one step.
- Rounding of timestamps in `build_photo_download_token`: clock readings are real numbers.
- Idempotency.StepKeepsInv: models one INSERT, one SELECT or one commit as a step on values. Savepoints and isolation levels above read committed are not modelled. The body fingerprint, audit records, metrics and rate limits are left out.
- PiiRekey.RekeyTable: one loop with the row function as a parameter stands for the two loops, which differ only in it. Encryption draws its randomness from a function of row and column, since a run encrypts a cell at most once.
- PiiClients.BackfillClientUsers: what a failure leaves is what the session has committed. `backend/alembic/env.py` runs migrations in one transaction on the connection that the session joins, which a `commit` of the session does not end, so there a failing row undoes the whole migration; the same holds for PiiRekey.RekeyTable. That outer transaction is not modelled.
- PiiTables.BackfillWorkers: needs a positive batch size, as the migration passes 1000. With 0 the first page is empty and nothing is done. Rows inserted or deleted by others during the loops are not modelled.
- TeamOverlap.CheckIsExact: writes are serial, as the database makes conflicting ones wait. 32-bit minutes and the range of timestamps are not bounded. The separate unique index over active slots is not modelled.
- TeamCleanup.Database.Upgrade: the names are given as a list in any order. Tables other than bookings do not refer to teams at that revision.
- `extract_module` is a parameter of the log parser; JSON, Markdown and text reports of the audit are not modelled.
- The other migrations, `admin_auth.py`, `admin_safety.py`, `mfa.py`, `break_glass.py`, `entitlements.py`, the routes and the web UI: decision cascades, configuration, wrappers or I/O.
