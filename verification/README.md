# Verified model of the lawyer agent's protocols and text algorithms

This project models, in Dafny 4.11, the parts of the repository whose correctness depends on interleavings, on crashes
or on cursor arithmetic, and proves what those parts are for. `dafny verify dfyconfig.toml` checks all of it.

Code that works step by step is written as methods and classes that change their fields, loop and return as the
original does; each is proved against a specification function, and the theorems are lemmas about that function. A
concurrent protocol is a set of coroutines cut at its awaits: every segment is one function, every event runs one
segment, and the theorems range over all sequences of events.

## The parts

**Browser session transport** (`AuthTransport*.dfy`). Any number of tabs share one session storage. A world holds the
storage, each tab's `refreshing` and `selectionGeneration`, every coroutine started so far, and the holder of the
cross-tab lock. The server is trusted for two things only: a refresh answers for the account it renews, and a tenant
token is the one asked for. The first is exactly what is needed: `RefreshKeepsBindingIff` gives the condition under
which a refresh keeps the binding, and `ForeignRefreshUnbinds` a run in which it fails. Without a browser lock a
refresh and a logout can overlap (`WithoutLocksSectionsOverlap`).

The tabs, their closure variables and the shared storage are also there as objects (`AuthTransportTab`,
`AuthTransportBrowser`): performing an event on them is proved to be one step of the model. `AuthTransportAnswers` says
what each answer does to storage and tabs, that calls which nobody disturbs succeed, and that what ended well has done
its work at some moment of the run.

**Registration while index keys rotate** (`Identity*.dfy`). A transaction takes its locks one at a time, asks the
database, buffers its write, and commits or rolls back before it releases the locks. Uniqueness needs only that
keyrings of simultaneous transactions intersect, so any number of rotations is covered; for a given relation of which
workers may run together, that condition is also necessary. `IdentityOutcomes` gives the reason for every answer, in
every run, and what the two phases of a rollout are for.

**Two crash-prone imports** (`Tables`, `Faults`, `AttuImport*`, `WindowImport*`). The service applies any part of a
request before failing, replies may be lost, and the process may die at any effect; a state file is replaced as a
whole or not at all. Each program is a class whose every effect keeps one predicate over state file and table, and
that predicate is all a later start requires, so a crash anywhere is covered.

**Controlled corpus import** (`ContentHash`, `CorpusImport*`). The hash preimage has a decoder, and the decoder accepts
exactly the streams that hashing produces. The older hash joins texts without separators: it is characterised exactly,
and with it which second command for a version is replayed instead of refused. `ImportStores` says what is written.

**Hierarchical chunking** (`WindowPieces`, `ArticleUnits`, `Chunk*`). Paragraphs of a long article become
units, and units become sentence-aware windows. The search for a paragraph never fails. Windows always end later than
the ones before them if and only if the overlap is at most half a window (`PiecesRiseIff`).

**Article numbers** (`Article*.dfy`). A recursive definition of the standard Chinese numeral is compared with the loop
that prints one and the loop that parses one, and both with the numeral spelt from its decimal digits. The sequence gate
is compared with a declarative notion of a gapless sequence. The
last check of a reviewed interval is shown never to fire.

**Excerpts, coverage and fixed windows** (`Excerpt*`, `Coverage`, `Window{s,Checks}`). Merging of widened spans, the
interval sweep, and the grid of fixed windows with its two independent checks. The release check accepts lists that the
rebuilding check refuses; `ReleasedRebuildsIff` says exactly which, and `ReleasedNotRebuilt` shows one.

**Reading by pages and closing** (`Paging`, `Draining`). A client that follows signed cursors gets the whole text, and a
cursor of anything else is refused. The service counts the operations inside, admits none after it is closed, and a
close that reported it empty stays right.

**Idempotency** (`Idempotency*.dfy`, `Projection.dfy`). Reservations over compare-and-set updates, each statement one
step, and the projection of a request body onto its declared paths. A reservation that expired and was handed on can
still be the one that completes (`SupersededHolderCanComplete`), but never both.

**Batch writer** (`Packing`, `BatchWriter`). Records packed into files, with the bound on the number of files.

`Common`, `Numbers`, `Sequences`, `Sorting` and `Tables` hold what several parts share.

Assumptions made throughout: digests and encodings are injective (a digest is represented by what was digested), UTF-8
encodes a text part by part, fresh ids differ from all earlier ones, and nobody else writes to the tables and files.

## Model

| member | source | states |
|---|---|---|
| AuthTransportSafety.TenantTokenAlwaysBound | frontend/src/auth/transport.ts:67-139 | in every interleaving over any number of tabs, a stored tenant token belongs to the stored account and active membership, and a request on the network carries only a credential of the identity captured for it |
| AuthTransportSafety.RefreshKeepsBindingIff | frontend/src/auth/transport.ts:79-82 | committing a refreshed account token keeps the binding if and only if no tenant token is stored or the new token names the old account |
| AuthTransportSafety.ForeignRefreshUnbinds | frontend/src/auth/transport.ts:76-82 | a run in which a refresh answering for another account leaves the old tenant token beside the new account |
| AuthTransportSafety.OneRefreshPerTab | frontend/src/auth/transport.ts:68-93 | two unsettled refreshes of one tab are the same, and `refreshing` names it |
| AuthTransportSafety.LockedSectionsNeverOverlap | frontend/src/auth/transport.ts:73-92 | with the cross-tab lock at most one refresh or logout of all tabs is inside it |
| AuthTransportSafety.WithoutLocksSectionsOverlap | frontend/src/auth/transport.ts:19-22 | without the browser lock a run exists in which a refresh and a logout overlap |
| AuthTransportSafety.OvertakenSelectionNeverCommits | frontend/src/auth/transport.ts:122-130 | a selection overtaken by a later selection, login or logout of its tab never commits, whatever happens afterwards |
| AuthTransportSafety.ReturnedResponseKeepsIdentity | frontend/src/auth/transport.ts:98-120 | a fetch returns a response only in a step that finds the identity captured before the first send still current |
| AuthTransportSafety.StepKeepsProtocol | frontend/src/auth/transport.ts:67-139 | every segment of every coroutine keeps single flight and exact lock ownership |
| AuthTransportSafety.StepKeepsBound | frontend/src/auth/transport.ts:67-139 | every segment with a trusted answer keeps the token binding and the credentials in flight bound |
| AuthTransportSafety.StepAdvancesFetch | frontend/src/auth/transport.ts:95-121 | a step leaves a fetch pending with the same captured identity, fails it, or returns while that identity holds |
| AuthTransportBrowser.Browser.Perform | frontend/src/auth/transport.ts:28-141 | performing any event on the tab objects and their shared storage is exactly one step of the model, or nothing where the model has no step |
| AuthTransportBrowser.Browser.PerformAll | frontend/src/auth/transport.ts:28-141 | performing events one after another is a run, and with an honest server the storage object ends with its tenant token bound to its account and membership |
| AuthTransportTab.Transport.EnsureSession | frontend/src/auth/transport.ts:67-73 | joins the refresh in flight, returns at once when none is needed, or starts one with the token and identity of that moment |
| AuthTransportSafety.RotatedTokenIsNotRefreshed | frontend/src/auth/transport.ts:71-90 | a refresh started on one token and granted the lock after anything other tabs did goes to the network if and only if that token is still stored or the stored one is stale; otherwise it restores the tenant token of what is stored now |
| AuthTransportTab.Transport.OnRefreshReply | frontend/src/auth/transport.ts:76-78 | the answer is dropped when the identity changed, and a 401 clears the session |
| AuthTransportTab.Transport.OnRefreshBody | frontend/src/auth/transport.ts:79-85 | the new token is stored only if the identity still holds, then the tenant phase starts |
| AuthTransportTab.Transport.OnTenantRestored | frontend/src/auth/transport.ts:86-89 | the tenant token is stored only for the same account and membership |
| AuthTransportTab.Transport.OnSelectReply | frontend/src/auth/transport.ts:126-129 | tenant and token are stored together, and only for the same account and generation |
| AuthTransportTab.Transport.OnLogoutReply | frontend/src/auth/transport.ts:131-138 | the session fields are emptied and the generation raised unless the request failed with anything but a 401, and then nothing changes |
| AuthTransportTab.Transport.OnFirstReply | frontend/src/auth/transport.ts:110-117 | a 401 with an unchanged credential forces one refresh; otherwise the outcome is that of the segment function |
| AuthTransportTab.Transport.AcceptLogin | frontend/src/auth/transport.ts:139 | a login replaces the account, drops tenant and tenant token, and overtakes pending selections |
| AuthTransportAnswers.LogoutAnswered | frontend/src/auth/transport.ts:131-138 | an answer to a logout empties the session, raises the generation and ends well if and only if it is a success or a 401; otherwise nothing changes and it fails |
| AuthTransportAnswers.RefreshAnswered | frontend/src/auth/transport.ts:76-79 | an answer to a refresh is given up when lost or when the account changed, empties the session on a 401, and is read otherwise |
| AuthTransportAnswers.BodyRead | frontend/src/auth/transport.ts:79-87 | the new account token is stored if and only if one was granted and the account is the same; an active tenant is asked for next |
| AuthTransportAnswers.TenantAnswered | frontend/src/auth/transport.ts:57-90 | the derived token is stored if and only if it was granted and account and membership are still those it was asked for |
| AuthTransportAnswers.SelectionAnswered | frontend/src/auth/transport.ts:126-129 | a selection stores tenant and token if and only if the token was granted for the stored account and nothing overtook it |
| AuthTransportAnswers.LoggedInFresh | frontend/src/auth/transport.ts:139 | a login leaves its token and nothing else stored |
| AuthTransportAnswers.LockGranted | frontend/src/auth/transport.ts:73-87 | what a refresh does first under the lock, for any stored and remembered token |
| AuthTransportAnswers.RefreshSettles | frontend/src/auth/transport.ts:92 | the end of a refresh makes room for the next one of its tab |
| AuthTransportAnswers.EnsureStarts | frontend/src/auth/transport.ts:67-73 | a refresh is started if and only if none is in flight, there is anything to renew, and it is forced or a token in use runs out |
| AuthTransportAnswers.SelectionStarts | frontend/src/auth/transport.ts:122-124 | a selection raises the generation and remembers it |
| AuthTransportAnswers.SelectionGoesOn | frontend/src/auth/transport.ts:124-127 | a selection asks for its token if and only if the session was renewed and nothing overtook it |
| AuthTransportAnswers.LogoutStarts | frontend/src/auth/transport.ts:131-133 | a logout overtakes the selections of its tab and waits for the lock |
| AuthTransportAnswers.FetchStarts | frontend/src/auth/transport.ts:97-110 | a fetch waits for the session if and only if a token it needs runs out, and is otherwise sent with what is stored |
| AuthTransportAnswers.FetchGoesOn | frontend/src/auth/transport.ts:97-110 | a fetch that waited is sent if and only if the session was renewed, with what is stored by then |
| AuthTransportAnswers.FirstAnswered | frontend/src/auth/transport.ts:110-117 | which first answers are returned, fail, are sent again at once, or renew the session first |
| AuthTransportAnswers.RetryGoesOn | frontend/src/auth/transport.ts:114-117 | the second send happens if and only if the session was renewed and is the same and the caller has not given up, with the credential of that moment |
| AuthTransportAnswers.SecondAnswered | frontend/src/auth/transport.ts:117-120 | the second answer is returned if and only if the session is still the one captured |
| AuthTransportAnswers.UndisturbedLogout | frontend/src/auth/transport.ts:131-138 | from any world with a free lock, the events of a confirmed logout end with nothing stored and the lock free |
| AuthTransportAnswers.UndisturbedRefresh | frontend/src/auth/transport.ts:67-94 | from any such world, the events of an answered refresh end with the granted tokens stored and the tab as it was |
| AuthTransportAnswers.UndisturbedSelection | frontend/src/auth/transport.ts:122-130 | the events of an answered selection in a good session end with tenant and token stored |
| AuthTransportAnswers.LoggedOutMeansEmptied | frontend/src/auth/transport.ts:131-138 | in every run, a logout that ended well had emptied the session at the moment it ended |
| AuthTransportAnswers.SelectedMeansStored | frontend/src/auth/transport.ts:122-130 | in every run, a selection that ended well had stored its tenant with the granted token while nothing had overtaken it |
| IdentityRuns.UniqueIffPairsIntersect | backend/src/lawyer_agent/application/identity.py:614-623 | for runs in which only given pairs of workers run at the same time, no identity gets two rows if and only if the keyrings of those pairs intersect |
| IdentityRuns.UniqueIffKeyringsIntersect | backend/src/lawyer_agent/application/identity.py:614-623 | when any workers of a set may run at the same time, no run gives one identity two rows if and only if their keyrings pairwise intersect |
| IdentityRuns.OneAtATimeNeedsNothing | backend/src/lawyer_agent/application/identity.py:319-325 | while transactions run one at a time, identities stay unique whatever the keyrings are |
| IdentityRuns.OneRowPerIdentity | backend/src/lawyer_agent/application/identity.py:319-337 | in every run of registrations and reindexing logins in which the keyrings of simultaneous transactions overlap, through any number of rotations, an identity has at most one row |
| IdentityRuns.OneLegacyVersionSuffices | backend/src/lawyer_agent/application/identity.py:185-225 | workers that passed the rollout policy with one legacy version keep identities unique |
| IdentityRuns.FoundOrUnavailable | backend/src/lawyer_agent/application/identity.py:421-439 | under the same assumption a row is at any time the one record every worker with its key version finds, and all other workers fail closed |
| IdentityRuns.NoDeadlock | backend/src/lawyer_agent/application/identity.py:614-623 | while any transaction is unfinished some transaction can take its next step |
| IdentityRuns.DisjointKeyringsDuplicate | backend/src/lawyer_agent/application/identity.py:619-621 | two workers without a common version that run at the same time can register one person twice |
| IdentitySafety.StepKeepsInvariant | backend/src/lawyer_agent/application/identity.py:319-337 | every database call, commit, rollback and lost commit answer of every transaction keeps lock ownership, unique rows and what each transaction knows |
| IdentitySafety.InsertKeepsInvariant | backend/src/lawyer_agent/application/identity.py:363-395 | committing an insertion made under all locks keeps identities unique |
| IdentitySafety.ReindexKeepsInvariant | backend/src/lawyer_agent/application/identity.py:533-538 | committing a row's move to the active key under all locks keeps identities unique |
| IdentityTransaction.Transaction.Advance | backend/src/lawyer_agent/application/identity.py:473-486 | one call of a registration or login: lock, check, find, write, commit or release, with what each check decides |
| IdentityTransaction.Transaction.Abort | backend/src/lawyer_agent/infrastructure/persistence/repositories/identity.py:262-284 | an exception rolls the write back: the table is as it was, and the locks are given up next |
| IdentityTransaction.Database.FindByBlindIndexes | backend/src/lawyer_agent/infrastructure/persistence/repositories/identity.py:62-90 | the rows of the same kind and issuer whose digest is one of the keyring's under the row's version |
| IdentityOutcomes.CheckDecides | backend/src/lawyer_agent/application/identity.py:421-439 | both operations are unavailable if and only if some row is under a key version the worker lacks |
| IdentityOutcomes.FindDecides | backend/src/lawyer_agent/application/identity.py:323-329 | a registration conflicts if and only if the worker can find a row of the person |
| IdentityOutcomes.LookDecides | backend/src/lawyer_agent/application/identity.py:460-486 | a login is rejected unless exactly one row is found, and looks again under the locks if that is under another key |
| IdentityOutcomes.VerifyDecides | backend/src/lawyer_agent/application/identity.py:488-538 | a login is good if and only if the password fits and the row carries the subject; a row under another key is then moved |
| IdentityOutcomes.CommitWrites | backend/src/lawyer_agent/application/identity.py:363-395 | a commit appends the one row, or moves the one row to the active key and changes no other |
| IdentityOutcomes.AnswersHaveReasons | backend/src/lawyer_agent/application/identity.py:305-550 | in every run, each answer was decided at a step whose table is the reason for it: a success appended the row of a person without one, or checked a fitting password against the own row; a refusal had its cause |
| IdentityOutcomes.UndisturbedRegistration | backend/src/lawyer_agent/application/identity.py:305-395 | a new person, registered by a worker that has all versions in use, succeeds from any world with the locks free, which are free again |
| IdentityOutcomes.UndisturbedLogin | backend/src/lawyer_agent/application/identity.py:452-550 | a login with a fitting password succeeds from any such world and leaves the row under the active key |
| IdentityOutcomes.CompatiblePhaseServesAll | backend/src/lawyer_agent/application/identity.py:185-225 | while all workers are in the compatible phase, a worker that has only the legacy version is never shut out |
| IdentityOutcomes.RotationShutsOut | backend/src/lawyer_agent/application/identity.py:203-209 | one registration under a new version shuts out every worker without it |
| Tables.InclusionAndCountForceEquality | tools/milvus_query/legal_query/window_corpus.py:514-527 | a table that includes distinct rows and has as many entries is exactly those rows |
| AttuImport.ResumeNeverRejects | scripts/import_attu_jsonl.py:280-303 | every state the program leaves behind passes all checks made before resuming |
| AttuImport.ResumeAcceptedIff | scripts/import_attu_jsonl.py:280-303 | for any table another writer may leave, a state is accepted if and only if the rows found of its pending group are unchanged and as many others are there as were acknowledged |
| AttuImport.UpsertSound | scripts/import_attu_jsonl.py:339-355 | an upsert that applied any subset of the pending group keeps the table between the acknowledged rows and that group |
| AttuImport.NextGroupIsAbsent | scripts/import_attu_jsonl.py:331-335 | nothing of the next group is in the table before it is recorded as pending |
| AttuImport.LateUpsertSound | scripts/import_attu_jsonl.py:339-346 | an upsert that timed out and is applied while the next check reads the table still leaves it between the acknowledged rows and the pending group |
| AttuImport.LateUpsertRejectedIff | scripts/import_attu_jsonl.py:339-346 | the check that read the rows before such an upsert and counts after it rejects if and only if the upsert added a row, and the next start passes |
| AttuImport.AcknowledgeSound | scripts/import_attu_jsonl.py:355-364 | advancing the cursor after a full upsert keeps state and table consistent |
| AttuImport.EndIsComplete | scripts/import_attu_jsonl.py:384-387 | after the last file the table equals the source and the final count agrees |
| AttuImportRun.World.Run | scripts/import_attu_jsonl.py:244-404 | one start after any crashes never rejects; without failures it pauses if and only if the limit is reached, having made just so many requests, and otherwise verifies; a state file that says verified is right even if the process dies behind its last effect |
| AttuImportRun.World.Campaign | scripts/import_attu_jsonl.py:244-404 | any number of starts, each stopped anywhere, keeps the consistency predicate, never meets a rejected state, and a state file that says verified is right |
| AttuImportRun.World.ImportGroup | scripts/import_attu_jsonl.py:329-364 | records the group, sends it, acknowledges it; every way out leaves a resumable state |
| AttuImportRun.World.SendPending | scripts/import_attu_jsonl.py:339-355 | up to three attempts, each after checking that only own unchanged rows are there |
| AttuImportRun.World.RecordPending | scripts/import_attu_jsonl.py:331-337 | the write-ahead record is saved before anything of the group is written |
| AttuImportRun.World.ImportFiles | scripts/import_attu_jsonl.py:320-397 | the loop over files ends verified, paused or stopped, verified only with equality |
| WindowImport.BatchIsSlice | tools/milvus_query/legal_query/window_corpus.py:320-328 | batch k is the k-th slice of 128 rows, so the batches tile the release |
| WindowImport.CollectBatches | tools/milvus_query/legal_query/window_corpus.py:320-328 | the accumulating loop yields exactly those batches |
| WindowImport.UpsertBatchSound | tools/milvus_query/legal_query/window_corpus.py:488-497 | a partially applied batch leaves only own rows, with every checkpointed batch complete |
| WindowImportRun.World.Run | tools/milvus_query/legal_query/window_corpus.py:445-545 | publishes a receipt only with the collection equal to the release, refuses only the state of another release or of another program, library, snapshot or target, and publishes when nothing fails |
| WindowImportRun.World.Campaign | tools/milvus_query/legal_query/window_corpus.py:465-545 | after any runs with crashes, for any releases, a receipt that is out names a release the collection equals |
| WindowImportRun.World.VerifyBatches | tools/milvus_query/legal_query/window_corpus.py:514-527 | reading every batch back and counting forces equality |
| WindowImportRun.World.RetireReceipt | tools/milvus_query/legal_query/window_corpus.py:471-474 | the old receipt is moved away before anything is written |
| ContentHash.PreimageInjective | backend/src/lawyer_agent/application/legal_corpus_import.py:260-306 | equal byte streams come from equal parser versions and equal draft lists |
| ContentHash.DecodePreimage | backend/src/lawyer_agent/application/legal_corpus_import.py:260-306 | the stream determines the parser version and every draft, field by field, for lengths below 2^64 |
| ContentHash.PreimageDecode | backend/src/lawyer_agent/application/legal_corpus_import.py:260-306 | the decoder accepts exactly the streams that hashing produces |
| CorpusImport.ExactHashInjective | backend/src/lawyer_agent/application/legal_corpus_import.py:260-279 | for exact parsers the hash inputs are equal if and only if the drafts are |
| CorpusImport.OlderHashIff | backend/src/lawyer_agent/application/legal_corpus_import.py:280-282 | the older hash inputs are equal if and only if the joined stripped texts are |
| CorpusImport.ReplayIff | backend/src/lawyer_agent/application/legal_corpus_import.py:144-156 | after an import by any parser another command for the version is replayed if and only if it agrees in authority, category, region, metadata and in what that parser's hash can tell of the provisions; neither way anything is written |
| CorpusImport.OlderImportReplaysOther | backend/src/lawyer_agent/application/legal_corpus_import.py:144-156 | under an older parser a different command, with two provisions joined into one, is replayed |
| CorpusImport.ImportOnlyAdds | backend/src/lawyer_agent/application/legal_corpus_import.py:111-187 | an import never changes what is stored, and a failed one writes nothing |
| CorpusImport.ImportIsIdempotent | backend/src/lawyer_agent/application/legal_corpus_import.py:144-156 | importing the same command again replays it and writes nothing |
| CorpusImport.ReplayIffIdentical | backend/src/lawyer_agent/application/legal_corpus_import.py:144-156 | after an exact import another command for the version is replayed if and only if it is identical |
| CorpusImport.ImportStores | backend/src/lawyer_agent/application/legal_corpus_import.py:144-187 | a successful import replays if and only if the version was there, writing nothing, and otherwise stores it with one provision from each draft in order, tiling their text, and nothing else |
| CorpusImport.ImportFailsIff | backend/src/lawyer_agent/application/legal_corpus_import.py:114-157 | which error is raised, for every command and repository |
| CorpusImport.ProvisionsTile | backend/src/lawyer_agent/application/legal_corpus_import.py:230-257 | the offsets cut the provisions out of their joined text without gap or overlap |
| CorpusImport.ProvisionsKeepText | backend/src/lawyer_agent/application/legal_corpus_import.py:39-41 | provision i has the version and draft i's number, level, path, title and text, exact or stripped |
| CorpusImportService.HashContent | backend/src/lawyer_agent/application/legal_corpus_import.py:260-282 | feeding the hasher piece by piece feeds the preimage |
| CorpusImportService.DeriveProvisions | backend/src/lawyer_agent/application/legal_corpus_import.py:230-257 | the cursor loop gives the tiling provisions |
| CorpusImportService.Repository.ImportVersion | backend/src/lawyer_agent/application/legal_corpus_import.py:111-187 | the service's branches, conflicts and writes are those of the import function, and a success stores the version with all its provisions or replays it |
| WindowPieces.PieceEndBounds | backend/src/lawyer_agent/application/legal_chunk_structure.py:345-358 | a window ends after the last sentence mark of its overlap region, or full when there is none, and the next start lies inside it |
| WindowPieces.PiecesCover | backend/src/lawyer_agent/application/legal_chunk_structure.py:332-359 | windows are non-empty cuts of bounded length, each overlapping the one before by 1 to the overlap, from the start of the text to its end |
| WindowPieces.PiecesRebuild | backend/src/lawyer_agent/application/legal_chunk_structure.py:332-359 | removing the overlaps gives the text back |
| WindowPieces.SplitTextGivesFewPieces | backend/src/lawyer_agent/application/legal_chunk_structure.py:332-359 | a split text gives at most ceil((length - window) / (window - overlap)) + 1 pieces |
| WindowPieces.NextEndsLater | backend/src/lawyer_agent/application/legal_chunk_structure.py:345-358 | window ends never fall, and rise when the overlap is at most half a window |
| WindowPieces.LargeOverlapRepeats | backend/src/lawyer_agent/application/legal_chunk_structure.py:345-358 | for every setting whose overlap is more than half a window there is a text whose second window ends where the first does |
| WindowPieces.NextEndsLaterIff | backend/src/lawyer_agent/application/legal_chunk_structure.py:345-358 | every next window ends later, in every text and from every start, if and only if the overlap is at most half a window |
| WindowPieces.PiecesRiseIff | backend/src/lawyer_agent/application/legal_chunk_structure.py:332-359 | the windows of every text end one after the other if and only if the overlap is at most half a window |
| WindowPieces.WindowPiecesWithOffsets | backend/src/lawyer_agent/application/legal_chunk_structure.py:332-359 | the loop terminates and gives these windows |
| ArticleUnits.UnitsForArticle | backend/src/lawyer_agent/application/legal_chunk_structure.py:237-306 | the units of an article in each of the three modes |
| ArticleUnits.LocateUnits | backend/src/lawyer_agent/application/legal_chunk_structure.py:281-306 | every search succeeds and finds its paragraph where the lengths put it, so the failure branch is unreachable |
| ArticleUnits.FindFrom | backend/src/lawyer_agent/application/legal_chunk_structure.py:284-287 | a search from the cursor, or from the leading space, finds the paragraph and nothing earlier |
| ArticleUnits.UnitsTile | backend/src/lawyer_agent/application/legal_chunk_structure.py:245-306 | the units of a split article are non-empty slices of it, laid end to end over its body, and outside the body the article has only white space and a dropped heading |
| ArticleUnits.UnitsAreParagraphs | backend/src/lawyer_agent/application/legal_chunk_structure.py:245-306 | one unit comes from each paragraph of which anything is left, in order, with the kind of its own number |
| ArticleUnits.ExactUnitsIff | backend/src/lawyer_agent/application/legal_chunk_structure.py:248-250 | in the exact mode a long article has units if and only if its paragraphs join to its text |
| ChunkStructure.Derive | backend/src/lawyer_agent/application/legal_chunk_structure.py:115-211 | gives the specified rows or the first error, and every article has its whole text in a row of its own |
| ChunkCoverage.LawSound | backend/src/lawyer_agent/application/legal_chunk_structure.py:145-215 | whenever a law has rows, each article has its own row with the whole text, under no parent, positioned if and only if the version says so, and below it children only if it is too long and its paragraphs are its text; these rebuild its body |
| ChunkCoverage.SplitArticleKeepsText | backend/src/lawyer_agent/application/legal_chunk_structure.py:146-211 | the child chunks of a split article run over its body without a gap and rebuild it |
| ChunkCoverage.ChildRowSound | backend/src/lawyer_agent/application/legal_chunk_structure.py:177-210 | every child's span cuts its text out of the article, stays within one unit, fits a leaf, and hangs below its article's parent row |
| ChunkCoverage.DerivedIff | backend/src/lawyer_agent/application/legal_chunk_structure.py:115-176 | a law has rows if and only if the arguments are in order and every article can be handled |
| ChunkCoverage.LawRowIds | backend/src/lawyer_agent/application/legal_chunk_structure.py:148-210 | every row stands in its article's list where its id says, and no two rows share an id |
| ChunkCoverage.ArticleInside | backend/src/lawyer_agent/application/legal_chunk_structure.py:148-211 | the rows of each article stand together, in the order of the articles |
| ChunkCoverage.ArticlesInOrder | backend/src/lawyer_agent/application/legal_chunk_structure.py:146-149 | the articles are permuted into order of start, then text |
| ChunkCoverage.TiesKeepOrder | backend/src/lawyer_agent/application/legal_chunk_structure.py:146-149 | articles with equal keys stay in the order given |
| ChunkStructure.SettingsErrorIff | backend/src/lawyer_agent/application/legal_chunk_structure.py:214-234 | the settings pass if and only if 0 < overlap < window <= leaf |
| ArticleNumber.NumberIff | backend/src/lawyer_agent/application/legal_corpus_publish.py:55-96 | a text is read as n if and only if it is a positive Arabic numeral of n, the standard Chinese numeral of n, or the one with the leading one written out |
| ArticleSpelling.NumberIffVariant | backend/src/lawyer_agent/application/legal_corpus_publish.py:55-96 | a text is read as n if and only if, up to full-width digits and the round zero, it is an Arabic or Chinese numeral of n |
| ArticleSpelling.FullIs | backend/src/lawyer_agent/application/legal_corpus_publish.py:80-93 | the numeral is spelt from the decimal digits, with one zero wherever others lie between two of them |
| ArticleSpelling.ReadingIs | backend/src/lawyer_agent/application/legal_corpus_publish.py:80-93 | the standard numeral is the same but for the one of ten to nineteen |
| ArticleNumber.ReadingRoundTrip | backend/src/lawyer_agent/application/legal_corpus_publish.py:55-96 | every standard form of 1 to 9999 is read back as its number |
| ArticleNumber.ReadingInjective | backend/src/lawyer_agent/application/legal_corpus_publish.py:79-96 | no two numbers share a standard form |
| ArticleNumber.SumFull | backend/src/lawyer_agent/application/legal_corpus_publish.py:64-76 | parsing a numeral adds exactly its number, whatever digit was waiting |
| ArticleNumber.CnNumber | backend/src/lawyer_agent/application/legal_corpus_publish.py:55-96 | the parse and re-print loops compute the number so characterised |
| ArticleNumber.Canonical | backend/src/lawyer_agent/application/legal_corpus_publish.py:79-93 | the re-print loop gives the recursively defined standard form |
| ArticleSequence.SequenceBreak | backend/src/lawyer_agent/application/legal_corpus_publish.py:150-202 | the loop over the items reports the first refused item or an interval issue |
| ArticleGate.FullMatchIff | backend/src/lawyer_agent/application/legal_corpus_publish.py:20-22 | an item matches with given groups if and only if it is written from them |
| ArticleGate.GateIff | backend/src/lawyer_agent/application/legal_corpus_publish.py:150-202 | without a review the gate passes exactly the gapless sequences that start with article one |
| ArticleGate.GateNamesFirst | backend/src/lawyer_agent/application/legal_corpus_publish.py:162-199 | what it names is the first item at which the sequence so far cannot go on |
| ArticleGate.PassedItemsDiffer | backend/src/lawyer_agent/application/legal_corpus_publish.py:186-199 | items that pass stand for different articles or supplements |
| ArticleGate.GaplessListsAll | backend/src/lawyer_agent/application/legal_corpus_publish.py:186-199 | every article and supplement below a listed one is listed before it |
| ArticleGate.ReviewedGateIff | backend/src/lawyer_agent/application/legal_corpus_publish.py:156-202 | with a review it passes exactly the plain articles from the first to the last reviewed one |
| ArticleGate.EndIssueNeverReported | backend/src/lawyer_agent/application/legal_corpus_publish.py:200-201 | the end check of a reviewed interval never fires |
| ArticleGate.Evaluate | backend/src/lawyer_agent/application/legal_corpus_publish.py:117-148 | each issue is reported if and only if its condition holds, and a report passes if and only if the counted articles are listed gaplessly, nothing is missing and coverage suffices |
| Excerpts.ExcerptRanges | tools/milvus_query/legal_query/window_service.py:82-113 | the loops refuse an ill-fitting chunk and otherwise compute widening, sorting, merging and the flag |
| Excerpts.WidenedSound | tools/milvus_query/legal_query/window_service.py:91-104 | a widened span holds its chunk and reaches at most 1000 characters further on each side |
| ExcerptSafety.WidenedToNearest | tools/milvus_query/legal_query/window_service.py:91-104 | a chunk is widened to the nearest article starts in reach, or else the nearest paragraphs, or else not at all |
| ExcerptSafety.FlagIff | tools/milvus_query/legal_query/window_service.py:98-102 | the flag is up if and only if an edge of some chunk has nothing near it, or no article start although the law has articles and goes on there |
| Excerpts.Latest | tools/milvus_query/legal_query/window_service.py:96 | the greatest position of a stretch, or none if there is none |
| Excerpts.Earliest | tools/milvus_query/legal_query/window_service.py:97 | the least position of a stretch, or none if there is none |
| ExcerptSafety.RangesCoverSpans | tools/milvus_query/legal_query/window_service.py:82-113 | the ranges are in order and apart, and cover exactly what the widened spans cover |
| ExcerptSafety.ApartHasGaps | tools/milvus_query/legal_query/window_service.py:106-112 | any two ranges are non-empty and separated by a gap |
| ExcerptSafety.RangesListIds | tools/milvus_query/legal_query/window_service.py:82-113 | every id is listed as often as it was asked for, and the ranges total at most 3000 characters a chunk |
| ExcerptSafety.RangesHoldChunk | tools/milvus_query/legal_query/window_service.py:105-112 | each chunk lies whole, with its id, in some range |
| ExcerptSafety.ChunkInOneRange | tools/milvus_query/legal_query/window_service.py:105-112 | and in no other range |
| ExcerptSafety.RangesEndAtArticles | tools/milvus_query/legal_query/window_service.py:96-104 | when articles are known and the flag is down, every range runs between article starts or ends of the text |
| Paging.PagesGiveText | tools/milvus_query/legal_query/window_service.py:211-248 | following the cursors from the start gives the whole text in the fewest pages of 20000, each the answer to the cursor of the one before, and only the last complete and without a cursor |
| Paging.AcceptedIff | tools/milvus_query/legal_query/window_service.py:211-222 | a cursor is accepted if and only if it was signed for this release, document, source and text at a place inside the text |
| Paging.HexRoundTrip | tools/milvus_query/legal_query/window_service.py:150-155 | a position is read back from its hexadecimal form |
| Draining.ActiveCountsInside | tools/milvus_query/legal_query/window_service.py:342-352 | in every run `active` is the number of operations inside, at most two, and a call is turned away if and only if both slots are held |
| Draining.NoneEntersAfterClose | tools/milvus_query/legal_query/window_service.py:344-346 | whatever happens after a close, whoever is inside was inside before it |
| Draining.DrainedForGood | tools/milvus_query/legal_query/window_service.py:354-361 | once a close has returned true nothing is inside then or ever after |
| Draining.FinishesDrain | tools/milvus_query/legal_query/window_service.py:344-352 | after a close, in every run, the number inside falls by exactly the operations that finished |
| Draining.Drains | tools/milvus_query/legal_query/window_service.py:347-352 | a closed service can always become empty, in as many steps as operations are inside |
| Draining.Runtime.Perform | tools/milvus_query/legal_query/window_service.py:342-361 | each locked section and semaphore call on the fields is one step of the model and keeps the counters right |
| Coverage.Sweep | tools/milvus_query/evaluate_ragas.py:147-160 | counts exactly the positions of the reference that lie in some interval of its document |
| Coverage.SweepStep | tools/milvus_query/evaluate_ragas.py:155-159 | one step of the sweep adds exactly the newly covered positions, for overlapping, nested, empty or inverted intervals |
| Coverage.CompleteIff | tools/milvus_query/evaluate_ragas.py:160-163 | the count equals the length if and only if the reference is not inverted and every position is covered |
| Coverage.Measure | tools/milvus_query/evaluate_ragas.py:144-167 | the two shares, and the division by zero if and only if the lengths sum to zero |
| Coverage.SharesAgree | tools/milvus_query/evaluate_ragas.py:164-167 | both shares lie between none and all, and are all together |
| Windows.Windows | scripts/bulk_window_corpus.py:117-146 | the windows are the grid, exactly 1 or ceil((length - overlap) / step) of them; it fails if and only if the arguments are bad or some window of the grid is blank |
| WindowChecks.GridIsReleasable | tools/milvus_query/legal_query/window_corpus.py:282-317 | every grid of 1000 and 200, with a proper vector for each window, passes the release check |
| WindowChecks.GridRebuilds | scripts/bulk_window_corpus.py:731-761 | and the rebuilding check |
| WindowChecks.ReleasableIff | tools/milvus_query/legal_query/window_corpus.py:282-317 | the release check accepts a list if and only if it chains through the text with 200 shared characters and every window is proper, has a new id, its own texts and digests, and a proper vector |
| WindowChecks.RebuildsIff | scripts/bulk_window_corpus.py:729-761 | the rebuilding check accepts a list if and only if it rebuilds the text from overlapping slices that carry their own data |
| WindowChecks.ReleasedCovers | tools/milvus_query/legal_query/window_corpus.py:282-317 | any list the release check accepts covers every character with its own text |
| WindowChecks.ReleasedRebuildsIff | scripts/bulk_window_corpus.py:731-761 | a list that passes the release check rebuilds the text if and only if no window ends before the one before it |
| WindowChecks.ReleasedNotRebuilt | tools/milvus_query/legal_query/window_corpus.py:299-306 | a list with a window that ends early is released but not rebuilt |
| WindowChecks.CheckRelease | tools/milvus_query/legal_query/window_corpus.py:282-317 | the loop over rows and vectors accepts exactly the releasable lists and collects their ids |
| WindowChecks.CheckRebuild | scripts/bulk_window_corpus.py:729-761 | the loop over rows and vectors accepts exactly the lists that follow on, carry their own embedding texts, digests and vectors, and rebuild the text |
| Idempotency.Reserve | backend/src/lawyer_agent/application/idempotency.py:272-333 | which outcome each stored record leads to, both ways: a live reservation is in progress, a failed or expired one is handed on, a completed one replayed; and the record it leaves, with all others untouched |
| Idempotency.Repository.Acquire | backend/src/lawyer_agent/infrastructure/persistence/repositories/idempotency.py:31-67 | inserts the candidate or returns the record of the same key, says which, and keeps every record there was |
| Idempotency.Finish | backend/src/lawyer_agent/application/idempotency.py:335-351 | a reservation is completed if and only if it is no replay and its record is still reserved for the same request, and only that record changes |
| Idempotency.GiveUp | backend/src/lawyer_agent/application/idempotency.py:353-368 | a reservation is given up under the same condition, and only its record changes |
| Idempotency.CompleteIs | backend/src/lawyer_agent/infrastructure/persistence/repositories/idempotency.py:107-133 | completing reaches the row if and only if it is reserved for the same request |
| Idempotency.RestartIs | backend/src/lawyer_agent/infrastructure/persistence/repositories/idempotency.py:69-105 | restarting reaches the row if and only if fingerprint, status and expiry still fit |
| Idempotency.FailIs | backend/src/lawyer_agent/infrastructure/persistence/repositories/idempotency.py:135-160 | failing reaches the row if and only if it is reserved for the same request |
| IdempotencySafety.AtMostOneCompletion | backend/src/lawyer_agent/application/idempotency.py:335-351 | in every interleaving a key is completed at most once, and once if and only if its record is completed |
| IdempotencySafety.RecordsPersist | backend/src/lawyer_agent/application/idempotency.py:272-368 | a record keeps its id and fingerprint for ever, and once completed never changes |
| IdempotencySafety.LaterAttemptsReplay | backend/src/lawyer_agent/application/idempotency.py:293-308 | after a completion every attempt with the same request gets its result and every other request is refused |
| IdempotencySafety.ReplaysAgree | backend/src/lawyer_agent/application/idempotency.py:301-308 | every replay gives the result that the completion stored |
| IdempotencySafety.ConflictsAreDifferentRequests | backend/src/lawyer_agent/application/idempotency.py:296-300 | a request is refused as conflicting only when it differs from those granted |
| IdempotencySafety.SettleGrantsIff | backend/src/lawyer_agent/application/idempotency.py:293-333 | in every run, an attempt that found a record is granted it if and only if it was given up or had run out for the same request, both when found and still, and then holds it for its own time |
| IdempotencySafety.HandedOnWhenExpired | backend/src/lawyer_agent/application/idempotency.py:321-333 | a reservation that nobody gave up or completed is handed on only when it has run out |
| IdempotencySafety.HolderGivesUpIff | backend/src/lawyer_agent/application/idempotency.py:353-368 | a holder gives up if and only if the record is reserved, and leaves it free |
| IdempotencySafety.HolderCompletesIff | backend/src/lawyer_agent/application/idempotency.py:335-351 | a holder completes if and only if the record is reserved, whoever reserved it last |
| IdempotencySafety.SupersededHolderCanComplete | backend/src/lawyer_agent/application/idempotency.py:321-332 | a run in which an expired reservation, handed on, still completes |
| Projection.AcceptedIff | backend/src/lawyer_agent/application/idempotency.py:391-451 | a body is accepted if and only if every place in it holds what its classification asks for |
| Projection.ProjectionShows | backend/src/lawyer_agent/application/idempotency.py:391-420 | the projection shows exactly what is visible without secrets |
| Projection.ProjectionIff | backend/src/lawyer_agent/application/idempotency.py:391-420 | accepted bodies have equal projections if and only if they look the same: no secret matters, every business value does |
| Projection.SecretLeafIrrelevant | backend/src/lawyer_agent/application/idempotency.py:398-400 | replacing the leaf at a secret path changes nothing |
| Projection.RefusedPathsUnusable | backend/src/lawyer_agent/application/idempotency.py:90-100 | overlapping paths, which the check refuses, name a path that no accepted body has |
| Projection.InputInjective | backend/src/lawyer_agent/application/idempotency.py:255-258 | method, route and body can be told apart in the fingerprint input |
| Packing.PackedSound | scripts/prepare_attu_import.py:239-250 | the batches are the records in order, none split, empty or too large, and none begun while the one before had room |
| Packing.PackedFew | scripts/prepare_attu_import.py:239-250 | k batches satisfy floor(k / 2) * max_bytes < total bytes when k >= 2 |
| Packing.LinesOfJoined | scripts/prepare_attu_import.py:276-289 | a file of records is read back as just those records |
| BatchWriter.Writer.Add | scripts/prepare_attu_import.py:239-250 | what is raised and when, and otherwise the batches with the record added |
| BatchWriter.Writer.Close | scripts/prepare_attu_import.py:252-272 | the open batch is finished and reported, or lost to a failed sync with its counts left behind |
| BatchWriter.Writer.Verify | scripts/prepare_attu_import.py:274-294 | passes if and only if every reported file reads back as reported |
| BatchWriter.WriteAll | scripts/prepare_attu_import.py:226-294 | adding all records, closing and verifying raises only for an oversized record or a failed sync, and otherwise leaves exactly the packed batches, one file each, reported with their rows, bytes and digest |

## Left out

- The server, database, vector store, HTTP and the browser are parameters of the steps: replies, faults and clocks are chosen freely.
- Hashes, MACs, encryption, JSON and UTF-8 encoding are injective; password checks are a parameter of the login step.
- `authenticatedFetch` for the login, register, refresh and logout addresses, which bypass the session, and the `onChange` callbacks.
- A timed-out or failed network call is one `Dropped` reply; the 20-second timer itself is not modelled.
- Audit events, rehashing of passwords and the credential rows of the identity service.
- The preflight mode of the import script, its lock file, schema checks and console output; an invalid acknowledgement counts as a failed request.
- The reading and hashing of release artefacts around the release check, the metadata and field lengths of the rows it builds, `freeze`, `validate_ready` and index building.
- Each statement of the identity service reads the rows committed when it runs; the database's snapshot isolation is not modelled.
- AttuImport.ResumeNeverRejects: assumes distinct row ids and no other writer, as the program's own lock and checks do.
- WindowImportRun.World.Run: takes the rows of a release as distinct and already checked; the check itself is `WindowChecks.CheckRelease`.
- Type checks on arguments, enum and UUID validation, and time zones.
- ArticleUnits.UnitsForArticle: the three regular expressions and the white-space class are parameters, as the texts they match.
- ChunkStructure.Derive: version ids, content hashes and quality flags of chunks are constants or digests and are not carried.
- ArticleGate.Evaluate: the metrics dictionary and the rounding of coverage; coverage is a real number and issue codes are a datatype.
- Excerpts.ExcerptRanges: article and paragraph positions are given, not found by regular expressions.
- AttuImportRun.World.SendPending: a failed request applies its part before its reply is known; one that the server applies later is not a step of the runs, `AttuImport.LateUpsertRejectedIff` says what the check then does.
- Paging.AcceptedIff: a cursor with characters outside ASCII, on which the comparison raises another error; a keyed digest is taken as what was signed.
- The artefact hashes checked before a page is read, its quality flags and metadata, and the timeout of `close`, which may answer at any time.
- Idempotency.Reserve: result references are opaque, and the size limit on their metadata is not modelled.
- BatchWriter.Writer.Add: writing to the open file does not fail; only syncing does.
- BatchWriter.Writer.Verify: the schema check of each record is not modelled.
- Quota, job leases, review streams and retrieval ranking.
