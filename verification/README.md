# Verified models of a local mail service

A mail service keeps a local cache of mailbox metadata, stores account credentials in two places
that can fail independently, imports legacy accounts under optimistic revisions, speaks a framed
protocol over standard input and runs raw protocol commands for its callers. Each of these parts is
simple on a quiet day; what is hard is what they promise when a server, other processes, crashes and
failing back ends get in between. The Dafny modules here model those parts and prove the promises for
every input, every run and every interleaving. `dafny verify dfyconfig.toml` checks all of them.

## How the modules fit together

**Metadata cache.** `Imap` is the server of section 2.3.1.1 of RFC 3501: epochs, allocation counter,
immutable messages, histories. `MetadataTables` says what the projection tables mean,
`MetadataStore` is the adapter that rewrites them in place, `MetadataMerge` the append-only
extension, `Paging` the pager. `CacheRuns` lets the server, any number of readers and writers and the
tables take turns in any order and proves that a cache hit is the mailbox. `MetadataQuery` is the
query workflow as a whole, with every other party acting between its port calls: a page that was not
delegated to the provider is the page of a state the mailbox was in during the call. `Mutations`
shows that effects drop the coverage they make untrustworthy, and `MutationResults` that what they
report always passes its checks.

**Managed credentials.** `Catalogs` gives every catalog transaction as a function and proves that
revisions name content; `CatalogEffects` says what the transactions mean to their callers and that no
update is lost; `ManagedStore` is the stateful adapter that carries them out; `CredentialRuns` runs
the catalog and the secret store together, one transaction or store call at a time, with crashes and
failures, and `CredentialMisses` is a run that loses a secret; `ResolveAccount` shows that torn,
repeated reads still give one state. A legacy import is
covered in four modules: `ImportCutover` is the fence and the counting argument behind it,
`ImportRun` the import itself, with other writers committing before each of its calls, `ImportSteps`
what its own transactions do and exactly when the fence has seen everything, `ImportMisses` whole
runs, from an empty catalog on, on which it has not; `CatalogSteps` are the steps from which such runs
are built. `Bootstrap` is the selection file both sides share.

**Legacy credentials, framing and protocol.** `LegacyCredentials` covers the settings file and the
keyring, `FrameReader` the bounded stdio reader, `Tokenizer` and `TokenGrammar` the command line,
`ProtocolRun` the stop-on-first-failure executor. `Wrappers` and `Collections` hold what all share.

Input and output, clocks, randomness and calls into code outside these parts are parameters: a port
answer, a script of failures, a fresh identifier, a moment at which a statement runs. Header
matching, sender allow lists and making a path absolute are uninterpreted functions.

## Where the code does not keep a promise

Three promises fail in corners. The model keeps the code as it is; the lemmas give the exact
condition and a run that fails.

- A commit that fails and makes the database roll back by itself is taken for a success, and the
  credential still in use is then deleted (`CredentialRuns.ActivationIsSafe`,
  `CredentialMisses.MisreadIsReached`). No other event costs a credential its value, and not even
  this one ever gives it a wrong value (`CredentialRuns.CredentialsAreKept`).
- An accepted import fence has missed changes by others if and only if the listing of accounts does
  not fit the plan: an account to be created is already listed, or one to be resumed is not listed at
  the reviewed or a newer revision (`ImportSteps.FenceIsExact`). Both happen
  (`ImportMisses.CreatedOverListedIsNotNoticed`, `ImportMisses.ResumedOverOlderIsNotNoticed`), and
  the import could check for both. If nothing was missed, an account that already existed is selected
  as it was reviewed if and only if its name still meant it at the listing
  (`ImportCutover.ReviewedConfigurationIsSelected`); two renamings in between are enough for it not to
  be (`ImportMisses.SwappedNamesAreNotNoticed`), and the import, which compares names and revisions,
  has no means to see that.
- An exception while a protocol connection is closed replaces the report by one that says no user
  command was sent, which is right if and only if the first command wrote nothing
  (`ProtocolRun.SetupReportIsRight`, `ProtocolRun.SetupReportCanBeWrong`); and then, and only then,
  cached coverage is left in place without a warning (`ProtocolRun.Execute`).

One more promise depends on the provider behind a port. A delivery that has happened goes unreported
if and only if the answer about the sent copy is malformed (`Mutations.CompleteSend`); the built-in
provider never gives such an answer (`Mutations.BuiltInIsNeverMalformed`), another one might
(`Mutations.MalformedCopyHidesDelivery`).

## Model

| member | source | states |
|---|---|---|
| Imap.HistoryIsMonotone | mcp_email_server/application/metadata.py:204-222 | along any history epochs grow, and inside an epoch a UID below an old UIDNEXT names the old message or nothing |
| Imap.StatusNamesContents | mcp_email_server/emails/classic.py:2409-2422 | equal UIDVALIDITY, UIDNEXT and count at two moments mean equal contents then and at every moment between, so an observation bracketed by equal statuses describes one state |
| Imap.EachNumberIsNeeded | mcp_email_server/metadata_index.py:378-390 | neither UIDNEXT nor the count can be dropped from the qualification: for each there is a history on which the rest agrees and the contents differ |
| MetadataTables.RowsByUidAreExact | mcp_email_server/metadata_index.py:551-640 | the rows of a snapshot hold each email exactly once under its UID and nothing else |
| MetadataTables.ReplacedIsExact | mcp_email_server/metadata_index.py:530-676 | a write leaves exactly the snapshot's rows, in one epoch, keeps the tables consistent and changes no other mailbox |
| MetadataTables.WriteThenRead | mcp_email_server/metadata_index.py:358-490 | a complete write reads back as a complete listing and as a baseline with the true high-water mark, and not as a partial window |
| MetadataTables.DescendingContinues | mcp_email_server/metadata_index.py:79-136 | restarting below the last UID seen continues the descending order where it stopped |
| MetadataTables.LoadedHighUid | mcp_email_server/metadata_index.py:424-446 | the largest loaded UID is the largest stored one |
| MetadataStore.MetadataIndex.WriteSnapshot | mcp_email_server/metadata_index.py:530-676 | succeeds exactly for acceptable snapshots whose commit returns; then the tables are the old ones with this mailbox replaced, also when the commit raised after taking effect, and otherwise they are untouched |
| MetadataStore.MetadataIndex.Rewrite | mcp_email_server/metadata_index.py:551-676 | upserting, purging an older epoch, deleting rows outside the snapshot and upserting coverage together replace the mailbox; a missing date aborts |
| MetadataStore.MetadataIndex.UpsertRows | mcp_email_server/metadata_index.py:580-640 | the upsert loop overlays the stored rows with the snapshot's, or fails exactly if a date is missing |
| MetadataStore.MetadataIndex.LoadProjectedEmails | mcp_email_server/metadata_index.py:79-136 | the keyset loop over pages of 100 terminates and equals one full descending select |
| MetadataStore.MetadataIndex.ReadComplete | mcp_email_server/metadata_index.py:358-398 | answers exactly when complete coverage matches all three numbers and the rows match the count |
| MetadataStore.MetadataIndex.ReadIncrementalBaseline | mcp_email_server/metadata_index.py:400-453 | answers exactly for complete coverage of the epoch whose high-water mark is the largest stored UID |
| MetadataStore.MetadataIndex.ReadPartialEmails | mcp_email_server/metadata_index.py:455-490 | answers exactly the rows of a nonempty partial window of the epoch |
| MetadataStore.MetadataIndex.InvalidateMailboxes | mcp_email_server/metadata_index.py:507-528 | drops the coverage of the named mailboxes and nothing else |
| MetadataStore.MetadataIndex.InvalidateAccount | mcp_email_server/metadata_index.py:492-505 | drops the coverage of every mailbox of the account and nothing else |
| MetadataStore.PageContinues | mcp_email_server/metadata_index.py:92-135 | each page below the cursor is the next piece of the full select and is empty only at its end |
| MetadataMerge.MergeAppendOnlySnapshot | mcp_email_server/application/metadata.py:604-669 | the two scans return the joined rows exactly when baseline and delta pass every check |
| MetadataMerge.ScanBaseline | mcp_email_server/application/metadata.py:634-646 | the first scan collects the held UIDs exactly if they are positive, distinct and at most the high-water mark |
| MetadataMerge.ScanDelta | mcp_email_server/application/metadata.py:647-660 | the second scan accepts exactly dated rows with distinct UIDs above the mark, below UIDNEXT and not yet seen |
| MetadataMerge.MergeIsExact | mcp_email_server/application/metadata.py:604-669 | for a baseline of an earlier state and a delta of the current one, a returned merge lists the mailbox exactly, and it is returned if and only if rows are dated, the epoch is the same, nothing of the baseline was expunged and the rows fit |
| MetadataMerge.CountSplits | mcp_email_server/application/metadata.py:661-664 | the count grew by exactly the number of new UIDs if and only if nothing below the high-water mark was lost |
| CacheRuns.EventKeepsInv | mcp_email_server/metadata_index.py:530-676 | every server step, observation, read, merge, write, invalidation and account drop keeps the cache truthful |
| CacheRuns.TrueRowIsCurrent | mcp_email_server/emails/classic.py:2334-2337 | a row once true of the current epoch is true now if its UID still exists, which is why retained rows may be reused within one UIDVALIDITY |
| CacheRuns.HitListsTheQualifiedState | mcp_email_server/metadata_index.py:358-398 | a hit for the status the mailbox had at any moment lists exactly that moment's messages |
| CacheRuns.CacheAgreesWithMailbox | mcp_email_server/metadata_index.py:358-398 | over every run, with late, repeated and out-of-order writes, a hit for the current status lists exactly the messages now in the mailbox with their headers |
| Paging.PrecedesIsStrictTotalOrder | mcp_email_server/application/metadata.py:370-378 | the sort key is a strict total order on different UIDs and puts undated rows last in both directions |
| Paging.SortIsOrdered | mcp_email_server/application/metadata.py:560-562 | sorting permutes the rows into order |
| Paging.OrderIsUnique | mcp_email_server/application/metadata.py:546-580 | only one arrangement of the same rows is in order, so a page cannot depend on how rows were stored |
| Paging.UndatedComeLast | mcp_email_server/application/metadata.py:370-378 | no dated row follows an undated one in an ordered list |
| Paging.PagesPartitionVisibleRows | mcp_email_server/application/metadata.py:546-580 | enough pages in turn show every visible row exactly as often as it occurs, in order, with one constant total |
| Paging.ListingGivesMailboxPage | mcp_email_server/application/metadata.py:502-580 | any complete dated listing, cached, refreshed or merged, in any order, gives the page the mailbox itself gives |
| MetadataQuery.FetchMailboxSnapshot | mcp_email_server/application/metadata.py:857-891 | loads exactly when the provider answers, and then that answer; with retained rows of one epoch it is a true observation, and a complete one lists one state of the call; failures fall back or raise as evidence is required |
| MetadataQuery.LoadMailboxSnapshot | mcp_email_server/application/metadata.py:763-855 | loads the append-only extension exactly when the cached epoch can be extended, otherwise the refresh that keeps the usable rows, whenever nothing fails on the way; all of it only true observations; projection errors raise exactly for managed accounts outside local search |
| MetadataQuery.AnswerLoaded | mcp_email_server/application/metadata.py:979-1017 | a valid, complete and sufficient load is answered from, filtered by the policy of the second access; only valid true observations are handed to the cache, whenever an epoch was observed, and a failed write never costs the answer |
| MetadataQuery.Qualify | mcp_email_server/application/metadata.py:893-958 | a call hits exactly when a complete listing of the observed status can answer, goes on to load whenever nothing ends it, and delegates or raises only where it may |
| MetadataQuery.Execute | mcp_email_server/application/metadata.py:893-1017 | a page that was not delegated is, under the sender policy given for that very access, the page of a state the mailbox had during the call, whoever acts in between; hits are served exactly from a complete listing, loads as expected when nothing fails, a local header search is never delegated, and the cache is handed only true observations |
| MetadataQuery.ExtendedRows | mcp_email_server/application/metadata.py:811-838 | an append-only extension lists the state in which its delta was fetched, however old the baseline |
| MetadataQuery.HandedObservationKeepsInv | mcp_email_server/application/metadata.py:981-989 | whatever a query hands over may be written at any later point of the run |
| Mutations.Invalidate | mcp_email_server/application/mutations.py:924-936 | reports success exactly if the index opens and the commit returns, and then no read path trusts any of the mailboxes any more |
| Mutations.RunBatch | mcp_email_server/application/mutations.py:1023-1289 | a reported run with a succeeded or unknown target leaves no trusted coverage of any touched mailbox or asks for reconciliation, which it does exactly when it must; a run without one leaves the cache alone; it throws exactly for an escaping or malformed provider result, and never once the cache was touched |
| Mutations.CompleteSend | mcp_email_server/application/mutations.py:938-1007 | the evidence of a checked delivery reaches the caller exactly if the answer about the copy is well formed, and the report then passes its check; reconciliation is asked for exactly if something is unknown or the copy's mailbox may still be trusted |
| Mutations.BuiltInIsNeverMalformed | mcp_email_server/emails/classic.py:3565-3635 | with a provider that names only checked mailboxes and gives short remarks, the evidence of a delivery always reaches the caller |
| Mutations.MalformedCopyHidesDelivery | mcp_email_server/application/mutations.py:999 | an answer about a stored copy that hides a delivery which has happened |
| MutationResults.BatchAlwaysFits | mcp_email_server/application/mutations.py:803-818 | a batch of valid targets passes the check of its rendered size, alone, with a destination or as an archive report |
| MutationResults.SendAlwaysFits | mcp_email_server/application/mutations.py:862-900 | the report of a checked delivery and a checked copy passes every check, the one of its rendered size included |
| Catalogs.CommitEvolves | mcp_email_server/managed.py:1008-1921 | every transaction keeps the rows consistent, moves the revision whenever it changes what the revision stands for, and never revives a removed account |
| Catalogs.SettledStays | mcp_email_server/managed.py:1564-1744 | no transaction leaves an enabled account incomplete once it was complete or disabled |
| Catalogs.ActivatedIsConsistent | mcp_email_server/managed.py:1233-1262 | activation keeps at most one ACTIVE credential per account and role |
| CatalogEffects.StaleWritersLose | mcp_email_server/managed.py:1008-1744 | no update is lost: once a writer has committed at an account's or the catalog's revision, every other writer with that revision fails, whatever else was committed in between |
| CatalogEffects.CommitCounts | mcp_email_server/managed.py:1008-1921 | every transaction moves each counter by exactly its own step and touches at most one live account |
| CatalogEffects.PolicyIsConfined | mcp_email_server/managed.py:1008-1054 | a policy update leaves the authority of every account alone |
| CatalogEffects.AddIsConfined | mcp_email_server/managed.py:1056-1151 | an added account is found, enabled and at revision 1, under a name no account, live or removed, had; nothing else changes |
| CatalogEffects.AddedIsIncomplete | mcp_email_server/managed.py:1056-1151 | an added account is enabled but not yet complete, and the limit on live accounts holds with it |
| CatalogEffects.UpdateIsConfined | mcp_email_server/managed.py:1469-1649 | an update moves one revision by one, touches no other account and no credential, sets the columns and servers it names and keeps each other one, leaves no enabled account incomplete and takes no server away from under an unfinished credential |
| CatalogEffects.UpdateMovesTheName | mcp_email_server/managed.py:1500-1592 | after an update the account is found under its new name only, and every other name means what it meant |
| CatalogEffects.DisableIsConfined | mcp_email_server/managed.py:1651-1665 | a disabled account keeps servers and credentials and cannot be disabled twice, and nothing else changes |
| ManagedStore.ManagedCatalog.EnableAccount | mcp_email_server/managed.py:1685-1744 | succeeds exactly for a disabled complete account at the expected revision whose credentials can be read |
| ManagedStore.ManagedCatalog.Activate | mcp_email_server/managed.py:1206-1275 | demotes the one old credential of the role, adds the new one and its value in one commit, and reports which locator is now to be deleted |
| ManagedStore.ManagedCatalog.SoftRemoveAccount | mcp_email_server/managed.py:1746-1815 | removes and disables the account, demotes every unfinished credential, deletes what the store lets it, marks what the store confirms, and counts what it marked itself and what remains |
| ManagedStore.ManagedCatalog.CleanupCredentials | mcp_email_server/managed.py:1873-1921 | claims work under the catalog revision, marks exactly the rows whose deletion was confirmed and committed, and counts exactly those of them that nobody else had marked |
| ManagedStore.ManagedCatalog.DeleteAndMark | mcp_email_server/managed.py:1903-1916 | the candidate loop deletes and marks exactly what each step reports, and its counter adds up the rows its committed updates changed |
| ManagedStore.ManagedCatalog.DeleteAll | mcp_email_server/managed.py:1786-1793 | removal deletes each candidate and remembers exactly those the store confirms |
| CredentialRuns.EventKeepsInv | mcp_email_server/managed.py:1206-1366 | every transaction, store call, crash, misread rollback and sweep step keeps the rows consistent and every stored value the given one |
| CredentialRuns.ActivationIsSafe | mcp_email_server/managed.py:1263-1275 | an activation endangers no credential in use if and only if the database did not by itself roll back a replacement |
| CredentialRuns.EventKeepsSafe | mcp_email_server/managed.py:1206-1366 | every event but a misread rollback keeps every credential in use present in the store and out of every deletion |
| CredentialRuns.SafeUnlessMisread | mcp_email_server/managed.py:1263-1275 | so over every run nothing in use is endangered before the first misread rollback |
| CredentialRuns.MisreadLosesSecret | mcp_email_server/managed.py:1265-1292 | after a misread rollback the very next deletion takes away the value of an ACTIVE credential |
| CredentialMisses.MisreadIsReached | mcp_email_server/managed.py:1206-1292 | a run of two activations that ends with an ACTIVE credential whose secret is gone |
| CredentialRuns.CredentialsAreKept | mcp_email_server/managed.py:1206-1366 | over every run an ACTIVE credential never reads back as another value than its activation was given, and reads back as that value unless a misread rollback came before; a SUPERSEDED one is gone, each role has at most one ACTIVE credential |
| CredentialRuns.RevisionsNameContent | mcp_email_server/managed.py:2007-2121 | over every run, misread rollbacks included, the same account id and revision mean the same row, endpoints and ACTIVE credentials, the same catalog revision the same policy, and removal is final |
| CredentialRuns.SettledForEver | mcp_email_server/managed.py:1667-1744 | over every run, misread rollbacks included, an account that was once complete, or disabled, is complete whenever it is enabled |
| ResolveAccount.Resolve | mcp_email_server/managed.py:2081-2121 | an answer is given exactly when the passes agree and the secrets can be read, and then, over every run, policy, account, endpoints and secrets all belong to the one state of the last catalog read; undisturbed and safe passes do get an answer |
| ResolveAccount.ReadSecrets | mcp_email_server/managed.py:2095-2097 | the requested roles get a value some seen credential held at that moment |
| ResolveAccount.OneState | mcp_email_server/managed.py:2007-2079 | equal torn passes are passes over one state |
| ResolveAccount.SecretsBelong | mcp_email_server/managed.py:2095-2102 | the values read between equal passes are the ones given for the credentials ACTIVE in that state |
| ImportCutover.ExpectedTotals | mcp_email_server/application/management.py:1328-1491 | when the listing fits the plan, what is expected adds up to no more than the listing and the import's own steps |
| ImportCutover.GuardedIdsAreAll | mcp_email_server/managed.py:945-974 | the fenced names stand for exactly the accounts live at the listing and those added since |
| ImportCutover.CutoverSeesOnlyItself | mcp_email_server/managed.py:945-974 | if the listing fits the plan and the fence accepts, every transaction of anybody else since the listing changed no policy, account, endpoint or ACTIVE credential |
| ImportSteps.FenceIsExact | mcp_email_server/managed.py:945-974 | when the import has done its work and the fence accepts, all others were quiet if and only if the listing fits the plan |
| ImportSteps.QuietRunsFit | mcp_email_server/application/management.py:1328-1491 | if all others were quiet, the import could only do its work because no account to create was listed and every account to resume was listed at the reviewed revision |
| ImportSteps.ReviewedAreSelected | mcp_email_server/application/management.py:1244-1269 | after the import has checked its items, quiet others leave each reviewed account selected exactly if its name meant it at the listing |
| ImportSteps.UntouchedIsAsListed | mcp_email_server/application/management.py:1387-1419 | while all others are quiet, an account the import has not yet touched is as it was listed |
| ImportRun.Import.SetSecret | mcp_email_server/managed.py:1306-1366 | whoever commits in between, a credential is set once, at the expected revision of the account then behind the item's name, with at most a replaced one marked, or the call fails |
| ImportRun.Import.CreateItem | mcp_email_server/application/management.py:1333-1386 | a created item takes one addition and one credential per endpoint, and reports the revision they add up to |
| ImportRun.Import.ResumeItem | mcp_email_server/application/management.py:1387-1419 | a resumed item takes its first credential at the reviewed revision and each further one at the next |
| ImportRun.Import.DoItems | mcp_email_server/application/management.py:1328-1474 | the loop has done every item when it ends, and the catalog revision and account revisions it passes to the fence are the expected ones |
| ImportRun.Import.Apply | mcp_email_server/application/management.py:1288-1532 | a switch to managed mode implies an accepted fence, and then all others were quiet since the listing exactly if it fits the plan; every created account is then selected as reviewed, and every resumed or unchanged one exactly if its name meant it at the listing; any other end leaves the selection alone |
| ImportCutover.ReviewedConfigurationIsSelected | mcp_email_server/application/management.py:1214-1242 | if all others are quiet and the name had the reviewed revision at some moment of the import, a reviewed account is selected with the configuration that was shown, even by torn reads, if and only if its name meant it at the listing |
| ImportCutover.CreatedConfigurationIsSelected | mcp_email_server/application/management.py:1377-1395 | a created account is selected with the configuration it was created with |
| ImportMisses.CreatedOverListedIsNotNoticed | mcp_email_server/application/management.py:1384-1385 | a whole run from an empty catalog that the fence accepts although somebody else renamed an account listed under the name to be created |
| ImportMisses.ResumedOverOlderIsNotNoticed | mcp_email_server/application/management.py:1418 | a whole run from an empty catalog, with no cleanup left, that the fence accepts although somebody else changed an account listed at an older revision than reviewed |
| ImportMisses.SwappedNamesAreNotNoticed | mcp_email_server/application/management.py:1173-1192 | a whole run from an empty catalog in which two foreign renamings before the listing put an account with another profile behind the reviewed name |
| ImportCutover.GuardedImportCutover | mcp_email_server/adapters/management.py:147-204 | switches exactly from the given legacy selection, with source, secrets and fence as expected, and otherwise leaves the selection alone |
| LegacyCredentials.EntryKeyIsInjective | mcp_email_server/keyring_store.py:17-18 | no two account roles share a keyring entry, whatever colons an account name has |
| LegacyCredentials.LegacyStore.RestorePreviousSecret | mcp_email_server/keyring_store.py:83-108 | restores the previous value whenever the backend works again, and touches no other entry |
| LegacyCredentials.LegacyStore.SetSecret | mcp_email_server/keyring_store.py:111-154 | success means the entry holds the value; no other entry and no entry already holding it is ever touched; and if only the write fails, whatever it did, a previous value is back |
| LegacyCredentials.LegacyStore.StoreSecretsToKeyring | mcp_email_server/config.py:863-879 | without reported failures every secret is in the keyring; in every state on the way only entries that had to change differ |
| LegacyCredentials.LegacyStore.LoadForMigration | mcp_email_server/config.py:764-778 | a load gives every sentinel its keyring value and lists the slots that had one; without failures it succeeds exactly if every sentinel has an entry |
| LegacyCredentials.LegacyStore.PurgeReferences | mcp_email_server/config.py:934-948 | every reference not reported as remaining is gone from the keyring |
| LegacyCredentials.LegacyStore.StoreLocked | mcp_email_server/config.py:950-999 | after a normal return an ordinary load, override kept or removed, gives back every secret; plaintext files have no sentinel, keyring files nothing else; storing again what is stored loses nothing even if it fails; without failures it returns normally exactly if no sentinel would be written as a plain secret |
| LegacyCredentials.LegacyStore.MigrateCredentials | mcp_email_server/config.py:1001-1031 | at every point of a migration in either direction a migration load still yields every original secret; without failures it succeeds exactly if the stored credentials load and, for plaintext, none reads like the sentinel |
| Bootstrap.RenderedReadsBack | mcp_email_server/bootstrap.py:420-429 | a written selection reads back as what was written |
| Bootstrap.ReadIsSound | mcp_email_server/bootstrap.py:191-239 | a readable selection in managed mode has a database, and a database path is absolute |
| Bootstrap.SelectionFile.Materialize | mcp_email_server/bootstrap.py:385-399 | copying a combined file into the sidecar leaves what is read unchanged |
| Bootstrap.SelectionFile.Write | mcp_email_server/bootstrap.py:402-429 | is stale exactly if the caller saw another state; on success the revision is one higher, the result is what is read, and a chosen database stays chosen |
| Bootstrap.SelectionFile.ReplaceSource | mcp_email_server/config.py:1033-1056 | replacing or deleting the legacy file never changes the selection |
| Bootstrap.RevisionsNameSelections | mcp_email_server/bootstrap.py:402-449 | over the history that every operation of the selection file keeps, the revision counts the writes, a database is never dropped, and the same revision means the same selection |
| FrameReader.LinesPartition | mcp_email_server/stdio.py:75-103 | the line splitter loses nothing and every line has its newline only at its end |
| FrameReader.Reader.constructor | mcp_email_server/stdio.py:68-73 | a new reader still owes the items of the whole stream |
| FrameReader.Reader.Read | mcp_email_server/stdio.py:75-103 | one call reports exactly the next item of the line splitter however the stream is cut, with a buffer of at most the limit and one chunk |
| FrameReader.Reader.ReadAll | mcp_email_server/stdio.py:106-133 | reading to the end reports every line or its oversized mark, in order, for every chunking |
| FrameReader.WritePayload | mcp_email_server/stdio.py:135-148 | sends a prefix of the payload in order and ends normally exactly when all of it was accepted |
| Tokenizer.Tokenize | mcp_email_server/application/protocol.py:199-234 | the scanning loop gives the tokens of the line, or rejects it |
| Tokenizer.TokensAreTheLine | mcp_email_server/application/protocol.py:199-234 | every token is nonempty and balanced, and together they are the line without its top-level spaces |
| Tokenizer.RetokenizeIsStable | mcp_email_server/application/protocol.py:199-234 | the tokens joined by one space scan to the same tokens |
| Tokenizer.QuotedNameRoundTrip | mcp_email_server/application/protocol.py:237-245 | every control-free name, quoted by section 4.3 of RFC 3501, is one token that stands for the name |
| Tokenizer.TokenSpellsItsName | mcp_email_server/application/protocol.py:237-245 | every token of a scanned line that names a mailbox is that name or its quoted form, so tokens of different names differ |
| TokenGrammar.AcceptsExactlyTheGrammar | mcp_email_server/application/protocol.py:199-234 | the accepted lines are exactly the control-free printings of plain characters, quoted strings and matched groups |
| ProtocolRun.Session.WriteWire | mcp_email_server/adapters/protocol.py:159-172 | the sent mark is set after the authority check and before any byte |
| ProtocolRun.Session.ExecuteStep | mcp_email_server/adapters/protocol.py:313-341 | a step without the sent mark wrote no byte; the bytes are those before the first failing write |
| ProtocolRun.RunCommands | mcp_email_server/application/protocol.py:387-412 | commands run once and in order up to the first that does not continue; completed means all were ok |
| ProtocolRun.Execute | mcp_email_server/application/protocol.py:373-425 | results are kept on every path; when the report says nothing was sent is stated exactly, and so is when coverage that was not dropped goes unreported |
| ProtocolRun.RunShape | mcp_email_server/application/protocol.py:387-412 | ok steps, at most one stopping step, then not attempted; an error by exception put no byte on the wire |
| ProtocolRun.SetupReportIsRight | mcp_email_server/application/protocol.py:413-424 | the report that nothing was sent is right if and only if nothing was set up or the first command wrote nothing |
| ProtocolRun.SetupReportCanBeWrong | mcp_email_server/application/protocol.py:413-424 | a call whose report is wrong: an accepted command, then an error while closing |

## Left out

- Mutable flags: cached pages never filter on them, and they are read afresh for each page; the cache claims cover UIDs and immutable headers.
- The IMAP and SMTP handlers: a complete observation is taken to describe one server state, as `Imap.StatusNamesContents` justifies for the bracketing they do; a partial one is only taken to hold rows of its epoch.
- A late metadata write after a managed account's incoming server was replaced: the rows then describe the old server, and nothing in the tables tells the two servers apart.
- The identifier of a mailbox row, derived by hashing account and name, is taken to be free of collisions.
- A Date header that cannot be parsed is replaced by the time of the fetch (mcp_email_server/emails/classic.py:1496-1504), so two fetches of such a message differ; the model takes the date of a message as immutable.
- MetadataStore.MetadataIndex.ReadIncrementalBaseline: the delimiter and attributes of the mailbox, which the baseline carries along, are left out.
- FrameReader.Reader.ReadAll: decoding a frame and forwarding it to the session, or answering one that is too large or malformed, are left out.
- Header decoding, case folding and allow-list matching are one uninterpreted matcher; size limits on responses, flags and commands are settled by single branches.
- Account profile fields other than names, address and sent-mail settings (tags, mutation grants, drafts mailbox) are written and compared like those that are modelled.
- ManagedStore.ManagedCatalog.CleanupCredentials: which rows are the oldest is left open, any choice of that many candidates is allowed.
- Schema creation and migration of the managed database, the doctor and index-health reports, endpoint inspection: reporting and platform work around the modelled rows.
- A secret left in an external store by a crash between storing and activating it is recorded nowhere, so absence of orphans is claimed for same-file secrets only.
- Equality of credentials already ACTIVE when an import resumes: the code compares secrets only for unchanged accounts.
- ImportRun.Import.Apply: expiry, confirmation and eviction of previews are left out; the checks of source, secrets and selected database between the steps are calls that may fail; every activation the import reports is taken to have committed, which a misread rollback would break.
- Adding, updating and disabling an account and updating the policy are single transactions and given as functions only, in module Catalogs; the in-place statements they are made of are not repeated in module ManagedStore.
- A delivery whose own report is malformed or over the limits is refused before the sent copy is saved, and its evidence then reaches nobody; that check comes before the modelled part.
- The keyring probe and environment overrides other than the storage mode; settings other than credentials.
- File permissions, locks (mutual exclusion is assumed), Windows security, atomic replacement by rename and directory synchronisation.
- Local help, parsing of individual commands, and IMAP or SMTP reply parsing.
- Sending, forwarding, attachments, the command line, the web interface and tool descriptions.
