# Drive change detection, record store and extension message logic, in Dafny

This project models the core of an onboarding-context aggregator. The backend
mirrors Google Drive documents into a hosted assistant ("Backboard"). A
registered document is fetched, fingerprinted with MD5, compared with the row
stored for it in `drive_documents` and, when the fingerprint differs, uploaded.
The backend then waits for Backboard to index it and records the new
fingerprint. Around that core sit:

- the record store (`clients`, `assistants`, `drive_documents`);
- the HTTP endpoints that register, process and poll documents and summarise them;
- the pure GitHub ingestion predicates;
- the message logic of the VS Code extension's chat panel.

Modules, one per source file or concern:

| module | file | models |
|---|---|---|
| `Wrappers` | wrappers.dfy | `Option` and `Result` |
| `Text` | text.dfy | the Python and JavaScript string primitives the sources use: `find`, `in`/`includes`, `split`, `rstrip`/`strip`/`trim`, the first-occurrence `replace`, `str(n)` |
| `Fingerprint` | fingerprint.dfy | `compute_content_hash`: MD5 is an injected function, and the hexadecimal rendering is exact |
| `Records` | records.dfy | the tables of `db.py` as a value, with every query and write as a function |
| `Db` | db.dfy | the same tables as the class `Store`, whose methods replace its map fields and are proved against `Records` |
| `DriveSync` | drive_sync.dfy | `process_document`, `register_document_for_monitoring`, one pass of `poll_documents` and `extract_file_id_from_url` as functions of the registry and of the outside world's answers |
| `Drive` | drive.dfy | `DriveService` as a class whose methods change the store, proved against `DriveSync`; the indexing wait and the URL parser as loops |
| `Git` | git.dfy | `parse_github_url`, `should_ingest_file`, `should_skip_directory` and the two skip lists |
| `Server` | server.py's decisions in server.dfy | file-id resolution, the refusals, the polling snapshot, `/system/status`, `/activity`; the handlers are methods of `App`, which holds the lazily created `drive_service` |
| `Backboard` | backboard.dfy | `BackboardService`: `@source` routing, the composed question, the source mapping, the error texts |
| `ChatView` | chatview.dfy | `ChatViewProvider`: the history and the attached file, the shown file name, and the `handleCreateFile` checks |

Outside answers are parameters:

- A Drive fetch is `Got`, `HttpFailure` (the fetcher's `None`) or `Raises`.
- The indexing wait is the finite list of status replies the 60-second loop would see. Running out of replies is the loop's timeout.
- The clock is an `int` parameter `now`.
- Whether the stored API key decrypts is a boolean.
- Node's `path` functions are given functions.
- The editor's state is a value.

Behaviour of the code worth knowing:

- When the indexing wait times out, the `while … else` falls through and the registry **is** written (`DriveSync.SyncTimeoutStillWrites`).
- Processing an unregistered document does not fail. The row is created with the metadata's name and modification time (`DriveSync.SyncCreatesRow`).
- An update changes only `content_hash`, `content` and `updated_at`. The name and `last_modified` keep their registration values (`DriveSync.SyncUpdatesStoredRow`).
- `/drive/process` answers "processed" for every ending of `process_document` except an exception escaping it. Missing metadata, unchanged content, a failed indexing and the like are all reported as success.
- A document whose handling fails inside the `try` does not stop a polling pass. An exception escaping `process_document` does stop it: a metadata fetch that raises something other than an `HttpError`, or a service that never authenticated. It is caught outside the `for`, so the remaining ids wait for the next pass (`DriveSync.PassStopped`).
- `register_document_for_monitoring` does not check the client. Only the endpoint does.
- No GitHub push handler exists, so there is no push deduplication to model.

`get_all_drive_documents_for_client` has no `ORDER BY`. The model fixes insertion order, kept in `driveOrder`.

## Model

| member | source | states |
|---|---|---|
| `Fingerprint.ComputeContentHash` | src/backend/drive_service.py:142-152 | the fingerprint is 32 characters long |
| `Fingerprint.ContentHashIsLowerHex` | src/backend/drive_service.py:152 | the fingerprint uses only the digits 0-9 and a-f |
| `Fingerprint.UnhexHex` | src/backend/drive_service.py:152 | reading the hexadecimal rendering back gives the digest: `hexdigest` loses nothing |
| `Fingerprint.SameHashIffSameDigest` | src/backend/drive_service.py:142-152 | two contents have equal fingerprints exactly when MD5 gives them equal digests; equal content always gives equal fingerprints |
| `Fingerprint.HashIsNeverEmpty` | src/backend/drive_service.py:142-152 | no fingerprint equals the empty hash of a registered, never-ingested row |
| `Records.LookupClient` | src/backend/db.py:31-43 | the row with that `client_id`, or `None` exactly when no row has it |
| `Records.CreateClient` | src/backend/db.py:46-57 | the INSERT succeeds exactly when the key is new; the row is then found and no other client changes; a clash changes nothing |
| `Records.LookupAssistant` | src/backend/db.py:61-73 | a stored row of that client, or `None` exactly when the client has none |
| `Records.CreateAssistant` | src/backend/db.py:76-87 | the INSERT succeeds exactly when the `assistant_id` is new and appends the row; a clash changes nothing |
| `Records.LookupAfterCreateAssistant` | src/backend/db.py:61-87 | after inserting an assistant for a client with none, lookup returns exactly that row |
| `Records.LookupDriveDocument` | src/backend/db.py:121-133 | the row whose `file_id` matches, or `None` exactly when none does |
| `Records.CreateDriveDocument` | src/backend/db.py:136-156 | a new `file_id` is stored with the given fields and both timestamps `now`, after every earlier row; other rows unchanged; an existing id fails and changes nothing |
| `Records.UpdateDriveDocument` | src/backend/db.py:159-172 | only `content_hash`, `content` and `updated_at` of the matching row change; other rows and tables are unchanged; an absent id changes nothing |
| `Records.AllDriveDocumentsForClient` | src/backend/db.py:175-187 | exactly the stored rows of that client, each once; `[]` when there are none |
| `Records.RowsForClientDistinct` | src/backend/db.py:175-187 | no file appears twice in the client's list |
| `Records.SecondCreateFails` | tests/conftest.py:89-99 | `file_id` is the primary key: a second create with the same id fails and leaves the tables as the first left them |
| `Db.Store.constructor` | src/backend/db.py:24-27 | an empty database |
| `Db.Store.LookupClient` | src/backend/db.py:31-43 | returns `Records.LookupClient` of the current tables |
| `Db.Store.CreateClient` | src/backend/db.py:46-57 | the new tables and the success flag are those of `Records.CreateClient` |
| `Db.Store.LookupAssistant` | src/backend/db.py:61-73 | the scan returns the first row of the client, as `Records.LookupAssistant` |
| `Db.Store.CreateAssistant` | src/backend/db.py:76-87 | the new tables and flag are those of `Records.CreateAssistant` |
| `Db.Store.LookupDriveDocument` | src/backend/db.py:121-133 | returns `Records.LookupDriveDocument` of the current tables |
| `Db.Store.CreateDriveDocument` | src/backend/db.py:136-156 | the new tables and flag are those of `Records.CreateDriveDocument` |
| `Db.Store.UpdateDriveDocument` | src/backend/db.py:159-172 | the new tables are those of `Records.UpdateDriveDocument` |
| `Db.Store.GetAllDriveDocumentsForClient` | src/backend/db.py:175-187 | the scan returns `Records.AllDriveDocumentsForClient` |
| `DriveSync.UploadBody` | src/backend/drive_service.py:219-227 | the body starts with the document lines, ends with the content unchanged, and is exactly the header plus the content long |
| `DriveSync.UploadBodyLayout` | src/backend/drive_service.py:219-227 | the uploaded body opens with the `Document:`/`Last Modified:`/`Source: Google Drive`/`Link:` lines, the link is `N/A` when missing, and the body ends with the content |
| `DriveSync.IndexingVerdict` | src/backend/drive_service.py:236-253 | the wait times out exactly when every status reply is pending |
| `DriveSync.IndexingVerdictFirstReply` | src/backend/drive_service.py:241-251 | otherwise the verdict is the one the first non-pending reply gives |
| `DriveSync.Sync` | src/backend/drive_service.py:154-282 | the registry stays valid; nothing but a save changes it; an upload needs metadata and content; a save follows an upload |
| `DriveSync.SyncSavesIff` | src/backend/drive_service.py:163-275 | the registry is written exactly when every check passed and indexing reported `indexed` or timed out |
| `DriveSync.SyncNeedsMetadataAndContent` | src/backend/drive_service.py:163-172 | missing metadata, or content that is missing or empty, means no upload and no write |
| `DriveSync.SyncNeedsClientAndAssistant` | src/backend/drive_service.py:188-205 | a missing client or assistant row means no upload and no write |
| `DriveSync.SyncUnchanged` | src/backend/drive_service.py:178-184 | a stored fingerprint equal to the new one gives "No changes detected" with no upload and no write |
| `DriveSync.SyncWritesUpdate` | src/backend/drive_service.py:262-264 | for a stored document that passed every check, the call ends in `update_drive_document(file_id, hash, content)` |
| `DriveSync.SyncWritesCreate` | src/backend/drive_service.py:265-275 | for a new document that passed every check, the call ends in `create_drive_document` with the metadata's name and modification time |
| `DriveSync.SyncUpdatesStoredRow` | src/backend/drive_service.py:262-264 | the stored row gets the new hash and content; its name, `last_modified`, other rows and the order are unchanged |
| `DriveSync.SyncCreatesRow` | src/backend/drive_service.py:265-275 | a new row holds this hash, the content, the metadata name and modification time, owned by the client |
| `DriveSync.SyncIndexingFailedKeepsRegistry` | src/backend/drive_service.py:246-250 | a `failed` status ends the call after the upload, with the registry untouched |
| `DriveSync.SyncTimeoutStillWrites` | src/backend/drive_service.py:241-275 | a wait that only sees pending replies times out and still stores the new fingerprint |
| `DriveSync.SyncAgainIsUnchanged` | src/backend/drive_service.py:174-275 | after a save, processing the same content again is "No changes detected" |
| `DriveSync.Register` | src/backend/drive_service.py:315-341 | inaccessible metadata is the `ValueError` with no write; an existing row means no write; otherwise a row with empty hash and content and the metadata's name and time |
| `DriveSync.RegisterIdempotent` | src/backend/drive_service.py:315-341 | registering again reports "already registered" and changes nothing |
| `DriveSync.FirstSyncAfterRegisterSaves` | src/backend/drive_service.py:174-186 | the first processing of a freshly registered document always uploads and saves, since the empty stored hash never matches |
| `DriveSync.Pass` | src/backend/drive_service.py:299-313 | a pass makes at most one call per id and at least one when there are ids |
| `DriveSync.PassStopped` | src/backend/drive_service.py:299-309 | once a call raised, the rest of the pass changes nothing |
| `DriveSync.PassStopsOnlyAtRaise` | src/backend/drive_service.py:299-313 | only the last call of a pass can have raised, and a pass cut short ended with one that raised |
| `DriveSync.PassVisitsAll` | src/backend/drive_service.py:299-303 | when no call raises, every id of the list is processed |
| `DriveSync.PassCallAt` | src/backend/drive_service.py:299-303 | the k-th outcome of a pass is the step for the k-th id, against the registry the first k calls left |
| `DriveSync.PassStartsWithFirst` | src/backend/drive_service.py:301-302 | the first call is made for the first id against the starting registry |
| `DriveSync.PassFirstRaises` | src/backend/drive_service.py:299-313 | a first call that raises ends the pass after one call |
| `DriveSync.Cycle` | src/backend/drive_service.py:299-303 | one pass over the ids makes at most one call per id |
| `DriveSync.CycleUnauthenticated` | src/backend/drive_service.py:118-140 | with no authenticated service, the first fetch raises, so a pass makes one call and writes nothing |
| `DriveSync.CycleStartsWithFirstId` | src/backend/drive_service.py:301-302 | the first call of a pass is `process_document` on the first id |
| `DriveSync.Piece` | src/backend/drive_service.py:364-373 | the text cut after a pattern holds no `/` |
| `DriveSync.Candidate` | src/backend/drive_service.py:362-378 | a pattern that does not occur yields nothing; what one yields is non-empty and slash-free |
| `DriveSync.FileIdFromUrl` | src/backend/drive_service.py:345-380 | the result is what the first pattern, in list order, with a non-empty piece yields; `None` exactly when no pattern does, in particular when none occurs; the id is non-empty and never contains `/` |
| `DriveSync.BareIdYieldsNone` | src/backend/drive_service.py:345-380 | a bare id without `/` or `=` yields `None` |
| `DriveSync.BareIdExample` | tests/test_drive_service.py:36-40 | the bare id `1ABC123xyz` yields `None` |
| `DriveSync.DocumentLinkYieldsId` | src/backend/drive_service.py:362-378 | a link `p/d/<id>/rest` with no earlier `/d/` yields exactly `id` |
| `DriveSync.QueryLinkYieldsId` | src/backend/drive_service.py:362-378 | a link `p?id=<id>` without `/d/` yields exactly `id` |
| `Drive.WaitForIndexing` | src/backend/drive_service.py:241-253 | the loop's verdict is `IndexingVerdict` of the replies |
| `Drive.DriveService.constructor` | src/backend/drive_service.py:40-63 | a service that is not yet authenticated |
| `Drive.DriveService.Authenticate` | src/backend/drive_service.py:65-95 | the service is usable exactly when authentication succeeded |
| `Drive.DriveService.ProcessDocument` | src/backend/drive_service.py:154-282 | the store becomes `Sync`'s registry, the outcome is `Sync`'s, and the upload body is sent exactly when `Sync` uploads |
| `Drive.DriveService.SendAndRecord` | src/backend/drive_service.py:188-282 | the `try` block does what `Sync` does once the fingerprint differs |
| `Drive.DriveService.PollStep` | src/backend/drive_service.py:301-302 | one call extends the pass by the i-th id |
| `Drive.DriveService.PollCycle` | src/backend/drive_service.py:299-313 | the store and the outcomes are those of `Cycle` |
| `Drive.DriveService.RegisterDocumentForMonitoring` | src/backend/drive_service.py:315-341 | the store and the outcome are those of `Register` |
| `Drive.ExtractFileIdFromUrl` | src/backend/drive_service.py:345-380 | the loop returns `FileIdFromUrl` |
| `Git.ParseGithubUrl` | src/backend/git_service.py:37-46 | fails with `Invalid GitHub URL` exactly when the stripped URL has no `/`; otherwise owner and name are slash-free and `owner/repo` is the whole stripped URL or ends it after a `/` |
| `Git.ParseOwnerSlashRepo` | src/backend/git_service.py:43-46 | a bare `owner/repo` with a non-empty name parses to exactly `(owner, repo)` |
| `Git.ParseIgnoresTrailingSlash` | src/backend/git_service.py:43 | `parse(u + "/") == parse(u)` |
| `Git.ParseOfOwnerAndRepo` | src/backend/git_service.py:43-46 | any URL ending in `/owner/repo` with a non-empty name parses to `(owner, repo)` |
| `Git.ParseRepositoryAddress` | src/backend/git_service.py:37-41 | `https://github.com/owner/repo`, with or without a trailing slash, gives `("owner", "repo")` |
| `Git.ParseBareName` | src/backend/git_service.py:44-45 | a name with no `/`, however many slashes follow it, is refused |
| `Git.ShouldIngestFile` | src/backend/git_service.py:74-79 | a name is ingested exactly when none of its tails is a skipped ending |
| `Git.IngestNameWithoutDot` | src/backend/git_service.py:21-35 | every skipped ending starts with a dot, so a name without one is ingested |
| `Git.IngestByLastChar` | src/backend/git_service.py:74-79 | a name whose last character ends no skipped ending is ingested |
| `Git.SkipIsBySuffix` | src/backend/git_service.py:74-79 | only the end of the name matters: a prefix never makes a skipped name ingested |
| `Git.SkippedFileExample` | src/backend/git_service.py:74-79 | `logo.png` is skipped |
| `Git.IngestedFileExamples` | src/backend/git_service.py:74-79 | `main.py` is ingested, and so is `logo.PNG` (the test is case-sensitive) |
| `Git.ShouldSkipDirectory` | src/backend/git_service.py:81-83 | only a single non-empty path segment, with no slash of either kind, is ever skipped |
| `Git.CapitalisedDirectoryWalked` | src/backend/git_service.py:81-83 | the test is exact and case-sensitive: a listed name with its first letter replaced by a capital is walked |
| `Git.SkipDirectoryExamples` | src/backend/git_service.py:81-83 | listed names are skipped; names that contain, extend or differ in case from one are not |
| `Server.CreateClientCall` | src/backend/server.py:38-61 | 409 exactly for an existing client with nothing written; on success one assistant and the client with the encrypted key are stored |
| `Server.CreateClientTwiceConflicts` | src/backend/server.py:41-44 | a created client cannot be created again |
| `Server.ResolveFileId` | src/backend/server.py:197-201 | input with `http` goes through `extract_file_id_from_url`; an accepted id is non-empty |
| `Server.ResolveVerbatim` | src/backend/server.py:198-201 | input without `http` is used verbatim; only the empty one is refused |
| `Server.ResolveRefusesUnmatchedLink` | src/backend/server.py:198-201 | a link in which no pattern occurs is refused with 400 |
| `Server.ResolveDriveUrl` | src/backend/server.py:197-201 | the handler's code computes `ResolveFileId` |
| `Server.RegisterReply` | src/backend/server.py:202-212 | `registered` with the file id for a new or already registered document; 404 exactly for the inaccessible file, with a detail ending in its id; 500 exactly when registration raised |
| `Server.FileIds` | src/backend/server.py:278 | the ids of the documents, in order |
| `Server.PolledIdsAreRegistered` | src/backend/server.py:264-278 | the polled ids are exactly the client's registered files, each once |
| `Server.StatusOf` | src/backend/server.py:312-342 | Drive is connected iff the client has a document; the count is the number of them; `lastUpdated` is the first listed one's `updated_at`, or absent when there is none |
| `Server.Entries` | src/backend/server.py:351-362 | one entry per document, in order |
| `Server.SortByTimeDesc` | src/backend/server.py:367 | the same entries, newest first |
| `Server.SortKeepsTies` | src/backend/server.py:367 | entries with equal times keep their order (Python's sort is stable) |
| `Server.PrefixTo` | src/backend/server.py:367 | Python's `[:limit]`, including a negative limit |
| `Server.ActivityFeed` | src/backend/server.py:345-367 | newest first, exactly as many entries as `[:limit]` keeps (`limit` of them when there are more, all otherwise, all but the last `-limit` for a negative limit), all taken from the client's documents |
| `Server.NewestKept` | src/backend/server.py:367 | the entries kept are the newest, and all are kept when the limit allows |
| `Server.ActivityFeedKeepsNewest` | src/backend/server.py:345-367 | no entry left out is newer than one shown, and nothing is dropped when `limit` is at least the count |
| `Server.App.constructor` | src/backend/server.py:29 | no Drive service yet |
| `Server.App.EnsureDrive` | src/backend/server.py:193-195 | a service is created only when none exists; it is assigned before authenticating, so a failure leaves an unauthenticated service |
| `Server.App.AuthenticateDrive` | src/backend/server.py:156-173 | always a new service; 404 without a credentials file, 500 for other failures |
| `Server.App.CreateClient` | src/backend/server.py:38-61 | the store and reply are those of `CreateClientCall` |
| `Server.App.RegisterDriveDocument` | src/backend/server.py:176-213 | an unknown client gets 404 before any Drive work; a bad id gets 400; otherwise `Register` decides the store and the reply |
| `Server.App.ProcessDriveDocument` | src/backend/server.py:216-245 | an unknown client gets 404 before any Drive work; otherwise the store is `Sync`'s and only an escaping exception gives 500 |
| `Server.App.StartDrivePolling` | src/backend/server.py:248-289 | 404 for an unknown client or one with no documents; otherwise exactly the registered ids are polled, with `document_count` their number |
| `Server.App.GetDriveDocuments` | src/backend/server.py:292-310 | 404 for an unknown client; otherwise the client's documents and their count |
| `Server.App.GetSystemStatus` | src/backend/server.py:312-342 | returns `StatusOf` of the tables |
| `Server.App.GetActivity` | src/backend/server.py:345-367 | returns `ActivityFeed` of the tables |
| `Backboard.LineRange` | vscode-extension/src/backboardService.ts:69-71 | the range is shown exactly when both line numbers are set and non-zero |
| `Backboard.ComposeMessage` | vscode-extension/src/backboardService.ts:66-73 | with no context the text sent is the message; with one it is the context block followed by the message |
| `Backboard.ComposeMessageLayout` | vscode-extension/src/backboardService.ts:67-73 | the block opens with `[Context from <file>`, ends with the content and a blank line, and the message always comes last |
| `Backboard.MapSources` | vscode-extension/src/backboardService.ts:87-97 | each source string becomes, in order, a `memory` source with that content; `undefined` when there are none |
| `Backboard.MapSourcesKeepsTexts` | vscode-extension/src/backboardService.ts:87-91 | the mapped list's contents are the backend's strings, in order |
| `Backboard.ErrorText` | vscode-extension/src/backboardService.ts:103-106 | 404 gives the "Client not found" text; anything else gives the connection text ending with the error's message |
| `Backboard.QueryBackend` | vscode-extension/src/backboardService.ts:60-114 | an answer becomes an assistant message with mapped sources; a failure becomes the error text with no sources |
| `Backboard.CleanSourceQuery` | vscode-extension/src/backboardService.ts:201 | the query is trimmed, no longer than the message, and is the trimmed message when it holds no `@source` |
| `Backboard.CleanRemovesFirstOnly` | vscode-extension/src/backboardService.ts:201 | only the first `@source` is removed, then the text is trimmed |
| `Backboard.HandleSourceRequest` | vscode-extension/src/backboardService.ts:116-212 | the reply always carries the three fixed sources |
| `Backboard.SourceReplyText` | vscode-extension/src/backboardService.ts:201-204 | the reply quotes the cleaned query and reports three files |
| `Backboard.SendMessage` | vscode-extension/src/backboardService.ts:49-58 | the reply is an assistant message stamped now |
| `Backboard.SendMessageRouting` | vscode-extension/src/backboardService.ts:53-57 | a message goes to the backend iff it lacks `@source`; what is sent ends with the message and is the message itself without context |
| `ChatView.Normalized` | vscode-extension/src/chatViewProvider.ts:222 | no backslash survives normalisation |
| `ChatView.Segments` | vscode-extension/src/chatViewProvider.ts:222-223 | every segment is non-empty and has neither kind of slash |
| `ChatView.PlanCreateFile` | vscode-extension/src/chatViewProvider.ts:196-253 | each of the six refusals (missing input, white-space name, no workspace, absolute path, a `..` segment, a path leaving the workspace) happens exactly when the checks before it pass and its own fails; a request passing all of them is accepted with its segments and content |
| `ChatView.PlanIsConfined` | vscode-extension/src/chatViewProvider.ts:222-253 | written segments are non-empty, never `..`, slash-free; a directory is made iff there are two or more segments, and it is all but the last |
| `ChatView.TraversalRefused` | vscode-extension/src/chatViewProvider.ts:231-235 | a `..` segment is refused before any write |
| `ChatView.WhitespaceNameRefused` | vscode-extension/src/chatViewProvider.ts:207-210 | a name of white space only is refused |
| `ChatView.HandleCreateFile` | vscode-extension/src/chatViewProvider.ts:196-286 | refused exactly when a check fails; a directory error other than "exists" stops before the write; a write uses the checked plan |
| `ChatView.NoWriteWithoutNameAndContent` | vscode-extension/src/chatViewProvider.ts:201-210 | no write without a name and a content, or with a white-space name |
| `ChatView.ContextOf` | vscode-extension/src/chatViewProvider.ts:168-183 | a selection gives its text and its 1-based first and last lines; no selection gives the whole document without lines |
| `ChatView.DisplayName` | vscode-extension/src/chatViewProvider.ts:884-890 | the shown name starts with the file name and is exactly it when no line range is set |
| `ChatView.AttachedDisplayName` | vscode-extension/src/chatViewProvider.ts:168-183 | an attached selection always shows `:L<start>`, and `-L<end>` only when the lines differ; a whole file shows its bare name |
| `ChatView.LineSuffixInjective` | vscode-extension/src/chatViewProvider.ts:886-889 | the line suffix gives back its start, and its end unless it is a single line |
| `ChatView.DisplayNameUnambiguous` | vscode-extension/src/chatViewProvider.ts:884-890 | two ranges of a file that show the same name share their first line, and their last unless both are single lines |
| `ChatView.WelcomeMessage` | vscode-extension/src/chatViewProvider.ts:109-130 | the welcome is an assistant message with no sources and no context |
| `ChatView.UserMessage` | vscode-extension/src/chatViewProvider.ts:57-62 | the question is a user message carrying the file attached at that moment |
| `ChatView.ReplyTo` | vscode-extension/src/chatViewProvider.ts:75-101 | the reply of `sendMessage`, or the apology when the call raised |
| `ChatView.ChatViewProvider.constructor` | vscode-extension/src/chatViewProvider.ts:7-8 | empty history, nothing attached |
| `ChatView.ChatViewProvider.SendWelcomeMessage` | vscode-extension/src/chatViewProvider.ts:109-136 | appends the welcome |
| `ChatView.ChatViewProvider.OnDidChangeVisibility` | vscode-extension/src/chatViewProvider.ts:48-52 | a panel shown with an empty history gets the welcome |
| `ChatView.ChatViewProvider.ClearChat` | vscode-extension/src/chatViewProvider.ts:150-155 | the history is exactly the welcome message |
| `ChatView.ChatViewProvider.AttachCurrentFile` | vscode-extension/src/chatViewProvider.ts:157-189 | with an editor the attachment becomes `ContextOf` it; without one nothing changes |
| `ChatView.ChatViewProvider.RemoveContext` | vscode-extension/src/chatViewProvider.ts:191-194 | nothing is attached afterwards |
| `ChatView.ChatViewProvider.HandleUserMessage` | vscode-extension/src/chatViewProvider.ts:56-107 | the question, carrying the old attachment, is appended before the reply or the apology; nothing is attached afterwards |

## Left out

- OAuth and the Drive HTTP API (`authenticate`'s flow, `get_document_content`, `get_file_metadata`): their results are parameters. Only whether authentication succeeded is kept.
- MD5 and UTF-8 encoding: an injected function. Only its hexadecimal rendering is modelled, so sensitivity to content changes is as good as MD5, not proved.
- Wall-clock time, `asyncio.sleep` and the 300 s, 60 s and 2 s intervals: the indexing wait is a finite list of status replies, and timestamps are parameters.
- The endless `while True` of `poll_documents`, its `KeyboardInterrupt` exit, and its launch with `asyncio.create_task`: one pass is modelled, and the start-polling handler returns the id list it would poll. Races between a manual process and a background pass are concurrency and are not modelled.
- The temporary file and its clean-up, and the Backboard client (assistants, threads, upload, status, streaming): their observable results are parameters. `add_thread` and `query` are not modelled.
- `encryption.py`: encryption is a parameter of `create_client`, and decryption succeeding is a boolean of the world.
- `Server.StatusOf`: `hasApiKey` equals `clientExists`. The `clients.api_key` column is nullable, but the only writer of clients, `create_client`, always stores an encrypted key, so a stored client never lacks one in this model.
- psycopg2 connections, commits and `chats`/`repositories`: only the three tables the core uses are modelled. A failed INSERT is a `false` result that changes nothing, standing for the exception and rollback.
- `fetch_repo_contents` and `fetch_file_content`: HTTP calls.
- The Telegram bots, the web pages, `web/lib/api.ts`, the `web/app/api` routes and the scripts: UI, HTTP glue or client programs.
- The webview's HTML and CSS, `getNonce`, `formatMessage`, `openFileAtLine`, `sendMessageFromCommand`, `checkConnection`, and every VS Code call (`showTextDocument`, `writeFile`, messages to the webview): UI and editor I/O. Only the `fileAttached` name rule of the webview script is modelled.
- `path.normalize`, `path.isAbsolute` and `path.relative`: given functions, so only the segment logic around them is proved.
- `ChatView.HandleCreateFile`: errors from `writeFile` and `openTextDocument` after the write are not modelled. The extension's own replies never carry a `toolResult`, so `handleUserMessage` never calls it; it is modelled on its own.
- `ChatView.ChatViewProvider.HandleUserMessage`: `raised` stands for the awaited `sendMessage` rejecting, in which case the response is not pushed. An exception after the response was pushed, which would append both, is not modelled.
- `Backboard.HandleSourceRequest`: the 800 ms delay and the code excerpts inside the three fixed sources are not reproduced.
