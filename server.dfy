/**
 * The decision logic of the HTTP endpoints in `server.py` that front the
 * registry and the Drive service: which requests are turned away, and with
 * which status, before anything is written; what is written when they are
 * not; and the read-only summaries the dashboard shows.
 *
 * The module-level `drive_service`, created on first use, is the field
 * `drive` of `App`; the database module is the store `db`. Backboard's
 * `create_assistant` and the Fernet encryption of API keys are parameters.
 */
module Server {
  import opened Wrappers
  import opened Text
  import Fingerprint
  import Records
  import Db
  import opened DriveSync
  import Drive

  /** The JSON body of a successful request, or the status and detail of the `HTTPException` raised instead. */
  datatype Reply<+T> = Ok(body: T) | Error(status: int, detail: string)

  const CLIENT_EXISTS := "Client already exists!"
  const CLIENT_NOT_FOUND := "Client does not exist!"
  const INVALID_FILE_ID := "Invalid Drive URL or file ID"
  const NO_DOCUMENTS := "No documents registered for this client. Register documents first using /drive/register"
  /** What FastAPI answers when an exception escapes a handler. */
  const INTERNAL_ERROR := "Internal Server Error"
  const REGISTRATION_FAILED := "Registration failed: "
  const PROCESSING_FAILED := "Processing failed: "
  const AUTHENTICATION_FAILED := "Authentication failed: "
  const CREDENTIALS_MISSING := "Credentials file not found"

  /** `{"status": "created", "client_id", "assistant_id"}`. */
  datatype ClientCreated = ClientCreated(clientId: string, assistantId: string)
  /** `{"status": "registered", "file_id", ...}`. */
  datatype DocumentRegistered = DocumentRegistered(fileId: string)
  /** `{"status": "processed", "file_id", ...}`. */
  datatype DocumentProcessed = DocumentProcessed(fileId: string)
  /** `{"status": "polling_started", "client_id", "document_count", "interval", ...}`. */
  datatype PollingStarted = PollingStarted(clientId: string, documentCount: nat, interval: int)
  /** `{"client_id", "document_count", "documents"}`. */
  datatype DocumentList = DocumentList(clientId: string, documentCount: nat, documents: seq<Records.DriveDoc>)
  /** `{"status": "authenticated", ...}`. */
  datatype Authenticated = Authenticated

  // ------------------------------------------------------------ create_client

  /**
   * `create_client(client_id, api_key)` on tables `t`. `assistantId` is the
   * id Backboard gives the new assistant, `None` when that call raises;
   * `encrypt` is `encryption.encrypt_api_key`. An existing client is turned
   * away with 409; otherwise the assistant row is inserted first and then
   * the client row with the encrypted key. A clash on `assistant_id` raises
   * out of the handler before the client row is written.
   */
  function CreateClientCall(
    t: Records.Tables, clientId: string, apiKey: string,
    assistantId: Option<string>, encrypt: string -> string): (r: (Records.Tables, Reply<ClientCreated>))
    requires Records.Valid(t)
    ensures Records.Valid(r.0)
    ensures r.1 == Error(409, CLIENT_EXISTS) <==> Records.LookupClient(t, clientId).Some?
    ensures r.1.Error? ==> r.0 == t
    ensures r.1.Ok? <==>
      && Records.LookupClient(t, clientId).None? && assistantId.Some?
      && forall a | a in t.assistants :: a.assistantId != assistantId.value
    ensures r.1.Ok? ==>
      && r.1.body == ClientCreated(clientId, assistantId.value)
      && Records.LookupClient(r.0, clientId) == Some(Records.Client(clientId, encrypt(apiKey)))
      && r.0.assistants == t.assistants + [Records.Assistant(assistantId.value, clientId)]
      && Records.LookupAssistant(r.0, clientId).Some?
      && r.0.drive == t.drive && r.0.driveOrder == t.driveOrder
  {
    if Records.LookupClient(t, clientId).Some? then (t, Error(409, CLIENT_EXISTS))
    else if assistantId.None? then (t, Error(500, INTERNAL_ERROR))
    else
      var (t1, ok) := Records.CreateAssistant(t, assistantId.value, clientId);
      if !ok then (t, Error(500, INTERNAL_ERROR))
      else
        var (t2, _) := Records.CreateClient(t1, clientId, encrypt(apiKey));
        FirstAssistantExists(t1.assistants, Records.Assistant(assistantId.value, clientId));
        (t2, Ok(ClientCreated(clientId, assistantId.value)))
  }

  /** After a row of the client is appended, some row of the client is found. */
  lemma FirstAssistantExists(rows: seq<Records.Assistant>, a: Records.Assistant)
    requires a in rows
    ensures Records.FirstAssistantOf(rows, a.clientId).Some?
  {
  }

  /** A client that has been created cannot be created again. */
  lemma CreateClientTwiceConflicts(
    t: Records.Tables, clientId: string, apiKey: string, assistantId: Option<string>, encrypt: string -> string,
    apiKey': string, assistantId': Option<string>)
    requires Records.Valid(t)
    requires CreateClientCall(t, clientId, apiKey, assistantId, encrypt).1.Ok?
    ensures var t1 := CreateClientCall(t, clientId, apiKey, assistantId, encrypt).0;
      CreateClientCall(t1, clientId, apiKey', assistantId', encrypt) == (t1, Error(409, CLIENT_EXISTS))
  {
  }

  // ------------------------------------------------------------ file id resolution

  /**
   * The file id of `/drive/register`: extracted from the input when it
   * contains `http`, the input itself otherwise; `None` (a 400 reply) when
   * that is empty or no pattern matched.
   */
  function ResolveFileId(driveUrl: string): (r: Option<string>)
    ensures r.Some? ==> r.value != ""
    ensures Contains(driveUrl, "http") ==> r == FileIdFromUrl(driveUrl)
    ensures r.Some? && Contains(driveUrl, "http") ==> '/' !in r.value
  {
    var fileId := if Contains(driveUrl, "http") then FileIdFromUrl(driveUrl) else Some(driveUrl);
    if fileId.None? || fileId.value == "" then None else fileId
  }

  /** Input without `http` is taken as the file id itself, unchanged; only the empty input is refused. */
  lemma ResolveVerbatim(driveUrl: string)
    requires !Contains(driveUrl, "http")
    ensures ResolveFileId(driveUrl) == if driveUrl == "" then None else Some(driveUrl)
  {
  }

  /** A link in which none of the patterns occurs is refused. */
  lemma ResolveRefusesUnmatchedLink(driveUrl: string)
    requires Contains(driveUrl, "http")
    requires forall k | 0 <= k < |PATTERNS| :: !Contains(driveUrl, PATTERNS[k])
    ensures ResolveFileId(driveUrl) == None
  {
  }

  /** `extract_file_id_from_url(drive_url) if "http" in drive_url else drive_url`, then the emptiness test. */
  method ResolveDriveUrl(driveUrl: string) returns (fileId: Option<string>)
    ensures fileId == ResolveFileId(driveUrl)
  {
    if Contains(driveUrl, "http") {
      fileId := Drive.ExtractFileIdFromUrl(driveUrl);
    } else {
      fileId := Some(driveUrl);
    }
    if fileId.Some? && fileId.value == "" {
      fileId := None;
    }
  }

  // ------------------------------------------------------------ register, process, start-polling

  /** The reply `/drive/register` gives for each way `register_document_for_monitoring` ends. */
  function RegisterReply(o: RegisterOutcome, fileId: string): (r: Reply<DocumentRegistered>)
    ensures r.Ok? <==> o.Registered? || o.AlreadyRegistered?
    ensures r.Ok? ==> r.body.fileId == fileId
    ensures r.Error? ==> (r.status == 404 <==> o.CannotAccess?) && (r.status == 500 <==> o.RegisterRaises?)
    ensures o.CannotAccess? ==> EndsWith(r.detail, fileId)
  {
    match o
    case Registered => Ok(DocumentRegistered(fileId))
    case AlreadyRegistered => Ok(DocumentRegistered(fileId))
    case CannotAccess => Error(404, "Cannot access file " + fileId)
    case RegisterRaises => Error(500, REGISTRATION_FAILED)
  }

  /** `[doc["file_id"] for doc in documents]`. */
  function FileIds(docs: seq<Records.DriveDoc>): (ids: seq<string>)
    ensures |ids| == |docs|
    ensures forall i | 0 <= i < |docs| :: ids[i] == docs[i].fileId
  {
    seq(|docs|, i requires 0 <= i < |docs| => docs[i].fileId)
  }

  /**
   * The ids `/drive/start-polling` hands to `poll_documents` are exactly the
   * files registered for the client, each once.
   */
  lemma PolledIdsAreRegistered(t: Records.Tables, clientId: string)
    requires Records.Valid(t)
    ensures var ids := FileIds(Records.AllDriveDocumentsForClient(t, clientId));
      && (forall id :: id in ids <==>
            Records.LookupDriveDocument(t, id).Some? && Records.LookupDriveDocument(t, id).value.clientId == clientId)
      && (forall i, j | 0 <= i < j < |ids| :: ids[i] != ids[j])
  {
    var docs := Records.AllDriveDocumentsForClient(t, clientId);
    var ids := FileIds(docs);
    forall id | Records.LookupDriveDocument(t, id).Some? && Records.LookupDriveDocument(t, id).value.clientId == clientId
      ensures id in ids
    {
      var d := Records.LookupDriveDocument(t, id).value;
      assert d in docs;
      var i :| 0 <= i < |docs| && docs[i] == d;
      assert ids[i] == id;
    }
  }

  // ------------------------------------------------------------ system status

  /** The `drive` part of `/system/status`. */
  datatype DriveStatus = DriveStatus(connected: bool, documentCount: nat, lastUpdated: Option<int>)

  /**
   * `/system/status`. `has_api_key` is `client.get("api_key") is not None`;
   * the key column is never null here, so it is true exactly for a known
   * client. Telegram and the codebase are fixed placeholders.
   */
  datatype SystemStatus = SystemStatus(
    clientId: string, clientExists: bool, hasApiKey: bool,
    drive: DriveStatus,
    telegramConnected: bool,
    codebaseConnected: bool, codebaseLastUpdated: string)

  const CODEBASE_LAST_UPDATED := "2026-01-12 10:00 UTC"

  /**
   * The status of `clientId` on tables `t`: Drive is connected exactly when
   * some document of the client is registered, the count is the number of
   * them, and the last update is that of the first one, absent when there
   * is none.
   */
  function StatusOf(t: Records.Tables, clientId: string): (s: SystemStatus)
    requires Records.Valid(t)
    ensures s.clientExists <==> Records.LookupClient(t, clientId).Some?
    ensures s.hasApiKey == s.clientExists
    ensures s.drive.connected <==> exists d | d in t.drive.Values :: d.clientId == clientId
    ensures s.drive.documentCount == |Records.AllDriveDocumentsForClient(t, clientId)|
    ensures s.drive.lastUpdated.Some? <==> s.drive.connected
    ensures s.drive.lastUpdated.Some? ==>
      s.drive.lastUpdated.value == Records.AllDriveDocumentsForClient(t, clientId)[0].updatedAt
    ensures s.drive.lastUpdated.Some? ==>
      exists d | d in t.drive.Values :: d.clientId == clientId && d.updatedAt == s.drive.lastUpdated.value
    ensures !s.telegramConnected && s.codebaseConnected
  {
    var client := Records.LookupClient(t, clientId);
    var docs := Records.AllDriveDocumentsForClient(t, clientId);
    var drive := (
      if docs == [] then DriveStatus(false, 0, None)
      else
        DocumentOfClientStored(t, clientId, 0);
        DriveStatus(true, |docs|, Some(docs[0].updatedAt)));
    SystemStatus(clientId, client.Some?, client.Some?, drive, false, true, CODEBASE_LAST_UPDATED)
  }

  /** Each document listed for a client is a stored row of that client. */
  lemma DocumentOfClientStored(t: Records.Tables, clientId: string, i: nat)
    requires Records.Valid(t)
    requires i < |Records.AllDriveDocumentsForClient(t, clientId)|
    ensures var d := Records.AllDriveDocumentsForClient(t, clientId)[i];
      d in t.drive.Values && d.clientId == clientId
  {
    var d := Records.AllDriveDocumentsForClient(t, clientId)[i];
    assert Records.LookupDriveDocument(t, d.fileId) == Some(d);
  }

  // ------------------------------------------------------------ activity feed

  /** One entry of `/activity`. */
  datatype Activity = Activity(source: string, title: string, summary: string, time: int, color: string)

  /** The entry for a synced Drive document; its time is the row's `updated_at`. */
  function ActivityOf(d: Records.DriveDoc): Activity {
    Activity("Drive", "Document '" + d.fileName + "' synced", "Extracted context from " + d.fileName, d.updatedAt, "emerald")
  }

  /** The comprehension over the client's documents, one entry each, in the same order. */
  function Entries(docs: seq<Records.DriveDoc>): (r: seq<Activity>)
    ensures |r| == |docs|
    ensures forall i | 0 <= i < |docs| :: r[i] == ActivityOf(docs[i])
  {
    seq(|docs|, i requires 0 <= i < |docs| => ActivityOf(docs[i]))
  }

  /** Newest first: no entry is older than one after it. */
  predicate NewestFirst(xs: seq<Activity>) {
    forall i, j | 0 <= i < j < |xs| :: xs[i].time >= xs[j].time
  }

  /** `x` placed in front of the first entry that is not newer than it. */
  function InsertByTime(x: Activity, ys: seq<Activity>): (r: seq<Activity>)
    ensures multiset(r) == multiset(ys) + multiset{x}
  {
    if ys == [] || ys[0].time <= x.time then [x] + ys
    else
      assert ys == [ys[0]] + ys[1..];
      [ys[0]] + InsertByTime(x, ys[1..])
  }

  /** Inserting into a newest-first list keeps it newest first. */
  lemma {:induction false} InsertKeepsNewestFirst(x: Activity, ys: seq<Activity>)
    requires NewestFirst(ys)
    ensures NewestFirst(InsertByTime(x, ys))
  {
    if ys != [] && ys[0].time > x.time {
      var tail := ys[1..];
      assert forall i | 0 <= i < |tail| :: tail[i] == ys[i + 1];
      InsertKeepsNewestFirst(x, tail);
      var rest := InsertByTime(x, tail);
      NoNewerMembers(rest, tail, x, ys[0].time);
      var r := [ys[0]] + rest;
      assert forall i | 1 <= i < |r| :: r[i] == rest[i - 1];
    }
  }

  /** The members of `x` inserted into `tail` are those of `tail` and `x`, so a bound on both bounds them. */
  lemma NoNewerMembers(rest: seq<Activity>, tail: seq<Activity>, x: Activity, bound: int)
    requires multiset(rest) == multiset(tail) + multiset{x}
    requires x.time <= bound && forall i | 0 <= i < |tail| :: tail[i].time <= bound
    ensures forall i | 0 <= i < |rest| :: rest[i].time <= bound
  {
    forall i | 0 <= i < |rest|
      ensures rest[i].time <= bound
    {
      assert rest[i] in multiset(rest);
      if rest[i] != x {
        assert rest[i] in tail;
      }
    }
  }

  /**
   * `sorted(entries, key=lambda x: x["time"], reverse=True)`: the same
   * entries, newest first. Python's sort is stable also when reversed (see
   * `SortKeepsTies`).
   */
  function SortByTimeDesc(xs: seq<Activity>): (r: seq<Activity>)
    ensures multiset(r) == multiset(xs)
    ensures NewestFirst(r)
  {
    if xs == [] then []
    else
      assert xs == [xs[0]] + xs[1..];
      InsertKeepsNewestFirst(xs[0], SortByTimeDesc(xs[1..]));
      InsertByTime(xs[0], SortByTimeDesc(xs[1..]))
  }

  /** The entries at time `k`, in order. */
  function AtTime(xs: seq<Activity>, k: int): seq<Activity> {
    if xs == [] then []
    else (if xs[0].time == k then [xs[0]] else []) + AtTime(xs[1..], k)
  }

  lemma {:induction false} InsertKeepsTies(x: Activity, ys: seq<Activity>, k: int)
    ensures AtTime(InsertByTime(x, ys), k) == (if x.time == k then [x] else []) + AtTime(ys, k)
  {
    if ys == [] || ys[0].time <= x.time {
      assert ([x] + ys)[1..] == ys;
    } else {
      InsertKeepsTies(x, ys[1..], k);
      var r := [ys[0]] + InsertByTime(x, ys[1..]);
      assert r[1..] == InsertByTime(x, ys[1..]);
    }
  }

  /**
   * The sort is stable: entries with the same time keep the order they had,
   * which is the order the documents were registered in.
   */
  lemma {:induction false} SortKeepsTies(xs: seq<Activity>, k: int)
    ensures AtTime(SortByTimeDesc(xs), k) == AtTime(xs, k)
  {
    if xs != [] {
      SortKeepsTies(xs[1..], k);
      InsertKeepsTies(xs[0], SortByTimeDesc(xs[1..]), k);
    }
  }

  /** Python's `xs[:stop]`: a negative `stop` counts from the end. */
  function PrefixTo<T>(xs: seq<T>, stop: int): (r: seq<T>)
    ensures stop >= 0 ==> |r| == if stop < |xs| then stop else |xs|
    ensures stop < 0 ==> |r| == if |xs| + stop > 0 then |xs| + stop else 0
    ensures r == xs[..|r|]
  {
    var n := if stop >= 0 then stop else |xs| + stop;
    xs[..if n < 0 then 0 else if n > |xs| then |xs| else n]
  }

  /** A prefix holds no more of any entry than the whole. */
  lemma PrefixSubMultiset<T>(xs: seq<T>, n: nat)
    requires n <= |xs|
    ensures multiset(xs[..n]) <= multiset(xs)
    ensures multiset(xs) - multiset(xs[..n]) == multiset(xs[n..])
  {
    assert xs == xs[..n] + xs[n..];
  }

  /** The first `n` entries of a newest-first list are at least as new as all the others. */
  lemma PrefixIsNewest(sorted: seq<Activity>, n: nat)
    requires NewestFirst(sorted) && n <= |sorted|
    ensures forall e, e' | e in sorted[..n] && e' in multiset(sorted) - multiset(sorted[..n]) :: e.time >= e'.time
  {
    PrefixSubMultiset(sorted, n);
    forall e, e' | e in sorted[..n] && e' in multiset(sorted) - multiset(sorted[..n])
      ensures e.time >= e'.time
    {
      assert e' in sorted[n..];
      var i :| 0 <= i < n && sorted[i] == e;
      var j :| n <= j < |sorted| && sorted[j] == e';
    }
  }

  /**
   * `/activity`: the client's entries, newest first, as many as Python's
   * `[:limit]` keeps: `limit` of them when there are more, all of them
   * otherwise, and all but the last `-limit` for a negative `limit`.
   */
  function ActivityFeed(t: Records.Tables, clientId: string, limit: int): (r: seq<Activity>)
    requires Records.Valid(t)
    ensures NewestFirst(r)
    ensures var count := |Records.AllDriveDocumentsForClient(t, clientId)|;
      && (limit >= 0 ==> |r| == if limit < count then limit else count)
      && (limit < 0 ==> |r| == if count + limit > 0 then count + limit else 0)
    ensures multiset(r) <= multiset(Entries(Records.AllDriveDocumentsForClient(t, clientId)))
  {
    var sorted := SortByTimeDesc(Entries(Records.AllDriveDocumentsForClient(t, clientId)));
    var r := PrefixTo(sorted, limit);
    PrefixSubMultiset(sorted, |r|);
    r
  }

  /** The first `limit` entries after sorting are the newest ones, and all of them when `limit` is large enough. */
  lemma {:induction false} NewestKept(all: seq<Activity>, limit: int)
    ensures var r := PrefixTo(SortByTimeDesc(all), limit);
      && (forall e, e' | e in r && e' in multiset(all) - multiset(r) :: e.time >= e'.time)
      && (limit >= |all| ==> multiset(r) == multiset(all))
  {
    var sorted := SortByTimeDesc(all);
    var r := PrefixTo(sorted, limit);
    assert r == sorted[..|r|];
    assert multiset(sorted) == multiset(all);
    PrefixIsNewest(sorted, |r|);
    if limit >= |all| {
      assert r == sorted;
    }
  }

  /**
   * The feed keeps the newest entries: every entry left out is no newer than
   * any entry shown, and with a limit at least the number of documents
   * every entry is shown.
   */
  lemma ActivityFeedKeepsNewest(t: Records.Tables, clientId: string, limit: int)
    requires Records.Valid(t)
    ensures var all := Entries(Records.AllDriveDocumentsForClient(t, clientId));
      var r := ActivityFeed(t, clientId, limit);
      && (forall e, e' | e in r && e' in multiset(all) - multiset(r) :: e.time >= e'.time)
      && (limit >= |all| ==> multiset(r) == multiset(all))
  {
    NewestKept(Entries(Records.AllDriveDocumentsForClient(t, clientId)), limit);
  }

  // ------------------------------------------------------------ the application

  class App {
    /** The database behind `db.py`. */
    const db: Db.Store
    /** The hash the Drive service fingerprints content with. */
    const md5: string -> Fingerprint.Digest
    /** The global `drive_service`: `None` until a handler first needs it. */
    var drive: Drive.DriveService?

    ghost predicate Valid()
      reads this, db
    {
      db.Valid() && (drive != null ==> drive.md5 == md5)
    }

    constructor (db: Db.Store, md5: string -> Fingerprint.Digest)
      requires db.Valid()
      ensures Valid() && this.db == db && this.md5 == md5 && drive == null
    {
      this.db := db;
      this.md5 := md5;
      drive := null;
    }

    /**
     * `if not drive_service: drive_service = DriveService(); drive_service.authenticate()`.
     * The service is assigned before `authenticate` runs, so a failed
     * authentication leaves an unauthenticated service in place and `raised`
     * reports the exception escaping the handler.
     */
    method EnsureDrive(auth: Drive.AuthOutcome) returns (raised: bool)
      requires Valid()
      modifies this
      ensures Valid() && drive != null
      ensures old(drive) != null ==> drive == old(drive) && !raised
      ensures old(drive) == null ==> fresh(drive) && drive.authenticated == (auth == Drive.AuthOk) && raised == (auth != Drive.AuthOk)
    {
      raised := false;
      if drive == null {
        var service := new Drive.DriveService(md5);
        drive := service;
        service.Authenticate(auth);
        raised := auth != Drive.AuthOk;
      }
    }

    /** `/drive/authenticate`: always a new service, authenticated or not. */
    method AuthenticateDrive(auth: Drive.AuthOutcome) returns (reply: Reply<Authenticated>)
      requires Valid()
      modifies this
      ensures Valid() && drive != null && fresh(drive)
      ensures drive.authenticated <==> reply.Ok?
      ensures reply == match auth
        case AuthOk => Ok(Authenticated)
        case CredentialsMissing => Error(404, CREDENTIALS_MISSING)
        case AuthFails => Error(500, AUTHENTICATION_FAILED)
    {
      var service := new Drive.DriveService(md5);
      drive := service;
      service.Authenticate(auth);
      match auth
      case AuthOk => reply := Ok(Authenticated);
      case CredentialsMissing => reply := Error(404, CREDENTIALS_MISSING);
      case AuthFails => reply := Error(500, AUTHENTICATION_FAILED);
    }

    /** `/client` (`create_client`). */
    method CreateClient(clientId: string, apiKey: string, assistantId: Option<string>, encrypt: string -> string)
      returns (reply: Reply<ClientCreated>)
      requires Valid()
      modifies db
      ensures Valid()
      ensures (db.Model(), reply) == CreateClientCall(old(db.Model()), clientId, apiKey, assistantId, encrypt)
    {
      var client := db.LookupClient(clientId);
      if client.Some? {
        return Error(409, CLIENT_EXISTS);
      }
      if assistantId.None? {
        return Error(500, INTERNAL_ERROR);
      }
      var ok := db.CreateAssistant(assistantId.value, clientId);
      if !ok {
        return Error(500, INTERNAL_ERROR);
      }
      ghost var t1 := db.Model();
      FirstAssistantExists(t1.assistants, Records.Assistant(assistantId.value, clientId));
      var _ := db.CreateClient(clientId, encrypt(apiKey));
      reply := Ok(ClientCreated(clientId, assistantId.value));
    }

    /**
     * `/drive/register` (`register_drive_document`): an unknown client is
     * refused before any Drive work, then the service is created if needed,
     * the file id resolved and the document registered.
     */
    method RegisterDriveDocument(
      clientId: string, driveUrl: string, auth: Drive.AuthOutcome, metadata: Fetch<Metadata>, now: int)
      returns (reply: Reply<DocumentRegistered>)
      requires Valid()
      modifies this, db
      ensures Valid()
      ensures Records.LookupClient(old(db.Model()), clientId).None? ==>
        reply == Error(404, CLIENT_NOT_FOUND) && db.Model() == old(db.Model()) && drive == old(drive)
      ensures Records.LookupClient(old(db.Model()), clientId).Some? ==> drive != null
      ensures Records.LookupClient(old(db.Model()), clientId).Some? && old(drive) == null ==>
        fresh(drive) && drive.authenticated == (auth == Drive.AuthOk)
      ensures old(drive) != null ==> drive == old(drive)
      ensures Records.LookupClient(old(db.Model()), clientId).Some? && old(drive) == null && auth != Drive.AuthOk ==>
        reply == Error(500, INTERNAL_ERROR) && db.Model() == old(db.Model())
      ensures Records.LookupClient(old(db.Model()), clientId).Some? && (old(drive) != null || auth == Drive.AuthOk) ==>
        var fileId := ResolveFileId(driveUrl);
        && (fileId.None? ==> reply == Error(400, INVALID_FILE_ID) && db.Model() == old(db.Model()))
        && (fileId.Some? ==>
              var (t1, o) := Register(old(db.Model()), drive.authenticated, fileId.value, clientId, metadata, now);
              db.Model() == t1 && reply == RegisterReply(o, fileId.value))
    {
      var client := db.LookupClient(clientId);
      if client.None? {
        return Error(404, CLIENT_NOT_FOUND);
      }
      var raised := EnsureDrive(auth);
      if raised {
        return Error(500, INTERNAL_ERROR);
      }
      var fileId := ResolveDriveUrl(driveUrl);
      if fileId.None? {
        return Error(400, INVALID_FILE_ID);
      }
      var outcome := drive.RegisterDocumentForMonitoring(db, fileId.value, clientId, metadata, now);
      reply := RegisterReply(outcome, fileId.value);
    }

    /** `/drive/process` (`process_drive_document`). */
    method ProcessDriveDocument(clientId: string, fileId: string, auth: Drive.AuthOutcome, w: World)
      returns (reply: Reply<DocumentProcessed>)
      requires Valid()
      modifies this, db
      ensures Valid()
      ensures Records.LookupClient(old(db.Model()), clientId).None? ==>
        reply == Error(404, CLIENT_NOT_FOUND) && db.Model() == old(db.Model()) && drive == old(drive)
      ensures Records.LookupClient(old(db.Model()), clientId).Some? ==> drive != null
      ensures Records.LookupClient(old(db.Model()), clientId).Some? && old(drive) == null ==>
        fresh(drive) && drive.authenticated == (auth == Drive.AuthOk)
      ensures old(drive) != null ==> drive == old(drive)
      ensures Records.LookupClient(old(db.Model()), clientId).Some? && old(drive) == null && auth != Drive.AuthOk ==>
        reply == Error(500, INTERNAL_ERROR) && db.Model() == old(db.Model())
      ensures Records.LookupClient(old(db.Model()), clientId).Some? && (old(drive) != null || auth == Drive.AuthOk) ==>
        var r := Sync(old(db.Model()), drive.authenticated, md5, fileId, clientId, w);
        && db.Model() == r.tables
        && reply == if r.outcome == Raised then Error(500, PROCESSING_FAILED) else Ok(DocumentProcessed(fileId))
    {
      var client := db.LookupClient(clientId);
      if client.None? {
        return Error(404, CLIENT_NOT_FOUND);
      }
      var raised := EnsureDrive(auth);
      if raised {
        return Error(500, INTERNAL_ERROR);
      }
      var outcome, _ := drive.ProcessDocument(db, fileId, clientId, w);
      if outcome == Raised {
        return Error(500, PROCESSING_FAILED);
      }
      reply := Ok(DocumentProcessed(fileId));
    }

    /**
     * `/drive/start-polling` (`start_drive_polling`). `polled` is the id list
     * handed to the background `poll_documents` task, `None` when no task
     * is started; the registry is not touched.
     */
    method StartDrivePolling(clientId: string, interval: int, auth: Drive.AuthOutcome)
      returns (reply: Reply<PollingStarted>, polled: Option<seq<string>>)
      requires Valid()
      modifies this
      ensures Valid()
      ensures polled.Some? <==> reply.Ok?
      ensures var docs := Records.AllDriveDocumentsForClient(db.Model(), clientId);
        && (Records.LookupClient(db.Model(), clientId).None? ==> reply == Error(404, CLIENT_NOT_FOUND) && drive == old(drive))
        && (Records.LookupClient(db.Model(), clientId).Some? && docs == [] ==> reply == Error(404, NO_DOCUMENTS) && drive == old(drive))
        && (Records.LookupClient(db.Model(), clientId).Some? && docs != [] ==>
              && drive != null
              && (old(drive) != null ==> drive == old(drive))
              && (old(drive) == null ==> fresh(drive) && drive.authenticated == (auth == Drive.AuthOk))
              && (old(drive) == null && auth != Drive.AuthOk ==> reply == Error(500, INTERNAL_ERROR))
              && (old(drive) != null || auth == Drive.AuthOk ==>
                    && polled == Some(FileIds(docs))
                    && reply == Ok(PollingStarted(clientId, |docs|, interval))))
    {
      polled := None;
      var client := db.LookupClient(clientId);
      if client.None? {
        return Error(404, CLIENT_NOT_FOUND), polled;
      }
      var documents := db.GetAllDriveDocumentsForClient(clientId);
      if documents == [] {
        return Error(404, NO_DOCUMENTS), polled;
      }
      var raised := EnsureDrive(auth);
      if raised {
        return Error(500, INTERNAL_ERROR), polled;
      }
      var fileIds := FileIds(documents);
      polled := Some(fileIds);
      reply := Ok(PollingStarted(clientId, |fileIds|, interval));
    }

    /** `/drive/documents` (`get_drive_documents`). */
    method GetDriveDocuments(clientId: string) returns (reply: Reply<DocumentList>)
      requires Valid()
      ensures Records.LookupClient(db.Model(), clientId).None? ==> reply == Error(404, CLIENT_NOT_FOUND)
      ensures Records.LookupClient(db.Model(), clientId).Some? ==>
        var docs := Records.AllDriveDocumentsForClient(db.Model(), clientId);
        reply == Ok(DocumentList(clientId, |docs|, docs))
    {
      var client := db.LookupClient(clientId);
      if client.None? {
        return Error(404, CLIENT_NOT_FOUND);
      }
      var documents := db.GetAllDriveDocumentsForClient(clientId);
      reply := Ok(DocumentList(clientId, |documents|, documents));
    }

    /** `/system/status` (`get_system_status`): no client is refused. */
    method GetSystemStatus(clientId: string) returns (status: SystemStatus)
      requires Valid()
      ensures status == StatusOf(db.Model(), clientId)
    {
      var client := db.LookupClient(clientId);
      var docs := db.GetAllDriveDocumentsForClient(clientId);
      var driveStatus := if docs == [] then DriveStatus(false, 0, None) else DriveStatus(true, |docs|, Some(docs[0].updatedAt));
      status := SystemStatus(clientId, client.Some?, client.Some?, driveStatus, false, true, CODEBASE_LAST_UPDATED);
    }

    /** `/activity` (`get_activity`). */
    method GetActivity(clientId: string, limit: int) returns (feed: seq<Activity>)
      requires Valid()
      ensures feed == ActivityFeed(db.Model(), clientId, limit)
    {
      var docs := db.GetAllDriveDocumentsForClient(clientId);
      feed := PrefixTo(SortByTimeDesc(Entries(docs)), limit);
    }
  }
}
