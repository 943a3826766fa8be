/**
 * The change-detection logic of `drive_service.py` as values: what one call
 * of `process_document`, `register_document_for_monitoring` and one pass of
 * `poll_documents` do to the registry, given what the outside world answers.
 *
 * The Drive API, the Backboard client and the clock are not called; their
 * answers arrive in a `World`:
 *  - a fetch either succeeds, fails with an `HttpError` (which the fetcher
 *    turns into `None`), or raises something else, which escapes;
 *  - the indexing wait is the finite list of status replies the 60-second
 *    loop would see; running out of replies is the loop's timeout.
 * MD5 is the injected function `md5` (see `Fingerprint`).
 */
module DriveSync {
  import opened Wrappers
  import opened Text
  import Fingerprint
  import Records

  /** The fields of a Drive file's metadata that the core reads; `webViewLink` may be absent. */
  datatype Metadata = Metadata(name: string, modifiedTime: string, webViewLink: Option<string>)

  /** The answer of a Drive API fetcher. */
  datatype Fetch<+T> = Got(value: T) | HttpFailure | Raises

  /** One reply of `get_document_status` during the indexing wait. */
  datatype Observation = Indexed | IndexFailed(message: string) | Pending | StatusRaises

  /** The answer of `upload_document_to_assistant`: the status replies that follow it, or an exception. */
  datatype Upload = Uploaded(observations: seq<Observation>) | UploadRaises

  /**
   * Everything `process_document` learns from outside for one document:
   * the two Drive fetches, whether the stored API key decrypts, the
   * Backboard upload and the time of the registry write.
   */
  datatype World = World(
    metadata: Fetch<Metadata>,
    content: Fetch<string>,
    keyDecrypts: bool,
    upload: Upload,
    now: int)

  /** How the indexing wait ends. */
  datatype Verdict = WasIndexed | Failed | TimedOut | Crashed

  /** How one `process_document` call ends. */
  datatype Outcome =
    | Raised          // an exception escapes to the caller (before the `try`)
    | NoMetadata      // "Failed to get metadata"
    | NoContent       // "Failed to extract content"
    | Unchanged       // "No changes detected"
    | NoClient        // "Client ... not found"
    | NoAssistant     // "No assistant found"
    | BackboardError  // an exception inside the `try`, printed and swallowed
    | IndexingFailed  // "Document indexing failed"
    | Saved(timedOut: bool)

  /**
   * The registry afterwards, how the call ended, and whether the upload was
   * attempted; what is uploaded is `UploadBody` of the fetched metadata and
   * content.
   */
  datatype SyncResult = SyncResult(tables: Records.Tables, outcome: Outcome, uploaded: bool)

  // ------------------------------------------------------------ the upload body

  /** `metadata.get('webViewLink', 'N/A')`. */
  function LinkOrNA(m: Metadata): string {
    if m.webViewLink.Some? then m.webViewLink.value else "N/A"
  }

  /** A rule of sixty `=` characters. */
  const RULE: string := "============================================================"

  /** The lines naming the document, its modification time, its source and its link. */
  function Preamble(m: Metadata): string {
    "Document: " + m.name + "\nLast Modified: " + m.modifiedTime + "\nSource: Google Drive\nLink: " + LinkOrNA(m) + "\n"
  }

  /** The header of the uploaded file: the preamble, a blank line, the rule and another blank line. */
  function Header(m: Metadata): string {
    Preamble(m) + "\n" + RULE + "\n\n"
  }

  /** What is written to the temporary file and uploaded. */
  function UploadBody(m: Metadata, content: string): (body: string)
    ensures StartsWith(body, Preamble(m)) && EndsWith(body, content)
    ensures |body| == |Preamble(m)| + 1 + |RULE| + 2 + |content|
  {
    var body := Header(m) + content;
    assert body[..|Preamble(m)|] == Preamble(m);
    EndsWithAppend(Header(m), content);
    body
  }

  /**
   * The body opens with the lines naming the document, its modification
   * time, its source and its link (`N/A` when the metadata has none), and
   * ends with the content, unchanged.
   */
  lemma UploadBodyLayout(m: Metadata, content: string)
    ensures StartsWith(UploadBody(m, content), Preamble(m))
    ensures StartsWith(Preamble(m), "Document: " + m.name + "\nLast Modified: ")
    ensures EndsWith(Preamble(m), LinkOrNA(m) + "\n")
    ensures m.webViewLink.None? ==> LinkOrNA(m) == "N/A"
    ensures EndsWith(UploadBody(m, content), content)
  {
    var p := Preamble(m);
    var d := "Document: " + m.name + "\nLast Modified: ";
    var q := d + m.modifiedTime + "\nSource: Google Drive\nLink: ";
    StartsWithAppend(d, m.modifiedTime, d);
    StartsWithAppend(d + m.modifiedTime, "\nSource: Google Drive\nLink: ", d);
    StartsWithAppend(q, LinkOrNA(m), d);
    StartsWithAppend(q + LinkOrNA(m), "\n", d);
    assert p == q + LinkOrNA(m) + "\n";
    assert p == q + (LinkOrNA(m) + "\n");
    EndsWithAppend(q, LinkOrNA(m) + "\n");
    StartsWithAppend(p, "\n", p);
    StartsWithAppend(p + "\n", RULE, p);
    StartsWithAppend(p + "\n" + RULE, "\n\n", p);
    StartsWithAppend(Header(m), content, p);
    EndsWithAppend(Header(m), content);
  }

  // ------------------------------------------------------------ the indexing wait

  /** The verdict a single decisive reply gives. */
  function Decide(o: Observation): Verdict {
    match o
    case Indexed => WasIndexed
    case IndexFailed(_) => Failed
    case StatusRaises => Crashed
    case Pending => TimedOut
  }

  /**
   * The wait loop: the first reply that is not pending decides; when every
   * reply is pending the loop times out.
   */
  function IndexingVerdict(obs: seq<Observation>): (v: Verdict)
    ensures v == TimedOut <==> forall i | 0 <= i < |obs| :: obs[i] == Pending
  {
    if obs == [] then TimedOut
    else if obs[0] == Pending then
      var v := IndexingVerdict(obs[1..]);
      assert forall i | 1 <= i < |obs| :: obs[i] == obs[1..][i - 1];
      v
    else
      assert Decide(obs[0]) != TimedOut;
      Decide(obs[0])
  }

  /** A verdict other than a timeout is the one the first non-pending reply gives. */
  lemma {:induction false} IndexingVerdictFirstReply(obs: seq<Observation>)
    requires IndexingVerdict(obs) != TimedOut
    ensures exists i | 0 <= i < |obs| ::
      && obs[i] != Pending && Decide(obs[i]) == IndexingVerdict(obs)
      && forall j | 0 <= j < i :: obs[j] == Pending
  {
    if obs[0] == Pending {
      IndexingVerdictFirstReply(obs[1..]);
      var i :| 0 <= i < |obs[1..]| && obs[1..][i] != Pending && Decide(obs[1..][i]) == IndexingVerdict(obs[1..])
        && forall j | 0 <= j < i :: obs[1..][j] == Pending;
      assert obs[i + 1] != Pending && Decide(obs[i + 1]) == IndexingVerdict(obs);
      assert forall j | 0 <= j < i + 1 :: obs[j] == Pending by {
        forall j | 0 <= j < i + 1
          ensures obs[j] == Pending
        {
          if j > 0 {
            assert obs[j] == obs[1..][j - 1];
          }
        }
      }
    }
  }

  // ------------------------------------------------------------ process_document

  /** `get_document_content` gave nothing usable: an `HttpError` or the empty string. */
  predicate NoUsableContent(c: Fetch<string>) {
    c.HttpFailure? || (c.Got? && c.value == "")
  }

  /**
   * One call of `process_document(file_id, client_id)` on registry `t`.
   * `authenticated` is false for a service whose `authenticate` never
   * succeeded (`self.service` is `None`, so the first fetch raises).
   */
  function Sync(
    t: Records.Tables, authenticated: bool, md5: string -> Fingerprint.Digest,
    fileId: string, clientId: string, w: World): (r: SyncResult)
    requires Records.Valid(t)
    ensures Records.Valid(r.tables)
    ensures !r.outcome.Saved? ==> r.tables == t
    ensures r.uploaded ==> w.metadata.Got? && w.content.Got?
    ensures r.outcome.Saved? ==> r.uploaded
  {
    if !authenticated || w.metadata.Raises? then SyncResult(t, Raised, false)
    else if w.metadata.HttpFailure? then SyncResult(t, NoMetadata, false)
    else if w.content.Raises? then SyncResult(t, Raised, false)
    else if NoUsableContent(w.content) then SyncResult(t, NoContent, false)
    else
      var m, content := w.metadata.value, w.content.value;
      var hash := Fingerprint.ComputeContentHash(md5, content);
      var existing := Records.LookupDriveDocument(t, fileId);
      if existing.Some? && existing.value.contentHash == hash then SyncResult(t, Unchanged, false)
      else if Records.LookupClient(t, clientId).None? then SyncResult(t, NoClient, false)
      else if !w.keyDecrypts then SyncResult(t, BackboardError, false)
      else if Records.LookupAssistant(t, clientId).None? then SyncResult(t, NoAssistant, false)
      else
        if w.upload.UploadRaises? then SyncResult(t, BackboardError, true)
        else
          var verdict := IndexingVerdict(w.upload.observations);
          if verdict == Crashed then SyncResult(t, BackboardError, true)
          else if verdict == Failed then SyncResult(t, IndexingFailed, true)
          else if existing.Some? then
            SyncResult(Records.UpdateDriveDocument(t, fileId, hash, content, w.now), Saved(verdict == TimedOut), true)
          else
            var created := Records.CreateDriveDocument(t, fileId, clientId, m.name, hash, m.modifiedTime, content, w.now);
            SyncResult(created.0, Saved(verdict == TimedOut), true)
  }

  /**
   * Every check `process_document` makes before it writes, passed: the
   * content was fetched and is not empty, its fingerprint differs from the
   * stored one (or nothing is stored), the client and its assistant exist,
   * the key decrypts, and the upload was answered.
   */
  ghost predicate ReadyToWrite(
    t: Records.Tables, authenticated: bool, md5: string -> Fingerprint.Digest,
    fileId: string, clientId: string, w: World)
    requires Records.Valid(t)
  {
    && authenticated && w.metadata.Got? && w.content.Got? && w.content.value != ""
    && !(Records.LookupDriveDocument(t, fileId).Some? &&
         Records.LookupDriveDocument(t, fileId).value.contentHash == Fingerprint.ComputeContentHash(md5, w.content.value))
    && Records.LookupClient(t, clientId).Some? && w.keyDecrypts
    && Records.LookupAssistant(t, clientId).Some? && w.upload.Uploaded?
  }

  /**
   * The registry is written exactly when every check passed and indexing did
   * not fail: either it reported "indexed" or the wait timed out (the
   * `while ... else` falls through to the write).
   */
  lemma SyncSavesIff(
    t: Records.Tables, authenticated: bool, md5: string -> Fingerprint.Digest,
    fileId: string, clientId: string, w: World)
    requires Records.Valid(t)
    ensures Sync(t, authenticated, md5, fileId, clientId, w).outcome.Saved? <==>
      && ReadyToWrite(t, authenticated, md5, fileId, clientId, w)
      && IndexingVerdict(w.upload.observations) in {WasIndexed, TimedOut}
  {
  }

  /** Without metadata, or without usable content, nothing is uploaded and nothing is written. */
  lemma SyncNeedsMetadataAndContent(
    t: Records.Tables, md5: string -> Fingerprint.Digest, fileId: string, clientId: string, w: World)
    requires Records.Valid(t)
    requires w.metadata.HttpFailure? || (w.metadata.Got? && NoUsableContent(w.content))
    ensures var r := Sync(t, true, md5, fileId, clientId, w);
      r.tables == t && !r.uploaded && r.outcome in {NoMetadata, NoContent}
  {
  }

  /** A missing client row or assistant row stops the call before the upload. */
  lemma SyncNeedsClientAndAssistant(
    t: Records.Tables, authenticated: bool, md5: string -> Fingerprint.Digest,
    fileId: string, clientId: string, w: World)
    requires Records.Valid(t)
    requires Records.LookupClient(t, clientId).None? || Records.LookupAssistant(t, clientId).None?
    ensures var r := Sync(t, authenticated, md5, fileId, clientId, w);
      r.tables == t && !r.uploaded && !r.outcome.Saved?
  {
  }

  /** Content whose fingerprint matches the stored row is "No changes detected": no upload, no write. */
  lemma SyncUnchanged(
    t: Records.Tables, md5: string -> Fingerprint.Digest, fileId: string, clientId: string,
    w: World, row: Records.DriveDoc)
    requires Records.Valid(t)
    requires w.metadata.Got? && w.content.Got? && w.content.value != ""
    requires Records.LookupDriveDocument(t, fileId) == Some(row)
    requires row.contentHash == Fingerprint.ComputeContentHash(md5, w.content.value)
    ensures Sync(t, true, md5, fileId, clientId, w) == SyncResult(t, Unchanged, false)
  {
  }

  /** When every check passed for a stored document and indexing did not fail, the call ends in the UPDATE. */
  lemma SyncWritesUpdate(
    t: Records.Tables, authenticated: bool, md5: string -> Fingerprint.Digest,
    fileId: string, clientId: string, w: World)
    requires Records.Valid(t)
    requires ReadyToWrite(t, authenticated, md5, fileId, clientId, w)
    requires IndexingVerdict(w.upload.observations) in {WasIndexed, TimedOut}
    requires Records.LookupDriveDocument(t, fileId).Some?
    ensures Sync(t, authenticated, md5, fileId, clientId, w) ==
      SyncResult(
        Records.UpdateDriveDocument(t, fileId, Fingerprint.ComputeContentHash(md5, w.content.value), w.content.value, w.now),
        Saved(IndexingVerdict(w.upload.observations) == TimedOut),
        true)
  {
  }

  /** When every check passed for a new document and indexing did not fail, the call ends in the INSERT. */
  lemma SyncWritesCreate(
    t: Records.Tables, authenticated: bool, md5: string -> Fingerprint.Digest,
    fileId: string, clientId: string, w: World)
    requires Records.Valid(t)
    requires ReadyToWrite(t, authenticated, md5, fileId, clientId, w)
    requires IndexingVerdict(w.upload.observations) in {WasIndexed, TimedOut}
    requires Records.LookupDriveDocument(t, fileId).None?
    ensures var m := w.metadata.value;
      Sync(t, authenticated, md5, fileId, clientId, w) ==
      SyncResult(
        Records.CreateDriveDocument(t, fileId, clientId, m.name, Fingerprint.ComputeContentHash(md5, w.content.value),
                                    m.modifiedTime, w.content.value, w.now).0,
        Saved(IndexingVerdict(w.upload.observations) == TimedOut),
        true)
  {
  }

  /**
   * Changed content of a stored document: only its fingerprint, its content
   * and `updated_at` change; `file_name`, `last_modified` and every other row
   * stay as they were.
   */
  lemma SyncUpdatesStoredRow(
    t: Records.Tables, md5: string -> Fingerprint.Digest, fileId: string, clientId: string,
    w: World, row: Records.DriveDoc)
    requires Records.Valid(t)
    requires ReadyToWrite(t, true, md5, fileId, clientId, w)
    requires IndexingVerdict(w.upload.observations) in {WasIndexed, TimedOut}
    requires Records.LookupDriveDocument(t, fileId) == Some(row)
    ensures var r := Sync(t, true, md5, fileId, clientId, w);
      && Records.LookupDriveDocument(r.tables, fileId) ==
         Some(row.(contentHash := Fingerprint.ComputeContentHash(md5, w.content.value),
                   content := w.content.value, updatedAt := w.now))
      && (forall other | other != fileId ::
            Records.LookupDriveDocument(r.tables, other) == Records.LookupDriveDocument(t, other))
      && r.tables.driveOrder == t.driveOrder
  {
    SyncWritesUpdate(t, true, md5, fileId, clientId, w);
  }

  /**
   * A document seen for the first time is stored with its fingerprint, its
   * content and the metadata name and modification time, owned by the client.
   */
  lemma SyncCreatesRow(
    t: Records.Tables, md5: string -> Fingerprint.Digest, fileId: string, clientId: string, w: World)
    requires Records.Valid(t)
    requires ReadyToWrite(t, true, md5, fileId, clientId, w)
    requires IndexingVerdict(w.upload.observations) in {WasIndexed, TimedOut}
    requires Records.LookupDriveDocument(t, fileId).None?
    ensures var r := Sync(t, true, md5, fileId, clientId, w);
      var m := w.metadata.value;
      && Records.LookupDriveDocument(r.tables, fileId) ==
         Some(Records.DriveDoc(fileId, clientId, m.name, Fingerprint.ComputeContentHash(md5, w.content.value),
                               m.modifiedTime, w.content.value, w.now, w.now))
      && r.tables.driveOrder == t.driveOrder + [fileId]
  {
    SyncWritesCreate(t, true, md5, fileId, clientId, w);
  }

  /** A reply "failed" ends the call with the registry untouched, although the upload happened. */
  lemma SyncIndexingFailedKeepsRegistry(
    t: Records.Tables, authenticated: bool, md5: string -> Fingerprint.Digest,
    fileId: string, clientId: string, w: World)
    requires Records.Valid(t)
    requires ReadyToWrite(t, authenticated, md5, fileId, clientId, w)
    requires IndexingVerdict(w.upload.observations) == Failed
    ensures var r := Sync(t, authenticated, md5, fileId, clientId, w);
      r.tables == t && r.outcome == IndexingFailed && r.uploaded
  {
  }

  /** A wait in which every reply is pending times out and still writes the registry. */
  lemma SyncTimeoutStillWrites(
    t: Records.Tables, authenticated: bool, md5: string -> Fingerprint.Digest,
    fileId: string, clientId: string, w: World)
    requires Records.Valid(t)
    requires ReadyToWrite(t, authenticated, md5, fileId, clientId, w)
    requires forall i | 0 <= i < |w.upload.observations| :: w.upload.observations[i] == Pending
    ensures var r := Sync(t, authenticated, md5, fileId, clientId, w);
      r.outcome == Saved(true) &&
      Records.LookupDriveDocument(r.tables, fileId).Some? &&
      Records.LookupDriveDocument(r.tables, fileId).value.contentHash ==
        Fingerprint.ComputeContentHash(md5, w.content.value)
  {
    assert IndexingVerdict(w.upload.observations) == TimedOut;
    if Records.LookupDriveDocument(t, fileId).Some? {
      SyncWritesUpdate(t, authenticated, md5, fileId, clientId, w);
    } else {
      SyncWritesCreate(t, authenticated, md5, fileId, clientId, w);
    }
  }

  /**
   * After a save, processing the same content again is "No changes
   * detected": the stored fingerprint is the one just computed.
   */
  lemma SyncAgainIsUnchanged(
    t: Records.Tables, md5: string -> Fingerprint.Digest, fileId: string, clientId: string, w: World, w': World)
    requires Records.Valid(t)
    requires Sync(t, true, md5, fileId, clientId, w).outcome.Saved?
    requires w'.metadata.Got? && w'.content == w.content
    ensures var t1 := Sync(t, true, md5, fileId, clientId, w).tables;
      Sync(t1, true, md5, fileId, clientId, w') == SyncResult(t1, Unchanged, false)
  {
    var t1 := Sync(t, true, md5, fileId, clientId, w).tables;
    var hash := Fingerprint.ComputeContentHash(md5, w.content.value);
    if Records.LookupDriveDocument(t, fileId).Some? {
      SyncUpdatesStoredRow(t, md5, fileId, clientId, w, Records.LookupDriveDocument(t, fileId).value);
    } else {
      SyncCreatesRow(t, md5, fileId, clientId, w);
    }
    SyncUnchanged(t1, md5, fileId, clientId, w', Records.LookupDriveDocument(t1, fileId).value);
  }

  // ------------------------------------------------------------ register_document_for_monitoring

  datatype RegisterOutcome =
    | CannotAccess        // `ValueError("Cannot access file ...")`
    | RegisterRaises      // any other exception from the metadata fetch
    | AlreadyRegistered
    | Registered

  /**
   * `register_document_for_monitoring`: a row with an empty fingerprint and
   * empty content is created for a readable file not yet stored.
   */
  function Register(
    t: Records.Tables, authenticated: bool, fileId: string, clientId: string,
    metadata: Fetch<Metadata>, now: int): (r: (Records.Tables, RegisterOutcome))
    requires Records.Valid(t)
    ensures Records.Valid(r.0)
    ensures r.1 != Registered ==> r.0 == t
    ensures r.1 == CannotAccess <==> authenticated && metadata.HttpFailure?
    ensures r.1 == AlreadyRegistered <==> authenticated && metadata.Got? && Records.LookupDriveDocument(t, fileId).Some?
    ensures r.1 == Registered ==>
      && metadata.Got?
      && Records.LookupDriveDocument(r.0, fileId) ==
         Some(Records.DriveDoc(fileId, clientId, metadata.value.name, "", metadata.value.modifiedTime, "", now, now))
      && r.0.driveOrder == t.driveOrder + [fileId]
      && forall other | other != fileId :: Records.LookupDriveDocument(r.0, other) == Records.LookupDriveDocument(t, other)
  {
    if !authenticated || metadata.Raises? then (t, RegisterRaises)
    else if metadata.HttpFailure? then (t, CannotAccess)
    else if Records.LookupDriveDocument(t, fileId).Some? then (t, AlreadyRegistered)
    else
      var m := metadata.value;
      var created := Records.CreateDriveDocument(t, fileId, clientId, m.name, "", m.modifiedTime, "", now);
      (created.0, Registered)
  }

  /** Registering twice is the same as registering once; the second call reports "already registered". */
  lemma RegisterIdempotent(
    t: Records.Tables, fileId: string, clientId: string, metadata: Fetch<Metadata>, now: int,
    clientId': string, now': int)
    requires Records.Valid(t)
    requires metadata.Got?
    ensures var t1 := Register(t, true, fileId, clientId, metadata, now).0;
      Register(t1, true, fileId, clientId', metadata, now') == (t1, AlreadyRegistered)
  {
  }

  /**
   * The first processing of a freshly registered document always uploads
   * and writes, whatever its content: the stored empty fingerprint never
   * equals a real one.
   */
  lemma FirstSyncAfterRegisterSaves(
    t: Records.Tables, md5: string -> Fingerprint.Digest, fileId: string, clientId: string,
    metadata: Fetch<Metadata>, now: int, w: World)
    requires Records.Valid(t)
    requires Register(t, true, fileId, clientId, metadata, now).1 == Registered
    requires w.metadata.Got? && w.content.Got? && w.content.value != ""
    requires Records.LookupClient(t, clientId).Some? && Records.LookupAssistant(t, clientId).Some?
    requires w.keyDecrypts && w.upload.Uploaded? && IndexingVerdict(w.upload.observations) == WasIndexed
    ensures var t1 := Register(t, true, fileId, clientId, metadata, now).0;
      Sync(t1, true, md5, fileId, clientId, w).outcome == Saved(false)
  {
    var t1 := Register(t, true, fileId, clientId, metadata, now).0;
    Fingerprint.HashIsNeverEmpty(md5, w.content.value);
    assert Records.LookupDriveDocument(t1, fileId).value.contentHash == "";
    assert t1.clients == t.clients && t1.assistants == t.assistants;
    assert ReadyToWrite(t1, true, md5, fileId, clientId, w);
    SyncWritesUpdate(t1, true, md5, fileId, clientId, w);
  }

  // ------------------------------------------------------------ one polling pass

  /**
   * A polling pass over `n` documents, as a fold of `step`: `step(t, k)` is
   * the call made for the k-th document against the registry `t` left by
   * the calls before it. An exception escaping a call is caught outside the
   * `for` loop of `poll_documents`, so once a call has raised, the documents
   * after it wait for the next pass. The result is the registry after the
   * pass and the outcome of every call made.
   */
  function Pass(t: Records.Tables, step: (Records.Tables, nat) -> SyncResult, n: nat): (r: (Records.Tables, seq<Outcome>))
    ensures |r.1| <= n
    ensures n > 0 ==> |r.1| > 0
    decreases n
  {
    if n == 0 then (t, [])
    else
      var p := Pass(t, step, n - 1);
      if Raised in p.1 then p
      else
        var s := step(p.0, n - 1);
        (s.tables, p.1 + [s.outcome])
  }

  /** Once a call has raised, the documents after it change nothing: the pass is over. */
  lemma {:induction false} PassStopped(t: Records.Tables, step: (Records.Tables, nat) -> SyncResult, n: nat, k: nat)
    requires k <= n
    requires Raised in Pass(t, step, k).1
    ensures Pass(t, step, n) == Pass(t, step, k)
    decreases n
  {
    if k < n {
      PassStopped(t, step, n - 1, k);
    }
  }

  /**
   * Only the last call of a pass can have raised, and a pass that stops
   * before the last document stops because its last call raised.
   */
  lemma {:induction false} PassStopsOnlyAtRaise(t: Records.Tables, step: (Records.Tables, nat) -> SyncResult, n: nat)
    ensures forall i | 0 <= i < |Pass(t, step, n).1| - 1 :: Pass(t, step, n).1[i] != Raised
    ensures |Pass(t, step, n).1| < n ==> Pass(t, step, n).1[|Pass(t, step, n).1| - 1] == Raised
    decreases n
  {
    if n > 0 {
      PassStopsOnlyAtRaise(t, step, n - 1);
      var p := Pass(t, step, n - 1);
      if Raised !in p.1 {
        var r := p.1 + [step(p.0, n - 1).outcome];
        assert |p.1| == n - 1;
        assert forall i | 0 <= i < |r| - 1 :: r[i] == p.1[i];
      }
    }
  }

  /**
   * A document whose processing fails inside the `try`, or is skipped, does
   * not stop the pass: when no call raises, every document is processed.
   */
  lemma PassVisitsAll(t: Records.Tables, step: (Records.Tables, nat) -> SyncResult, n: nat)
    requires Raised !in Pass(t, step, n).1
    ensures |Pass(t, step, n).1| == n
  {
    PassStopsOnlyAtRaise(t, step, n);
  }

  /**
   * Every call of a pass is the step for its own document, made against the
   * registry the calls before it left: the k-th outcome is that of `step`
   * on document k after a pass over the first k documents.
   */
  lemma {:induction false} PassCallAt(t: Records.Tables, step: (Records.Tables, nat) -> SyncResult, n: nat, k: nat)
    requires k < |Pass(t, step, n).1|
    ensures Pass(t, step, n).1[k] == step(Pass(t, step, k).0, k).outcome
    decreases n
  {
    var p := Pass(t, step, n - 1);
    if Raised in p.1 || k < |p.1| {
      PassCallAt(t, step, n - 1, k);
    } else {
      PassVisitsAll(t, step, n - 1);
    }
  }

  /** The first call of a pass is made for the first document, against the registry the pass started from. */
  lemma {:induction false} PassStartsWithFirst(t: Records.Tables, step: (Records.Tables, nat) -> SyncResult, n: nat)
    requires n > 0
    ensures Pass(t, step, n).1[0] == step(t, 0).outcome
    decreases n
  {
    if n > 1 {
      PassStartsWithFirst(t, step, n - 1);
    }
  }

  /** A first call that raises ends the pass with one outcome and whatever that call left. */
  lemma {:induction false} PassFirstRaises(t: Records.Tables, step: (Records.Tables, nat) -> SyncResult, n: nat)
    requires n > 0 && step(t, 0).outcome == Raised
    ensures Pass(t, step, n) == (step(t, 0).tables, [Raised])
    decreases n
  {
    if n > 1 {
      PassFirstRaises(t, step, n - 1);
    } else {
      assert Pass(t, step, 0) == (t, []);
      assert [] + [step(t, 0).outcome] == [Raised];
    }
  }

  /**
   * The call `poll_documents` makes for the k-th id of the list: the body of
   * `process_document` against the registry `u`. Registries only ever come
   * from `Sync` on a valid start, so the `else` value is never produced.
   */
  ghost function SyncStep(
    authenticated: bool, md5: string -> Fingerprint.Digest,
    ids: seq<string>, clientId: string, worlds: seq<World>): (Records.Tables, nat) -> SyncResult
  {
    (u: Records.Tables, k: nat) =>
      if Records.Valid(u) && k < |ids| && k < |worlds| then Sync(u, authenticated, md5, ids[k], clientId, worlds[k])
      else SyncResult(u, Raised, false)
  }

  /** One pass of the `for file_id in file_ids` loop of `poll_documents`, the i-th id seeing `worlds[i]`. */
  ghost function Cycle(
    t: Records.Tables, authenticated: bool, md5: string -> Fingerprint.Digest,
    ids: seq<string>, clientId: string, worlds: seq<World>): (r: (Records.Tables, seq<Outcome>))
    requires |worlds| == |ids|
    ensures |r.1| <= |ids|
  {
    Pass(t, SyncStep(authenticated, md5, ids, clientId, worlds), |ids|)
  }

  /** A service that never authenticated raises on its first document, so a pass makes one call and writes nothing. */
  lemma CycleUnauthenticated(
    t: Records.Tables, md5: string -> Fingerprint.Digest, ids: seq<string>, clientId: string, worlds: seq<World>)
    requires Records.Valid(t)
    requires |worlds| == |ids| && ids != []
    ensures Cycle(t, false, md5, ids, clientId, worlds) == (t, [Raised])
  {
    PassFirstRaises(t, SyncStep(false, md5, ids, clientId, worlds), |ids|);
  }

  /** The first call of a pass is `process_document` on the first id. */
  lemma CycleStartsWithFirstId(
    t: Records.Tables, authenticated: bool, md5: string -> Fingerprint.Digest,
    ids: seq<string>, clientId: string, worlds: seq<World>)
    requires Records.Valid(t)
    requires |worlds| == |ids| && ids != []
    ensures Cycle(t, authenticated, md5, ids, clientId, worlds).1[0] ==
      Sync(t, authenticated, md5, ids[0], clientId, worlds[0]).outcome
  {
    PassStartsWithFirst(t, SyncStep(authenticated, md5, ids, clientId, worlds), |ids|);
  }

  // ------------------------------------------------------------ extract_file_id_from_url

  /** The markers tried, in order. */
  const PATTERNS: seq<string> := ["/d/", "id=", "/file/d/"]

  /**
   * The text of `url` from `start` up to the next `/`, or, when there is no
   * `/`, up to the next `?`, or else to the end.
   */
  function Piece(url: string, start: nat): (p: string)
    requires start <= |url|
    ensures '/' !in p
  {
    var slash := Find(url, "/", start);
    var end := if slash == -1 then Find(url, "?", start) else slash;
    FindChar(url, '/', start);
    FindChar(url, '?', start);
    var p := if end == -1 then url[start..] else url[start..end];
    assert forall i | 0 <= i < |p| :: p[i] == url[start + i];
    p
  }

  /**
   * What one pattern yields: the piece after its first occurrence, stripped
   * of `/`, when that is not empty.
   */
  function Candidate(url: string, pattern: string): (r: Option<string>)
    ensures !Contains(url, pattern) ==> r.None?
    ensures r.Some? ==> r.value != [] && '/' !in r.value
  {
    if !Contains(url, pattern) then None
    else
      var start := Find(url, pattern, 0) + |pattern|;
      var id := Trim(Piece(url, start), IsSlash);
      TrimKeepsAbsent(Piece(url, start), IsSlash, '/');
      if id == [] then None else Some(id)
  }

  /** The first present value of `options` decides; `None` when there is none. */
  function FirstSome<T>(options: seq<Option<T>>): (r: Option<T>)
    ensures r.None? <==> forall k | 0 <= k < |options| :: options[k].None?
    ensures r.Some? ==> r in options
    ensures forall k | 0 <= k < |options| && options[k].Some? && (forall j | 0 <= j < k :: options[j].None?) ::
      r == options[k]
  {
    if options == [] then None
    else if options[0].Some? then options[0]
    else
      var r := FirstSome(options[1..]);
      assert forall k | 1 <= k < |options| :: options[k] == options[1..][k - 1];
      r
  }

  /** What each pattern yields, in the order they are tried. */
  function Candidates(url: string): (c: seq<Option<string>>)
    ensures |c| == |PATTERNS|
    ensures forall k | 0 <= k < |PATTERNS| :: c[k] == Candidate(url, PATTERNS[k])
  {
    [Candidate(url, PATTERNS[0]), Candidate(url, PATTERNS[1]), Candidate(url, PATTERNS[2])]
  }

  /**
   * `extract_file_id_from_url`: what the first pattern, in list order, that
   * yields a non-empty piece yields; `None` exactly when none does, which
   * includes a URL in which no pattern occurs. The id is never empty and
   * never holds a `/`.
   */
  function FileIdFromUrl(url: string): (r: Option<string>)
    ensures r.None? <==> forall k | 0 <= k < |PATTERNS| :: Candidate(url, PATTERNS[k]).None?
    ensures forall k | 0 <= k < |PATTERNS| && Candidate(url, PATTERNS[k]).Some?
                       && (forall j | 0 <= j < k :: Candidate(url, PATTERNS[j]).None?) ::
      r == Candidate(url, PATTERNS[k])
    ensures r.Some? ==> r.value != [] && '/' !in r.value
    ensures (forall k | 0 <= k < |PATTERNS| :: !Contains(url, PATTERNS[k])) ==> r.None?
  {
    var c := Candidates(url);
    var r := FirstSome(c);
    assert r.Some? ==> exists k | 0 <= k < |PATTERNS| :: r == c[k];
    r
  }

  /** A bare file id, with no `/` and no `=`, matches no pattern and yields `None`. */
  lemma BareIdYieldsNone(id: string)
    requires '/' !in id && '=' !in id
    ensures FileIdFromUrl(id) == None
  {
    AbsentCharNotContained(id, PATTERNS[0], 0);
    AbsentCharNotContained(id, PATTERNS[1], 2);
    AbsentCharNotContained(id, PATTERNS[2], 0);
  }

  lemma BareIdExample()
    ensures FileIdFromUrl("1ABC123xyz") == None
  {
    BareIdYieldsNone("1ABC123xyz");
  }

  /** The first occurrence of `pat` is at `|p|` when `pat` ends `p + pat` and does not occur earlier. */
  lemma FindAfterPrefix(p: string, pat: string, tail: string)
    requires |pat| > 0 && !Contains(p + pat[..|pat| - 1], pat)
    ensures Find(p + pat + tail, pat, 0) == |p|
  {
    var url, front := p + pat + tail, p + pat[..|pat| - 1];
    assert url[|p|..|p| + |pat|] == pat;
    assert OccursAt(url, pat, |p|);
    forall j: nat | j < |p|
      ensures !OccursAt(url, pat, j)
    {
      assert url[j..j + |pat|] == front[j..j + |pat|];
      assert !OccursAt(front, pat, j);
    }
  }

  /** The text after `start` up to a `/` that ends a slash-free `id` is `id`. */
  lemma PieceUpToSlash(url: string, start: nat, id: string)
    requires start + |id| < |url| && url[start..start + |id|] == id && url[start + |id|] == '/'
    requires '/' !in id
    ensures Piece(url, start) == id
  {
    FindChar(url, '/', start);
    assert forall j | start <= j < start + |id| :: url[j] == id[j - start];
  }

  /**
   * A document link `p/d/<id>/rest` yields `id`, provided no earlier
   * `/d/` occurs in `p`, as in `https://docs.google.com/document/d/<id>/edit`
   * and `https://drive.google.com/file/d/<id>/view`.
   */
  lemma DocumentLinkYieldsId(p: string, id: string, rest: string)
    requires !Contains(p + "/d", "/d/")
    requires id != "" && '/' !in id
    ensures FileIdFromUrl(p + "/d/" + id + "/" + rest) == Some(id)
  {
    var url := p + "/d/" + id + "/" + rest;
    assert "/d/"[..2] == "/d";
    FindAfterPrefix(p, "/d/", id + "/" + rest);
    assert url == p + "/d/" + (id + "/" + rest);
    var start := |p| + 3;
    assert url[start..start + |id|] == id && url[start + |id|] == '/';
    PieceUpToSlash(url, start, id);
    TrimNothing(id, IsSlash);
    assert OccursAt(url, "/d/", |p|);
  }

  /**
   * A link `p?id=<id>` without `/d/` yields `id` when the id holds neither
   * `/` nor `?`, as in `https://drive.google.com/open?id=<id>`.
   */
  lemma QueryLinkYieldsId(p: string, id: string)
    requires !Contains(p + "?id=" + id, "/d/")
    requires !Contains(p + "?id", "id=")
    requires id != "" && '/' !in id && '?' !in id
    ensures FileIdFromUrl(p + "?id=" + id) == Some(id)
  {
    var url := p + "?id=" + id;
    QueryCandidate(p, id);
    assert PATTERNS[0] == "/d/" && PATTERNS[1] == "id=";
    var c := Candidates(url);
    assert c[0].None? && c[1] == Some(id);
    assert FirstSome(c[1..]) == Some(id);
  }

  /** In `p?id=<id>`, the piece after the first `id=` is the whole id. */
  lemma QueryCandidate(p: string, id: string)
    requires !Contains(p + "?id", "id=")
    requires id != "" && '/' !in id && '?' !in id
    ensures Candidate(p + "?id=" + id, "id=") == Some(id)
  {
    var url := p + "?id=" + id;
    assert url == (p + "?") + "id=" + id;
    assert "id="[..2] == "id";
    assert (p + "?") + "id" == p + "?id";
    FindAfterPrefix(p + "?", "id=", id);
    var start := |p| + 4;
    assert url[start..] == id;
    FindChar(url, '/', start);
    FindChar(url, '?', start);
    assert forall j | start <= j < |url| :: url[j] == id[j - start];
    assert Piece(url, start) == id;
    TrimNothing(id, IsSlash);
    assert OccursAt(url, "id=", |p| + 1);
  }
}
