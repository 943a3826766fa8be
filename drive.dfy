/**
 * `DriveService` of `drive_service.py`: the registry-changing operations as
 * methods over the record store, each proved to do what `DriveSync` says,
 * and `extract_file_id_from_url` as its loop over the patterns.
 */
module Drive {
  import opened Wrappers
  import opened Text
  import Fingerprint
  import Records
  import Db
  import opened DriveSync

  /** How `authenticate` ends: a built service, a missing credentials file, or any other failure. */
  datatype AuthOutcome = AuthOk | CredentialsMissing | AuthFails

  /** The `while time.time() - start_time < max_wait_time` loop, one status reply per round. */
  method WaitForIndexing(obs: seq<Observation>) returns (v: Verdict)
    ensures v == IndexingVerdict(obs)
  {
    var i := 0;
    while i < |obs|
      invariant 0 <= i <= |obs|
      invariant forall j | 0 <= j < i :: obs[j] == Pending
      invariant IndexingVerdict(obs[i..]) == IndexingVerdict(obs)
    {
      assert obs[i..][1..] == obs[i + 1..];
      match obs[i]
      case Indexed => return WasIndexed;
      case IndexFailed(_) => return Failed;
      case StatusRaises => return Crashed;
      case Pending =>
      i := i + 1;
    }
    return TimedOut;
  }

  class DriveService {
    /** The hash behind `hashlib.md5(content.encode("utf-8"))`. */
    const md5: string -> Fingerprint.Digest
    /** Whether `self.service` has been built by a successful `authenticate`. */
    var authenticated: bool

    /** `DriveService()`: no service yet. */
    constructor (md5: string -> Fingerprint.Digest)
      ensures this.md5 == md5 && !authenticated
    {
      this.md5 := md5;
      authenticated := false;
    }

    /** `authenticate`: the OAuth flow itself is not modelled, only whether it built the service. */
    method Authenticate(result: AuthOutcome)
      modifies this
      ensures authenticated == (result == AuthOk)
    {
      authenticated := result == AuthOk;
    }

    /** `process_document(file_id, client_id)`. */
    method ProcessDocument(store: Db.Store, fileId: string, clientId: string, w: World)
      returns (outcome: Outcome, sent: Option<string>)
      requires store.Valid()
      modifies store
      ensures store.Valid()
      ensures var r := Sync(old(store.Model()), authenticated, md5, fileId, clientId, w);
        && store.Model() == r.tables && outcome == r.outcome
        && sent == if r.uploaded then Some(UploadBody(w.metadata.value, w.content.value)) else None
    {
      sent := None;
      if !authenticated || w.metadata.Raises? {
        return Raised, sent;
      }
      if w.metadata.HttpFailure? {
        return NoMetadata, sent;
      }
      if w.content.Raises? {
        return Raised, sent;
      }
      if w.content.HttpFailure? || w.content.value == "" {
        return NoContent, sent;
      }
      var content := w.content.value;
      var contentHash := Fingerprint.ComputeContentHash(md5, content);
      var existing := store.LookupDriveDocument(fileId);
      if existing.Some? && existing.value.contentHash == contentHash {
        return Unchanged, sent;
      }
      outcome, sent := SendAndRecord(store, fileId, clientId, w, existing, contentHash);
    }

    /**
     * The `try` block of `process_document`: the client and its assistant,
     * the upload, the wait for indexing and the write to the registry.
     */
    method SendAndRecord(
      store: Db.Store, fileId: string, clientId: string, w: World,
      existing: Option<Records.DriveDoc>, contentHash: string) returns (outcome: Outcome, sent: Option<string>)
      requires store.Valid()
      requires authenticated && w.metadata.Got? && w.content.Got? && !NoUsableContent(w.content)
      requires existing == Records.LookupDriveDocument(store.Model(), fileId)
      requires contentHash == Fingerprint.ComputeContentHash(md5, w.content.value)
      requires !(existing.Some? && existing.value.contentHash == contentHash)
      modifies store
      ensures store.Valid()
      ensures var r := Sync(old(store.Model()), authenticated, md5, fileId, clientId, w);
        && store.Model() == r.tables && outcome == r.outcome
        && sent == if r.uploaded then Some(UploadBody(w.metadata.value, w.content.value)) else None
    {
      var metadata, content := w.metadata.value, w.content.value;
      sent := None;
      var client := store.LookupClient(clientId);
      if client.None? {
        return NoClient, sent;
      }
      if !w.keyDecrypts {
        return BackboardError, sent;
      }
      var assistant := store.LookupAssistant(clientId);
      if assistant.None? {
        return NoAssistant, sent;
      }
      sent := Some(UploadBody(metadata, content));
      if w.upload.UploadRaises? {
        return BackboardError, sent;
      }
      var verdict := WaitForIndexing(w.upload.observations);
      if verdict == Crashed {
        return BackboardError, sent;
      } else if verdict == Failed {
        return IndexingFailed, sent;
      }
      if existing.Some? {
        store.UpdateDriveDocument(fileId, contentHash, content, w.now);
      } else {
        var _ := store.CreateDriveDocument(fileId, clientId, metadata.name, contentHash, metadata.modifiedTime, content, w.now);
      }
      outcome := Saved(verdict == TimedOut);
    }

    /** One turn of the `for file_id in file_ids` loop of `poll_documents`: `process_document` on the i-th id. */
    method PollStep(
      store: Db.Store, fileIds: seq<string>, clientId: string, worlds: seq<World>, i: nat,
      ghost t0: Records.Tables, ghost outcomes: seq<Outcome>) returns (outcome: Outcome)
      requires store.Valid()
      requires |worlds| == |fileIds| && i < |fileIds|
      requires (store.Model(), outcomes) == Pass(t0, SyncStep(authenticated, md5, fileIds, clientId, worlds), i)
      requires Raised !in outcomes
      modifies store
      ensures store.Valid()
      ensures (store.Model(), outcomes + [outcome]) == Pass(t0, SyncStep(authenticated, md5, fileIds, clientId, worlds), i + 1)
    {
      var sent;
      outcome, sent := ProcessDocument(store, fileIds[i], clientId, worlds[i]);
    }

    /** One pass of the `for file_id in file_ids` loop of `poll_documents`; `outcomes` lists the calls made. */
    method PollCycle(store: Db.Store, fileIds: seq<string>, clientId: string, worlds: seq<World>)
      returns (outcomes: seq<Outcome>)
      requires store.Valid()
      requires |worlds| == |fileIds|
      modifies store
      ensures store.Valid()
      ensures (store.Model(), outcomes) == Cycle(old(store.Model()), authenticated, md5, fileIds, clientId, worlds)
    {
      ghost var t0 := store.Model();
      ghost var step := SyncStep(authenticated, md5, fileIds, clientId, worlds);
      outcomes := [];
      var i := 0;
      while i < |fileIds|
        invariant 0 <= i <= |fileIds|
        invariant store.Valid()
        invariant (store.Model(), outcomes) == Pass(t0, step, i)
        invariant Raised !in outcomes
      {
        var outcome := PollStep(store, fileIds, clientId, worlds, i, t0, outcomes);
        outcomes := outcomes + [outcome];
        i := i + 1;
        if outcome == Raised {
          PassStopped(t0, step, |fileIds|, i);
          return;
        }
      }
    }

    /** `register_document_for_monitoring(file_id, client_id)`. */
    method RegisterDocumentForMonitoring(store: Db.Store, fileId: string, clientId: string, metadata: Fetch<Metadata>, now: int)
      returns (outcome: RegisterOutcome)
      requires store.Valid()
      modifies store
      ensures store.Valid()
      ensures (store.Model(), outcome) == Register(old(store.Model()), authenticated, fileId, clientId, metadata, now)
    {
      if !authenticated || metadata.Raises? {
        return RegisterRaises;
      }
      if metadata.HttpFailure? {
        return CannotAccess;
      }
      var existing := store.LookupDriveDocument(fileId);
      if existing.None? {
        var _ := store.CreateDriveDocument(fileId, clientId, metadata.value.name, "", metadata.value.modifiedTime, "", now);
        outcome := Registered;
      } else {
        outcome := AlreadyRegistered;
      }
    }
  }

  /** `extract_file_id_from_url`: the patterns tried in turn until one yields a non-empty id. */
  method ExtractFileIdFromUrl(url: string) returns (fileId: Option<string>)
    ensures fileId == FileIdFromUrl(url)
  {
    ghost var candidates := Candidates(url);
    var k := 0;
    while k < |PATTERNS|
      invariant 0 <= k <= |PATTERNS|
      invariant FirstSome(candidates[k..]) == FileIdFromUrl(url)
    {
      assert candidates[k..][1..] == candidates[k + 1..];
      fileId := Candidate(url, PATTERNS[k]);
      if fileId.Some? {
        return;
      }
      k := k + 1;
    }
    return None;
  }
}
