/**
 * The record store of `db.py` as an object whose fields are the three
 * tables the core uses. Every INSERT and UPDATE is a method that replaces a
 * table, and every SELECT is a method that changes nothing; each is proved
 * against the corresponding function of `Records`, whose own contracts state
 * the SQL meaning.
 *
 * An INSERT that violates a primary key raises in `psycopg2`; here it returns
 * `false` and, like the rolled-back transaction, leaves every table as it was.
 * `CURRENT_TIMESTAMP` is the parameter `now`.
 */
module Db {
  import opened Wrappers
  import Records

  class Store {
    var clients: map<string, Records.Client>
    var assistants: seq<Records.Assistant>
    var drive: map<string, Records.DriveDoc>
    var driveOrder: seq<string>

    /** The tables as a value. */
    function Model(): Records.Tables
      reads this
    {
      Records.Tables(clients, assistants, drive, driveOrder)
    }

    ghost predicate Valid()
      reads this
    {
      Records.Valid(Model())
    }

    /** A fresh database with empty tables. */
    constructor ()
      ensures Valid()
      ensures Model() == Records.EMPTY
    {
      clients, assistants, drive, driveOrder := map[], [], map[], [];
    }

    /** `lookup_client`. */
    method LookupClient(clientId: string) returns (r: Option<Records.Client>)
      requires Valid()
      ensures r == Records.LookupClient(Model(), clientId)
    {
      r := if clientId in clients then Some(clients[clientId]) else None;
    }

    /** `create_client`; `ok` is false when `client_id` is already taken. */
    method CreateClient(clientId: string, apiKey: string) returns (ok: bool)
      requires Valid()
      modifies this
      ensures Valid()
      ensures (Model(), ok) == Records.CreateClient(old(Model()), clientId, apiKey)
    {
      ok := clientId !in clients;
      if ok {
        clients := clients[clientId := Records.Client(clientId, apiKey)];
      }
    }

    /** `lookup_assistant`: the first stored assistant of the client. */
    method LookupAssistant(clientId: string) returns (r: Option<Records.Assistant>)
      ensures r == Records.LookupAssistant(Model(), clientId)
    {
      var i := 0;
      while i < |assistants| && assistants[i].clientId != clientId
        invariant 0 <= i <= |assistants|
        invariant Records.FirstAssistantOf(assistants[i..], clientId) == Records.LookupAssistant(Model(), clientId)
      {
        assert assistants[i..][1..] == assistants[i + 1..];
        i := i + 1;
      }
      r := if i < |assistants| then Some(assistants[i]) else None;
    }

    /** `create_assistant`; `ok` is false when `assistant_id` is already taken. */
    method CreateAssistant(assistantId: string, clientId: string) returns (ok: bool)
      requires Valid()
      modifies this
      ensures Valid()
      ensures (Model(), ok) == Records.CreateAssistant(old(Model()), assistantId, clientId)
    {
      ok := forall a | a in assistants :: a.assistantId != assistantId;
      if ok {
        Records.DistinctAssistantIdsAppend(assistants, Records.Assistant(assistantId, clientId));
        assistants := assistants + [Records.Assistant(assistantId, clientId)];
      }
    }

    /** `lookup_drive_document`. */
    method LookupDriveDocument(fileId: string) returns (r: Option<Records.DriveDoc>)
      requires Valid()
      ensures r == Records.LookupDriveDocument(Model(), fileId)
    {
      r := if fileId in drive then Some(drive[fileId]) else None;
    }

    /** `create_drive_document`; `ok` is false when `file_id` is already stored. */
    method CreateDriveDocument(
      fileId: string, clientId: string, fileName: string,
      contentHash: string, lastModified: string, content: string, now: int) returns (ok: bool)
      requires Valid()
      modifies this
      ensures Valid()
      ensures (Model(), ok) ==
        Records.CreateDriveDocument(old(Model()), fileId, clientId, fileName, contentHash, lastModified, content, now)
    {
      ok := fileId !in drive;
      if ok {
        Records.NoDuplicatesAppend(driveOrder, fileId);
        drive := drive[fileId := Records.DriveDoc(fileId, clientId, fileName, contentHash, lastModified, content, now, now)];
        driveOrder := driveOrder + [fileId];
      }
    }

    /** `update_drive_document`. */
    method UpdateDriveDocument(fileId: string, contentHash: string, content: string, now: int)
      requires Valid()
      modifies this
      ensures Valid()
      ensures Model() == Records.UpdateDriveDocument(old(Model()), fileId, contentHash, content, now)
    {
      if fileId in drive {
        drive := drive[fileId := drive[fileId].(contentHash := contentHash, content := content, updatedAt := now)];
      }
    }

    /** `get_all_drive_documents_for_client`: a scan of the table in insertion order. */
    method GetAllDriveDocumentsForClient(clientId: string) returns (r: seq<Records.DriveDoc>)
      requires Valid()
      ensures r == Records.AllDriveDocumentsForClient(Model(), clientId)
    {
      var i := |driveOrder|;
      r := [];
      while i > 0
        invariant 0 <= i <= |driveOrder|
        invariant r == Records.RowsForClient(driveOrder[i..], drive, clientId)
      {
        i := i - 1;
        var k := driveOrder[i];
        assert driveOrder[i..][1..] == driveOrder[i + 1..];
        if k in drive && drive[k].fileId == k && drive[k].clientId == clientId {
          r := [drive[k]] + r;
        }
      }
      assert driveOrder[0..] == driveOrder;
    }
  }
}
