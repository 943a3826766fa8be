/**
 * The tables of `db.py` that the core reads and writes (`clients`,
 * `assistants`, `drive_documents`), as values, with each query and each
 * INSERT/UPDATE as a function from the old tables to the new ones.
 *
 * `drive_documents` is keyed by its primary key `file_id`; `driveOrder`
 * remembers the order in which rows were inserted, which is the order the
 * model gives to `SELECT ... WHERE client_id = ...` (the SQL has no ORDER BY).
 * `assistants` is keyed by `assistant_id` and looked up by `client_id`, so it
 * is kept as the list of its rows.
 */
module Records {
  import opened Wrappers

  /** A row of `drive_documents`; `createdAt` and `updatedAt` are the CURRENT_TIMESTAMP of the writes. */
  datatype DriveDoc = DriveDoc(
    fileId: string,
    clientId: string,
    fileName: string,
    contentHash: string,
    lastModified: string,
    content: string,
    createdAt: int,
    updatedAt: int)

  /** A row of `clients`: the tenant and its encrypted Backboard API key. */
  datatype Client = Client(clientId: string, apiKey: string)

  /** A row of `assistants`. */
  datatype Assistant = Assistant(assistantId: string, clientId: string)

  datatype Tables = Tables(
    clients: map<string, Client>,
    assistants: seq<Assistant>,
    drive: map<string, DriveDoc>,
    driveOrder: seq<string>)

  const EMPTY: Tables := Tables(map[], [], map[], [])

  /** Primary keys are unique and every row sits under its own key. */
  ghost predicate Valid(t: Tables) {
    && (forall k | k in t.clients :: t.clients[k].clientId == k)
    && (forall k | k in t.drive :: t.drive[k].fileId == k)
    && (forall k :: k in t.drive <==> k in t.driveOrder)
    && NoDuplicates(t.driveOrder)
    && DistinctAssistantIds(t.assistants)
  }

  /** No element occurs twice. */
  predicate NoDuplicates<T(==)>(s: seq<T>) {
    |s| == 0 || (s[0] !in s[1..] && NoDuplicates(s[1..]))
  }

  /** Appending an element not yet present keeps the elements distinct. */
  lemma {:induction false} NoDuplicatesAppend<T>(s: seq<T>, x: T)
    requires NoDuplicates(s) && x !in s
    ensures NoDuplicates(s + [x])
  {
    if |s| > 0 {
      assert (s + [x])[1..] == s[1..] + [x];
      NoDuplicatesAppend(s[1..], x);
    }
  }

  /** No two rows share an `assistant_id`. */
  predicate DistinctAssistantIds(rows: seq<Assistant>) {
    |rows| == 0 || ((forall a | a in rows[1..] :: a.assistantId != rows[0].assistantId) && DistinctAssistantIds(rows[1..]))
  }

  /** Appending a row with a fresh `assistant_id` keeps the ids distinct. */
  lemma {:induction false} DistinctAssistantIdsAppend(rows: seq<Assistant>, a: Assistant)
    requires DistinctAssistantIds(rows)
    requires forall b | b in rows :: b.assistantId != a.assistantId
    ensures DistinctAssistantIds(rows + [a])
  {
    if |rows| > 0 {
      assert (rows + [a])[1..] == rows[1..] + [a];
      DistinctAssistantIdsAppend(rows[1..], a);
    }
  }

  lemma EmptyIsValid()
    ensures Valid(EMPTY)
  {
  }

  // ---------------------------------------------------------------- clients

  /** `lookup_client`: `SELECT * FROM clients WHERE client_id = %s`, or `None`. */
  function LookupClient(t: Tables, clientId: string): (r: Option<Client>)
    requires Valid(t)
    ensures r.Some? ==> r.value in t.clients.Values && r.value.clientId == clientId
    ensures r.None? ==> forall c | c in t.clients.Values :: c.clientId != clientId
  {
    if clientId in t.clients then Some(t.clients[clientId]) else None
  }

  /** `create_client`: INSERT, which fails on an existing primary key and then changes nothing. */
  function CreateClient(t: Tables, clientId: string, apiKey: string): (r: (Tables, bool))
    requires Valid(t)
    ensures Valid(r.0)
    ensures r.1 <==> LookupClient(t, clientId).None?
    ensures r.1 ==> LookupClient(r.0, clientId) == Some(Client(clientId, apiKey))
    ensures r.1 ==> forall other | other != clientId :: LookupClient(r.0, other) == LookupClient(t, other)
    ensures !r.1 ==> r.0 == t
    ensures r.0.assistants == t.assistants && r.0.drive == t.drive && r.0.driveOrder == t.driveOrder
  {
    if clientId in t.clients then (t, false)
    else (t.(clients := t.clients[clientId := Client(clientId, apiKey)]), true)
  }

  // ------------------------------------------------------------- assistants

  function FirstAssistantOf(rows: seq<Assistant>, clientId: string): (r: Option<Assistant>)
    ensures r.Some? ==> r.value in rows && r.value.clientId == clientId
    ensures r.None? ==> forall a | a in rows :: a.clientId != clientId
  {
    if rows == [] then None
    else if rows[0].clientId == clientId then Some(rows[0])
    else FirstAssistantOf(rows[1..], clientId)
  }

  /** `lookup_assistant`: `SELECT * FROM assistants WHERE client_id = %s` with `fetchone`, or `None`. */
  function LookupAssistant(t: Tables, clientId: string): (r: Option<Assistant>)
    ensures r.Some? ==> r.value in t.assistants && r.value.clientId == clientId
    ensures r.None? ==> forall a | a in t.assistants :: a.clientId != clientId
  {
    FirstAssistantOf(t.assistants, clientId)
  }

  /** `create_assistant`: INSERT keyed by `assistant_id`. */
  function CreateAssistant(t: Tables, assistantId: string, clientId: string): (r: (Tables, bool))
    requires Valid(t)
    ensures Valid(r.0)
    ensures r.1 <==> forall a | a in t.assistants :: a.assistantId != assistantId
    ensures r.1 ==> r.0.assistants == t.assistants + [Assistant(assistantId, clientId)]
    ensures !r.1 ==> r.0 == t
    ensures r.0.clients == t.clients && r.0.drive == t.drive && r.0.driveOrder == t.driveOrder
  {
    if exists a | a in t.assistants :: a.assistantId == assistantId then (t, false)
    else
      DistinctAssistantIdsAppend(t.assistants, Assistant(assistantId, clientId));
      (t.(assistants := t.assistants + [Assistant(assistantId, clientId)]), true)
  }

  /** After an assistant is inserted for a client that had none, lookup finds exactly that assistant. */
  lemma LookupAfterCreateAssistant(t: Tables, assistantId: string, clientId: string)
    requires Valid(t)
    requires LookupAssistant(t, clientId).None?
    requires CreateAssistant(t, assistantId, clientId).1
    ensures LookupAssistant(CreateAssistant(t, assistantId, clientId).0, clientId) == Some(Assistant(assistantId, clientId))
  {
    var rows := t.assistants + [Assistant(assistantId, clientId)];
    FirstAfterNone(t.assistants, Assistant(assistantId, clientId));
  }

  lemma {:induction false} FirstAfterNone(rows: seq<Assistant>, a: Assistant)
    requires forall b | b in rows :: b.clientId != a.clientId
    ensures FirstAssistantOf(rows + [a], a.clientId) == Some(a)
  {
    if rows != [] {
      assert (rows + [a])[1..] == rows[1..] + [a];
      FirstAfterNone(rows[1..], a);
    }
  }

  // -------------------------------------------------------- drive_documents

  /** `lookup_drive_document`: `SELECT * FROM drive_documents WHERE file_id = %s`, or `None`. */
  function LookupDriveDocument(t: Tables, fileId: string): (r: Option<DriveDoc>)
    requires Valid(t)
    ensures r.Some? ==> r.value in t.drive.Values && r.value.fileId == fileId
    ensures r.None? ==> forall d | d in t.drive.Values :: d.fileId != fileId
  {
    if fileId in t.drive then Some(t.drive[fileId]) else None
  }

  /**
   * `create_drive_document`: INSERT of a whole row whose `created_at` and
   * `updated_at` take the current time; a second row with the same
   * `file_id` violates the primary key, and the INSERT then changes nothing.
   */
  function CreateDriveDocument(
    t: Tables, fileId: string, clientId: string, fileName: string,
    contentHash: string, lastModified: string, content: string, now: int): (r: (Tables, bool))
    requires Valid(t)
    ensures Valid(r.0)
    ensures r.1 <==> LookupDriveDocument(t, fileId).None?
    ensures r.1 ==>
      LookupDriveDocument(r.0, fileId) == Some(DriveDoc(fileId, clientId, fileName, contentHash, lastModified, content, now, now))
    ensures r.1 ==> r.0.driveOrder == t.driveOrder + [fileId]
    ensures forall other | other != fileId :: LookupDriveDocument(r.0, other) == LookupDriveDocument(t, other)
    ensures !r.1 ==> r.0 == t
    ensures r.0.clients == t.clients && r.0.assistants == t.assistants
  {
    if fileId in t.drive then (t, false)
    else
      var row := DriveDoc(fileId, clientId, fileName, contentHash, lastModified, content, now, now);
      NoDuplicatesAppend(t.driveOrder, fileId);
      (t.(drive := t.drive[fileId := row], driveOrder := t.driveOrder + [fileId]), true)
  }

  /**
   * `update_drive_document`: `UPDATE ... SET content_hash, content,
   * updated_at WHERE file_id = %s`. Only those three columns of the matching
   * row change; when no row matches nothing changes.
   */
  function UpdateDriveDocument(t: Tables, fileId: string, contentHash: string, content: string, now: int): (r: Tables)
    requires Valid(t)
    ensures Valid(r)
    ensures LookupDriveDocument(t, fileId).None? ==> r == t
    ensures LookupDriveDocument(t, fileId).Some? ==>
      LookupDriveDocument(r, fileId) ==
        Some(LookupDriveDocument(t, fileId).value.(contentHash := contentHash, content := content, updatedAt := now))
    ensures forall other | other != fileId :: LookupDriveDocument(r, other) == LookupDriveDocument(t, other)
    ensures r.clients == t.clients && r.assistants == t.assistants && r.driveOrder == t.driveOrder
  {
    if fileId in t.drive then
      var d := t.drive[fileId];
      t.(drive := t.drive[fileId := d.(contentHash := contentHash, content := content, updatedAt := now)])
    else t
  }

  function RowsForClient(order: seq<string>, drive: map<string, DriveDoc>, clientId: string): (r: seq<DriveDoc>)
    ensures |r| <= |order|
    ensures forall i | 0 <= i < |r| :: r[i].clientId == clientId && r[i].fileId in order
    ensures forall i | 0 <= i < |r| :: r[i].fileId in drive && drive[r[i].fileId] == r[i]
    ensures forall k | k in order && k in drive && drive[k].fileId == k && drive[k].clientId == clientId :: drive[k] in r
  {
    if order == [] then []
    else
      var rest := RowsForClient(order[1..], drive, clientId);
      var k := order[0];
      if k in drive && drive[k].fileId == k && drive[k].clientId == clientId then [drive[k]] + rest else rest
  }

  /**
   * `get_all_drive_documents_for_client`: exactly the rows whose `client_id`
   * matches, each once, in insertion order; `[]` when there are none.
   */
  function AllDriveDocumentsForClient(t: Tables, clientId: string): (r: seq<DriveDoc>)
    requires Valid(t)
    ensures forall i | 0 <= i < |r| :: r[i].clientId == clientId && LookupDriveDocument(t, r[i].fileId) == Some(r[i])
    ensures forall d | d in t.drive.Values && d.clientId == clientId :: d in r
    ensures DistinctFileIds(r)
  {
    var r := RowsForClient(t.driveOrder, t.drive, clientId);
    RowsForClientDistinct(t.driveOrder, t.drive, clientId);
    r
  }

  /** No two rows share a `file_id`. */
  predicate DistinctFileIds(rows: seq<DriveDoc>) {
    forall i, j | 0 <= i < j < |rows| :: rows[i].fileId != rows[j].fileId
  }

  /** The rows come from distinct keys, so no file appears twice. */
  lemma {:induction false} RowsForClientDistinct(order: seq<string>, drive: map<string, DriveDoc>, clientId: string)
    requires NoDuplicates(order)
    ensures DistinctFileIds(RowsForClient(order, drive, clientId))
  {
    if order != [] {
      var k := order[0];
      var rest := RowsForClient(order[1..], drive, clientId);
      RowsForClientDistinct(order[1..], drive, clientId);
      var r := RowsForClient(order, drive, clientId);
      if k in drive && drive[k].fileId == k && drive[k].clientId == clientId {
        assert r == [drive[k]] + rest;
        forall i, j | 0 <= i < j < |r| ensures r[i].fileId != r[j].fileId {
          assert r[j] == rest[j - 1];
          assert rest[j - 1].fileId in order[1..];
          if i > 0 {
            assert r[i] == rest[i - 1];
          }
        }
      } else {
        assert r == rest;
      }
    }
  }

  /** file_id is the primary key: after one create, a second create with that id fails and changes nothing. */
  lemma SecondCreateFails(
    t: Tables, fileId: string, clientId: string, fileName: string, contentHash: string,
    lastModified: string, content: string, now: int,
    clientId': string, fileName': string, contentHash': string, lastModified': string, content': string, now': int)
    requires Valid(t)
    ensures var t1 := CreateDriveDocument(t, fileId, clientId, fileName, contentHash, lastModified, content, now).0;
      CreateDriveDocument(t1, fileId, clientId', fileName', contentHash', lastModified', content', now') == (t1, false)
  {
  }
}
