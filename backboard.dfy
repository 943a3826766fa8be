/**
 * The message logic of `BackboardService` in the editor extension: which
 * requests go to the backend and which are answered locally (`@source`),
 * the text sent for a question with an attached file, and how the backend's
 * answer or failure becomes a chat message. The HTTP call itself is a
 * parameter: the backend's answer, or how the request failed.
 */
module Backboard {
  import opened Wrappers
  import opened Text

  /** A file (or a remembered piece of memory) an answer refers to. */
  datatype SourceFile = SourceFile(path: string, lineStart: Option<nat>, lineEnd: Option<nat>, content: Option<string>)

  /** The editor content attached to a question; the lines are 1-based and absent for a whole file. */
  datatype FileContext = FileContext(fileName: string, filePath: string, content: string, lineStart: Option<nat>, lineEnd: Option<nat>)

  datatype Role = User | Assistant

  /** A message of the chat; `timestamp` is the `Date.now()` of its creation. */
  datatype ChatMessage = ChatMessage(
    role: Role, content: string, timestamp: int, sources: Option<seq<SourceFile>>, context: Option<FileContext>)

  /**
   * What `POST /messages/query` gives back: the pair `[content, sources]`,
   * `sources` possibly missing, or a failure with the HTTP status of the
   * error response (none when the server was not reached) and the error's
   * `message`.
   */
  datatype BackendAnswer = Answered(content: string, sources: Option<seq<string>>) | Failed(status: Option<int>, message: string)

  /** A JavaScript line number used as a condition: present and not zero. */
  predicate Truthy(n: Option<nat>) {
    n.Some? && n.value != 0
  }

  // ------------------------------------------------------------ composing the question

  /** ` lines a-b` when both line numbers are set, nothing otherwise. */
  function LineRange(c: FileContext): (r: string)
    ensures r == "" <==> !(Truthy(c.lineStart) && Truthy(c.lineEnd))
  {
    if Truthy(c.lineStart) && Truthy(c.lineEnd) then
      " lines " + NatToString(c.lineStart.value) + "-" + NatToString(c.lineEnd.value)
    else ""
  }

  /** The block that introduces the attached content: `[Context from F lines a-b]:`, the content and a blank line. */
  function ContextPrefix(c: FileContext): string {
    "[Context from " + c.fileName + LineRange(c) + "]:\n" + c.content + "\n\n"
  }

  /** `fullMessage` of `queryBackend`: the message, after the context block when a file is attached. */
  function ComposeMessage(message: string, context: Option<FileContext>): (full: string)
    ensures context.None? ==> full == message
    ensures context.Some? ==> full == ContextPrefix(context.value) + message
  {
    if context.None? then message else ContextPrefix(context.value) + message
  }

  /** Where the pieces of a five-part text followed by a message sit. */
  lemma PiecesLayout(a: string, b: string, c: string, d: string, e: string, m: string)
    ensures StartsWith(a + b + c + d + e + m, a)
    ensures EndsWith(a + b + c + d + e, d + e)
    ensures EndsWith(a + b + c + d + e + m, m)
  {
    assert (a + b + c + d + e + m)[..|a|] == a;
    assert (a + b + c + d + e)[|a + b + c|..] == d + e;
    EndsWithAppend(a + b + c + d + e, m);
  }

  /**
   * The question sent always ends with the user's message; with a file
   * attached it opens with the file's name, and the attached content comes
   * right before a blank line and the message.
   */
  lemma ComposeMessageLayout(message: string, c: FileContext)
    ensures StartsWith(ComposeMessage(message, Some(c)), "[Context from " + c.fileName)
    ensures EndsWith(ContextPrefix(c), c.content + "\n\n")
    ensures EndsWith(ComposeMessage(message, Some(c)), message)
  {
    PiecesLayout("[Context from " + c.fileName, LineRange(c), "]:\n", c.content, "\n\n", message);
  }

  // ------------------------------------------------------------ the backend's answer

  /** `sources?.map(source => ({path: "memory", content: source})) || []`, then `undefined` when empty. */
  function MapSources(sources: Option<seq<string>>): (r: Option<seq<SourceFile>>)
    ensures r.None? <==> sources.None? || sources.value == []
    ensures r.Some? ==> |r.value| == |sources.value|
    ensures r.Some? ==> forall i | 0 <= i < |r.value| ::
      r.value[i] == SourceFile("memory", None, None, Some(sources.value[i]))
  {
    if sources.None? || sources.value == [] then None
    else Some(seq(|sources.value|, i requires 0 <= i < |sources.value| => SourceFile("memory", None, None, Some(sources.value[i]))))
  }

  /** The contents of the sources, in order. */
  function Contents(files: seq<SourceFile>): seq<Option<string>> {
    if files == [] then [] else [files[0].content] + Contents(files[1..])
  }

  /** Nothing of the backend's sources is lost or reordered: their texts come back from the mapped list. */
  lemma {:induction false} MapSourcesKeepsTexts(sources: seq<string>)
    requires sources != []
    ensures Contents(MapSources(Some(sources)).value) == seq(|sources|, i requires 0 <= i < |sources| => Some(sources[i]))
  {
    var files := MapSources(Some(sources)).value;
    ContentsOfMapped(files, sources);
  }

  lemma {:induction false} ContentsOfMapped(files: seq<SourceFile>, sources: seq<string>)
    requires |files| == |sources|
    requires forall i | 0 <= i < |files| :: files[i].content == Some(sources[i])
    ensures Contents(files) == seq(|sources|, i requires 0 <= i < |sources| => Some(sources[i]))
  {
    if files != [] {
      ContentsOfMapped(files[1..], sources[1..]);
    }
  }

  const CLIENT_NOT_FOUND_TEXT := "Client not found. Please check your configuration in VS Code settings."
  const CONNECTION_FAILED_TEXT := "Failed to connect to the backend. Make sure the server is running.\n\nError: "

  /** The text shown for a failed request: a 404 means an unknown client, anything else a connection problem. */
  function ErrorText(status: Option<int>, message: string): (text: string)
    ensures status == Some(404) ==> text == CLIENT_NOT_FOUND_TEXT
    ensures status != Some(404) ==> StartsWith(text, CONNECTION_FAILED_TEXT) && EndsWith(text, message)
  {
    if status == Some(404) then CLIENT_NOT_FOUND_TEXT
    else
      EndsWithAppend(CONNECTION_FAILED_TEXT, message);
      assert StartsWith(CONNECTION_FAILED_TEXT, CONNECTION_FAILED_TEXT);
      StartsWithAppend(CONNECTION_FAILED_TEXT, message, CONNECTION_FAILED_TEXT);
      CONNECTION_FAILED_TEXT + message
  }

  /** `queryBackend`: the assistant's reply built from the backend's answer, or the error text. */
  function QueryBackend(answer: BackendAnswer, now: int): (m: ChatMessage)
    ensures m.role == Assistant && m.timestamp == now && m.context.None?
    ensures answer.Answered? ==> m.content == answer.content && m.sources == MapSources(answer.sources)
    ensures answer.Failed? ==> m.content == ErrorText(answer.status, answer.message) && m.sources.None?
  {
    match answer
    case Answered(content, sources) => ChatMessage(Assistant, content, now, MapSources(sources), None)
    case Failed(status, message) => ChatMessage(Assistant, ErrorText(status, message), now, None, None)
  }

  // ------------------------------------------------------------ @source requests

  /** The query of a `@source` request: the message without its first `@source`, trimmed. */
  function CleanSourceQuery(message: string): (q: string)
    ensures q == [] || (!IsJsWhitespace(q[0]) && !IsJsWhitespace(q[|q| - 1]))
    ensures !Contains(message, "@source") ==> q == JsTrim(message)
    ensures |q| <= |message|
  {
    JsTrim(ReplaceFirst(message, "@source", ""))
  }

  /** No occurrence of `@source` can start inside `before` and run into an `@source` that follows it. */
  lemma FirstSourceTag(before: string, after: string)
    requires !Contains(before, "@source")
    ensures Find(before + "@source" + after, "@source", 0) == |before|
  {
    var s, p, n := before + "@source" + after, "@source", |before|;
    assert s[n..n + 7] == p;
    assert OccursAt(s, p, n);
    forall j: nat | j < n
      ensures !OccursAt(s, p, j)
    {
      if j + 7 <= n {
        assert s[j..j + 7] == before[j..j + 7];
        assert !OccursAt(before, p, j);
      } else {
        assert s[n] == '@';
        assert s[j..j + 7][n - j] == s[n];
      }
    }
  }

  /** Only the first `@source` is removed: what follows it is kept as written, up to trimming. */
  lemma CleanRemovesFirstOnly(before: string, after: string)
    requires !Contains(before, "@source")
    ensures CleanSourceQuery(before + "@source" + after) == JsTrim(before + after)
  {
    var s := before + "@source" + after;
    FirstSourceTag(before, after);
    assert s[..|before|] == before && s[|before| + 7..] == after;
    assert ReplaceFirst(s, "@source", "") == before + after;
  }

  /** The three fixed sources every `@source` reply shows; the code excerpt each carries is not reproduced. */
  const MOCK_SOURCES: seq<SourceFile> := [
    SourceFile("src/backend/server.py", Some(67), Some(92), None),
    SourceFile("src/backend/drive_service.py", Some(145), Some(167), None),
    SourceFile("README.md", Some(1), Some(15), None)
  ]

  const SOURCE_REPLY_OPENING := "Here are the source files related to \""
  const SOURCE_REPLY_COUNT := "\":\n\nI found "
  const SOURCE_REPLY_CLOSING := " relevant source files. Click on any file below to view the code."

  /** `handleSourceRequest`: answered without the backend, naming the cleaned query and the number of sources. */
  function HandleSourceRequest(message: string, now: int): (m: ChatMessage)
    ensures m.role == Assistant && m.timestamp == now && m.sources == Some(MOCK_SOURCES) && m.context.None?
  {
    var text := SOURCE_REPLY_OPENING + CleanSourceQuery(message) + SOURCE_REPLY_COUNT
      + NatToString(|MOCK_SOURCES|) + SOURCE_REPLY_CLOSING;
    ChatMessage(Assistant, text, now, Some(MOCK_SOURCES), None)
  }

  /** Where the first part of a four-part text ends. */
  lemma FourPieces(a: string, b: string, c: string, d: string)
    ensures StartsWith(a + b + c + d, a)
    ensures EndsWith(a + b + c + d, b + c + d)
  {
    assert (a + b + c + d)[..|a|] == a;
    assert (a + b + c + d)[|a|..] == b + c + d;
  }

  /** The `@source` reply quotes the cleaned query and reports three files. */
  lemma SourceReplyText(message: string, now: int)
    ensures StartsWith(HandleSourceRequest(message, now).content, SOURCE_REPLY_OPENING + CleanSourceQuery(message))
    ensures EndsWith(HandleSourceRequest(message, now).content, SOURCE_REPLY_COUNT + "3" + SOURCE_REPLY_CLOSING)
  {
    assert NatToString(|MOCK_SOURCES|) == "3";
    FourPieces(SOURCE_REPLY_OPENING + CleanSourceQuery(message), SOURCE_REPLY_COUNT, "3", SOURCE_REPLY_CLOSING);
  }

  // ------------------------------------------------------------ sendMessage

  /**
   * `sendMessage`: the reply, and the text posted to the backend (`None`
   * when the request was answered locally).
   */
  function SendMessage(message: string, context: Option<FileContext>, answer: BackendAnswer, now: int)
    : (r: (ChatMessage, Option<string>))
    ensures r.0.role == Assistant && r.0.timestamp == now
  {
    if Contains(message, "@source") then (HandleSourceRequest(message, now), None)
    else (QueryBackend(answer, now), Some(ComposeMessage(message, context)))
  }

  /**
   * A message goes to the backend exactly when it does not mention
   * `@source`; what is posted then ends with the message, and is the message
   * itself when no file is attached. A `@source` reply always carries the
   * three fixed sources, whatever the backend would have said.
   */
  lemma SendMessageRouting(message: string, context: Option<FileContext>, answer: BackendAnswer, now: int)
    ensures var (reply, sent) := SendMessage(message, context, answer, now);
      && (sent.Some? <==> !Contains(message, "@source"))
      && (sent.Some? ==> EndsWith(sent.value, message))
      && (sent.Some? && context.None? ==> sent.value == message)
      && (sent.None? ==> reply.sources == Some(MOCK_SOURCES))
  {
    if !Contains(message, "@source") && context.Some? {
      ComposeMessageLayout(message, context.value);
    }
    if !Contains(message, "@source") && context.None? {
      assert EndsWith(message, message) by {
        assert message[|message| - |message|..] == message;
      }
    }
  }
}
