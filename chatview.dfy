/**
 * `ChatViewProvider` of the editor extension: the chat history and the
 * attached file it keeps between messages, the name it shows for an
 * attached file, and the checks `handleCreateFile` makes on a file name
 * before anything is written to the workspace.
 *
 * The editor, the webview and the file system are not called: the active
 * editor arrives as a value, Node's `path.normalize`, `path.isAbsolute` and
 * `path.relative` are given functions (`PathOps`), and the outcome of
 * `createDirectory` is a parameter.
 */
module ChatView {
  import opened Wrappers
  import opened Text
  import Backboard

  // ------------------------------------------------------------ handleCreateFile

  /** The `create_file` tool result: its `filename` and `content`, either possibly missing. */
  datatype ToolResult = ToolResult(filename: Option<string>, content: Option<string>)

  /**
   * Node's path functions, taken as given: `path.normalize`,
   * `path.isAbsolute`, and `path.relative` from the workspace root to the
   * root joined with the given segments.
   */
  datatype PathOps = PathOps(
    normalize: string -> string,
    isAbsolute: string -> bool,
    relativeFromRoot: seq<string> -> string)

  /** Why a file is not created; each shows its own error and writes nothing. */
  datatype Refusal =
    | MissingInput      // "missing filename or content"
    | EmptyName         // "filename cannot be empty"
    | NoWorkspace       // "No workspace folder found"
    | AbsolutePath      // "absolute paths are not allowed"
    | Traversal         // "path traversal (..) is not allowed"
    | OutsideWorkspace  // "path is outside workspace"

  /**
   * What is written once every check passed: the directory to create (all
   * segments but the last, when there is more than one), the file's segments
   * under the workspace root, and its content.
   */
  datatype CreatePlan = CreatePlan(dir: Option<seq<string>>, file: seq<string>, content: string)

  /** How `createDirectory` ends: created, already there (ignored), or another error (rethrown). */
  datatype DirResult = DirCreated | DirExists | DirFails

  datatype CreateOutcome = Refused(reason: Refusal) | DirectoryFailed | Written(plan: CreatePlan)

  /** JavaScript's `!s` on an optional string: missing or empty. */
  predicate Falsy(s: Option<string>) {
    s.None? || s.value == ""
  }

  /** `path.normalize(filename).replace(/\\/g, '/')`. */
  function Normalized(ops: PathOps, filename: string): (r: string)
    ensures '\\' !in r
  {
    var r := ReplaceChar(ops.normalize(filename), '\\', '/');
    assert forall i | 0 <= i < |r| :: r[i] != '\\';
    r
  }

  /** A character of one part is a character of the joined string. */
  lemma {:induction false} InJoin(parts: seq<string>, sep: char, i: nat, c: char)
    requires i < |parts| && c in parts[i]
    ensures c in Join(parts, sep)
  {
    if |parts| > 1 {
      if i == 0 {
        var k :| 0 <= k < |parts[0]| && parts[0][k] == c;
        assert Join(parts, sep)[k] == c;
      } else {
        InJoin(parts[1..], sep, i - 1, c);
        var rest := Join(parts[1..], sep);
        var k :| 0 <= k < |rest| && rest[k] == c;
        assert Join(parts, sep)[|parts[0]| + 1 + k] == c;
      }
    }
  }

  /**
   * `normalizedPath.split('/').filter(seg => seg.length > 0)`: non-empty
   * segments with neither kind of slash in them.
   */
  function Segments(ops: PathOps, filename: string): (segs: seq<string>)
    ensures forall seg | seg in segs :: seg != "" && '/' !in seg && '\\' !in seg
  {
    var normalized := Normalized(ops, filename);
    var parts := Split(normalized, '/');
    forall seg | seg in NonEmpty(parts)
      ensures '\\' !in seg
    {
      var i :| 0 <= i < |parts| && parts[i] == seg;
      if '\\' in seg {
        InJoin(parts, '/', i, '\\');
      }
    }
    NonEmpty(parts)
  }

  /** The request names a file that is not only white space and carries a content. */
  predicate NamedRequest(request: ToolResult) {
    !Falsy(request.filename) && !Falsy(request.content) && JsTrim(request.filename.value) != ""
  }

  /** `relativePath.startsWith('..') || path.isAbsolute(relativePath)` for the joined segments. */
  predicate LeavesWorkspace(ops: PathOps, segments: seq<string>) {
    var relative := ops.relativeFromRoot(segments);
    StartsWith(relative, "..") || ops.isAbsolute(relative)
  }

  /**
   * The checks of `handleCreateFile`, in the order it makes them: a
   * filename and a content are present and not empty, the name is not
   * only white space, a workspace is open, the normalized path is not
   * absolute, no segment is `..`, and the joined path does not leave the
   * workspace. Each refusal happens exactly when the checks before it pass
   * and its own fails, and a request passing all of them is accepted.
   */
  function PlanCreateFile(request: ToolResult, hasWorkspace: bool, ops: PathOps): (r: Result<CreatePlan, Refusal>)
    ensures r == Failure(MissingInput) <==> Falsy(request.filename) || Falsy(request.content)
    ensures r == Failure(EmptyName) <==>
      !Falsy(request.filename) && !Falsy(request.content) && JsTrim(request.filename.value) == ""
    ensures r == Failure(NoWorkspace) <==> NamedRequest(request) && !hasWorkspace
    ensures r == Failure(AbsolutePath) <==>
      NamedRequest(request) && hasWorkspace && ops.isAbsolute(Normalized(ops, request.filename.value))
    ensures r == Failure(Traversal) <==>
      && NamedRequest(request) && hasWorkspace && !ops.isAbsolute(Normalized(ops, request.filename.value))
      && ".." in Segments(ops, request.filename.value)
    ensures r == Failure(OutsideWorkspace) <==>
      && NamedRequest(request) && hasWorkspace && !ops.isAbsolute(Normalized(ops, request.filename.value))
      && ".." !in Segments(ops, request.filename.value) && LeavesWorkspace(ops, Segments(ops, request.filename.value))
    ensures r.Success? <==>
      && NamedRequest(request) && hasWorkspace && !ops.isAbsolute(Normalized(ops, request.filename.value))
      && ".." !in Segments(ops, request.filename.value) && !LeavesWorkspace(ops, Segments(ops, request.filename.value))
    ensures r.Success? ==>
      r.value.file == Segments(ops, request.filename.value) && r.value.content == request.content.value
  {
    if Falsy(request.filename) || Falsy(request.content) then Failure(MissingInput)
    else
      var filename := request.filename.value;
      if JsTrim(filename) == "" then Failure(EmptyName)
      else if !hasWorkspace then Failure(NoWorkspace)
      else
        var normalized := Normalized(ops, filename);
        var segments := Segments(ops, filename);
        if ops.isAbsolute(normalized) then Failure(AbsolutePath)
        else if ".." in segments then Failure(Traversal)
        else
          if LeavesWorkspace(ops, segments) then Failure(OutsideWorkspace)
          else
            var n := |segments|;
            Success(CreatePlan(if n > 1 then Some(segments[..n - 1]) else None, segments, request.content.value))
  }

  /**
   * What is written is always inside the workspace as far as the segments
   * go: each is a non-empty name, none is `..`, none holds a slash; the
   * directory created, if any, is the file's segments without the last one,
   * and one is created exactly when there is more than one segment.
   */
  lemma PlanIsConfined(request: ToolResult, hasWorkspace: bool, ops: PathOps)
    requires PlanCreateFile(request, hasWorkspace, ops).Success?
    ensures var p := PlanCreateFile(request, hasWorkspace, ops).value;
      && p.file == Segments(ops, request.filename.value)
      && (forall seg | seg in p.file :: seg != "" && seg != ".." && '/' !in seg && '\\' !in seg)
      && (p.dir.Some? <==> |p.file| > 1)
      && (p.dir.Some? ==> p.dir.value == p.file[..|p.file| - 1])
      && !StartsWith(ops.relativeFromRoot(p.file), "..") && !ops.isAbsolute(ops.relativeFromRoot(p.file))
  {
  }

  /** A `..` among the segments is refused, however the path was otherwise acceptable. */
  lemma TraversalRefused(request: ToolResult, ops: PathOps)
    requires !Falsy(request.filename) && !Falsy(request.content) && JsTrim(request.filename.value) != ""
    requires !ops.isAbsolute(Normalized(ops, request.filename.value))
    requires ".." in Segments(ops, request.filename.value)
    ensures PlanCreateFile(request, true, ops) == Failure(Traversal)
  {
  }

  /** White space alone is no file name. */
  lemma WhitespaceNameRefused(request: ToolResult, hasWorkspace: bool, ops: PathOps)
    requires request.filename.Some? && request.filename.value != ""
    requires forall i | 0 <= i < |request.filename.value| :: IsJsWhitespace(request.filename.value[i])
    requires !Falsy(request.content)
    ensures PlanCreateFile(request, hasWorkspace, ops) == Failure(EmptyName)
  {
    TrimStartAll(request.filename.value, IsJsWhitespace);
  }

  /** A string made only of stripped characters strips to nothing. */
  lemma {:induction false} TrimStartAll(s: string, p: char -> bool)
    requires forall i | 0 <= i < |s| :: p(s[i])
    ensures TrimStart(s, p) == []
  {
    if s != [] {
      assert forall i | 0 <= i < |s[1..]| :: s[1..][i] == s[i + 1];
      TrimStartAll(s[1..], p);
    }
  }

  /**
   * `handleCreateFile(toolResult)`: the checks, then the directory (an
   * existing one is fine, any other error abandons the call before the
   * write), then the write of the content.
   */
  function HandleCreateFile(request: ToolResult, hasWorkspace: bool, ops: PathOps, dir: DirResult): (r: CreateOutcome)
    ensures r.Refused? <==> PlanCreateFile(request, hasWorkspace, ops).Failure?
    ensures r.Refused? ==> r.reason == PlanCreateFile(request, hasWorkspace, ops).error
    ensures r.DirectoryFailed? <==>
      PlanCreateFile(request, hasWorkspace, ops).Success? && PlanCreateFile(request, hasWorkspace, ops).value.dir.Some? && dir == DirFails
    ensures r.Written? ==>
      && r.plan == PlanCreateFile(request, hasWorkspace, ops).value
      && (r.plan.dir.None? || dir != DirFails)
  {
    match PlanCreateFile(request, hasWorkspace, ops)
    case Failure(reason) => Refused(reason)
    case Success(plan) => if plan.dir.Some? && dir == DirFails then DirectoryFailed else Written(plan)
  }

  /** Nothing is written without a name and a content, or with a name of white space only. */
  lemma NoWriteWithoutNameAndContent(request: ToolResult, hasWorkspace: bool, ops: PathOps, dir: DirResult)
    requires Falsy(request.filename) || Falsy(request.content) || JsTrim(request.filename.value) == ""
    ensures !HandleCreateFile(request, hasWorkspace, ops, dir).Written?
  {
  }

  // ------------------------------------------------------------ the attached file

  /** What `attachCurrentFile` reads from the active editor; lines are 0-based as the editor counts them. */
  datatype Selection = Selection(isEmpty: bool, startLine: nat, endLine: nat, text: string)

  /** The active editor: the workspace-relative name, the full path and text of its document, and its selection. */
  datatype Editor = Editor(relativeName: string, fsPath: string, text: string, selection: Selection)

  /**
   * The context `attachCurrentFile` stores: the selection with its 1-based
   * first and last lines, or, when nothing is selected, the whole document
   * without a line range.
   */
  function ContextOf(e: Editor): (c: Backboard.FileContext)
    ensures c.fileName == e.relativeName && c.filePath == e.fsPath
    ensures !e.selection.isEmpty ==>
      && c.content == e.selection.text
      && c.lineStart == Some(e.selection.startLine + 1) && c.lineEnd == Some(e.selection.endLine + 1)
    ensures e.selection.isEmpty ==> c.content == e.text && c.lineStart.None? && c.lineEnd.None?
  {
    if !e.selection.isEmpty then
      Backboard.FileContext(e.relativeName, e.fsPath, e.selection.text,
                            Some(e.selection.startLine + 1), Some(e.selection.endLine + 1))
    else Backboard.FileContext(e.relativeName, e.fsPath, e.text, None, None)
  }

  /**
   * The name the chat shows for an attached file (the `fileAttached`
   * handler of the webview): the file name, then `:L<start>` when both
   * line numbers are set, then `-L<end>` only when the range spans more
   * than one line.
   */
  function DisplayName(c: Backboard.FileContext): (name: string)
    ensures StartsWith(name, c.fileName)
    ensures name == c.fileName <==> !(Backboard.Truthy(c.lineStart) && Backboard.Truthy(c.lineEnd))
  {
    var lines :=
      if Backboard.Truthy(c.lineStart) && Backboard.Truthy(c.lineEnd) then
        ":L" + NatToString(c.lineStart.value)
          + (if c.lineStart.value != c.lineEnd.value then "-L" + NatToString(c.lineEnd.value) else "")
      else "";
    assert (c.fileName + lines)[..|c.fileName|] == c.fileName;
    c.fileName + lines
  }

  /**
   * An attached selection always shows its line range, since the editor's
   * 0-based lines become 1-based and so are never zero; the whole document
   * shows the bare file name.
   */
  lemma AttachedDisplayName(e: Editor)
    ensures var c := ContextOf(e);
      var a, b := e.selection.startLine + 1, e.selection.endLine + 1;
      && (!e.selection.isEmpty ==>
            DisplayName(c) == e.relativeName + ":L" + NatToString(a) + (if a != b then "-L" + NatToString(b) else ""))
      && (e.selection.isEmpty ==> DisplayName(c) == e.relativeName)
  {
  }

  predicate IsDigit(c: char) {
    '0' <= c <= '9'
  }

  /** How many digits open `s`. */
  function LeadingDigits(s: string): nat {
    if s == [] || !IsDigit(s[0]) then 0 else 1 + LeadingDigits(s[1..])
  }

  lemma {:induction false} LeadingDigitsOf(a: string, x: string)
    requires forall i | 0 <= i < |a| :: IsDigit(a[i])
    requires x == [] || !IsDigit(x[0])
    ensures LeadingDigits(a + x) == |a|
  {
    if a == [] {
      assert a + x == x;
    } else {
      assert (a + x)[1..] == a[1..] + x;
      assert forall i | 0 <= i < |a[1..]| :: a[1..][i] == a[i + 1];
      LeadingDigitsOf(a[1..], x);
    }
  }

  /**
   * A string of digits followed by text that does not start with a digit
   * splits in only one way.
   */
  lemma DigitsThenRest(a: string, x: string, a': string, x': string)
    requires forall i | 0 <= i < |a| :: IsDigit(a[i])
    requires forall i | 0 <= i < |a'| :: IsDigit(a'[i])
    requires x == [] || !IsDigit(x[0])
    requires x' == [] || !IsDigit(x'[0])
    requires a + x == a' + x'
    ensures a == a' && x == x'
  {
    var s := a + x;
    LeadingDigitsOf(a, x);
    LeadingDigitsOf(a', x');
    assert a == s[..|a|] == a';
    assert x == s[|a|..] == x';
  }

  /** What follows the file name for a context with both lines set. */
  function LineSuffix(start: nat, end: nat): string {
    ":L" + NatToString(start) + (if start != end then "-L" + NatToString(end) else "")
  }

  /** The line suffix gives back the range it was made from. */
  lemma LineSuffixInjective(start: nat, end: nat, start': nat, end': nat)
    requires LineSuffix(start, end) == LineSuffix(start', end')
    ensures start == start' && (start != end || start' != end' ==> end == end')
  {
    var x := if start != end then "-L" + NatToString(end) else "";
    var x' := if start' != end' then "-L" + NatToString(end') else "";
    assert ":L" + NatToString(start) + x == ":L" + (NatToString(start) + x);
    assert ":L" + NatToString(start') + x' == ":L" + (NatToString(start') + x');
    assert NatToString(start) + x == (":L" + (NatToString(start) + x))[2..];
    DigitsThenRest(NatToString(start), x, NatToString(start'), x');
    NatToStringInjective(start, start');
    if x != "" {
      assert NatToString(end) == x[2..] == x'[2..] == NatToString(end');
      NatToStringInjective(end, end');
    }
  }

  /**
   * The shown name is unambiguous: two attachments of the same file with
   * line ranges that show the same name have the same first line, and the
   * same last line unless both are single lines.
   */
  lemma DisplayNameUnambiguous(c: Backboard.FileContext, c': Backboard.FileContext)
    requires c.fileName == c'.fileName && DisplayName(c) == DisplayName(c')
    requires Backboard.Truthy(c.lineStart) && Backboard.Truthy(c.lineEnd)
    requires Backboard.Truthy(c'.lineStart) && Backboard.Truthy(c'.lineEnd)
    ensures c.lineStart == c'.lineStart
    ensures c.lineStart != c.lineEnd || c'.lineStart != c'.lineEnd ==> c.lineEnd == c'.lineEnd
  {
    var f := c.fileName;
    var s := LineSuffix(c.lineStart.value, c.lineEnd.value);
    var s' := LineSuffix(c'.lineStart.value, c'.lineEnd.value);
    assert DisplayName(c) == f + s;
    assert DisplayName(c') == f + s';
    assert s == (f + s)[|f|..] == (f + s')[|f|..] == s';
    LineSuffixInjective(c.lineStart.value, c.lineEnd.value, c'.lineStart.value, c'.lineEnd.value);
  }

  // ------------------------------------------------------------ the chat

  const WELCOME_TEXT := "Welcome to Backboard Assistant!\n\nI can help you explore your team's knowledge from:\n"
    + "• Google Drive documents\n• Git history and commits\n• Telegram conversations\n\n"
    + "**Quick tips:**\n"
    + "• Type @source to see exact source files\n"
    + "• Type @create_file to create onboarding docs\n"
    + "• Type @get_recent_context to catch up on recent activity\n"
    + "• Type @generate_mermaid_graph to visualize feature lineage\n"
    + "• Use Cmd+Shift+A for quick questions\n"
    + "• Ask about meetings, code changes, or team discussions\n\n"
    + "How can I help you today?"

  const ERROR_TEXT := "Sorry, I encountered an error. Please check your connection and try again."

  function WelcomeMessage(now: int): (m: Backboard.ChatMessage)
    ensures m.role == Backboard.Assistant && m.sources.None? && m.context.None?
  {
    Backboard.ChatMessage(Backboard.Assistant, WELCOME_TEXT, now, None, None)
  }

  /** The message that records what the user asked, with the file attached at that moment. */
  function UserMessage(message: string, now: int, context: Option<Backboard.FileContext>): (m: Backboard.ChatMessage)
    ensures m.role == Backboard.User && m.content == message && m.context == context && m.sources.None?
  {
    Backboard.ChatMessage(Backboard.User, message, now, None, context)
  }

  /**
   * The message that answers it: the reply of `sendMessage` with the
   * attached file, or the apology when the call raised.
   */
  function ReplyTo(
    message: string, context: Option<Backboard.FileContext>, answer: Backboard.BackendAnswer, raised: bool, now: int)
    : (m: Backboard.ChatMessage)
    ensures m.role == Backboard.Assistant && m.timestamp == now && m.context.None?
    ensures raised ==> m.content == ERROR_TEXT && m.sources.None?
    ensures !raised ==> m == Backboard.SendMessage(message, context, answer, now).0
  {
    if raised then Backboard.ChatMessage(Backboard.Assistant, ERROR_TEXT, now, None, None)
    else
      var reply := Backboard.SendMessage(message, context, answer, now).0;
      assert reply.context.None?;
      reply
  }

  /** The chat panel: its history and the file attached to the next question. */
  class ChatViewProvider {
    var messages: seq<Backboard.ChatMessage>
    var currentContext: Option<Backboard.FileContext>

    constructor ()
      ensures messages == [] && currentContext.None?
    {
      messages := [];
      currentContext := None;
    }

    /** `sendWelcomeMessage`. */
    method SendWelcomeMessage(now: int)
      modifies this
      ensures messages == old(messages) + [WelcomeMessage(now)]
      ensures currentContext == old(currentContext)
    {
      messages := messages + [WelcomeMessage(now)];
    }

    /** The visibility handler: a panel shown with an empty history greets the user. */
    method OnDidChangeVisibility(visible: bool, now: int)
      modifies this
      ensures messages == if visible && old(messages) == [] then [WelcomeMessage(now)] else old(messages)
      ensures currentContext == old(currentContext)
    {
      if visible && |messages| == 0 {
        SendWelcomeMessage(now);
      }
    }

    /** `clearChat`: the history is reset to the welcome message alone; the attached file stays. */
    method ClearChat(now: int)
      modifies this
      ensures messages == [WelcomeMessage(now)]
      ensures currentContext == old(currentContext)
    {
      messages := [];
      SendWelcomeMessage(now);
    }

    /** `attachCurrentFile`: without an open editor nothing changes. */
    method AttachCurrentFile(editor: Option<Editor>)
      modifies this
      ensures messages == old(messages)
      ensures currentContext == if editor.Some? then Some(ContextOf(editor.value)) else old(currentContext)
    {
      if editor.None? {
        return;
      }
      var e := editor.value;
      if !e.selection.isEmpty {
        currentContext := Some(Backboard.FileContext(
          e.relativeName, e.fsPath, e.selection.text, Some(e.selection.startLine + 1), Some(e.selection.endLine + 1)));
      } else {
        currentContext := Some(Backboard.FileContext(e.relativeName, e.fsPath, e.text, None, None));
      }
    }

    /** `removeContext`. */
    method RemoveContext()
      modifies this
      ensures messages == old(messages) && currentContext.None?
    {
      currentContext := None;
    }

    /**
     * `handleUserMessage(message)`: the question is recorded with the file
     * attached at that moment, the attachment is dropped, and the reply (or
     * the apology when the call raised) is recorded after the question.
     * `answer` is what the backend would answer.
     */
    method HandleUserMessage(message: string, answer: Backboard.BackendAnswer, raised: bool, sentAt: int, repliedAt: int)
      modifies this
      ensures currentContext.None?
      ensures messages == old(messages) + [
        UserMessage(message, sentAt, old(currentContext)),
        ReplyTo(message, old(currentContext), answer, raised, repliedAt)]
    {
      var userMessage := Backboard.ChatMessage(Backboard.User, message, sentAt, None, currentContext);
      messages := messages + [userMessage];
      if currentContext.Some? {
        currentContext := None;
      }
      var response;
      if raised {
        response := Backboard.ChatMessage(Backboard.Assistant, ERROR_TEXT, repliedAt, None, None);
      } else {
        response := Backboard.SendMessage(message, userMessage.context, answer, repliedAt).0;
      }
      messages := messages + [response];
    }
  }
}
