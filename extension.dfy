/** The decision logic of the extension's entry points: fetching and
    normalising `git lfs locks --json`, building the terminal command for
    lock/unlock, dispatching the requests of the locks webview, and the
    lifecycle of the single locks panel.

    Nothing here runs a process or touches the editor. Every observable
    action is an `Effect`; an operation returns the effects it performs, in
    order. The outcomes of `exec`/`execSync` and of `JSON.parse` are
    parameters. */
module Extension {
  import opened Wrappers
  import opened Json
  import opened Utils

  // ---------------------------------------------------------------------
  // Messages and effects
  // ---------------------------------------------------------------------

  /** A message posted to the locks webview. */
  datatype WebviewMessage =
    | Update(locks: Json)
    | Error(message: string)

  /** A request the locks webview posts back to the extension. */
  datatype PanelRequest =
    | UnlockFile(lockId: string)
    | Refresh
    | RevealFile(path: string)
    | OtherCommand(command: string)

  /** One observable action of the extension. Panels are numbered in the
      order they are created. */
  datatype Effect =
    | Exec(commandLine: string, cwd: string)
    | ShowError(text: string)
    | ShowInfo(text: string)
    | CreateTerminal(name: string, cwd: string)
    | SendText(text: string)
    | ShowTerminal
    | CreatePanel(panel: nat, viewType: string, title: string, column: int)
    | SetHtml(panel: nat)
    | RevealPanel(panel: nat, revealColumn: Option<int>)
    | Post(panel: nat, message: WebviewMessage)
    | RevealInExplorer(path: string)
    | DisposePanel(panel: nat)

  /** Kinds of effect that the properties below single out. */
  datatype EffectKind = ExecKind | ErrorKind | SendTextKind | CreatePanelKind | PostKind

  predicate OfKind(e: Effect, kind: EffectKind) {
    match kind
    case ExecKind => e.Exec?
    case ErrorKind => e.ShowError?
    case SendTextKind => e.SendText?
    case CreatePanelKind => e.CreatePanel?
    case PostKind => e.Post?
  }

  /** The effects of one kind, in the order they happen. */
  function Select(effects: seq<Effect>, kind: EffectKind): seq<Effect>
    decreases |effects|
  {
    if effects == [] then []
    else (if OfKind(effects[0], kind) then [effects[0]] else []) + Select(effects[1..], kind)
  }

  lemma {:induction false} SelectConcat(a: seq<Effect>, b: seq<Effect>, kind: EffectKind)
    ensures Select(a + b, kind) == Select(a, kind) + Select(b, kind)
    decreases |a|
  {
    if a == [] {
      assert a + b == b;
    } else {
      var head := if OfKind(a[0], kind) then [a[0]] else [];
      assert (a + b)[0] == a[0] && (a + b)[1..] == a[1..] + b;
      assert Select(a + b, kind) == head + Select(a[1..] + b, kind);
      assert Select(a, kind) == head + Select(a[1..], kind);
      SelectConcat(a[1..], b, kind);
      assert head + (Select(a[1..], kind) + Select(b, kind))
               == (head + Select(a[1..], kind)) + Select(b, kind);
    }
  }

  lemma SelectSingleton(e: Effect, kind: EffectKind)
    ensures Select([e], kind) == if OfKind(e, kind) then [e] else []
  {
  }

  lemma SelectPair(e1: Effect, e2: Effect, kind: EffectKind)
    ensures Select([e1, e2], kind) == Select([e1], kind) + Select([e2], kind)
  {
  }

  // ---------------------------------------------------------------------
  // Constants of src/extension.ts
  // ---------------------------------------------------------------------

  const NotInWorkspaceMessage := "File is not part of a workspace. Cannot determine Git LFS context."
  const LfsVersionCommand := "git lfs version"
  const LfsMissingMessage := "Git LFS does not seem to be installed or configured for this repository. Please run \"git lfs install\" in the repository root."
  const TerminalName := "Git LFS"
  const NoWorkspaceMessage := "Please open a folder or workspace."
  const LocksCommand := "git lfs locks --json"
  const FetchFailedPrefix := "Failed to fetch LFS locks: "
  /** What V8 reports for `null.locks`, the one parse result the
      normalisation rejects. */
  const NullLocksAccessMessage := "Cannot read properties of null (reading 'locks')"
  const UnlockFailedPrefix := "Failed to unlock file: "
  const PanelViewType := "gitLfsLocks"
  const PanelTitle := "Active Git LFS Locks"
  /** `vscode.ViewColumn.One`. */
  const ViewColumnOne: int := 1

  function UnlockCommand(lockId: string): string {
    "git lfs unlock --id=" + lockId
  }

  function UnlockedMessage(lockId: string): string {
    "Successfully unlocked file (ID: " + lockId + ")."
  }

  function AttemptMessage(action: string, baseName: string): string {
    "Attempting to " + action + " \"" + baseName + "\" with Git LFS... Check the 'Git LFS' terminal for output."
  }

  /** `!workspacePath` is false: a path is present and is not the empty
      string, which JavaScript also treats as false. */
  predicate HasWorkspace(workspacePath: Option<string>) {
    workspacePath.Some? && workspacePath.value != ""
  }

  // ---------------------------------------------------------------------
  // String.prototype.trim (src/extension.ts:74)
  // ---------------------------------------------------------------------

  /** The characters `trim` removes: ECMAScript WhiteSpace and LineTerminator. */
  predicate IsJsWhitespace(c: char) {
    || c == '\t' || c == '\n' || c == '\U{B}' || c == '\U{C}' || c == '\r' || c == ' '
    || c == '\U{A0}' || c == '\U{1680}' || ('\U{2000}' <= c <= '\U{200A}')
    || c == '\U{2028}' || c == '\U{2029}' || c == '\U{202F}' || c == '\U{205F}'
    || c == '\U{3000}' || c == '\U{FEFF}'
  }

  predicate AllWhitespace(s: string) {
    forall i :: 0 <= i < |s| ==> IsJsWhitespace(s[i])
  }

  function TrimStart(s: string): string
    decreases |s|
  {
    if s != [] && IsJsWhitespace(s[0]) then TrimStart(s[1..]) else s
  }

  function TrimEnd(s: string): string
    decreases |s|
  {
    if s != [] && IsJsWhitespace(s[|s| - 1]) then TrimEnd(s[..|s| - 1]) else s
  }

  function Trim(s: string): string {
    TrimEnd(TrimStart(s))
  }

  /** `!stdout || stdout.trim() === ''`. */
  predicate IsBlank(stdout: string) {
    stdout == "" || Trim(stdout) == ""
  }

  lemma {:induction false} TrimStartEmpty(s: string)
    ensures TrimStart(s) == "" <==> AllWhitespace(s)
    ensures TrimStart(s) != "" ==> !IsJsWhitespace(TrimStart(s)[0])
    decreases |s|
  {
    if s != [] && IsJsWhitespace(s[0]) {
      TrimStartEmpty(s[1..]);
      assert AllWhitespace(s) <==> AllWhitespace(s[1..]) by {
        if AllWhitespace(s[1..]) {
          forall i | 0 <= i < |s| ensures IsJsWhitespace(s[i]) {
            if i > 0 { assert s[i] == s[1..][i - 1]; }
          }
        }
      }
    }
  }

  lemma {:induction false} TrimEndEmpty(s: string)
    ensures TrimEnd(s) == "" <==> AllWhitespace(s)
    decreases |s|
  {
    if s != [] && IsJsWhitespace(s[|s| - 1]) {
      var init := s[..|s| - 1];
      TrimEndEmpty(init);
      assert AllWhitespace(s) <==> AllWhitespace(init) by {
        if AllWhitespace(init) {
          forall i | 0 <= i < |s| ensures IsJsWhitespace(s[i]) {
            if i < |s| - 1 { assert s[i] == init[i]; }
          }
        }
      }
    }
  }

  /** Output is blank exactly when every character is one `trim` removes. */
  lemma BlankIffAllWhitespace(s: string)
    ensures IsBlank(s) <==> AllWhitespace(s)
  {
    TrimStartEmpty(s);
    var t := TrimStart(s);
    TrimEndEmpty(t);
    if t != "" {
      assert !AllWhitespace(t) by { assert !IsJsWhitespace(t[0]); }
    }
  }

  // ---------------------------------------------------------------------
  // Normalising the lock list (src/extension.ts:64-88)
  // ---------------------------------------------------------------------

  /** `Array.isArray(parsedData) ? parsedData : parsedData.locks || []`.
      Reading `locks` of `null` throws; of any other non-array it yields the
      property when it is present and truthy, otherwise `[]`. */
  function LocksList(parsed: Json): (r: Result<Json>)
    ensures r.Err? <==> parsed == JNull
    ensures r.Err? ==> r.message == NullLocksAccessMessage
    ensures parsed.JArray? ==> r == Ok(parsed)
    ensures parsed.JObject? && "locks" in parsed.fields && Truthy(parsed.fields["locks"])
            ==> r == Ok(parsed.fields["locks"])
    ensures parsed.JObject? && !("locks" in parsed.fields && Truthy(parsed.fields["locks"]))
            ==> r == Ok(EmptyArray)
    ensures parsed.JBool? || parsed.JNumber? || parsed.JString? ==> r == Ok(EmptyArray)
  {
    match parsed
    case JArray(_) => Ok(parsed)
    case JNull => Err(NullLocksAccessMessage)
    case JObject(fields) =>
      if "locks" in fields && Truthy(fields["locks"]) then Ok(fields["locks"]) else Ok(EmptyArray)
    case _ => Ok(EmptyArray)
  }

  /** A bare array and an object wrapping the same array under `locks` give
      the same lock list, whatever else the object holds. */
  lemma ShapesAgree(items: seq<Json>, fields: map<string, Json>)
    requires "locks" in fields && fields["locks"] == JArray(items)
    ensures LocksList(JObject(fields)) == LocksList(JArray(items)) == Ok(JArray(items))
  {
  }

  /** The message posted for the outcome of `git lfs locks --json`. */
  function LocksMessage(locksRun: Result<string>, parse: string -> Result<Json>): WebviewMessage {
    match locksRun
    case Err(e) => Error(FetchFailedPrefix + e)
    case Ok(stdout) =>
      if IsBlank(stdout) then Update(EmptyArray)
      else
        match parse(stdout)
        case Err(e) => Error(FetchFailedPrefix + e)
        case Ok(parsed) =>
          match LocksList(parsed)
          case Ok(locks) => Update(locks)
          case Err(e) => Error(FetchFailedPrefix + e)
  }

  /** Blank output is an empty update, and the parser is never consulted. */
  lemma BlankOutputSkipsParse(stdout: string, parse1: string -> Result<Json>, parse2: string -> Result<Json>)
    requires AllWhitespace(stdout)
    ensures LocksMessage(Ok(stdout), parse1) == LocksMessage(Ok(stdout), parse2) == Update(EmptyArray)
  {
    BlankIffAllWhitespace(stdout);
  }

  /** The fetch reports an error exactly when the command failed, or the
      output is not blank and either does not parse or parses to `null`; an
      error always carries the fixed prefix. */
  lemma LocksMessageError(locksRun: Result<string>, parse: string -> Result<Json>)
    ensures LocksMessage(locksRun, parse).Error? <==>
              || locksRun.Err?
              || (&& !IsBlank(locksRun.value)
                  && (parse(locksRun.value).Err? || parse(locksRun.value).value == JNull))
    ensures LocksMessage(locksRun, parse).Error? ==>
              FetchFailedPrefix <= LocksMessage(locksRun, parse).message
  {
  }

  /** A successful, non-blank, parsed output becomes the normalised list. */
  lemma LocksMessageUpdate(stdout: string, parse: string -> Result<Json>, parsed: Json)
    requires !AllWhitespace(stdout) && parse(stdout) == Ok(parsed) && parsed != JNull
    ensures LocksMessage(Ok(stdout), parse) == Update(LocksList(parsed).value)
  {
    BlankIffAllWhitespace(stdout);
  }

  /** `fetchLocksAndUpdateWebview(webview)`. `workspacePath` is what
      `getWorkspacePath()` returns; `locksRun` is the outcome of
      `exec('git lfs locks --json')`. */
  function FetchLocks(webview: nat, workspacePath: Option<string>, locksRun: Result<string>,
                      parse: string -> Result<Json>): seq<Effect>
  {
    if !HasWorkspace(workspacePath) then [Post(webview, Error(NoWorkspaceMessage))]
    else [Exec(LocksCommand, workspacePath.value), Post(webview, LocksMessage(locksRun, parse))]
  }

  /** A fetch posts exactly one message to its webview, runs the locks query
      exactly when there is a workspace, and never creates a panel. */
  lemma FetchLocksEffects(webview: nat, workspacePath: Option<string>, locksRun: Result<string>,
                          parse: string -> Result<Json>)
    ensures var effects := FetchLocks(webview, workspacePath, locksRun, parse);
            && Select(effects, PostKind)
                 == [Post(webview, if !HasWorkspace(workspacePath) then Error(NoWorkspaceMessage)
                                   else LocksMessage(locksRun, parse))]
            && Select(effects, ExecKind)
                 == (if !HasWorkspace(workspacePath) then [] else [Exec(LocksCommand, workspacePath.value)])
            && Select(effects, CreatePanelKind) == []
            && Select(effects, ErrorKind) == []
  {
    var effects := FetchLocks(webview, workspacePath, locksRun, parse);
    if HasWorkspace(workspacePath) {
      ExecThenPost(Exec(LocksCommand, workspacePath.value), Post(webview, LocksMessage(locksRun, parse)), effects);
    } else {
      OnlyPost(Post(webview, Error(NoWorkspaceMessage)), effects);
    }
  }

  lemma ExecThenPost(exec: Effect, post: Effect, effects: seq<Effect>)
    requires exec.Exec? && post.Post? && effects == [exec, post]
    ensures Select(effects, PostKind) == [post] && Select(effects, ExecKind) == [exec]
    ensures Select(effects, CreatePanelKind) == [] && Select(effects, ErrorKind) == []
  {
    SelectPair(exec, post, PostKind);
    SelectPair(exec, post, ExecKind);
    SelectPair(exec, post, CreatePanelKind);
    SelectPair(exec, post, ErrorKind);
    SelectSingleton(exec, PostKind);
    SelectSingleton(exec, ExecKind);
    SelectSingleton(exec, CreatePanelKind);
    SelectSingleton(exec, ErrorKind);
    SelectSingleton(post, PostKind);
    SelectSingleton(post, ExecKind);
    SelectSingleton(post, CreatePanelKind);
    SelectSingleton(post, ErrorKind);
  }

  lemma OnlyPost(post: Effect, effects: seq<Effect>)
    requires post.Post? && effects == [post]
    ensures Select(effects, PostKind) == [post] && Select(effects, ExecKind) == []
    ensures Select(effects, CreatePanelKind) == [] && Select(effects, ErrorKind) == []
  {
    SelectSingleton(post, PostKind);
    SelectSingleton(post, ExecKind);
    SelectSingleton(post, CreatePanelKind);
    SelectSingleton(post, ErrorKind);
  }

  /** A fetch never creates a panel. */
  lemma FetchCreatesNoPanel(webview: nat, workspacePath: Option<string>, locksRun: Result<string>,
                            parse: string -> Result<Json>)
    ensures Select(FetchLocks(webview, workspacePath, locksRun, parse), CreatePanelKind) == []
  {
    FetchLocksEffects(webview, workspacePath, locksRun, parse);
  }

  // ---------------------------------------------------------------------
  // Lock and unlock from the explorer (src/extension.ts:36-61)
  // ---------------------------------------------------------------------

  /** The line sent to the terminal: `git lfs <command> "<path>"`. */
  function LfsCommandLine(command: string, relativePath: string): string {
    "git lfs " + command + " \"" + relativePath + "\""
  }

  /** The index of the first occurrence of c in s. */
  function IndexOf(s: string, c: char): (r: Option<nat>)
    ensures r.Some? ==> r.value < |s| && s[r.value] == c && c !in s[..r.value]
    ensures r.None? ==> c !in s
    decreases |s|
  {
    if s == [] then None
    else if s[0] == c then Some(0)
    else match IndexOf(s[1..], c)
      case None => None
      case Some(i) => Some(i + 1)
  }

  /** Reads a terminal line back as `git lfs <verb> "<argument>"`: the verb
      runs to the first space and the argument is the one double-quoted word
      after it. */
  function ReadLfsCommandLine(line: string): Option<(string, string)> {
    var lead := "git lfs ";
    if |line| < |lead| || line[..|lead|] != lead then None
    else ReadVerbAndArgument(line[|lead|..])
  }

  function ReadVerbAndArgument(rest: string): Option<(string, string)> {
    match IndexOf(rest, ' ')
    case None => None
    case Some(i) => ReadQuoted(rest[..i], rest[i + 1..])
  }

  function ReadQuoted(verb: string, arg: string): Option<(string, string)> {
    if |arg| >= 2 && arg[0] == '"' && arg[|arg| - 1] == '"' && '"' !in arg[1..|arg| - 1]
    then Some((verb, arg[1..|arg| - 1]))
    else None
  }

  /** The terminal line carries the verb and the path intact, provided the
      verb has no space and the path no double quote. This is a statement
      about the line's text only: a shell still expands `$`, backquote and
      backslash inside double quotes, so a file named, say, `a$HOME.psd`
      does not reach git as written. */
  lemma CommandLineRoundTrip(command: string, relativePath: string)
    requires ' ' !in command && '"' !in relativePath
    ensures ReadLfsCommandLine(LfsCommandLine(command, relativePath)) == Some((command, relativePath))
  {
    var line := LfsCommandLine(command, relativePath);
    var lead := "git lfs ";
    var quoted := "\"" + relativePath + "\"";
    var rest := command + ([' '] + quoted);
    assert line == lead + rest;
    assert line[..|lead|] == lead && line[|lead|..] == rest;
    VerbRoundTrip(command, quoted);
    QuotedRoundTrip(command, relativePath);
  }

  /** The verb is everything up to the first space. */
  lemma VerbRoundTrip(command: string, arg: string)
    requires ' ' !in command
    ensures ReadVerbAndArgument(command + ([' '] + arg)) == ReadQuoted(command, arg)
  {
    var rest := command + ([' '] + arg);
    var i := |command|;
    assert rest[..i] == command && rest[i] == ' ' && rest[i + 1..] == arg;
    IndexOfFirst(rest, ' ', i);
  }

  /** A quote-free word in double quotes reads back as itself. */
  lemma QuotedRoundTrip(verb: string, word: string)
    requires '"' !in word
    ensures ReadQuoted(verb, "\"" + word + "\"") == Some((verb, word))
  {
    var arg := "\"" + word + "\"";
    assert arg[1..|arg| - 1] == word;
  }

  lemma IndexOfFirst(s: string, c: char, i: nat)
    requires i < |s| && s[i] == c && c !in s[..i]
    ensures IndexOf(s, c) == Some(i)
  {
  }

  /** `executeLfsCommand(command, fileUri, action)`. `workspacePath` is
      `getWorkspacePath(fileUri)`, `lfsVersion` the outcome of
      `execSync('git lfs version')`, `hasActiveTerminal` whether
      `vscode.window.activeTerminal` is set; `relative` and `basename` stand
      for Node's `path.relative` and `path.basename`. */
  function ExecuteLfsCommand(command: string, action: string, filePath: string,
                             workspacePath: Option<string>, lfsVersion: Result<string>,
                             hasActiveTerminal: bool,
                             relative: (string, string) -> string,
                             basename: string -> string): seq<Effect>
  {
    if !HasWorkspace(workspacePath) then [ShowError(NotInWorkspaceMessage)]
    else
      var ws := workspacePath.value;
      [Exec(LfsVersionCommand, ws)]
      + if lfsVersion.Err? then [ShowError(LfsMissingMessage)]
        else
          var relativeFilePath := GetRelativePath(relative, ws, filePath);
          (if hasActiveTerminal then [] else [CreateTerminal(TerminalName, ws)])
          + [SendText(LfsCommandLine(command, relativeFilePath)),
             ShowTerminal,
             ShowInfo(AttemptMessage(action, basename(filePath)))]
  }

  /** The guards of `executeLfsCommand`: without a workspace nothing runs;
      without git-lfs only the version probe runs; in both cases one error is
      shown and nothing reaches the terminal. Otherwise exactly one line is
      sent, naming the command and the forward-slash relative path. */
  lemma ExecuteLfsCommandEffects(command: string, action: string, filePath: string,
                                 workspacePath: Option<string>, lfsVersion: Result<string>,
                                 hasActiveTerminal: bool,
                                 relative: (string, string) -> string,
                                 basename: string -> string)
    ensures var effects := ExecuteLfsCommand(command, action, filePath, workspacePath, lfsVersion,
                                             hasActiveTerminal, relative, basename);
            && Select(effects, ExecKind)
                 == (if !HasWorkspace(workspacePath) then [] else [Exec(LfsVersionCommand, workspacePath.value)])
            && Select(effects, SendTextKind)
                 == (if !HasWorkspace(workspacePath) || lfsVersion.Err? then []
                     else [SendText(LfsCommandLine(command, GetRelativePath(relative, workspacePath.value, filePath)))])
            && Select(effects, ErrorKind)
                 == (if !HasWorkspace(workspacePath) then [ShowError(NotInWorkspaceMessage)]
                     else if lfsVersion.Err? then [ShowError(LfsMissingMessage)]
                     else [])
  {
    var effects := ExecuteLfsCommand(command, action, filePath, workspacePath, lfsVersion,
                                     hasActiveTerminal, relative, basename);
    if !HasWorkspace(workspacePath) {
      OnlyError(ShowError(NotInWorkspaceMessage), effects);
    } else {
      var ws := workspacePath.value;
      var probe := Exec(LfsVersionCommand, ws);
      if lfsVersion.Err? {
        ProbeThenError(probe, ShowError(LfsMissingMessage), effects);
      } else {
        var rel := GetRelativePath(relative, ws, filePath);
        var opening := if hasActiveTerminal then [] else [CreateTerminal(TerminalName, ws)];
        var sent := SendText(LfsCommandLine(command, rel));
        var rest := [ShowTerminal, ShowInfo(AttemptMessage(action, basename(filePath)))];
        assert effects == [probe] + (opening + ([sent] + rest));
        OnlySendText(probe, opening, sent, rest, ExecKind);
        OnlySendText(probe, opening, sent, rest, SendTextKind);
        OnlySendText(probe, opening, sent, rest, ErrorKind);
      }
    }
  }

  /** A command stopped by its first guard: one error, nothing else. */
  lemma OnlyError(err: Effect, effects: seq<Effect>)
    requires err.ShowError? && effects == [err]
    ensures Select(effects, ExecKind) == [] && Select(effects, SendTextKind) == []
    ensures Select(effects, ErrorKind) == [err]
  {
    SelectSingleton(err, ExecKind);
    SelectSingleton(err, SendTextKind);
    SelectSingleton(err, ErrorKind);
  }

  /** A command stopped by the version probe: the probe, then one error. */
  lemma ProbeThenError(probe: Effect, err: Effect, effects: seq<Effect>)
    requires probe.Exec? && err.ShowError? && effects == [probe, err]
    ensures Select(effects, ExecKind) == [probe] && Select(effects, SendTextKind) == []
    ensures Select(effects, ErrorKind) == [err]
  {
    SelectPair(probe, err, ExecKind);
    SelectPair(probe, err, SendTextKind);
    SelectPair(probe, err, ErrorKind);
    SelectSingleton(probe, ExecKind);
    SelectSingleton(probe, SendTextKind);
    SelectSingleton(probe, ErrorKind);
    SelectSingleton(err, ExecKind);
    SelectSingleton(err, SendTextKind);
    SelectSingleton(err, ErrorKind);
  }

  /** The effects of a command that passed its guards, kind by kind. */
  lemma OnlySendText(probe: Effect, opening: seq<Effect>, sent: Effect, rest: seq<Effect>, kind: EffectKind)
    requires probe.Exec? && sent.SendText?
    requires opening == [] || (|opening| == 1 && opening[0].CreateTerminal?)
    requires |rest| == 2 && rest[0].ShowTerminal? && rest[1].ShowInfo?
    requires kind == ExecKind || kind == SendTextKind || kind == ErrorKind
    ensures Select([probe] + (opening + ([sent] + rest)), kind)
              == (if kind == ExecKind then [probe] else if kind == SendTextKind then [sent] else [])
  {
    SelectConcat([probe], opening + ([sent] + rest), kind);
    SelectConcat(opening, [sent] + rest, kind);
    SelectConcat([sent], rest, kind);
    SelectSingleton(probe, kind);
    SelectSingleton(sent, kind);
    if opening != [] {
      assert opening == [opening[0]];
      SelectSingleton(opening[0], kind);
    }
    assert rest == [rest[0], rest[1]];
    SelectPair(rest[0], rest[1], kind);
    SelectSingleton(rest[0], kind);
    SelectSingleton(rest[1], kind);
  }

  // ---------------------------------------------------------------------
  // Requests from the locks webview (src/extension.ts:123-152)
  // ---------------------------------------------------------------------

  /** The effects of one webview request. `workspacePath` is
      `getWorkspacePath()`, `unlockRun` the outcome of
      `exec('git lfs unlock --id=...')`, `locksRun` that of the re-fetch. */
  function HandleRequest(panel: nat, request: PanelRequest, workspacePath: Option<string>,
                         unlockRun: Result<string>, locksRun: Result<string>,
                         parse: string -> Result<Json>): seq<Effect>
  {
    if !HasWorkspace(workspacePath) then []
    else
      var ws := workspacePath.value;
      match request
      case UnlockFile(lockId) =>
        [Exec(UnlockCommand(lockId), ws)]
        + if unlockRun.Ok?
          then [ShowInfo(UnlockedMessage(lockId))] + FetchLocks(panel, workspacePath, locksRun, parse)
          else [ShowError(UnlockFailedPrefix + unlockRun.message)]
      case Refresh => FetchLocks(panel, workspacePath, locksRun, parse)
      case RevealFile(path) => [RevealInExplorer(CombinedPath(ws, path))]
      case OtherCommand(_) => []
  }

  /** Requests are ignored without a workspace, and no request creates a panel. */
  lemma HandleRequestQuiet(panel: nat, request: PanelRequest, workspacePath: Option<string>,
                           unlockRun: Result<string>, locksRun: Result<string>,
                           parse: string -> Result<Json>)
    ensures !HasWorkspace(workspacePath) ==> HandleRequest(panel, request, workspacePath, unlockRun, locksRun, parse) == []
    ensures Select(HandleRequest(panel, request, workspacePath, unlockRun, locksRun, parse), CreatePanelKind) == []
  {
    if HasWorkspace(workspacePath) {
      match request
      case UnlockFile(lockId) =>
        UnlockCreatesNoPanel(panel, lockId, workspacePath, unlockRun, locksRun, parse);
      case Refresh =>
        FetchCreatesNoPanel(panel, workspacePath, locksRun, parse);
      case RevealFile(path) =>
        SelectSingleton(RevealInExplorer(CombinedPath(workspacePath.value, path)), CreatePanelKind);
      case OtherCommand(_) =>
    }
  }

  lemma UnlockCreatesNoPanel(panel: nat, lockId: string, workspacePath: Option<string>,
                             unlockRun: Result<string>, locksRun: Result<string>,
                             parse: string -> Result<Json>)
    requires HasWorkspace(workspacePath)
    ensures Select(HandleRequest(panel, UnlockFile(lockId), workspacePath, unlockRun, locksRun, parse),
                   CreatePanelKind) == []
  {
    var effects := HandleRequest(panel, UnlockFile(lockId), workspacePath, unlockRun, locksRun, parse);
    var first := Exec(UnlockCommand(lockId), workspacePath.value);
    SelectSingleton(first, CreatePanelKind);
    if unlockRun.Ok? {
      var info := ShowInfo(UnlockedMessage(lockId));
      var fetch := FetchLocks(panel, workspacePath, locksRun, parse);
      assert effects == [first] + ([info] + fetch);
      FetchCreatesNoPanel(panel, workspacePath, locksRun, parse);
      SelectConcat([first], [info] + fetch, CreatePanelKind);
      SelectConcat([info], fetch, CreatePanelKind);
      SelectSingleton(info, CreatePanelKind);
    } else {
      var err := ShowError(UnlockFailedPrefix + unlockRun.message);
      assert effects == [first, err];
      SelectPair(first, err, CreatePanelKind);
      SelectSingleton(err, CreatePanelKind);
    }
  }

  /** `unlockFile`: the unlock runs first; the list is fetched again only
      after a successful unlock, while a failed one shows one error and posts
      nothing. */
  lemma UnlockRefetchesOnlyOnSuccess(panel: nat, lockId: string, ws: string,
                                     unlockRun: Result<string>, locksRun: Result<string>,
                                     parse: string -> Result<Json>)
    requires ws != ""
    ensures var effects := HandleRequest(panel, UnlockFile(lockId), Some(ws), unlockRun, locksRun, parse);
            && Select(effects, ExecKind)
                 == [Exec(UnlockCommand(lockId), ws)] + (if unlockRun.Ok? then [Exec(LocksCommand, ws)] else [])
            && Select(effects, PostKind)
                 == (if unlockRun.Ok? then [Post(panel, LocksMessage(locksRun, parse))] else [])
            && Select(effects, ErrorKind)
                 == (if unlockRun.Ok? then [] else [ShowError(UnlockFailedPrefix + unlockRun.message)])
  {
    var effects := HandleRequest(panel, UnlockFile(lockId), Some(ws), unlockRun, locksRun, parse);
    var first := Exec(UnlockCommand(lockId), ws);
    if unlockRun.Ok? {
      var info := ShowInfo(UnlockedMessage(lockId));
      var fetch := FetchLocks(panel, Some(ws), locksRun, parse);
      assert effects == [first] + ([info] + fetch);
      SelectAfterUnlock(first, info, fetch, ExecKind);
      SelectAfterUnlock(first, info, fetch, PostKind);
      SelectAfterUnlock(first, info, fetch, ErrorKind);
      FetchLocksEffects(panel, Some(ws), locksRun, parse);
    } else {
      var err := ShowError(UnlockFailedPrefix + unlockRun.message);
      assert effects == [first, err];
      SelectPair(first, err, ExecKind);
      SelectPair(first, err, PostKind);
      SelectPair(first, err, ErrorKind);
      SelectSingleton(first, ExecKind);
      SelectSingleton(first, PostKind);
      SelectSingleton(first, ErrorKind);
      SelectSingleton(err, ExecKind);
      SelectSingleton(err, PostKind);
      SelectSingleton(err, ErrorKind);
    }
  }

  /** The kinds that matter after a successful unlock: the unlock command,
      then whatever the re-fetch does; the notification is neither. */
  lemma SelectAfterUnlock(first: Effect, info: Effect, fetch: seq<Effect>, kind: EffectKind)
    requires first.Exec? && info.ShowInfo?
    requires kind == ExecKind || kind == PostKind || kind == ErrorKind
    ensures Select([first] + ([info] + fetch), kind)
              == (if kind == ExecKind then [first] else []) + Select(fetch, kind)
  {
  }

  /** `refresh` is one fetch into the panel; `revealFile` reveals the
      combined path, which lies under the workspace path. */
  lemma RefreshAndReveal(panel: nat, ws: string, path: string,
                         unlockRun: Result<string>, locksRun: Result<string>,
                         parse: string -> Result<Json>)
    requires ws != ""
    ensures Select(HandleRequest(panel, Refresh, Some(ws), unlockRun, locksRun, parse), PostKind)
              == [Post(panel, LocksMessage(locksRun, parse))]
    ensures Select(HandleRequest(panel, Refresh, Some(ws), unlockRun, locksRun, parse), ExecKind)
              == [Exec(LocksCommand, ws)]
    ensures exists target :: && HandleRequest(panel, RevealFile(path), Some(ws), unlockRun, locksRun, parse)
                                  == [RevealInExplorer(target)]
                             && NormalizePath(ws) <= target
                             && Segments(target) == Segments(ws)
                                  + Segments(NormalizePath(path))
                                      [LongestOverlap(NormalizePath(ws), Segments(NormalizePath(path)))..]
  {
    assert HandleRequest(panel, Refresh, Some(ws), unlockRun, locksRun, parse)
             == FetchLocks(panel, Some(ws), locksRun, parse);
    FetchLocksEffects(panel, Some(ws), locksRun, parse);
    RevealEffect(panel, ws, path, unlockRun, locksRun, parse);
  }

  lemma RevealEffect(panel: nat, ws: string, path: string,
                     unlockRun: Result<string>, locksRun: Result<string>,
                     parse: string -> Result<Json>)
    requires ws != ""
    ensures var target := CombinedPath(ws, path);
            && HandleRequest(panel, RevealFile(path), Some(ws), unlockRun, locksRun, parse)
                 == [RevealInExplorer(target)]
            && NormalizePath(ws) <= target
            && Segments(target) == Segments(ws)
                 + Segments(NormalizePath(path))
                     [LongestOverlap(NormalizePath(ws), Segments(NormalizePath(path)))..]
  {
    CombinedSegments(ws, path);
  }

  // ---------------------------------------------------------------------
  // The locks panel slot `lfsLocksPanel` (src/extension.ts:20, 91-161)
  // ---------------------------------------------------------------------

  /** `column || vscode.ViewColumn.One`. */
  function PanelColumn(column: Option<int>): int {
    if column.Some? && column.value != 0 then column.value else ViewColumnOne
  }

  /** Revealing an open panel creates none; opening a new one creates one. */
  lemma ShowStepCreations(p: nat, column: Option<int>, workspacePath: Option<string>,
                          locksRun: Result<string>, parse: string -> Result<Json>)
    ensures |Select([RevealPanel(p, column)] + FetchLocks(p, workspacePath, locksRun, parse), CreatePanelKind)| == 0
    ensures |Select([CreatePanel(p, PanelViewType, PanelTitle, PanelColumn(column)), SetHtml(p)]
                    + FetchLocks(p, workspacePath, locksRun, parse), CreatePanelKind)| == 1
  {
    var fetch := FetchLocks(p, workspacePath, locksRun, parse);
    FetchCreatesNoPanel(p, workspacePath, locksRun, parse);
    var shown := RevealPanel(p, column);
    SelectConcat([shown], fetch, CreatePanelKind);
    SelectSingleton(shown, CreatePanelKind);
    var create := CreatePanel(p, PanelViewType, PanelTitle, PanelColumn(column));
    SelectConcat([create, SetHtml(p)], fetch, CreatePanelKind);
    SelectPair(create, SetHtml(p), CreatePanelKind);
    SelectSingleton(create, CreatePanelKind);
    SelectSingleton(SetHtml(p), CreatePanelKind);
  }

  /** The module-level panel reference together with everything the
      extension has done so far. */
  class LocksView {
    /** `lfsLocksPanel`: the open panel, if any. */
    var panel: Option<nat>
    /** How many panels have been created; the next one gets this number. */
    var created: nat
    /** The effects performed so far, in order. */
    var log: seq<Effect>

    /** At most one panel is open and it is the latest one created; the log
        records one creation per panel. */
    ghost predicate Valid()
      reads this
    {
      && (panel.Some? ==> panel.value + 1 == created)
      && |Select(log, CreatePanelKind)| == created
    }

    constructor ()
      ensures Valid() && panel == None && created == 0 && log == []
    {
      panel := None;
      created := 0;
      log := [];
    }

    /** `showLocksView`: an open panel is revealed and refreshed; otherwise
        a new panel is created, filled and refreshed. `column` is the active
        editor's view column. */
    method ShowLocksView(column: Option<int>, workspacePath: Option<string>,
                         locksRun: Result<string>, parse: string -> Result<Json>)
      requires Valid()
      modifies this
      ensures Valid()
      ensures old(panel).Some? ==>
                && panel == old(panel) && created == old(created)
                && log == old(log) + [RevealPanel(old(panel).value, column)]
                          + FetchLocks(old(panel).value, workspacePath, locksRun, parse)
      ensures old(panel).None? ==>
                && panel == Some(old(created)) && created == old(created) + 1
                && log == old(log) + [CreatePanel(old(created), PanelViewType, PanelTitle, PanelColumn(column)),
                                      SetHtml(old(created))]
                          + FetchLocks(old(created), workspacePath, locksRun, parse)
    {
      if panel.Some? {
        var p := panel.value;
        var step := [RevealPanel(p, column)] + FetchLocks(p, workspacePath, locksRun, parse);
        ShowStepCreations(p, column, workspacePath, locksRun, parse);
        SelectConcat(log, step, CreatePanelKind);
        log := log + step;
        return;
      }
      var p := created;
      var step := [CreatePanel(p, PanelViewType, PanelTitle, PanelColumn(column)), SetHtml(p)]
                  + FetchLocks(p, workspacePath, locksRun, parse);
      ShowStepCreations(p, column, workspacePath, locksRun, parse);
      SelectConcat(log, step, CreatePanelKind);
      panel := Some(p);
      created := created + 1;
      log := log + step;
    }

    /** `onDidChangeViewState`: the panel is refreshed when it becomes visible. */
    method OnDidChangeViewState(visible: bool, workspacePath: Option<string>,
                                locksRun: Result<string>, parse: string -> Result<Json>)
      requires Valid() && panel.Some?
      modifies this
      ensures Valid() && panel == old(panel) && created == old(created)
      ensures log == old(log) + (if visible then FetchLocks(panel.value, workspacePath, locksRun, parse) else [])
    {
      if visible {
        var step := FetchLocks(panel.value, workspacePath, locksRun, parse);
        FetchCreatesNoPanel(panel.value, workspacePath, locksRun, parse);
        SelectConcat(log, step, CreatePanelKind);
        log := log + step;
      }
    }

    /** `onDidReceiveMessage`: one request from the open panel's webview. */
    method OnDidReceiveMessage(request: PanelRequest, workspacePath: Option<string>,
                               unlockRun: Result<string>, locksRun: Result<string>,
                               parse: string -> Result<Json>)
      requires Valid() && panel.Some?
      modifies this
      ensures Valid() && panel == old(panel) && created == old(created)
      ensures log == old(log) + HandleRequest(panel.value, request, workspacePath, unlockRun, locksRun, parse)
    {
      var step := HandleRequest(panel.value, request, workspacePath, unlockRun, locksRun, parse);
      HandleRequestQuiet(panel.value, request, workspacePath, unlockRun, locksRun, parse);
      SelectConcat(log, step, CreatePanelKind);
      log := log + step;
    }

    /** `onDidDispose`: closing the panel empties the slot. */
    method OnDidDispose()
      requires Valid()
      modifies this
      ensures Valid() && panel == None && created == old(created) && log == old(log)
    {
      panel := None;
    }

    /** `deactivate`: an open panel is disposed, which empties the slot. */
    method Deactivate()
      requires Valid()
      modifies this
      ensures Valid() && panel == None && created == old(created)
      ensures log == old(log) + (if old(panel).Some? then [DisposePanel(old(panel).value)] else [])
    {
      if panel.Some? {
        SelectConcat(log, [DisposePanel(panel.value)], CreatePanelKind);
        log := log + [DisposePanel(panel.value)];
        OnDidDispose();
      }
    }
  }

  /** absent -> created -> reused -> cleared -> created anew: showing the view
      twice uses one panel; after the panel is closed, showing the view
      creates a different one. */
  method PanelLifecycle(column: Option<int>, workspacePath: Option<string>,
                        locksRun: Result<string>, parse: string -> Result<Json>)
    returns (first: nat, second: nat, third: nat, panelsCreated: nat)
    ensures first == second && third != first && panelsCreated == 2
  {
    var view := new LocksView();
    view.ShowLocksView(column, workspacePath, locksRun, parse);
    first := view.panel.value;
    view.ShowLocksView(column, workspacePath, locksRun, parse);
    second := view.panel.value;
    view.OnDidDispose();
    view.ShowLocksView(column, workspacePath, locksRun, parse);
    third := view.panel.value;
    panelsCreated := view.created;
  }
}
