# git-lfs-file-locker: a verified model of its core

This project models two deterministic parts of a VS Code extension that wraps
`git lfs lock`, `git lfs unlock` and `git lfs locks`:

* **Path combination** (`src/utils.ts`). `combinePaths` joins a workspace path and
  a lock's relative path. It first removes the longest prefix of the relative
  segments that already ends the workspace path. `getRelativePath` turns a relative
  path into a forward-slash path for git.
* **Extension entry points** (`src/extension.ts`). These are:
  * how the output of `git lfs locks --json` becomes an `update` or an `error`
    message for the locks webview;
  * the guards and the terminal line of `executeLfsCommand`;
  * how the webview's `unlockFile`, `refresh` and `revealFile` requests are handled;
  * the lifecycle of the single-panel slot `lfsLocksPanel`.

Files:

* `wrappers.dfy` (module `Wrappers`): `Option` and `Result`.
* `json.dfy` (module `Json`): the values `JSON.parse` yields, and JavaScript truthiness.
* `utils.dfy` (module `Utils`): splitting into segments, the overlap search, the
  combination (the method `CombinePaths` with the source's loop, and the function
  `CombinedPath` that specifies it), and the backslash rewriting.
* `extension.dfy` (module `Extension`): messages, effects, lock-list normalisation,
  command construction, request dispatch, and the class `LocksView` for the panel slot.

How the outside world appears:

* Process runs, the terminal, notifications, `postMessage` and panel operations are
  `Effect` values. Each operation returns its effects in order. The class `LocksView`
  keeps a log of them.
* The outcomes of `exec`/`execSync` are parameters of type `Result<string>` (stdout,
  or the error message).
* `JSON.parse` is a parameter `string -> Result<Json>`.
* Node's `path.relative` and `path.basename` are parameters too.
* The path separator is fixed to `/`.
* Node's `path.normalize` is the function `NormalizePath`. It collapses repeated
  separators and keeps one leading and one trailing separator. It does not resolve
  `.` and `..`.
* `!workspacePath` is JavaScript falsiness, so the empty string counts as no
  workspace. The predicate `HasWorkspace` states this and all three guards use it.

Which function computes which part of the source:

* `NormalizePath` is `path.normalize`, and `JoinPath` is `path.join`.
* `CombinedPath` is what `combinePaths` returns, and `GetRelativePath` is `getRelativePath`.
* `IsBlank` is the blank-output test `!stdout || stdout.trim() === ''`.
* `LocksList` is the lock-list normalisation.
* `LocksMessage` is the message that `fetchLocksAndUpdateWebview` posts, and
  `FetchLocks` is the whole of `fetchLocksAndUpdateWebview`.
* `LfsCommandLine` is the terminal line of `executeLfsCommand`, and
  `ExecuteLfsCommand` is the whole of `executeLfsCommand`.
* `HandleRequest` is the `onDidReceiveMessage` dispatch.
* `PanelColumn` is `column || vscode.ViewColumn.One`.

Two places where the model follows the code:

* `combinePaths` computes `workspaceSegments` but only logs them. The overlap test
  compares against the normalised workspace path *string*, using `endsWith` with a
  leading separator, or equality. Only the relative path is split and filtered before
  comparing, and the model does the same.
* `parsedData.locks || []` is used without checking its shape. So a truthy
  non-array `locks` field is posted as it is, a primitive result gives `[]`, and a
  `null` result throws `TypeError` and is reported as an error. The model keeps all
  three cases.

## Model

| member | source | states |
|---|---|---|
| `Utils.Segments` | src/utils.ts:105-108 | every segment is non-empty and free of separators |
| `Utils.SegmentsAtSeparator` | src/utils.ts:107-108 | a separator splits the segments of the two sides apart, in order |
| `Utils.ExtraSeparatorsIgnored` | src/utils.ts:106-108 | a leading or a doubled separator never adds a segment |
| `Utils.SegmentsOfJoin` | src/utils.ts:107-108 | splitting a joined list of segments gives back the same list (round trip) |
| `Utils.JoinSplit` | src/utils.ts:107 | joining the pieces of a `split` gives back the string |
| `Utils.SplitJoin` | src/utils.ts:120 | splitting a join of separator-free pieces gives back the pieces |
| `Utils.NormalizeSegments` | src/utils.ts:99-100 | normalising a non-empty path keeps its segments |
| `Utils.NormalizeIdempotent` | src/utils.ts:99-100 | normalising twice is the same as normalising once |
| `Utils.NormalizeCollapsesSeparators` | src/utils.ts:99 | a doubled separator anywhere in the workspace path normalises like a single one |
| `Utils.NormalizeJoined` | src/utils.ts:99-100 | a path that is already in normal form (segments joined by single separators, with an optional leading separator) is left unchanged |
| `Utils.LeadingDoubleSeparator` | src/utils.ts:93 | a workspace such as `//a/b/c` normalises to `/a/b/c` |
| `Utils.LongestOverlapUpTo` | src/utils.ts:118-128 | the result is the largest k <= n whose first k segments overlap the workspace path, or 0 |
| `Utils.LongestOverlap` | src/utils.ts:116-128 | the skip count is the longest overlap: it overlaps, or is 0, and no longer prefix overlaps |
| `Utils.CombinePaths` | src/utils.ts:97-139 | both paths are normalised first; the loop that never breaks yields the longest overlap against the normalised workspace path, and the result is that path joined with the segments after it; this equals `CombinedPath` |
| `Utils.CombinedPath` | src/utils.ts:131-138 | the result begins with the normalised workspace path |
| `Utils.JoinPathSegments` | src/utils.ts:136 | the segments of a joined path are the base's segments followed by the parts |
| `Utils.CombinedSegments` | src/utils.ts:99-136 | the result's segments are the workspace's followed by exactly the normalised relative segments after the longest overlap, in order, with nothing invented |
| `Utils.NoOverlapIsConcatenation` | src/utils.ts:113-136 | the result is the plain join of all relative segments exactly when no prefix overlaps (both directions) |
| `Utils.OverlapExample` | src/utils.ts:88-96 | the doc comment's example: the workspace `//a/b/c` with `b/c/d/x.txt` gives `/a/b/c/d/x.txt` |
| `Utils.AppendExample` | src/utils.ts:113-136 | `/a/b/c` with `d/x.txt` (no overlap) gives `/a/b/c/d/x.txt` |
| `Utils.ToForwardSlashes` | src/utils.ts:32-35 | same length, no backslash left, each backslash becomes `/`, every other character unchanged |
| `Utils.ToForwardSlashesIdempotent` | src/utils.ts:35 | replacing twice is the same as replacing once |
| `Utils.ToForwardSlashesFixedPoint` | src/utils.ts:35 | a path is left unchanged exactly when it holds no backslash |
| `Utils.GetRelativePath` | src/utils.ts:26-38 | the `path.relative` result, of the same length, with each backslash turned into `/` and every other character kept |
| `Extension.TrimStartEmpty` | src/extension.ts:74 | trimming the start leaves nothing exactly when every character is whitespace |
| `Extension.TrimEndEmpty` | src/extension.ts:74 | the same for trimming the end |
| `Extension.BlankIffAllWhitespace` | src/extension.ts:74 | output counts as blank exactly when every character is one that `trim` removes |
| `Extension.LocksList` | src/extension.ts:79-80 | an array is the list unchanged; an object gives its truthy `locks` field, or `[]`; other primitives give `[]`; only `null` fails |
| `Extension.ShapesAgree` | src/extension.ts:80 | a bare array and an object wrapping it under `locks` give the same list |
| `Extension.BlankOutputSkipsParse` | src/extension.ts:74-77 | blank output gives an `update` with `[]`, whatever the parser would do |
| `Extension.LocksMessageError` | src/extension.ts:71-87 | an `error` happens exactly on exec failure, a parse failure of non-blank output, or a `null` result; it carries the `Failed to fetch LFS locks: ` prefix |
| `Extension.LocksMessageUpdate` | src/extension.ts:79-82 | parsed non-blank output is posted as the normalised list |
| `Extension.FetchLocksEffects` | src/extension.ts:64-88 | a fetch posts exactly one message to its webview; with no workspace, or an empty workspace path, it is `Please open a folder or workspace.` and no command runs; otherwise exactly `git lfs locks --json` runs |
| `Extension.CommandLineRoundTrip` | src/extension.ts:58 | the text of the terminal line reads back as `git lfs <command> "<path>"`, with the command and the path intact |
| `Extension.ExecuteLfsCommandEffects` | src/extension.ts:36-61 | with no workspace, or an empty workspace path, nothing runs; if `git lfs version` fails only that probe runs; in both cases one error shows and nothing is sent to the terminal; otherwise exactly `git lfs <command> "<forward-slash relative path>"` is sent |
| `Extension.HandleRequestQuiet` | src/extension.ts:124-127 | with no workspace, or an empty workspace path, a request does nothing; no request creates a panel |
| `Extension.UnlockRefetchesOnlyOnSuccess` | src/extension.ts:129-139 | the unlock runs first; the list is fetched again and posted only after a successful unlock; a failed unlock shows one error and posts nothing |
| `Extension.RefreshAndReveal` | src/extension.ts:141-148 | `refresh` runs one locks query and posts once; `revealFile` reveals the combined path, which begins with the normalised workspace path and whose segments are the workspace's followed by the non-overlapping relative ones |
| `Extension.ShowStepCreations` | src/extension.ts:94-111 | reusing an open panel creates none; the creation path creates exactly one |
| `Extension.LocksView.constructor` | src/extension.ts:20 | the slot starts empty, with no panel created and nothing done |
| `Extension.LocksView.ShowLocksView` | src/extension.ts:91-111 | an open panel is revealed and refreshed, and no new panel is created; otherwise one panel is created, filled and refreshed, and becomes the slot's panel |
| `Extension.LocksView.OnDidChangeViewState` | src/extension.ts:113-120 | becoming visible refreshes the panel; the slot is unchanged |
| `Extension.LocksView.OnDidReceiveMessage` | src/extension.ts:123-152 | one webview request adds exactly its dispatch effects; the slot is unchanged |
| `Extension.LocksView.OnDidDispose` | src/extension.ts:154-160 | disposing resets the slot to no panel |
| `Extension.LocksView.Deactivate` | src/extension.ts:300-304 | an open panel is disposed and the slot emptied |
| `Extension.PanelLifecycle` | src/extension.ts:91-161 | showing twice uses one panel; after disposal, showing creates a different one; two panels in all |

## Left out

- NormalizePath: `.` and `..` segments are kept as ordinary names. `path.normalize` resolves them.
- CombinePaths: on Windows `path.sep` is `\`; the model uses `/` only.
- CombinedPath: `path.join` is modelled as `JoinPath`. It appends with one separator and adds none after a trailing separator or an empty base. The normalisation that `path.join` applies to its result is not modelled. For example, `path.join` drops the base `.` (the normal form of an empty workspace path) and resolves `.` and `..` parts.
- GetRelativePath: `path.relative` is a parameter, so the model says nothing about how a relative path is computed, or about paths on different drives.
- `getBasename`, `getWorkspacePath` and `getUriForCommand` are editor and `path` lookups. Their results are parameters.
- `getNonce` is left out: it uses `Math.random`.
- `getWebviewContent` and `src/main.js` are left out: they are HTML templating and DOM wiring.
- `activate` is command registration and is left out. Its fallback to the active editor only decides which file reaches `executeLfsCommand`.
- `console.log` and `console.error` output is left out.
- The text of `exec` and `JSON.parse` errors is an input. The `null.locks` error uses V8's wording.
- JSON numbers are mathematical reals, not IEEE doubles. Only their truthiness matters here.
- Which terminal gets the text is not told apart. An already active terminal may have another working directory.
- Concurrency is left out. The model runs each handler to completion before the next event. In the source every `await` lets other events run in between. Two such interleavings are not modelled:
  - An unlock or refresh that completes after its panel was disposed. In the source, `lfsLocksPanel!` is then `undefined`.
  - A new panel closed during its first `git lfs locks --json`. `showLocksView` awaits that fetch (src/extension.ts:111) before it registers `onDidDispose` (src/extension.ts:155). So the slot keeps the disposed panel, and the next show reveals it (src/extension.ts:95).
  For this reason `OnDidReceiveMessage` and `OnDidChangeViewState` require an open panel.
