# framework-dev scripts, modelled in Dafny

The framework-dev plugin keeps one project-state document,
`.framework-blueprints/00-project-state.json`, and six Node scripts work on
it:

- `validate.js` runs up to three validation passes and adds up their issues:
  - the state pass: missing required keys, phases below the current one that
    are not completed, and decisions without a source;
  - the contract pass: duplicate paths among the `| METHOD | path |` rows of
    the API contracts document;
  - the link pass: backtick-quoted `src/` references in Markdown files that
    name no existing file.
- `checkpoint.js` copies the state into a named backup, then appends a
  checkpoint record and refreshes `updatedAt`.
- `check-api-contract.js` is a hook that runs before a write. It reminds the
  agent of the API contracts when the target looks like source code.
- `update-state-timestamp.js` is a hook that runs after a write. It refreshes
  `updatedAt` when another blueprint file changed.
- `state-summary.js` prints the state for a person to read.
- `state-backup.js` is the session-start hook. It prints where the previous
  session stopped.

The model has one module per script, plus shared modules:

- `Text` holds the JavaScript string operations the scripts use: `\s`,
  `includes`, `trim`, `join` and integer rendering.
- `ProjectState` holds the document's schema and its `x || d` fallbacks.
- `RegexScan` holds the two regular expressions of `validate.js`, written as
  dedicated matchers, and the way `exec` with the `g` flag walks a text.
- `PassResults` holds the `{ status, issues }` result of a pass.
- `Store` holds a `Workspace` class with the state file, the backup directory
  and the backups. It also keeps a log of every write, in order.
- `HookPayload` holds the stdin payload of the two hooks.

How each part is modelled:

- The loops of `validate.js` are methods with loop invariants, each proved
  equal to a specification function. The lemmas then characterise those
  functions.
- The checkpoint and the timestamp refresh are methods that take a
  `Workspace` and change it only through its write methods.
- The contract hook and the reporters are functions.

## Model

| member | source | states |
|---|---|---|
| Text.ContainsIff | plugins/framework-dev/scripts/check-api-contract.js:34 | `includes` holds exactly when the needle occurs at some index |
| Text.TrimSound | plugins/framework-dev/scripts/validate.js:73 | `trim` gives the slice that cuts only spaces on either side and neither starts nor ends with one |
| Text.TrimSkipsLeadingSpaces | plugins/framework-dev/scripts/validate.js:73 | leading spaces never change the result of `trim` |
| Text.TrimNoSpaces | plugins/framework-dev/scripts/validate.js:73 | a string without spaces is its own trim, so a method name comes through `trim` unchanged |
| Text.IndexOfFromFirst | plugins/framework-dev/scripts/validate.js:68 | the scan for the closing bar of the path group stops at the first bar: none lies before the one found, and none lies ahead when the scan fails |
| Text.IndexOfFromFinds | plugins/framework-dev/scripts/validate.js:68 | a bar with no bar before it is the one the scan finds |
| Text.JoinEmptyIff | plugins/framework-dev/scripts/checkpoint.js:30 | `join(' ')` gives "" exactly for no arguments or one empty argument |
| Text.NatToStringRoundTrip | plugins/framework-dev/scripts/state-summary.js:39 | a rendered number reads back as the same number |
| RegexScan.MethodAtSound | plugins/framework-dev/scripts/validate.js:68 | the method alternative matches only GET, POST, PUT, PATCH or DELETE, and only where that name occurs |
| RegexScan.MethodAtComplete | plugins/framework-dev/scripts/validate.js:68 | each of the five names is recognised wherever it occurs |
| RegexScan.PathGroupTrim | plugins/framework-dev/scripts/validate.js:68-73 | the path capture, trimmed, is the trimmed text between the bars, even when the engine backtracks into the spaces |
| RegexScan.RowAtSound | plugins/framework-dev/scripts/validate.js:68 | every endpoint match is a bar, spaces, a method, spaces, a bar, some text without a bar, and a closing bar |
| RegexScan.RowAtComplete | plugins/framework-dev/scripts/validate.js:68 | every row of that shape is matched, ending at its closing bar, with its method captured |
| RegexScan.RowMatchVerb | plugins/framework-dev/scripts/validate.js:68 | the captured method of a row is one of the five names and holds no spaces |
| RegexScan.RefAtSound | plugins/framework-dev/scripts/validate.js:99 | a file-reference match runs from a backtick to the next backtick, and the text between ends in a known extension and is the capture |
| RegexScan.RefAtComplete | plugins/framework-dev/scripts/validate.js:99 | every such backtick pair is matched at its opening backtick |
| RegexScan.ExtensionOfSound | plugins/framework-dev/scripts/validate.js:99 | the extension alternative accepts only ts, js, tsx, jsx, md or json after a dot at the end |
| RegexScan.ExtensionOfComplete | plugins/framework-dev/scripts/validate.js:99 | each of the six extensions after a dot is accepted |
| RegexScan.Exec | plugins/framework-dev/scripts/validate.js:72 | `exec` returns a match that starts at or after `lastIndex` and ends within the text |
| RegexScan.ExecLeftmost | plugins/framework-dev/scripts/validate.js:72 | the match `exec` returns is the leftmost one: the pattern matches nowhere between `lastIndex` and it, and `exec` returns null only when the pattern matches nowhere from `lastIndex` on |
| RegexScan.ExecMatches | plugins/framework-dev/scripts/validate.js:72 | what `exec` returns is the pattern's match at that position |
| RegexScan.AllMatchesOrdered | plugins/framework-dev/scripts/validate.js:72-74 | the matches a `while (exec)` loop visits are in text order and do not overlap |
| RegexScan.AllMatchesAreMatches | plugins/framework-dev/scripts/validate.js:72 | each visited match is the pattern's match at its own start |
| RegexScan.AllMatchesFirstOf | plugins/framework-dev/scripts/validate.js:72-74 | each visited match is the first match `exec` returns for some later `lastIndex` within the text |
| RegexScan.AllMatchesComplete | plugins/framework-dev/scripts/validate.js:110 | every position where the pattern matches lies inside a visited match, so a skipped match was overlapped by an earlier one |
| PassResults.Verdict | plugins/framework-dev/scripts/validate.js:56-57 | a pass that ran passes exactly when its issue count is 0 |
| ValidateState.CountStateIssues | plugins/framework-dev/scripts/validate.js:28-54 | the three loops count the missing keys, then the stale phases, then the unsourced decisions |
| ValidateState.RunStatePass | plugins/framework-dev/scripts/validate.js:20-58 | the state pass skips with 0 without a state file, dies on a document that does not parse, and otherwise gives the verdict on the count |
| ValidateState.MissingInIff | plugins/framework-dev/scripts/validate.js:31-36 | a key is reported missing exactly when it is required and absent; presence is key membership |
| ValidateState.MissingInCount | plugins/framework-dev/scripts/validate.js:31-36 | over distinct keys, the count is the number of absent keys |
| ValidateState.MissingKeysCount | plugins/framework-dev/scripts/validate.js:28-36 | each of the six required keys absent from the state adds exactly one issue |
| ValidateState.StaleBelowIff | plugins/framework-dev/scripts/validate.js:40-46 | phase i is counted exactly when 1 <= i < n and phase i is recorded but not completed; the list increases |
| ValidateState.StalePhasesIff | plugins/framework-dev/scripts/validate.js:39-46 | the same below `currentPhase`; without one, no phase is counted; an absent phase entry never is |
| ValidateState.UnsourcedBelowIff | plugins/framework-dev/scripts/validate.js:49-54 | decision i is counted exactly when its source is missing or empty |
| ValidateState.UnsourcedIff | plugins/framework-dev/scripts/validate.js:49-54 | the same over `state.decisions || []`, each decision at most once |
| ValidateState.StatePassOutcome | plugins/framework-dev/scripts/validate.js:22-57 | the pass skips with 0 issues when the file is absent, and passes exactly when all three counts are empty |
| ValidateState.PhaseTwoPendingScenario | plugins/framework-dev/scripts/validate.js:39-46 | with current phase 3, phase 1 completed and phase 2 pending, only phase 2 is counted |
| ValidateContracts.ScanEndpoints | plugins/framework-dev/scripts/validate.js:67-74 | the `exec` loop collects one trimmed (method, path) pair per visited match, in text order |
| ValidateContracts.ScannedEndpoint | plugins/framework-dev/scripts/validate.js:68-74 | each collected endpoint comes from a table row, and its method is one of the five names |
| ValidateContracts.FirstIndex | plugins/framework-dev/scripts/validate.js:81 | `indexOf` gives the first index holding the path, or none |
| ValidateContracts.FirstIndexBefore | plugins/framework-dev/scripts/validate.js:81 | `indexOf(ps[n]) !== n` exactly when the path occurred before n |
| ValidateContracts.DuplicatesBelowIff | plugins/framework-dev/scripts/validate.js:81 | a path is among the duplicates of the first n paths exactly when it occurs twice among them |
| ValidateContracts.DuplicatesIff | plugins/framework-dev/scripts/validate.js:81 | a path is a duplicate exactly when it occurs at two indices |
| ValidateContracts.ContractIssuesIff | plugins/framework-dev/scripts/validate.js:79-85 | the contract issue count is at most 1, and it is 1 exactly when some path repeats, whatever the methods |
| ValidateContracts.DistinctIff | plugins/framework-dev/scripts/validate.js:83 | `[...new Set(xs)]` holds the same elements as xs, each once |
| ValidateContracts.ReportedDuplicatesIff | plugins/framework-dev/scripts/validate.js:81-83 | the warning names exactly the repeated paths, each once |
| ValidateContracts.RepeatIffMultiplicity | plugins/framework-dev/scripts/validate.js:81 | a path occurs twice exactly when its multiplicity is at least 2 |
| ValidateContracts.DuplicatesOrderFree | plugins/framework-dev/scripts/validate.js:79-85 | reordering the rows changes neither the issue count nor the duplicated paths |
| ValidateContracts.SamePathTwiceScenario | plugins/framework-dev/scripts/validate.js:80-85 | two rows with the same path and any methods give one issue |
| ValidateContracts.RunContractPass | plugins/framework-dev/scripts/validate.js:60-89 | the contract pass skips without a contracts file; otherwise it scans, then filters, and reports the distinct duplicates |
| ValidateLinks.RunLinkPass | plugins/framework-dev/scripts/validate.js:91-124 | the link pass skips without a blueprint directory; otherwise it counts the broken links of the walk |
| ValidateLinks.CountBrokenLinks | plugins/framework-dev/scripts/validate.js:101-121 | the walk reports and counts the broken references of each Markdown file in turn, and skips other files |
| ValidateLinks.ScanFile | plugins/framework-dev/scripts/validate.js:108-116 | the `exec` loop of one file reports, in order, each visited reference that starts with `src/` and does not exist |
| ValidateLinks.BrokenFromAll | plugins/framework-dev/scripts/validate.js:110-115 | reporting match by match, as the loop does, gives exactly the broken references among all the matches, in order |
| ValidateLinks.BrokenAmongIff | plugins/framework-dev/scripts/validate.js:110-115 | a reference of a file is reported exactly when it starts with `src/` and does not exist |
| ValidateLinks.BrokenLinksBelowIff | plugins/framework-dev/scripts/validate.js:101-116 | a link is reported exactly when it is a reference in a Markdown file of the walk, starts with `src/` and does not exist |
| ValidateLinks.BrokenLinksIff | plugins/framework-dev/scripts/validate.js:101-116 | the same over the whole walk |
| ValidateLinks.RefIsQuoted | plugins/framework-dev/scripts/validate.js:99-111 | every reference is the text between two backticks with none in between, and it ends in a known extension |
| Validate.ModeOf | plugins/framework-dev/scripts/validate.js:127 | a missing or empty argument selects "all", and any other argument is the mode |
| Validate.RunValidator | plugins/framework-dev/scripts/validate.js:126-139 | the main block runs the selected passes in order and adds up their issues |
| Validate.ExitCodeIff | plugins/framework-dev/scripts/validate.js:136-139 | the exit code is 1 exactly when the total is positive; a state document that does not parse aborts with 1 exactly when the state pass is selected |
| Validate.UnknownModeRunsNothing | plugins/framework-dev/scripts/validate.js:131-139 | an unrecognised mode runs no pass and exits 0 |
| Validate.AllModeSums | plugins/framework-dev/scripts/validate.js:127-136 | with no argument every pass runs, and the total is the sum of the three |
| Validate.SingleModeReportsOne | plugins/framework-dev/scripts/validate.js:132-136 | mode "contracts" reports only the contract pass, whose issues are the total; mode "links" totals the broken links, or 0 without the blueprint directory |
| Store.Workspace.constructor | plugins/framework-dev/scripts/checkpoint.js:17-28 | a workspace starts with the stored state, the backup directory as found, no backups and no writes |
| Store.Workspace.MakeBackupDir | plugins/framework-dev/scripts/checkpoint.js:23-25 | making the directory changes only the directory flag and logs the write |
| Store.Workspace.WriteBackup | plugins/framework-dev/scripts/checkpoint.js:35 | a backup can be written only into an existing directory; it replaces a backup with the same path, and nothing else changes |
| Store.Workspace.WriteState | plugins/framework-dev/scripts/checkpoint.js:47 | a state write overwrites the whole document, and nothing else changes |
| Checkpoint.Description | plugins/framework-dev/scripts/checkpoint.js:30 | the arguments joined by single spaces, or "manual" when that is empty |
| Checkpoint.SanitizeStamp | plugins/framework-dev/scripts/checkpoint.js:29 | each ':' and '.' of the timestamp becomes '-', and every other character and the length are kept |
| Checkpoint.CollapseSpaces | plugins/framework-dev/scripts/checkpoint.js:33 | the result holds no whitespace and is never longer than the description |
| Checkpoint.CollapseRun | plugins/framework-dev/scripts/checkpoint.js:33 | a whole run of whitespace, however long, becomes a single '-' |
| Checkpoint.CollapseNonSpace | plugins/framework-dev/scripts/checkpoint.js:33 | every other character is kept in place, so with CollapseRun the result is fixed run by run |
| Checkpoint.CollapseKeepsPrefix | plugins/framework-dev/scripts/checkpoint.js:33 | text without whitespace in front of the rest of the description passes through unchanged |
| Checkpoint.SlashInNameIff | plugins/framework-dev/scripts/checkpoint.js:29-34 | the backup name holds a '/' exactly when the timestamp or the first 30 characters of the collapsed description do |
| Checkpoint.SlashDescriptionFails | plugins/framework-dev/scripts/checkpoint.js:30-35 | a description of two words whose second holds a '/', such as "before src/api", puts a '/' in the backup name, so the backup write fails |
| Checkpoint.Prefix | plugins/framework-dev/scripts/checkpoint.js:33 | `substring(0, 30)` keeps the first min(30, length) characters |
| Checkpoint.RunCheckpoint | plugins/framework-dev/scripts/checkpoint.js:16-52 | see the note under the table |
| Checkpoint.WithCheckpointChanges | plugins/framework-dev/scripts/checkpoint.js:38-46 | `checkpoints` gains exactly the new record at its end; the earlier records, and every field other than `updatedAt`, are kept |
| Checkpoint.TwoCheckpointsInOrder | plugins/framework-dev/scripts/checkpoint.js:38-45 | two checkpoints append two records, in call order, starting from an empty list when there was none |
| Checkpoint.CollapseKeepsOtherText | plugins/framework-dev/scripts/checkpoint.js:33 | a description without whitespace passes through unchanged |
| Checkpoint.BackupNameShape | plugins/framework-dev/scripts/checkpoint.js:33 | the name starts with "state-", ends with ".json" and holds at most 30 description characters |
| Checkpoint.BackupNameNoSpaces | plugins/framework-dev/scripts/checkpoint.js:29-33 | the name holds no whitespace when the timestamp holds none, whatever the description |
| Checkpoint.DistinctStampsDistinctNames | plugins/framework-dev/scripts/checkpoint.js:29-33 | stamps of equal length that differ after sanitising give different backup names |
| HookPayload.Target | plugins/framework-dev/scripts/check-api-contract.js:31 | the path is `file_path` if truthy, else `filePath` if truthy, else ""; a string stays text, an array (always truthy) stays an array with its own `includes`, and any other truthy value is marked as having no `includes`, so the call throws |
| HookPayload.TargetIsAField | plugins/framework-dev/scripts/update-state-timestamp.js:27 | a text target is one of the two fields or "", and a non-empty `file_path` wins |
| CheckApiContract.ContractReminder | plugins/framework-dev/scripts/check-api-contract.js:20-54 | always exit 0; the reminder is printed exactly when the directory exists, the payload parses, the path is a string containing "src/" or "routes/" or an array holding one of them as an element, and the contracts file exists; otherwise nothing is printed |
| CheckApiContract.ReminderForSourceFile | plugins/framework-dev/scripts/check-api-contract.js:34-49 | writing any path that starts with `src/`, such as `src/routes/users.ts`, prints the reminder when the contracts exist |
| CheckApiContract.ReminderForArrayPath | plugins/framework-dev/scripts/check-api-contract.js:31-49 | a `file_path` array with the element "src/" passes the guard through `Array.prototype.includes` and prints the reminder |
| CheckApiContract.NoReminderWithoutSlash | plugins/framework-dev/scripts/check-api-contract.js:34-36 | writing a path without '/', such as `README.md`, prints nothing, even when it comes from the `filePath` fallback |
| UpdateStateTimestamp.RefreshTimestamp | plugins/framework-dev/scripts/update-state-timestamp.js:16-46 | always exit 0; only `updatedAt` is replaced, and only for a parsed state and a string path that contains ".framework-blueprints/" and does not end in "00-project-state.json"; an array path never refreshes, since `endsWith` throws on it; otherwise nothing is written |
| UpdateStateTimestamp.RefreshOnlyTouchesUpdatedAt | plugins/framework-dev/scripts/update-state-timestamp.js:40-42 | a refresh changes no field but `updatedAt`, and a second refresh equals one refresh at the later time |
| UpdateStateTimestamp.StateFileNeverRefreshes | plugins/framework-dev/scripts/update-state-timestamp.js:35-37 | a write to the state document itself never triggers a refresh |
| StateSummary.PhaseName | plugins/framework-dev/scripts/state-summary.js:22-25 | the phase table names exactly phases 1 to 6 |
| StateSummary.LinesAt | plugins/framework-dev/scripts/state-summary.js:34-40 | a counting loop from i to n prints the line of j at position j - i, for every j it reaches |
| StateSummary.PhaseLinesAt | plugins/framework-dev/scripts/state-summary.js:34-40 | the phase loop prints phase i's line as its (i - 1)-th line, for each of the six phases, whatever `currentPhase` is |
| StateSummary.SummaryLines | plugins/framework-dev/scripts/state-summary.js:27-76 | the output is 11 lines (five header lines, six phase lines) plus exactly the lines of the optional sections |
| StateSummary.SummaryMiddle | plugins/framework-dev/scripts/state-summary.js:27-40 | the six lines after the five header lines are the phase lines, in order |
| StateSummary.SummaryPhaseLine | plugins/framework-dev/scripts/state-summary.js:27-40 | phase i's line is line 4 + i of the output |
| StateSummary.DecisionSectionShape | plugins/framework-dev/scripts/state-summary.js:43-48 | the decisions section appears only for a non-empty list: the full count, then the last min(5, n) decisions in order |
| StateSummary.IconIff | plugins/framework-dev/scripts/state-summary.js:35-38 | [x] exactly for status "completed" and [~] exactly for "in_progress"; any other status, a missing one included, gets neither |
| StateSummary.Summarize | plugins/framework-dev/scripts/state-summary.js:15-21 | with no state file, the only line is "No state file found." and the exit code is 0; a malformed document aborts with exit code 1; a parsed one prints the summary and exits 0 |
| StateBackup.PhaseName | plugins/framework-dev/scripts/state-backup.js:27-30 | this table names exactly phases 1 to 6 |
| StateBackup.ResumePhase | plugins/framework-dev/scripts/state-backup.js:26 | `currentPhase || '?'`: the phase is shown exactly when it is present and non-zero |
| StateBackup.ResumeMessage | plugins/framework-dev/scripts/state-backup.js:19-40 | no output exactly when there is no state file; one line for an unreadable state; four lines otherwise |
| StateBackup.PhaseTablesDifferOnlyAtFour | plugins/framework-dev/scripts/state-backup.js:27-30 | the two scripts' phase tables agree except on phase 4, "Assignment" against "Agent Assignment" |
| StateBackup.ResumePhaseLine | plugins/framework-dev/scripts/state-backup.js:26-31 | '?' comes with progress 0 and "Unknown"; a shown phase takes its own progress; a phase off the table is "Unknown" |

`Checkpoint.RunCheckpoint` states the following:

- With no state file, it writes nothing.
- Otherwise the backup directory exists afterwards, and it is made before the
  state is parsed.
- When the state does not parse, only the directory was made.
- When it parses, the backup, which holds the state as read, is written
  before the state. The state written holds the new record and the new
  `updatedAt`.
- The last record of the state written names a backup path, and under that
  path the backups hold the state as read. The last two writes are that
  backup and then the state.
- With no state file it prints "No state file found. Nothing to
  checkpoint." and exits 0. A state that does not parse exits 1 with no
  output. A checkpoint prints its three lines and exits 0.
- When the backup name holds a '/', the backup path names a subdirectory
  of `backups` that does not exist. `writeFileSync` then throws ENOENT,
  which nothing catches. The run exits 1 with no output. The backup
  directory may have been made, but no backup is written and the state is
  left as it was.

## Left out

- The stdin reading of both hooks and their 3000 ms fallback timers are event-loop behaviour. The parsed payload is an input. A payload whose top level is `null` counts as one that does not parse, since both fail the same way inside the `try`.
- Filesystem calls are not modelled as such:
  - existence checks are booleans or a predicate on paths;
  - reads are the stored document or text;
  - writes are methods on `Workspace`;
  - `mkdirSync` with `recursive` is a flag.
- The recursive directory walk of the link pass is the list of files it visits, in order.
- `path.relative` in the warning lines is left out; a warning carries the file's path as given.
- `JSON.parse` and `JSON.stringify` are not modelled:
  - the state is a datatype whose absent keys are `Option`s;
  - a value that is `null` or of the wrong type, such as a string `currentPhase`, a fractional progress or a non-string `id`, is not modelled;
  - keys no script reads are kept as opaque text;
  - a backup that is "byte-identical" is stated as equality of values.
- Phase keys are assumed to be canonical decimal renderings of the phase number, so that `String(i)` finds them.
- `new Date().toISOString()` is given as parameters: three separate readings in `checkpoint.js` and one in `update-state-timestamp.js`.
- `validate.js` console output is not modelled apart from two lists:
  - the duplicate paths of the contract warning;
  - the broken links.

  The lines `state-summary.js`, `state-backup.js` and `checkpoint.js` print on standard output are modelled, with their exit codes.
- An uncaught exception is modelled as exit code 1, Node's default; its stack trace is left out.
- Checkpoint.RunCheckpoint: every backup name holding a '/' is modelled as the ENOENT failure. The model does not capture how `path.join` resolves a ".." segment. For example, the description "x/../y" gives a path that resolves to `backups/y.json`, so the write lands in an existing directory and succeeds. Subdirectories of `backups`, which no script creates, are not modelled either.
- Checkpoint.Prefix: `substring` counts UTF-16 code units, while the model counts characters; the two differ only for characters outside the Basic Multilingual Plane.
- Checkpoint.DistinctStampsDistinctNames: two checkpoints taken within the same millisecond with the same description, after whitespace collapsing and the cut to 30 characters, get the same backup name, and the second backup replaces the first (`WriteBackup` models the replacement). The code therefore guarantees distinct backups only for distinct timestamps.
- Concurrency between the scripts (last write wins) is left out; each operation is modelled as running alone.
- The two regular expressions are modelled by dedicated matchers rather than a general regular-expression engine.
- Text.IntToString renders integers only; non-integer numbers are outside the model.
- Text.NatToString renders every integer in plain decimal, while `String(n)` switches to exponent form from 1e21 on; progress values that large are not modelled.

Three behaviours of the scripts worth stating plainly:

- An absent phase entry below the current phase adds no issue, since `phase && ...` fails on it.
- The contract pass counts at most one issue, however many paths repeat. The distinct duplicated paths appear only in the warning line.
- A state document that does not parse ends `validate.js` and `state-summary.js` with an uncaught exception; in `validate.js` no later pass then runs.
