# prereview core in Dafny

prereview is a git pre-commit reviewer. It lists the staged changes, drops
ignored and oversized files, and asks an AI assistant to review each file
with a prompt that carries the project's coding standards and hints. It then
parses the assistant's line-oriented reply into suggestions and walks the
user through them: fix (patch the file and stage it), skip, view the diff or
quit. Finally it asks whether to commit, abort or review again.

This project is a functional model of that core, with proofs about it:

| module | file | what it models |
|---|---|---|
| `Results` | results.dfy | `Option` and `Result`, the shapes of Go's `(value, err)` returns |
| `Text` | text.dfy | the ASCII parts of Go's `strings` and `strconv` the core uses |
| `Paths` | paths.dfy | `filepath.Base`, `Ext`, `Clean` and `Join` on slash paths |
| `Glob` | glob.dfy | `filepath.Match`: the pattern syntax (`*`, `?`, classes, escapes), the language a pattern denotes, and Go's chunk-by-chunk search, which commits to the first place a chunk matches; a malformed pattern matches nothing |
| `Protocol` | protocol.dfy | `parseReviewResponse` as a fold of a `Step` function over the reply's lines |
| `ProtocolProperties` | protocol_properties.dfy | what the parser promises |
| `ProtocolRender` | protocol_render.dfy | a printer for the reply format, with parse ∘ render = identity |
| `Prompt` | prompt.dfy | `buildReviewPrompt` and the tolerance default |
| `Orchestrator` | orchestrator.dfy | `NewReviewer`, `Review` and `reviewFile`, with the assistant as a `Chat` oracle |
| `Patch` | patch.dfy | the pure core of `applyFix` over an in-memory file map |
| `Session` | session.dfy | `ReviewSession.Run` as a transition function over the lines typed; `viewDiff` truncation; `remaining` |
| `ReviewCommand` | review_command.dfy | the change filter of `runReview`, `shouldIgnoreFile` and the outcome policy |
| `Git` | git.dfy | the `--name-status` listing parser, the binary-file rule and the `StageFile` guard |
| `Standards` | standards.dfy | `DetectStandards`, the WordPress rule, `GetStandardsContext` and `ReadConfigContent` |
| `ModelNames` | model_names.dfy | `mapModelName` |

Effects are parameters:

- The assistant is `Chat = (model, prompt) -> Result<reply, error>`.
- git is `Git.GitOracle`: numstat, diff and show results by path.
- The detector's file system is `Standards.Fs`: existence, reads and glob results.
- `applyFix` works on `Patch.Files`, a map from path to content and mode. `Patch.FixEnv` supplies the stat, write and `git add` outcomes of one fix attempt. The session takes `Session.FixEnvs`, one such environment per attempt, numbered in the order the attempts happen, because each attempt runs stat, write and `git add` afresh. A write can fail before the file is opened, or after truncating it and writing some prefix of the new content.
- Standard input is a sequence of `Session.Read` values. Once it is used up, every read fails with no data, as `ReadString` does at end of input.
- Go's map iteration order in `DetectStandards` is unspecified. It is therefore a parameter: any sequence of table offsets. The properties about it hold for every order.

Go strings are byte strings. Here a `string` character stands for one byte.

## Model

| member | source | states |
|---|---|---|
| Protocol.ParseStringValue | internal/review/review.go:385-390 | a line no longer than the prefix gives ""; otherwise the rest after the prefix, whitespace-trimmed, and the result is always trimmed |
| Protocol.Flush | internal/review/review.go:306-309 | the open record is emitted exactly when it exists and has a non-empty title |
| Protocol.Step | internal/review/review.go:284-363 | one line of the parser never breaks the state invariant (an open block implies an open record) |
| ProtocolProperties.RunAppend | internal/review/review.go:284-363 | the parser is a fold: parsing a + b is parsing b from the state after a |
| ProtocolProperties.RunSound | internal/review/review.go:306-317 | every record emitted at any point has a non-empty title and the file argument as its file |
| ProtocolProperties.ParsedSuggestionsTitledAndAnchored | internal/review/review.go:259-270 | every suggestion returned has a non-empty title and carries the file it was asked about |
| ProtocolProperties.NoRecordNoChange | internal/review/review.go:313-317 | lines before the first "---" leave the parser in its initial state |
| ProtocolProperties.PreambleIgnored | internal/review/review.go:313-317 | a preamble without "---" does not change the parse of what follows |
| ProtocolProperties.PreambleTextIgnored | internal/review/review.go:274-284 | the same for the reply text: a preamble without a "---" line and a newline before the rest change nothing |
| ProtocolProperties.NoSeparatorNoSuggestions | internal/review/review.go:274-370 | a reply with no "---" line yields no suggestions |
| ProtocolProperties.SentinelRepliesAreEmpty | internal/review/review.go:259-270 | "NO_ISSUES" and "" yield no suggestions, whether or not the sentinel test runs first |
| ProtocolProperties.BlockKeepsLinesVerbatim | internal/review/review.go:296-303 | inside a "<<<" block every line other than ">>>" is kept verbatim, "---" and field lines included |
| ProtocolProperties.BlockAssignsLastField | internal/review/review.go:286-297 | "<<<", lines, ">>>" stores the lines joined with "\n" in the field last named by ORIGINAL:/FIX: since the last "---" |
| ProtocolProperties.BlockWithoutFieldDiscarded | internal/review/review.go:288-292 | a block opened when no ORIGINAL:/FIX: has been seen since "---" changes nothing |
| ProtocolProperties.UnclosedBlockDropsContent | internal/review/review.go:365-368 | a block still open at the end loses its lines; the record is still emitted if titled |
| ProtocolProperties.SeparatorFlushes | internal/review/review.go:306-311 | "---" emits the open record only if titled, opens a blank record for the file and forgets the last field |
| ProtocolProperties.TagOfTagged | internal/review/review.go:328-362 | a field prefix, a space and any value select that field and no other |
| ProtocolProperties.ValueAfterTag | internal/review/review.go:385-390 | a field line gives back exactly its trimmed value |
| ProtocolProperties.OriginalLine | internal/review/review.go:342-351 | "ORIGINAL: v" sets the original code to v, to "" for "N/A", keeps it for an empty v, and always records ORIGINAL as last field |
| ProtocolProperties.FixLine | internal/review/review.go:352-361 | the same for "FIX: v" and the fix |
| ProtocolProperties.LineValue | internal/review/review.go:328-329 | LINE: sets the line to the parsed integer, 0 when it does not parse, and leaves END_LINE alone |
| ProtocolProperties.EndLineValue | internal/review/review.go:330-331 | END_LINE: sets the end line to the parsed integer or 0 |
| ProtocolProperties.BareTitleClears | internal/review/review.go:338-339 | a bare "TITLE:" clears the title, so the record is dropped unless a later TITLE: sets it again |
| ProtocolRender.RecordsRoundTrip | internal/review/review.go:284-368 | after an open titled record, the rendered records parse back to exactly those records, in order |
| ProtocolRender.ParseRenderRoundTrip | internal/review/review.go:259-370 | any list of renderable suggestions for a file survives render-then-parse unchanged |
| Prompt.DefaultTolerance | internal/review/review.go:79-82 | an empty tolerance is replaced (by "moderate"), any other is kept |
| Prompt.ToleranceSelects | internal/review/review.go:150-172 | the strict text is chosen iff the tolerance is "strict", the relaxed text iff "relaxed", the moderate text for everything else |
| Prompt.UnsetToleranceIsModerate | internal/review/review.go:79-82 | an unset tolerance yields the moderate guidance |
| Prompt.HintsBlock | internal/review/review.go:236-242 | the hints block is empty exactly when there are no hints |
| Prompt.PromptSections | internal/review/review.go:231-255 | the prompt is head, standards, hints block, file section, in that order |
| Prompt.PromptEndsWithContent | internal/review/review.go:244-253 | the prompt ends with "Full staged content:\n" followed by the content |
| Prompt.PromptNamesFile | internal/review/review.go:247 | the prompt contains "File: " + path |
| Prompt.StandardsFollowHead | internal/review/review.go:231-234 | the standards text sits right after the fixed head |
| Prompt.HintPlacement | internal/review/review.go:237-241 | hint k appears as "- hint\n" after the heading and the lines for hints 0..k-1 |
| Prompt.HintsHeadingWithHints | internal/review/review.go:237-238 | with hints, the PROJECT-SPECIFIC CONTEXT heading follows the standards |
| Prompt.NoHintsNoHeading | internal/review/review.go:236 | without hints there is no hints section at all |
| Orchestrator.NewReviewer | internal/review/review.go:63-91 | a client error is returned as is; otherwise model and hints are kept, "" tolerance becomes "moderate", and the standards text is empty iff there is no repository root or nothing is detected |
| Orchestrator.ReviewFile | internal/review/review.go:135-144 | fails exactly when the chat call fails; otherwise every suggestion is titled and about this file |
| Orchestrator.FileSuggestions | internal/review/review.go:106-127 | binary files and failed chat calls contribute nothing |
| Orchestrator.ReplyParsed | internal/review/review.go:117-127 | a successful reply is parsed for the change's path, and for a text file those suggestions are what the file contributes |
| Orchestrator.RenderedReplyReturned | internal/review/review.go:106-144 | when the assistant replies with the rendering of some renderable suggestions, exactly those suggestions are returned for the file |
| Orchestrator.ReviewReturnsRendered | internal/review/review.go:101-132 | reviewing that one file returns its path and exactly those suggestions |
| Orchestrator.Review | internal/review/review.go:101-132 | never fails, and lists every input path in order, binaries included |
| Orchestrator.ReviewAnchored | internal/review/review.go:101-132 | every suggestion names a file in the result's file list and has a title |
| Orchestrator.ReviewAppend | internal/review/review.go:106-128 | reviewing a + b is reviewing a, then b: files and suggestions concatenate |
| Orchestrator.OnlySentPromptsMatter | internal/review/review.go:108-117 | the result depends on the assistant only through the prompts actually sent |
| Orchestrator.BinaryNotSent | internal/review/review.go:108-110 | no prompt is sent for a binary file |
| Orchestrator.FailingChatNoSuggestions | internal/review/review.go:117-122 | if every chat call fails, the review still succeeds with all files and no suggestions |
| Patch.PatchContent | internal/ui/session.go:214-241 | no patch when either code is missing ("" or "N/A") or absent; otherwise no patch iff original == fix; a patch replaces exactly the first occurrence |
| Patch.PatchedContainsFix | internal/ui/session.go:236 | a successful patch leaves the fix in the content |
| Patch.PatchKeepsSurroundings | internal/ui/session.go:236 | text before and after the replaced occurrence is unchanged |
| Patch.ChosenPerm | internal/ui/session.go:244-248 | the requested permission is the stat result's permission bits, or 0644 when stat fails |
| Patch.ApplyFix | internal/ui/session.go:213-261 | applied iff the file exists, the patch applies and the write succeeds; then the file holds the patched text with its mode kept; a staging failure only adds a warning; a write that fails after opening leaves the prefix it wrote; with no patch or a failed open nothing changes |
| Patch.FailedWriteCanEmpty | internal/ui/session.go:249-251 | a write that fails before writing anything reports failure and leaves the file empty |
| Patch.UnappliedFixLeavesPrefix | internal/ui/session.go:213-251 | an unapplied fix leaves the files as they were or the file holding a prefix of the patched text |
| Patch.FixTouchesOnlyItsFile | internal/ui/session.go:249 | no other file is created, removed or changed |
| Patch.StagingDoesNotDecide | internal/ui/session.go:253-260 | whether `git add` succeeds affects neither success nor the files |
| Session.FinalAction | internal/ui/session.go:124-146 | "y"/"yes" commits and "r"/"re-review" re-reviews, after lower-casing and trimming; anything else aborts |
| Session.Step | internal/ui/session.go:59-117 | one pass keeps fixed + skipped <= current <= total, raises at most one counter, never lowers any, always moves on, and a quit changes nothing |
| Session.Loop | internal/ui/session.go:59-117 | the loop keeps the counters in bounds and, unless quit, ends past the last suggestion |
| Session.Run | internal/ui/session.go:50-147 | no suggestions: Commit with zero counts and no input read; otherwise the outcome carries the loop's fixed and skipped counts and files; a quit aborts and leaves the input after it, and otherwise the answer read after the loop decides the action; fixed + skipped <= total |
| Session.RunAfterLoop | internal/ui/session.go:119-146 | when the loop ends past the last suggestion, the next answer decides the action and the outcome carries the loop's counts and files |
| Session.QuitFirst | internal/ui/session.go:105-110 | quitting at the first suggestion aborts with nothing counted and the rest of the input unread |
| Session.NoInputAborts | internal/ui/session.go:68-73 | with no input, every read fails, every suggestion is passed, and the final empty answer aborts |
| Session.LoopAtEnd | internal/ui/session.go:59-73 | once the input is used up, the loop passes all remaining suggestions without counting them |
| Session.SkipAllThenAnswer | internal/ui/session.go:95-99 | skipping every suggestion and then answering: the answer decides the action and every suggestion counts as skipped |
| Session.LoopSkipsAll | internal/ui/session.go:95-99 | a skip answer for each remaining suggestion adds each to the skipped count and ends the loop |
| Session.RemainingNonNegative | internal/ui/session.go:310-311 | the summary's remaining count is never negative |
| Session.ReadErrorLeavesRemaining | internal/ui/session.go:68-73 | a read error passes a suggestion without counting it, so remaining can be positive at commit |
| Session.ReadErrorPasses | internal/ui/session.go:68-73 | at any state, a failed read moves to the next suggestion, counts nothing and keeps the files, and the loop goes on from there |
| Session.IdleAnswerChangesNothing | internal/ui/session.go:101-114 | "v"/"view" and unrecognised answers leave the whole state as it was |
| Session.SkipAnswer | internal/ui/session.go:95-99 | "s"/"skip" adds one skipped and moves on |
| Session.FailedFixAsks | internal/ui/session.go:78-92 | a fix that does not apply asks for confirmation, with the files as the failed write left them |
| Session.FailedFixConfirm | internal/ui/session.go:82-92 | after a failed fix, only a confirmation that normalises to exactly "y" skips and moves on; otherwise the same suggestion comes back; either way the files are as the failed write left them |
| Session.AppliedFix | internal/ui/session.go:78-81 | a successful fix adds one fixed, moves on and keeps the patched files |
| Session.RetryAfterFailedOpen | internal/ui/session.go:78-92 | a fix whose write could not open the file, refused at the confirmation and asked for again, is applied and counted when the next attempt's write succeeds: each attempt meets its own stat, write and `git add` outcome |
| Session.AppliedRetry | internal/ui/session.go:78-81 | the retried fix, made with the next attempt's environment, adds one fixed and moves on with the files it wrote |
| Session.QuitAnswer | internal/ui/session.go:105-110 | "q"/"quit" ends the loop with the counts so far |
| Session.ViewDiff | internal/ui/session.go:264-300 | a git error and empty output are reported as such; otherwise at most 50 leading lines are shown and the rest counted as omitted |
| Session.ViewDiffLosesNothing | internal/ui/session.go:290-299 | the shown lines followed by the omitted ones rebuild the diff |
| ReviewCommand.EffectiveMaxFileSize | cmd/review.go:17-18 | a configured size of 0 means 100000 |
| ReviewCommand.ShouldIgnoreFile | cmd/review.go:145-209 | a file is ignored iff some pattern ignores it |
| ReviewCommand.FilterChanges | cmd/review.go:56-78 | the kept changes are an order-preserving subsequence, a change is kept iff it is not ignored and its content fits the limit, and each kept change occurs as often as in the input |
| ReviewCommand.FilterAppend | cmd/review.go:61-78 | the filter decides each change on its own: filtering a concatenation filters each part and joins the results |
| ReviewCommand.FilterSingle | cmd/review.go:62-76 | a single change is kept, once, exactly when it is not ignored and fits the limit, and dropped otherwise |
| ReviewCommand.FilterIdempotent | cmd/review.go:61-78 | filtering twice gives what filtering once gives |
| ReviewCommand.SizeBoundary | cmd/review.go:70 | content of exactly the limit is kept; one byte more is dropped |
| ReviewCommand.DirPatternIgnores | cmd/review.go:174-181 | "dir/*" ignores any path starting with "dir/" or containing "/dir/" |
| ReviewCommand.DoubleStarDirIgnores | cmd/review.go:184-194 | "**/dir/*" ignores the same paths |
| ReviewCommand.DoubleStarFileIgnores | cmd/review.go:195-204 | "**/pat" without "/*" ignores files whose base name matches pat |
| ReviewCommand.MalformedPatternInert | cmd/review.go:155-170 | a malformed pattern is a non-match and changes no verdict |
| ReviewCommand.MorePatternsIgnoreMore | cmd/review.go:151-207 | adding patterns never un-ignores a file |
| ReviewCommand.HandleOutcome | cmd/review.go:128-141 | exit with failure iff abort, or commit in strict mode with skips; run again iff re-review |
| ReviewCommand.StrictFinishMeansNothingSkipped | cmd/review.go:128-134 | in strict mode a normal finish means commit with nothing skipped, and an empty review always finishes |
| Glob.Match | cmd/review.go:154-165 | a malformed pattern matches nothing, and every name it matches lies in the pattern's language |
| Glob.CommitRound | cmd/review.go:154-165 | one round of Go's search: a name it accepts is in the language, and a round it passes on is sound for the items left |
| Glob.CommitMatch | cmd/review.go:154-165 | the whole committing search accepts only names in the language |
| Glob.CommitMissesMatch | cmd/review.go:154-165 | the committing search is not complete: "*b[^z]*c" denotes a language containing "bb/c", yet Match rejects "bb/c" |
| Glob.PlainMatchesItself | cmd/review.go:155 | a pattern without metacharacters matches exactly itself, and the search agrees with the language there |
| Glob.StarMatchesElement | cmd/review.go:164 | "*" matches exactly the names without '/', as its language says |
| Glob.MalformedPatterns | cmd/review.go:155-158 | "[", "\\" and "[]" are malformed and match nothing |
| Git.IsBinaryFile | internal/git/git.go:137-161 | a listed extension, after lower-casing, makes a file binary; otherwise it is binary iff numstat succeeds with output starting "-\t-\t" |
| Git.ExtensionDecidesAlone | internal/git/git.go:145-150 | with a listed extension git is not consulted |
| Git.UpperCaseExtensionIsBinary | internal/git/git.go:145 | "assets/LOGO.PNG" is binary whatever git says |
| Git.ExtBeforeLower | internal/git/git.go:145 | taking the extension of the lower-cased path gives the lower-cased extension |
| Git.CaseBlindExtension | internal/git/git.go:145-150 | two paths equal after lower-casing are both binary by extension or both not |
| Git.ParseLine | internal/git/git.go:65-92 | lines with fewer than two fields give nothing; a result is never a deletion and has a path |
| Git.ParseLineFields | internal/git/git.go:70-92 | for fields status, middle fields and a last field: a "D" is dropped; another non-rename keeps its status and takes the last field as path; a rename with three or more fields takes the second and third fields as old and new path, otherwise the last field |
| Git.SpacedNameLosesFirstWord | internal/git/git.go:70-79 | in a line like "M\tmy file.go" only the last word becomes the path |
| Git.Enrich | internal/git/git.go:94-108 | binary changes keep empty diff and content; others take them from git when git succeeds |
| Git.ChangesOfAppend | internal/git/git.go:65-111 | the listing is processed line by line, in order |
| Git.GetStagedChanges | internal/git/git.go:50-114 | fails iff the listing command fails; empty output gives no changes |
| Git.ListingRoundTrip | internal/git/git.go:63-111 | a listing written from entries parses back to those entries' changes, in order |
| Git.DeletionDropped | internal/git/git.go:89-92 | a "D" entry is never returned |
| Git.ShortRenameKeepsLastField | internal/git/git.go:76-87 | an R status with only two fields becomes "R" and keeps the last field as path, with no old path |
| Git.StageFile | internal/git/git.go:164-173 | the empty path is rejected before git is run; otherwise success is git's |
| Standards.DetectStandards | internal/standards/detector.go:106-162 | the existing custom standards come first, in configured order |
| Standards.DetectedNamesFresh | internal/standards/detector.go:125-159 | after the custom ones, no entry repeats the name of any earlier entry, for every map order |
| Standards.DetectedNamesComplete | internal/standards/detector.go:125-138 | every known config file that exists, at any place of the iteration order, has its standard's name among the results |
| Standards.FrameworkCandidateIn | internal/standards/detector.go:140-157 | a framework whose indicator exists contributes its standard, unless it is WordPress and the WordPress rule fails |
| Standards.DetectedFrameworksComplete | internal/standards/detector.go:140-159 | every framework whose indicator exists has its name among the results (WordPress when the rule holds) |
| Standards.KnownFilesDetected | internal/standards/detector.go:125-138 | under a map order that visits every entry once, every existing known config file of the table is detected by name |
| Standards.FrameworksDetected | internal/standards/detector.go:140-159 | the same for every existing framework indicator |
| Standards.WordPressOnlyWhenDetected | internal/standards/detector.go:148-153 | a WordPress entry appears only when the WordPress rule holds |
| Standards.IsWordPressProject | internal/standards/detector.go:165-216 | two or more indicators: yes; exactly one: no; none: iff a theme or plugin header is found |
| Standards.HeaderIgnoresTail | internal/standards/detector.go:187-190 | only the first 8192 bytes of a file are searched for a header |
| Standards.PluginSearchBounded | internal/standards/detector.go:198-202 | files after the first 50 are never searched for a plugin header |
| Standards.GetStandardsContext | internal/standards/detector.go:219-244 | the context is empty iff nothing is detected |
| Standards.ContextLines | internal/standards/detector.go:226-241 | the context's lines are two blanks, the heading, one line per standard, a blank, the footer, and a final empty line |
| Standards.LineWithoutConfig | internal/standards/detector.go:229-237 | a standard without config file is written "- Name: Description", without parentheses |
| Standards.EffectiveMaxBytes | internal/standards/detector.go:248-250 | a limit of 0 means 2048 |
| Standards.Truncate | internal/standards/detector.go:262-270 | content within the limit is unchanged; otherwise the longest prefix of at most the limit not ending in a continuation byte, followed by the truncation marker |
| Standards.TruncatedUnique | internal/standards/detector.go:263-269 | that characterisation pins the truncated text down uniquely |
| Standards.TruncateSplitsCharacter | internal/standards/detector.go:264-269 | the written cut of 0xC3 0xA9 0xC3 0xA9 at 2 keeps the lone lead byte 0xC3, splitting a character; the corrected cut keeps 0xC3 0xA9 |
| Standards.TruncateAtBoundary | internal/standards/detector.go:262-270 | the corrected cut: content within the limit is unchanged; otherwise the longest prefix of at most the limit ending on a character boundary, followed by the marker |
| Standards.TruncatedAtBoundaryUnique | internal/standards/detector.go:263-269 | that characterisation pins the corrected truncation down uniquely |
| Standards.ReadConfigContent | internal/standards/detector.go:247-273 | refused when the joined path does not start with the root; a failed read fails; a permitted, readable file gives its content, truncated |
| Standards.ReadConfigContentContained | internal/standards/detector.go:247-273 | the corrected reader: a config path that climbs out after cleaning is refused; otherwise a failed read fails, and a readable file gives its content, long content cut on a character boundary |
| Standards.ContainedReadStaysWithin | internal/standards/detector.go:252-256 | every read the corrected guard allows lies inside the cleaned root |
| Standards.PrefixGuardAdmitsSibling | internal/standards/detector.go:254 | the written guard lets "../app-secrets/key" under "/srv/app" read "/srv/app-secrets/key", outside the root |
| Standards.ContainedRefusesSibling | internal/standards/detector.go:252-256 | the corrected guard refuses that path |
| ModelNames.MapModelName | internal/copilot/client.go:114-161 | the result is always one of the identifiers the switch returns |
| ModelNames.SeventeenIdentifiers | internal/copilot/client.go:116-159 | the switch returns 17 identifiers: nine OpenAI, then four Claude, three Gemini and one Grok, in source order |
| ModelNames.CaseInsensitive | internal/copilot/client.go:115 | mapping a name and its lower-case form agree |
| ModelNames.UnlistedFallsBack | internal/copilot/client.go:158-159 | a name no case lists maps to "gpt-4o-mini" |
| ModelNames.EmptyFallsBack | internal/copilot/client.go:158-159 | the empty name maps to "gpt-4o-mini" |
| ModelNames.AliasesCollapse | internal/copilot/client.go:117-118 | "gpt-4", "gpt4" and "gpt-4o" give "gpt-4o"; "claude", "claude-sonnet" and "claude-sonnet-4" give "claude-sonnet-4" |
| ModelNames.NotIdempotent | internal/copilot/client.go:155-159 | "grok" maps to "grok-code-fast-1", which maps to the fallback |

## Left out

- The assistant SDK session (`NewClient`, `Chat`, `Close` in internal/copilot/client.go). It is I/O with a mutex and a channel handshake, and is replaced by the `Chat` oracle.
- All process and file effects are oracle parameters: git commands, `os.ReadFile`, `os.WriteFile`, `os.Stat` and `git add`.
- Printing, progress messages, colours and the terminal styling of internal/ui/styles.go. `printSuggestion` and the text of `printSummary` are also left out; only its remaining count is modelled.
- `os.Exit` and the recursive re-run after "re-review" in `runReview`. Only the decision is modelled (`ReviewCommand.HandleOutcome`).
- The markdown report (`output.NewMarkdownGenerator`) is not part of this model.
- The commands of cmd/doctor.go, cmd/install.go, cmd/uninstall.go, cmd/config.go and cmd/root.go: environment probing, hook files and configuration plumbing.
- cmd/review.go:91 calls `NewReviewer` with three arguments, while internal/review/review.go:63 declares five. The model follows the five-parameter declaration.
- The comment at internal/review/review.go:69-70 says an empty model lets the service pick a default. The code passes the model on, and `mapModelName` turns "" into "gpt-4o-mini" (`ModelNames.EmptyFallsBack`). The model follows the code.
- `filepath.ToSlash` is the identity on Unix. Paths and patterns are taken as already slash-separated.
- `strings.ToLower` and `strings.TrimSpace` are modelled for ASCII only. Unicode case mapping and Unicode spaces are left out.
- Glob.Match: a `string` character stands for one byte, while Go's `filepath.Match` matches `?`, `*` and classes against whole runes. Multi-byte characters in names and patterns are not modelled.
- Go's `strconv.Atoi` is modelled as an optional sign followed by digits, within the 64-bit range.
- Standards.ReadConfigContent: requires a non-negative `maxBytes`. A negative one makes Go's `content[:maxBytes]` panic, and the model does not represent panics.
- Standards.DetectStandards: its own contract states only that the custom standards come first. Name freshness, completeness and the WordPress condition are stated by the lemmas `DetectedNamesFresh`, `DetectedNamesComplete` and `WordPressOnlyWhenDetected`.
- The tables `KnownStandards` and `FrameworkIndicators` (internal/standards/detector.go:24-95) are data. Only the facts the proofs need are stated about them.

## Findings

| source | as written | input that shows it | evidently intended | confidence | as-written member | corrected member |
|---|---|---|---|---|---|---|
| internal/standards/detector.go:264-269 | the cut drops trailing continuation bytes (0x80-0xBF) from the first maxBytes bytes but keeps the lead byte they belong to | content 0xC3 0xA9 0xC3 0xA9 (two e-acutes in UTF-8) with a limit of 2: the cut drops 0xA9 and keeps 0xC3 alone, half a character, although the first two bytes form a whole character | the kept text ends on a character boundary, so the UTF-8 encoding is not broken, as the comment on line 265 says | not executed | Standards.TruncateSplitsCharacter | Standards.TruncateAtBoundary |
| internal/standards/detector.go:252-256 | the traversal guard tests `strings.HasPrefix(path, repoRoot)` on the joined, cleaned path | repoRoot "/srv/app" and configFile "../app-secrets/key": the path joins to "/srv/app-secrets/key", which starts with "/srv/app", so the file outside the root is read | only files inside the repository root are read, as the comment on line 253 says | not executed | Standards.PrefixGuardAdmitsSibling | Standards.ContainedReadStaysWithin |

For the guard, the as-written reader is `Standards.ReadConfigContent`. The corrected reader, `Standards.ReadConfigContentContained`, refuses any config path that climbs out of the root after cleaning. `Standards.ContainedReadStaysWithin` proves that every read it allows lies inside the cleaned root. `Standards.ContainedRefusesSibling` shows that it refuses the input above.

The as-written cut is `Standards.Truncate`, which `Standards.ReadConfigContent` uses. `Standards.TruncateAtBoundary` backs off to the last character boundary at or before the limit instead. The corrected reader uses that cut.
