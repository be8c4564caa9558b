# Transcript normalisation and progressive-disclosure search, in Dafny

This project models the decision logic of the `nowledge-mem` skill scripts:

- **Session locator** (`session.py`) finds the newest transcript of a project. It looks in two stores:
  - the Claude store, a directory named by encoding the project path;
  - the Codex store, a tree of `.jsonl` files whose first line records the working directory.

  In `auto` mode it picks the newer of the two.
- **Transcript parser** (`session.py`) reads a JSONL transcript line by line. It:
  - recognises the two line schemas;
  - extracts text from nested content blocks;
  - drops short messages;
  - strips control characters and truncates long text;
  - caps the number of messages kept.
- **Turn filters** (`session.py`) drop cancelled user turns and the final, possibly in-flight, turn.
- **Thread request builder** (`session.py`) assembles the archival payload: title, participants and metadata.
- **Progressive-disclosure search** (`search.py`) has two phases:
  - a memory search;
  - thread discovery, first by the memories' `source_thread_id`s and, when that resolves nothing, by a thread search on the query.
- **Configuration normalisation** (`config.py`) handles the constants and the `__post_init__` repairs.

Everything is pure functions over immutable datatypes. Two collaborators are parameters:
- the filesystem is a `Stores` value, holding directory listings, mtimes, first lines and path resolution;
- the remote service is a `Collaborator` value, holding three functions that return a response or the error raised.

A decoded JSON value is the `Json` datatype. Python's `None` is `JNull`, `dict.get(k, d)` is `GetOr`, and truthiness is `Truthy`. Every exception the source does not catch becomes an `Err` of `Result`.

Modules, leaves first:
- `Results`
- `JsonData`
- `Sequences`, which holds the subsequence relation used to state what filters keep
- `Configuration`
- `Content`, which handles block text and control-character stripping
- `Transcript`
- `TurnFilter`
- `SessionParser`
- `SessionLocator`
- `ThreadPayload`
- `Search`

Some of the code's behaviour is easy to misread. The model follows the code as written:
- **Cap-suppressed lines are not parsed.** Once the buffer holds twice the cap, later lines are only counted. So a line that would raise is never looked at (`session.py:190-191`).
- **The minimum-length check is on the raw text**, before control characters are stripped. A stored message can therefore be shorter than the minimum; `SessionParser.CleanedMessageMayBeShorterThanMinimum` shows one (`session.py:206-214`).
- **A non-object line raises.** A line that decodes to valid JSON but not to an object (a number, a list) is not skipped: `.get` raises and the parse fails. Only blank and undecodable lines are skipped. The same holds for a Format B `payload` that is not an object (`session.py:258`, `session.py:278-279`).
- **The last-turn cut ignores answers.** When it runs, it removes everything from the last user message on, even when that message was already answered. A complete final exchange is therefore dropped (`session.py:243-251`); `TurnFilter.DropLastTurnDropsAnsweredExchange` pins this down. It runs only on two or more messages, counted after the incomplete-turn pass: user, user becomes a single user message, which is kept (`SessionParser.LoneFinalUserSurvives`).
- **`session_source` is not lower-cased by the configuration.** Only the locator lower-cases its preference (`config.py:54-55`, `session.py:127`).
- **Search response elements must be objects.** A response element that is not an object makes the search raise, in phase 1 and in strategy 2. Only strategy-1 fetches swallow errors (`search.py:77-96`, `search.py:108-121`).

## Model

| member | source | states |
|---|---|---|
| Configuration.Normalize | skills/nowledge-mem/scripts/config.py:47-61 | the result is a normalised configuration; each of the four repaired fields keeps a valid value and falls back to its default (0, "auto", 30.0, 5.0) exactly when invalid; the other fields are untouched |
| Configuration.NormalizeFixpoint | skills/nowledge-mem/scripts/config.py:47-61 | normalising leaves a configuration unchanged iff it is already valid, and normalising twice equals normalising once |
| Configuration.NormalizeFieldwise | skills/nowledge-mem/scripts/config.py:51-61 | each field is repaired on its own: configurations that agree on a field agree on it after normalisation, whatever their other fields |
| JsonData.GetOr | skills/nowledge-mem/scripts/session.py:258 | `dict.get`: the stored value when the key is present, the default otherwise |
| Content.BlockLoopsAgree | skills/nowledge-mem/scripts/session.py:313-338 | the two block loops (bare list and `content` list) take the same text from every block; a block fails only when its `type` is an unhashable list or dict, otherwise it contributes its string `text` when its type is a text type |
| Content.JoinBlocks | skills/nowledge-mem/scripts/session.py:313-338 | joining blocks fails iff some block carries an unhashable `type` |
| Content.JoinBlocksIsConcat | skills/nowledge-mem/scripts/session.py:313-338 | a successful join is the concatenation of the blocks' texts, in order |
| Content.JoinBlocksLoopsAgree | skills/nowledge-mem/scripts/session.py:313-338 | the bare-list loop and the dict-`content` loop give the same result on every block list |
| Content.ConcatAppend | skills/nowledge-mem/scripts/session.py:320 | joined text distributes over concatenation of block lists |
| Content.ExtractListAppend | skills/nowledge-mem/scripts/session.py:313-320 | extracting a block list split in two fails iff either part fails, and otherwise joins the two parts' texts |
| Content.ExtractContent | skills/nowledge-mem/scripts/session.py:297-340 | `None`, numbers and booleans give ""; a string is returned as is; a list gives the joined text of its blocks and fails iff some block has an unhashable `type`; a dict gives its string `content`, or the joined text of its `content` list (failing likewise), or "" |
| Content.StripControl | skills/nowledge-mem/scripts/session.py:210-214 | the result has no character of the stripped class (0-8, 11, 12, 14-31, 127), is a subsequence of the input, and is exactly as much shorter as the input has such characters |
| Content.StripControlIdentity | skills/nowledge-mem/scripts/session.py:210-214 | stripping leaves a string unchanged iff it has no stripped character |
| Content.StripOnlyControls | skills/nowledge-mem/scripts/session.py:210-214 | a string made only of stripped characters becomes empty |
| Content.StripControlAppend | skills/nowledge-mem/scripts/session.py:210-214 | stripping distributes over concatenation |
| Content.Truncate | skills/nowledge-mem/scripts/session.py:213 | slicing to n gives the prefix of length min(length, n): the whole string when it is not longer |
| Content.Clean | skills/nowledge-mem/scripts/session.py:210-214 | the text is cut to 15000 characters first and then stripped: the result is a subsequence of the cut text, exactly as much shorter as the cut text has control characters, has none left, and equals the raw text when that was already short and clean |
| Transcript.RoleOf | skills/nowledge-mem/scripts/session.py:259 | a role is recognised iff the value is the string "user" or "assistant", and its name is that string |
| TurnFilter.DropCancelled | skills/nowledge-mem/scripts/session.py:227-241 | the kept messages are a subsequence, shorter by the number of cancelled user messages; every assistant message survives, and so does a leading one |
| TurnFilter.DropCancelledIsIndexedFilter | skills/nowledge-mem/scripts/session.py:227-241 | the pass equals the source's indexed loop: position i is kept iff it is an assistant message, the last message, or followed by an assistant message |
| TurnFilter.RetriedQuestionKeepsLastAttempt | skills/nowledge-mem/scripts/session.py:227-241 | user, user, assistant keeps the second user message and the answer |
| TurnFilter.DropCancelledLeavesNoCancelledTurn | skills/nowledge-mem/scripts/session.py:227-241 | after filtering, every user message except a final one is followed by an assistant message |
| TurnFilter.DropCancelledFixpoint | skills/nowledge-mem/scripts/session.py:227-241 | filtering leaves a sequence unchanged iff it has no cancelled user turn, and is idempotent |
| TurnFilter.NoCancelledTurnKeepsAll | skills/nowledge-mem/scripts/session.py:227-241 | a sequence without cancelled turns passes the filter unchanged |
| TurnFilter.LastUserIndex | skills/nowledge-mem/scripts/session.py:244-248 | the backward scan finds the last user message: only assistant messages follow it, and none is found iff every message is an assistant one |
| TurnFilter.DropLastTurn | skills/nowledge-mem/scripts/session.py:243-251 | the result is the prefix before the last user message, or the whole sequence when there is no user message |
| TurnFilter.DropLastTurnDropsAnsweredExchange | skills/nowledge-mem/scripts/session.py:243-251 | a sequence ending user, assistant loses both: the answered final exchange is dropped |
| SessionParser.ParseClaudeMessage | skills/nowledge-mem/scripts/session.py:256-270 | Format A: a role `type` with non-empty extracted `message` text gives exactly that message with the line's `timestamp`; empty text gives nothing; an extraction that raises makes it raise; any other `type` gives nothing |
| SessionParser.ParseCodexMessage | skills/nowledge-mem/scripts/session.py:273-294 | Format B: a `response_item` whose `payload` is not a dict raises; a non-`message` payload or one without a role gives nothing; otherwise non-empty text gives exactly that message, timestamped by the envelope when truthy, else by the payload; empty text gives nothing; an extraction that raises makes it raise; any other envelope gives nothing |
| SessionParser.ParseRecord | skills/nowledge-mem/scripts/session.py:202 | a non-object line raises; a role `type` is parsed as Format A, a `response_item` as Format B, anything else gives nothing |
| SessionParser.AcceptLine | skills/nowledge-mem/scripts/session.py:193-222 | blank and undecodable lines give nothing; a decoded line raises iff its record parse raises; a parsed message is kept, cleaned, iff its raw text is longer than 5, and is otherwise dropped |
| SessionParser.ScanLine | skills/nowledge-mem/scripts/session.py:187-222 | each iteration counts the line; with a full buffer it changes nothing else; otherwise it fails iff the line raises and appends exactly the accepted message, if any |
| SessionParser.Scan | skills/nowledge-mem/scripts/session.py:186-222 | every line is counted; with a positive cap at most twice the cap messages are buffered; every buffered message is within bounds and clean |
| SessionParser.AcceptedAppend | skills/nowledge-mem/scripts/session.py:186-222 | the uncapped filter-map of the lines extends line by line: one more line adds its accepted message, or its error |
| SessionParser.UncappedScanIsAccepted | skills/nowledge-mem/scripts/session.py:186-222 | without a cap the read loop collects exactly the accepted messages of all lines, in order, and fails iff some line raises, with the first such error |
| SessionParser.FullBufferReadsNoFurther | skills/nowledge-mem/scripts/session.py:190-191 | once the buffer is full, whatever lines follow, the result is the same buffer with every line counted |
| SessionParser.ScanFailureSticks | skills/nowledge-mem/scripts/session.py:197-202 | once a line raises, the whole read fails with that error |
| SessionParser.ScanStepFails | skills/nowledge-mem/scripts/session.py:197-202 | a line that raises while the buffer is not full fails the whole parse with that line's error |
| SessionParser.ScanStepFull | skills/nowledge-mem/scripts/session.py:189-191 | a loop iteration on a full buffer leaves the buffer and only counts the line |
| SessionParser.CapKeepsFirstMessages | skills/nowledge-mem/scripts/session.py:190-191 | with a cap the buffer is exactly the first twice-the-cap messages of the uncapped read |
| SessionParser.KeepLast | skills/nowledge-mem/scripts/session.py:224-225 | the trim keeps a suffix of min(length, cap) messages, and everything without a cap |
| SessionParser.FilterTurns | skills/nowledge-mem/scripts/session.py:227-251 | fewer than two messages pass unchanged; with both flags off nothing changes; each flag alone runs its pass; with both, the last-turn pass runs on the incomplete-turn result only when that still has two messages; the result is always a subsequence |
| SessionParser.ParseSession | skills/nowledge-mem/scripts/session.py:168-253 | parsing fails iff the read fails; the line count is the number of lines; the messages are the turn-filtered last `max_messages` of the buffer, at most `max_messages` of them, all in bounds and clean |
| SessionParser.ParseSessionFile | skills/nowledge-mem/scripts/session.py:183-253 | the streaming loop computes exactly the functional parse |
| SessionParser.UncappedSessionIsFilteredAccepted | skills/nowledge-mem/scripts/session.py:168-253 | without a cap the session is the turn-filtered accepted messages of all lines, or the first line's error |
| SessionParser.CappedSessionIsFilteredAccepted | skills/nowledge-mem/scripts/session.py:168-253 | with a cap and no failing line, the session is the turn-filtered last `max_messages` of the first twice-`max_messages` accepted messages |
| SessionParser.MinimumLengthBoundary | skills/nowledge-mem/scripts/session.py:206-208 | a clean user line is kept iff its text is longer than 5 characters (5 is dropped, 6 kept) |
| SessionParser.UserLineAccepted | skills/nowledge-mem/scripts/session.py:202-222 | a plain-string user line is stored as a user message with the cleaned text iff the raw text is longer than 5, and gives nothing otherwise |
| SessionParser.CleanedMessageMayBeShorterThanMinimum | skills/nowledge-mem/scripts/session.py:206-214 | five control characters followed by "abc" pass the length check and are stored as "abc" |
| SessionParser.AcceptCleanClaudeLine | skills/nowledge-mem/scripts/session.py:256-270 | a Format A line with clean text of admissible length is stored verbatim with its role |
| SessionParser.ScanAppendsAccepted | skills/nowledge-mem/scripts/session.py:187-222 | without a cap, an accepted line appends its message and counts one line |
| SessionParser.ScanTwoAccepted | skills/nowledge-mem/scripts/session.py:187-222 | two accepted lines buffer their two messages in order and count two lines |
| SessionParser.ScanThreeAccepted | skills/nowledge-mem/scripts/session.py:187-222 | three accepted lines buffer their three messages in order and count three lines |
| SessionParser.FilterUserAssistantUser | skills/nowledge-mem/scripts/session.py:227-251 | user, assistant, user filters to the first two |
| SessionParser.LoneFinalUserSurvives | skills/nowledge-mem/scripts/session.py:227-251 | user, user filters to the second user message: the first pass leaves one message, so the last-turn pass is skipped |
| SessionParser.TrailingUserTurnDropped | skills/nowledge-mem/scripts/session.py:168-253 | the three-line transcript (greeting, reply, "ok bye") parses to the first two messages with a line count of 3 |
| SessionParser.ScenarioUserAccepted | skills/nowledge-mem/scripts/session.py:256-270 | the first line of that transcript is accepted as the user greeting |
| SessionParser.ScenarioAssistantAccepted | skills/nowledge-mem/scripts/session.py:256-270 | the second line is accepted as the assistant reply |
| SessionParser.ScenarioLastAccepted | skills/nowledge-mem/scripts/session.py:256-270 | the third line ("ok bye", 6 characters) is accepted as a user message |
| SessionLocator.ReplaceSlashDot | skills/nowledge-mem/scripts/session.py:40 | replacing "/." by "--" keeps the length and, position by position, turns exactly the two characters of each "/." into '-' and leaves every other character |
| SessionLocator.DashSlashes | skills/nowledge-mem/scripts/session.py:40 | every '/' becomes '-' and nothing else changes |
| SessionLocator.LeadingDashes | skills/nowledge-mem/scripts/session.py:40 | `lstrip("-")` removes exactly the leading run of '-': every removed character is '-' and the first kept one is not |
| SessionLocator.DashedIsEncodedChar | skills/nowledge-mem/scripts/session.py:40 | after both replacements a position holds '-' iff the path has '/' there or the '.' of a "/.", and the path's character otherwise |
| SessionLocator.EncodedPointwise | skills/nowledge-mem/scripts/session.py:40-41 | the name is '-' followed by the encoded characters of the path after the leading run that encodes to '-' |
| SessionLocator.EncodeProjectPath | skills/nowledge-mem/scripts/session.py:37-41 | the directory name is one '-' and then, character by character, the path with each '/' and the '.' of each "/." turned into '-', less the leading run of such dashes; it has no '/' |
| SessionLocator.EncodeHiddenDirectory | skills/nowledge-mem/scripts/session.py:33-41 | "/a/.b" is stored under "-a--b" |
| SessionLocator.ClaudeScan | skills/nowledge-mem/scripts/session.py:56-72 | the scan holds an eligible file (no `agent-` prefix, stat succeeds) whose mtime is positive and no smaller than any eligible file's, and strictly larger than every earlier one's, so the first maximum wins |
| SessionLocator.FindClaudeSession | skills/nowledge-mem/scripts/session.py:30-77 | a missing encoded directory is a not-found; otherwise a file is found iff the directory's scan holds one, and it is that file: the first of the newest eligible files, labelled "claude-code"; every failure is a not-found |
| SessionLocator.ClaudeNotFoundIffNoCandidate | skills/nowledge-mem/scripts/session.py:74-75 | no file is found iff no eligible file has a positive mtime |
| SessionLocator.ClaudeFoundIffCandidate | skills/nowledge-mem/scripts/session.py:30-77 | the Claude lookup finds a file iff the encoded directory exists and holds an eligible file with a positive mtime |
| SessionLocator.CodexCwd | skills/nowledge-mem/scripts/session.py:343-358 | a missing, blank or undecodable first line gives `None`; a decoded non-object raises; a non-`session_meta` object gives `None`; a `session_meta` object gives its payload's `cwd` (`None` when absent), and raises when the payload is not a dict |
| SessionLocator.CodexScan | skills/nowledge-mem/scripts/session.py:88-112 | the scan holds a regular, stat-able file whose cwd resolves to the project, with a positive mtime no smaller than any such file's and strictly larger than every earlier one's |
| SessionLocator.FindCodexSession | skills/nowledge-mem/scripts/session.py:80-119 | a missing root is a not-found; otherwise the lookup raises iff the scan raises, with its error, and finds a file iff the scan holds one, which is the file returned, labelled "codex", the newest matching file |
| SessionLocator.CodexNotFoundIffNoCandidate | skills/nowledge-mem/scripts/session.py:114-117 | no file is found iff no matching file has a positive mtime |
| SessionLocator.CodexFoundIffCandidate | skills/nowledge-mem/scripts/session.py:80-119 | with the root present and a scan that does not raise, the Codex lookup finds a file iff some matching regular file has a positive mtime |
| SessionLocator.CodexScanRaisesIff | skills/nowledge-mem/scripts/session.py:88-112 | the scan raises exactly when some regular, stat-able file beats the running maximum of the files before it and reading its first line raises or yields a `cwd` that is not a path |
| SessionLocator.CleanFirstLinesNeverRaise | skills/nowledge-mem/scripts/session.py:88-112 | a listing none of whose first lines raises on reading is scanned without raising |
| SessionLocator.NormalizePreference | skills/nowledge-mem/scripts/session.py:127-129 | the preference is always one of the three sources; empty means "auto"; a name that lower-cases to a known source becomes that source; anything else becomes "auto" |
| SessionLocator.PickNewer | skills/nowledge-mem/scripts/session.py:138-165 | auto mode takes the newer candidate, Claude on a tie; a store's not-found is collected and both together give a combined not-found; any other Codex error escapes |
| SessionLocator.FindLatestSessionForProject | skills/nowledge-mem/scripts/session.py:122-165 | the label is "claude-code" or "codex"; an explicit source consults only its own store; auto mode is the newer-candidate choice over both stores |
| SessionLocator.AutoModePicksNewest | skills/nowledge-mem/scripts/session.py:138-165 | in auto mode no qualifying file of either store is newer than the one returned |
| ThreadPayload.FirstUserIndex | skills/nowledge-mem/scripts/session.py:374 | finds the first user message: only assistant messages precede it, and none iff there is no user message |
| ThreadPayload.Headline | skills/nowledge-mem/scripts/session.py:376-379 | text of at most 80 characters is the title; longer text gives its first 80 characters followed by "..." |
| ThreadPayload.DeriveTitle | skills/nowledge-mem/scripts/session.py:373-383 | a non-empty custom title is kept; otherwise the title is the headline of the first user message, or "Claude Code Session - " and the time when there is none |
| ThreadPayload.BuildThreadRequest | skills/nowledge-mem/scripts/session.py:361-405 | the messages pass through unchanged; the metadata counts them, carries the line total, the file name, the source and the persist method "knowledge_mem"; the id is project name, '_' and timestamp; workspace and import date are the given path and UTC time; participants name claude iff the source is "claude-code"; the title is the custom title when given, else the derived one |
| Search.Records | skills/nowledge-mem/scripts/search.py:77-96 | a list's elements are the records; an empty dict or empty string gives none; every other value fails, since iterating it yields keys or characters without `.get`, or cannot be done |
| Search.ReadListing | skills/nowledge-mem/scripts/search.py:70-75 | a bare list counts its records; a dict holding a list under its key gives that list and its declared total, else the list's length; a dict without the key gives no records; it succeeds iff the response is a list or a dict whose value under the key iterates to records |
| Search.MapAll | skills/nowledge-mem/scripts/search.py:77-96 | normalising a record list keeps its length and order, and fails iff some record fails |
| Search.MemoryOf | skills/nowledge-mem/scripts/search.py:86-95 | each field is the record's value when present and otherwise its default: id "", content "", importance 0.5, labels [], title and source thread `None`; the score is the one passed in |
| Search.NormalizeMemory | skills/nowledge-mem/scripts/search.py:78-96 | a record is usable iff it is a dict whose nested `memory`, if any, is a dict; a wrapper takes its score from the wrapper and its fields from the nested memory, a flat record takes both from itself |
| Search.PhaseOne | skills/nowledge-mem/scripts/search.py:63-96 | fails iff the memory search fails, its response is not a listing, or some record cannot be normalised; otherwise the memories are the normalised records, one each, in order, with the listing's total |
| Search.WellFormedMemoryResponse | skills/nowledge-mem/scripts/search.py:66-96 | a `{memories: [...]}` response whose records all normalise gives one memory per record, with the declared total or else the record count |
| Search.ReferencedThreadIds | skills/nowledge-mem/scripts/search.py:101-104 | the ids are distinct, truthy, and each carried by some memory; every truthy id is among them; collection fails iff some truthy id is a list or dict |
| Search.ReferencedThreadIdsAppend | skills/nowledge-mem/scripts/search.py:102-104 | a new hashable id is added after those already collected |
| Search.ThreadRefOf | skills/nowledge-mem/scripts/search.py:113-118 | the thread id is `thread_id`, else `id`, else ""; title and summary are the record's or `None`; the message count is the record's or 0 |
| Search.ResolveFetched | skills/nowledge-mem/scripts/search.py:108-121 | a fetch that raised, a response that is not a dict, or a nested `thread` that is not a dict resolves to nothing; a nested `thread` dict takes precedence over the flat response |
| Search.FetchThreads | skills/nowledge-mem/scripts/search.py:107-121 | one attempt per id: the result has one thread per id that resolves, so never more than the ids |
| Search.FetchThreadsMembers | skills/nowledge-mem/scripts/search.py:107-121 | a thread is in the result iff the fetch of some id resolved to it |
| Search.FetchThreadsIsAppendLoop | skills/nowledge-mem/scripts/search.py:107-121 | the result is the source's loop appending each resolved thread in id order |
| Search.FetchThreadsAppend | skills/nowledge-mem/scripts/search.py:107-121 | fetching a concatenation of id lists concatenates the results |
| Search.FailedFetchIsSkipped | skills/nowledge-mem/scripts/search.py:120-121 | a fetch that raises is skipped, and the others go ahead as if that id were absent |
| Search.FetchOrderIrrelevant | skills/nowledge-mem/scripts/search.py:107 | the threads found, as a multiset, do not depend on the order the ids are fetched in |
| Search.StrategyOne | skills/nowledge-mem/scripts/search.py:100-121 | strategy 1 fails iff an id cannot be collected; otherwise it is the fetch of the first `thread_limit` collected ids, so at most `thread_limit` threads |
| Search.NormalizeThread | skills/nowledge-mem/scripts/search.py:135-143 | a thread-search record is usable iff it is a dict |
| Search.StrategyTwo | skills/nowledge-mem/scripts/search.py:123-143 | fails iff the thread search fails, its response is not a listing, or some record is not a dict; otherwise the threads are the normalised records with the listing's total |
| Search.Search | skills/nowledge-mem/scripts/search.py:49-147 | the result carries the query and exactly phase 1's memories and total |
| Search.NoExpansionMakesNoThreadCall | skills/nowledge-mem/scripts/search.py:99 | without expansion (or with a limit of 0) the thread operations are never consulted, no threads are reported, and the search succeeds iff phase 1 does |
| Search.SearchFailsOnlyAtFatalSteps | skills/nowledge-mem/scripts/search.py:63-145 | the search fails iff phase 1 fails, an id cannot be collected, or the fallback runs and fails; a failed strategy-1 fetch never fails it |
| Search.ReferencedThreadsWin | skills/nowledge-mem/scripts/search.py:123-145 | when strategy 1 resolves a thread, its threads are the result, their count is the total, and the thread search is never consulted |
| Search.FallbackWhenNothingResolved | skills/nowledge-mem/scripts/search.py:123-143 | when strategy 1 resolves nothing, the result's threads and total are those of the thread search, and the search succeeds iff it does |
| Search.NoReferencesNoIds | skills/nowledge-mem/scripts/search.py:101-104 | memories without a truthy `source_thread_id` reference no thread |
| Search.UnreferencedMemoriesUseThreadSearch | skills/nowledge-mem/scripts/search.py:99-143 | for memories without thread references, no thread is fetched by id and the result comes from the thread search |
| Search.ThreeDistinctReferences | skills/nowledge-mem/scripts/search.py:101-104 | three memories with distinct ids reference those three ids in order |
| Search.DeletedThreadServiceMemories | skills/nowledge-mem/scripts/search.py:70-96 | the three referencing records normalise to three memories with a total of 3 |
| Search.DeletedThreadServiceIds | skills/nowledge-mem/scripts/search.py:101-104 | those memories reference threads A, B and C |
| Search.DeletedThreadServiceFetch | skills/nowledge-mem/scripts/search.py:107-121 | fetching A, B and C when B raises yields the threads A and C |
| Search.DeletedThreadServiceStrategyOne | skills/nowledge-mem/scripts/search.py:100-121 | with a limit of at least 3, strategy 1 on those memories yields the threads A and C |
| Search.DeletedThreadIsSkipped | skills/nowledge-mem/scripts/search.py:99-145 | three memories referencing A, B and C, with B's fetch raising: the related threads are exactly A and C, and the total is 2 |

## Left out

- `cli.py` and `api.py`: argument parsing, rendering, and the HTTP client. The client appears only as the `Collaborator` functions.
- `Config.from_env` and `.env` loading: these are environment I/O. Only the constants and `__post_init__` are modelled.
- The filesystem:
  - `glob`/`rglob` and `exists` are the `Stores` listings;
  - an `OSError` from `stat` is a missing mtime;
  - path resolution is a function parameter that yields nothing when `resolve` fails.
- Time: `datetime.now()` is the `Clock` parameter, given as already formatted strings.
- Logging: it has no effect on results.
- UTF-8 decoding errors while reading a transcript or a first line are not modelled. Lines come already classified as blank, undecodable or decoded.
- SessionLocator.PickNewer: compares the mtimes found during the scan. The source stats the chosen files a second time in auto mode (`session.py:145`, `session.py:153`). A file changed in between, or one whose second stat fails, is not modelled.
- SessionLocator.NormalizePreference: lower-cases ASCII letters only. Python's `lower` also maps other characters, but none of them to a letter of "auto", "claude" or "codex", so the three outcomes are the same.
- Configuration.Normalize: timeouts are reals. A NaN timeout, which Python leaves unchanged because `NaN <= 0` is false, is not modelled.
- JSON numbers are one kind, with no separate integers and floats. Python's hashing identifies `True`, `1` and `1.0`, so such thread ids would collapse in the set. In the model they count as distinct ids, and `ReferencedThreadIds` dedupes only equal values.
- Search.ReferencedThreadIds: the order of a Python set is unspecified. The model fetches in first-occurrence order. `Search.FetchOrderIrrelevant` shows the threads found do not depend on the order when the limit admits every id. Which ids fall under the limit when there are more does depend on that order, and this is not modelled.
- JSON numbers are reals. `json.loads` also accepts `NaN`, `Infinity` and `-Infinity`, which have no `JNum` value; lines holding them are not modelled.
- SessionLocator.CodexScan: its own contract does not say when the scan raises. `SessionLocator.CodexScanRaisesIff` states that exactly, as a separate lemma, because an existential in the recursive function's contract makes every use of the scan costlier to verify.
- Search.Records: a non-empty dict or string response fails, as it does in the source, where iterating yields keys or characters that have no `.get`. The model does not distinguish which exception is raised.
- Error messages are not modelled: a not-found carries short reason strings, not the source's full text.
