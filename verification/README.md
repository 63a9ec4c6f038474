# Verification of the harness core

A Dafny model of the parts of the harness whose correctness is not visible from one
function: the hashline patch engine, the continuation dispatcher, the banded edit
distance, the failure-episode tracker, goals and their paging, context admission, the
control arbiter, sketch comparison and read deduplication. `dafny verify dfyconfig.toml`
checks everything.

Text is a sequence of UTF-16 code units, in which a surrogate may stand alone
(section 2 of RFC 2781). Byte lengths and decoding follow section 3 of RFC 3629; a lone
surrogate counts three bytes, as Node's `Buffer.byteLength` has it. SHA-256 is taken as
injective: digests are compared by comparing what they are digests of, or are passed in.

## How it is built

| files | what they model |
|---|---|
| `Basics`, `Utf`, `Spaces`, `Decimal`, `StableSort` | text, white space, decimal numbers and the stable sort, shared by the rest |
| `Lines` | reading and writing documents, line by line and byte by byte |
| `Stitching`, `Eols`, `Hunks`, `Apply`, `EditFacts` | applying hunks: ranges, checks, bottom-up splicing, terminators |
| `Places`, `Rebuilding`, `Endings` | the same told from each hunk's own place: what is accepted, the contents rebuilt from top to bottom, how new lines end |
| `Unified`, `UnifiedFacts` | unified hunks (the "Diff -u or -U Output Format" of POSIX `diff`, with stricter counts) and what they mean |
| `MapChanged` | carrying changed lines through later stages |
| `PatchText`, `PatchFacts`, `PatchPrinter`, `UnifiedPrinter`, `PatchForms`, `PatchRows` | the patch language, what parsing guarantees, printers of native and unified hunks that it inverts, other forms of a command, and where each new line goes |
| `Grouping`, `Staged`, `Trails`, `Rereading`, `Planning` | stages of one file, each made for one version, chained in memory or through rereading, when the two agree, and the lines reported |
| `Authority`, `Dispatch`, `DispatchFacts`, `DispatchStops`, `Dispatcher` | the continuation protocol as steps, its invariants over all runs, what stops it, and the class that takes those steps |
| `DispatchHistory`, `DispatchPromises`, `DispatchWaiting` | its runs told from their events: the user's turn, what is sent in it and on what conditions, what waits and when it is taken |
| `EditDistance` | the banded computation against edit scripts |
| `Episodes`, `EpisodeFacts`, `EpisodeHistory`, `FailureTracker` | an episode log without index or counters, its invariants, the stories it tells of the events, and the tracker that keeps index and counters |
| `Truncation`, `Paging`, `Inspection` | three truncators, paged goal inspection and its cursors |
| `GoalText`, `Goals`, `GoalMeaning`, `GoalFacts`, `GoalLedger`, `GoalStore` | goal operations, what each leaves and refuses, their invariants over all runs, the ledger file's cap, and the ways to write it |
| `Reservations`, `Admission`, `AdmissionMeaning`, `AdmissionFacts`, `AdmissionHistory`, `ContextProfile`, `ContextAdmission` | the reservation ledger, admission arithmetic and events, which requests are admitted, what is remembered over a run, model profiles, and the handlers |
| `Preserve`, `Preserving`, `PreserveFacts`, `PreserveNames` | squeezing sections into a number of characters, what stays and what is named |
| `Arbiter`, `ArbiterFacts`, `ArbiterMeaning`, `ArbiterQueue`, `Rescue` | the proposal queue, its decisions and their exact meaning, and a budget charged on delivery |
| `Sketch`, `Dedup`, `DedupMeaning` | bottom-k sketches and read deduplication |

State that the source updates in place is a class whose methods are proved to take
exactly the step of a specification on values; what the source promises is proved about
that specification, over every run where it is about runs, and the modules of meanings,
histories and forms say what the specification itself does in terms of its inputs and events
alone.

## Where the code does less than its description

- The edit distance calls a one- or two-unit text "too far" from the empty one: the row
  minimum skips column zero. `EditDistance.EditDistanceAtMost2` states exactly when the
  result is right.
- Staged edits in memory and through the file can differ. The two agree, whatever comes
  next, exactly when every document a stage leaves is one that reading gives back
  (`Rereading.ChainsAgreeExactly`, for one stage `Rereading.RereadInvisibleExactly`); for
  files of one terminator style `Staged.StableExactly` says which those are. The two ways to fail: a last line that is empty and unterminated
  (`Staged.EmptyLastLineDiffers`) and a text that begins with U+FEFF
  (`Rereading.GainedMarkDiffers`).
- The writer's scan of the lines refuses some lists whose joined text is well formed: exactly
  those with a surrogate pair split over an unterminated line (`Lines.ScanExactly`).
- "An aborted run stays stopped" (control-arbiter.ts:43) is not so for a flush that is already
  asking its producers: abort and window are tested when it starts, not when it sends. They
  stop every send exactly when no flush under way still holds an unexpired candidate
  (`DispatchStops.StopsExactly`); `DispatchStops.SentAfterAbort` and `DispatchStops.SentAfterWindow` are runs that send. The
  number of turns is never exceeded (`DispatchHistory.SentWithinBudget`).
- The ledger's cap of 64 goals silently takes out an unfinished current goal when a new
  one is written over it (`GoalLedger.UnfinishedGoalLostExactly`). Only a direct `writeGoal`
  can (`GoalStore.OpenGoalLost` is a run of them), and nothing in the harness calls it:
  through `mutateGoal`, as commands and tools go, only finished goals go missing
  (`GoalStore.OnlyFinishedGoalsGoMissing`).
- Goal pages below four bytes can repeat for ever (`Paging.ReadableExactly`,
  `Paging.StuckPage`).
- An exactly counted empty request is admitted although overhead and completion alone
  exceed the window (`Admission.AdmittedFitsExactly`,
  `ContextProfile.AdmittedWithoutFitting`).
- A profile without a known window states an input limit computed from the fallback window,
  while the accounting takes it to be zero (`ContextProfile.LimitsAgreeExactly`).
- The marker is meant to name every section that is not there in full. It does exactly when
  it does not push into a line that was first taken whole (`PreserveNames.NamedExactly`), and
  a section that was cut within its own name is named by what was left of it
  (`PreserveFacts.NamesExactly`). `PreserveFacts.ObjectiveCutUnnamed` shows both.

## Model

| member | source | states |
|---|---|---|
| `Utf.DecodeEncode` | harness/lib/hashline-core.ts:14-28 | Decoding the UTF-8 bytes of a well-formed text gives the text back |
| `Utf.EncodeDecode` | harness/lib/hashline-core.ts:14-28 | Whatever bytes decode strictly are the encoding of a well-formed text |
| `Lines.ParseLines` | harness/lib/hashline-core.ts:30-40 | The scan that splits a text into lines with their terminators, against the recursive reading |
| `Lines.JoinParse` | harness/lib/hashline-core.ts:30-60 | Joining the lines read from any text gives the text back, and the lines are canonical |
| `Lines.ParseJoin` | harness/lib/hashline-core.ts:30-60 | Reading joined lines gives the same lines if and only if no content holds a break, only the last line may lack its terminator and then is not empty, and no CR line precedes an empty LF line |
| `Lines.ScanExactly` | harness/lib/hashline-core.ts:42-60 | The line-by-line surrogate and NUL scan accepts a list of lines if and only if the joined text is well formed and NUL-free and no pair is split over an unterminated line |
| `Lines.ScanAcceptsExactly` | harness/lib/hashline-core.ts:42-60 | On lines whose joined text is well formed and NUL-free the scan complains if and only if an unterminated line ends in a high surrogate whose low one comes first in what follows |
| `Lines.ScanAgreesWithWhole` | harness/lib/hashline-core.ts:42-60 | So scan and whole agree when only the last line may be unterminated |
| `Lines.ScanStricterWithoutTerminators` | harness/lib/hashline-core.ts:42-60 | A list of two lines on which they differ: one pair over two unterminated lines |
| `Lines.SerializeDocument` | harness/lib/hashline-core.ts:42-60 | The writer's two loops against its specification, with the first complaint in order |
| `Lines.DecodeDocument` | harness/lib/hashline-core.ts:14-28 | The reader, including the byte-order mark and the refusals |
| `Lines.SerializeDecoded` | harness/lib/hashline-core.ts:14-60 | Every file that can be read is written back byte for byte |
| `Lines.DecodedSerialize` | harness/lib/hashline-core.ts:14-60 | A written document reads back as itself if and only if its lines are canonical and it gains no byte-order mark |
| `Eols.LeaderIsMostUsed` | harness/lib/hashline-core.ts:291-302 | The chosen terminator is the most used one, and among equals the one first to reach that count |
| `Eols.ComputeDominantEol` | harness/lib/hashline-core.ts:291-302 | The counting loop over a whole document, with LF when nothing is terminated |
| `Eols.ComputeNearestEol` | harness/lib/hashline-core.ts:304-312 | The search outwards from a range, before wins over after at one distance |
| `Eols.NearestIsNearest` | harness/lib/hashline-core.ts:304-312 | The terminator found is one at the smallest distance from the range |
| `Eols.ComputeRangeEol` | harness/lib/hashline-core.ts:314-326 | The terminator of a replaced range: its own majority, else the nearest |
| `Endings.NewLinesEnd` | harness/lib/hashline-core.ts:388-405 | Each new line ends like the line it is inserted next to, like most of the lines it replaces or the nearest line with a terminator, the last one like the last line replaced; the last line of the file as the original |
| `Hunks.PrepareAccepts` | harness/lib/hashline-core.ts:328-361 | The ranges that pass the checks are a permutation of the hunks' ranges, in order, apart, and never two insertions at one place |
| `Apply.ApplyHunks` | harness/lib/hashline-core.ts:341-417 | The whole application against its specification, with every refusal |
| `Places.AcceptsExactly` | harness/lib/hashline-core.ts:328-361 | Hunks are accepted if and only if each lies in the file, finds the source rows it names, and no two meet, told from each hunk's own place; and which kind of refusal comes first |
| `Rebuilding.OneInsertion` | harness/lib/hashline-core.ts:328-340 | One insertion: at the head, at the end, before or behind its line, refused exactly when that line is not there |
| `Rebuilding.OneReplacement` | harness/lib/hashline-core.ts:328-340 | One replacement: the lines of its range give way to its rows, refused exactly when the range ends behind the file |
| `Rebuilding.OneDeletion` | harness/lib/hashline-core.ts:328-340 | One deletion, likewise |
| `Rebuilding.AppliedIsRebuilt` | harness/lib/hashline-core.ts:341-417 | Any accepted hunks in any order: the contents are those rebuilt from top to bottom from each hunk's own place |
| `Rebuilding.CountsTell` | harness/lib/hashline-core.ts:360-365 | The counts returned are those of the hunks of each kind |
| `Apply.SpliceUp` | harness/lib/hashline-core.ts:374-407 | Splicing in place from the bottom up equals the top-down stitch of gaps and bodies |
| `Apply.FinishLines` | harness/lib/hashline-core.ts:408-416 | The last pass: separators between lines and the original final terminator |
| `Apply.ComputeChanged` | harness/lib/hashline-core.ts:366-373 | The loop that accumulates the reported spans |
| `EditFacts.AppliedIsEdit` | harness/lib/hashline-core.ts:341-417 | A successful application is the edit of the hunks' ranges, a permutation of them |
| `EditFacts.SplicingIsStitching` | harness/lib/hashline-core.ts:341-417 | The contents afterwards are the original with each range replaced by its body |
| `Stitching.StitchLength` | harness/lib/hashline-core.ts:341-417 | A stitched list has the original length plus the sum of body minus width |
| `EditFacts.LineCountKept` | harness/lib/hashline-core.ts:341-417 | The line count is the original plus the sum of body minus width, also after terminators are settled |
| `EditFacts.SpanCoversBody` | harness/lib/hashline-core.ts:366-373 | Each reported span indexes exactly the body of its hunk in the result |
| `EditFacts.ResultTerminated` | harness/lib/hashline-core.ts:408-416 | Every line but the last ends in a terminator and the last keeps the original final one |
| `EditFacts.SurvivorKeepsLine` | harness/lib/hashline-core.ts:341-417 | Where an untouched line lands, with its content, and exactly when its terminator changes |
| `EditFacts.StyleKept` | harness/lib/hashline-core.ts:291-326 | A document with one kind of terminator keeps to it |
| `Unified.ParseUnifiedHunk` | harness/lib/hashline-core.ts:184-234 | The row loop with its open run against the compilation, and its refusals in order |
| `UnifiedPrinter.HeaderReadsBack` | harness/lib/hashline-core.ts:79-79 | The header of a unified hunk, printed with its four numbers and any heading, reads back as those numbers |
| `UnifiedPrinter.HunkReadsBack` | harness/lib/hashline-core.ts:184-234 | A printed hunk, context rows behind a space, removed ones behind a minus, added ones behind a plus, is read as exactly these rows, up to the line behind them |
| `PatchRows.RefusedExactly` | harness/lib/hashline-core.ts:184-233 | Which hunks are refused, in which order and for nothing else: impossible numbers, the mark of a missing newline, wrong counts, nothing changed |
| `Unified.CompileMeaning` | harness/lib/hashline-core.ts:195-221 | What the loop keeps for any interleaving of rows: the operations so far and the open run together edit the old rows into the new ones |
| `UnifiedFacts.UnifiedHunkMeaning` | harness/lib/hashline-core.ts:184-234 | A compiled hunk is applied if and only if its old rows stand in the file at its start; then exactly they are replaced by its new rows, and a refusal is never an overlap of its own operations |
| `MapChanged.ComputeMapIndex` | harness/lib/hashline-core.ts:252-270 | The loop that moves one line index past the operations |
| `MapChanged.MapAgreesWithEdit` | harness/lib/hashline-core.ts:252-270 | On untouched lines the map is strictly increasing and points at the same content in the result |
| `MapChanged.SurvivorMapped` | harness/lib/hashline-core.ts:252-270 | The map sends an untouched line to where the stitch puts it |
| `MapChanged.ReplacedMapped` | harness/lib/hashline-core.ts:252-270 | A replaced line is mapped into its replacement, a deleted one to the place where it was |
| `MapChanged.MapChangedLines` | harness/lib/hashline-core.ts:244-289 | The spans returned are sorted, disjoint, coalesced, inside the file and cover exactly the mapped lines |
| `MapChanged.Coalesce` | harness/lib/hashline-core.ts:281-288 | Merging sorted indices into spans covers the same lines and leaves nothing to merge |
| `PatchText.ParsePatch` | harness/lib/hashline-core.ts:109-178 | The parser's loop over the lines against its specification |
| `PatchFacts.ParsedIsUsable` | harness/lib/hashline-core.ts:109-178 | Whatever parses has sections with hunks, ranges in order, rows where rows are needed, and no break inside a row |
| `PatchFacts.UnifiedUsable` | harness/lib/hashline-core.ts:184-234 | So are the operations a unified hunk contributes |
| `PatchForms.SkippedExactly` | harness/lib/hashline-core.ts:126-129 | Lines that are blank or frame the patch, with white space around, are passed over, and no others |
| `PatchForms.HeadersExactly` | harness/lib/hashline-core.ts:74-74 | The lines that are section headers, exactly |
| `PatchForms.HeaderReads` | harness/lib/hashline-core.ts:109-140 | A section header, its tag in either case, opens a section with the tag in upper case |
| `PatchForms.ReplaceReads` | harness/lib/hashline-core.ts:75-75 | A replacement with both ends or with one line, and the numbers that are refused |
| `PatchForms.DeleteReads` | harness/lib/hashline-core.ts:78-78 | A deletion with or without its colon, and the numbers that are refused |
| `PatchForms.InsertReads` | harness/lib/hashline-core.ts:76-76 | An insertion before or behind a line, and the number that is refused |
| `PatchForms.ShortHeaderReads` | harness/lib/hashline-core.ts:79-79 | Counts that are left out of a unified header stand for one line |
| `PatchRows.EveryNewLineIsKept` | harness/lib/hashline-core.ts:109-234 | The bodies of all hunks of a patch are, in order, exactly the texts of its lines that begin with a plus |
| `PatchPrinter.ParseInvertsPrint` | harness/lib/hashline-core.ts:74-79 | Parsing any printed list of native sections gives the list back, rows with trailing space or command-like text included |
| `UnifiedPrinter.ParseInvertsPrintAll` | harness/lib/hashline-core.ts:109-234 | Parsing any printed list of sections that mix native edits and unified hunks gives back the native edits and the compiled hunks, in order |
| `Grouping.GroupSections` | harness/extensions/hashline.ts:233-254 | Sections are grouped by file in order of appearance and by runs of one tag; refused exactly when a file comes back to a tag it has left |
| `Grouping.RunsKeepHunks` | harness/extensions/hashline.ts:243-252 | The stages of a file hold the hunks of its sections, each once and in order, and start where the tag changes |
| `Staged.ChainIsReread` | harness/extensions/hashline.ts:261-291 | Chaining stages in memory gives the same bytes or the same refusal as writing and rereading after each, for files of any terminators, if every intermediate document is one that reading gives back |
| `Trails.InMemoryFollows` | harness/extensions/hashline.ts:257-291 | The chain of stages succeeds with some bytes if and only if a sequence of versions leads there, each named by the tag of the stage applied to it, and fails with the refusal of the first stage that cannot go on |
| `Trails.EndsOrStops` | harness/extensions/hashline.ts:257-291 | Such a sequence ends in one way only |
| `Staged.InMemoryIsReread` | harness/extensions/hashline.ts:261-291 | For files of one terminator style that is: intermediate texts end readably and gain no byte-order mark |
| `Rereading.RereadInvisibleExactly` | harness/extensions/hashline.ts:268-291 | After a stage, writing and rereading is invisible to every possible next stage if and only if the document is given back by reading: if not, deleting its last line or replacing all its lines tells the two apart |
| `Rereading.ChainsAgreeExactly` | harness/extensions/hashline.ts:261-291 | A chain of stages followed by any last stage gives the same in memory and reread if and only if every intermediate document is given back by reading |
| `Rereading.GainedMarkDiffers` | harness/extensions/hashline.ts:261-291 | A stage that leaves a text beginning with U+FEFF: the next stage writes different bytes in memory and reread |
| `Staged.StableExactly` | harness/extensions/hashline.ts:268-273 | For such a document those two conditions are exactly what rereading needs |
| `Staged.EmptyLastLineDiffers` | harness/extensions/hashline.ts:261-291 | A file emptied by one stage and cut by the next succeeds in memory and is refused when reread |
| `Planning.StageReports` | harness/extensions/hashline.ts:276-283 | A stage reports exactly the lines with a trace: those it writes, those where its deletions land, and the surviving ones reported before |
| `Planning.MarkOrigin` | harness/extensions/hashline.ts:276-283 | Each line marked as written is in a body of this stage or is an earlier written line that survived |
| `Planning.PlanTarget` | harness/extensions/hashline.ts:257-291 | The planning loop: a plan that succeeds ends a sequence of versions from the original bytes to the final ones in which each stage carries the tag of the version it is applied to; the first stage that breaks this is refused as stale; and the reported lines are exactly those with a trace of some stage |
| `Planning.WrittenIsTraced` | harness/extensions/hashline.ts:276-283 | So every line that any stage wrote is reported |
| `Planning.TracesAreWritten` | harness/extensions/hashline.ts:276-283 | And if no stage deletes without putting something in its place, only such lines are |
| `Truncation.TruncateByUnits` | harness/lib/goal-state.ts:120-130 | Returns the longest prefix of whole code points within the byte budget |
| `Truncation.TruncateByPoints` | harness/extensions/hashline.ts:26-35 | Returns the same prefix by stepping over whole pairs |
| `Truncation.TruncateByBytes` | harness/extensions/verify-gate.ts:131-137 | Returns the same prefix by backing over continuation bytes; on any text its bytes are those of a prefix |
| `Truncation.LongestFitIsUnique` | harness/lib/goal-state.ts:120-130 | That prefix is unique, so the three functions agree on well-formed text |
| `Paging.InspectGoal` | harness/lib/goal-state.ts:724-736 | One page of a section from a cursor already read, and its refusals, against the specification |
| `Inspection.InspectGoalText` | harness/lib/goal-state.ts:718-737 | A whole request: the goal must be active, the section known and the cursor's text match; then the page with the text of the next cursor |
| `Inspection.CursorsExactly` | harness/lib/goal-state.ts:723-727 | The pattern matches exactly the prefix, 64 hexadecimal digits, the name of a section and digits, and reads the offset they stand for |
| `Inspection.CursorRoundTrip` | harness/lib/goal-state.ts:722-735 | Every cursor a page hands out reads back as itself |
| `Inspection.CursorBelongs` | harness/lib/goal-state.ts:725-725 | A cursor handed out for one revision and section is refused as stale if and only if the revision or the section is another |
| `Inspection.SectionReadableExactly` | harness/lib/goal-state.ts:718-737 | Handing back the cursors' texts reads a section to its end if and only if each code point fits on a page, and then the pages are the whole section |
| `Paging.PageAdvances` | harness/lib/goal-state.ts:718-737 | A page moves on if and only if the next code point fits on it |
| `Paging.ReadableExactly` | harness/lib/goal-state.ts:718-737 | Following the cursors reaches the end if and only if each code point fits on a page |
| `Paging.PagingIsLossless` | harness/lib/goal-state.ts:718-737 | With four bytes or more the pages never meet an error, split no pair, keep the limit and concatenate to the whole text |
| `Paging.StuckPage` | harness/lib/goal-state.ts:718-737 | A code point wider than the page gives the same empty page and cursor for ever |
| `Authority.ContinuationReceipts` | harness/lib/continuation-authority.ts:194-203 | The loop over the log collects exactly the keys of this session's valid receipts |
| `Authority.DeliveredOwnerGenerations` | harness/lib/continuation-authority.ts:211-222 | The loop collects exactly the owner revisions of this session's valid receipts that name one |
| `Authority.OwnerKeyInjective` | harness/lib/continuation-authority.ts:207-209 | An owner key names one owner and one generation |
| `Authority.AddedEntry` | harness/lib/continuation-authority.ts:194-222 | What one more log entry adds to both sets |
| `Authority.DeliveredExactly` | harness/lib/continuation-authority.ts:194-222 | A key or an owner's revision counts as delivered if and only if the log has a well-formed receipt of this session for it |
| `Dispatcher.ContinuationDispatcher.Offer` | harness/extensions/control-arbiter.ts:144-151 | An offer changes the fields as its step of the protocol does |
| `Dispatcher.ContinuationDispatcher.Flush` | harness/extensions/control-arbiter.ts:52-78 | A flush up to its first await: guards, budget, candidates in rank order |
| `Dispatcher.ContinuationDispatcher.Answer` | harness/extensions/control-arbiter.ts:79-131 | An authorization answer, first or second, current or stale |
| `Dispatcher.ContinuationDispatcher.SessionStart` | harness/extensions/control-arbiter.ts:153-172 | A session start resets the generation and recomputes both sets from its log |
| `Dispatcher.ContinuationDispatcher.SessionShutdown` | harness/extensions/control-arbiter.ts:173-182 | A shutdown makes every flight stale and drops the offers |
| `Dispatcher.ContinuationDispatcher.BeforeAgentStart` | harness/extensions/control-arbiter.ts:185-189 | A harness-started run keeps the turn, anything else starts a new one |
| `Dispatcher.ContinuationDispatcher.Settlement` | harness/extensions/control-arbiter.ts:194-201 | A settled run flushes, a failed or aborted one drops the offers |
| `Dispatcher.ContinuationDispatcher.AgentSettled` | harness/extensions/control-arbiter.ts:204-209 | The idle boundary with a late abort |
| `DispatchFacts.StepInv` | harness/extensions/control-arbiter.ts:52-209 | Every step of the protocol keeps the invariant |
| `DispatchFacts.RunInv` | harness/extensions/control-arbiter.ts:52-209 | The invariant holds after every interleaving of events |
| `DispatchFacts.OneFlushInFlight` | harness/extensions/control-arbiter.ts:52-57 | At most one flush of the current generation is in flight |
| `DispatchFacts.EverySendProper` | harness/extensions/control-arbiter.ts:58-127 | Everything ever sent was unexpired, to an idle agent, granted twice in its own flush, which had begun unaborted and within the budget in turns and time, ranked above every candidate not refused, with neither its key nor its owner revision in the log |
| `DispatchFacts.SendingStep` | harness/extensions/control-arbiter.ts:81-127 | Only a granted answer to a current flush sends, it sends one, and writes exactly its receipt |
| `DispatchFacts.BudgetLogAndOffers` | harness/extensions/control-arbiter.ts:41-43 | The counter stays within the budget, the sets in memory equal those of the log, and no waiting offer is forgotten |
| `DispatchHistory.VariablesAgree` | harness/extensions/control-arbiter.ts:26-46 | In every run the dispatcher's variables say what its events say: the session, whether it is live, whether the agent works, when the user's turn began and how it was stopped, and how many continuations were sent in it |
| `DispatchHistory.SentWithinBudget` | harness/extensions/control-arbiter.ts:37-66 | Counted on the events and on what was sent: in one turn of the user, runs that continuations started included, no more continuations are sent than the budget allows |
| `DispatchPromises.CandidatesExactly` | harness/extensions/control-arbiter.ts:74-78 | A flush asks for exactly the offers of its session that are in time and not delivered, higher priority first and earlier ones first among equals |
| `DispatchPromises.SendsAsPromised` | harness/extensions/control-arbiter.ts:79-127 | Whatever an event sends was offered in the session that is open, is in time, goes to an idle agent, and was granted before and at this event |
| `DispatchPromises.SentOncePerSession` | harness/extensions/control-arbiter.ts:97-107 | Two continuations sent in one session differ in key and in the owner's revision |
| `DispatchPromises.FlushesBeganAsAllowed` | harness/extensions/control-arbiter.ts:58-73 | The flush behind whatever was sent began at an event at which the user had not aborted the turn and the budget had room, both counted on the events |
| `DispatchWaiting.WaitingExactly` | harness/extensions/control-arbiter.ts:52-209 | Which offers wait after any run, told from its events |
| `DispatchWaiting.TakesExactly` | harness/extensions/control-arbiter.ts:52-78 | At which events a flush begins, with what candidates, and that otherwise nothing under way changes |
| `DispatchWaiting.TasksAreForOffers` | harness/extensions/control-arbiter.ts:119-138 | A flush is scheduled only when an offer has come or offers wait for an idle dispatcher, at most once for an event |
| `DispatchFacts.StaleAnswerInert` | harness/extensions/control-arbiter.ts:81-90 | An answer to a flush of an earlier generation changes only that flush's own records |
| `DispatchFacts.EveryFlushBegun` | harness/extensions/control-arbiter.ts:52-78 | In every reachable state each suspended flush began while its turn was not aborted and the budget had room, in turns and in time |
| `DispatchStops.StopsExactly` | harness/extensions/control-arbiter.ts:41-78 | After a user abort, or once the window of the turn has passed, nothing is sent by any run of events that does not end that condition, if and only if no current flush still holds an unexpired candidate |
| `DispatchStops.ClearsExactly` | harness/extensions/control-arbiter.ts:153-209 | The events that clear an abort, each and no other |
| `DispatchStops.SentAfterAbort` | harness/extensions/control-arbiter.ts:79-127 | A run from the start in which the user begins and aborts a run of the agent while a flush asks, and its continuation is sent |
| `DispatchStops.SentAfterWindow` | harness/extensions/control-arbiter.ts:79-127 | A run from the start in which the window of the turn passes while a flush asks, and its continuation is sent |
| `EditDistance.ScriptCostsAtLeast` | harness/lib/did-you-mean.ts:14-31 | No edit script is cheaper than the recursive distance used as reference |
| `EditDistance.CheapestScript` | harness/lib/did-you-mean.ts:14-31 | And one script costs exactly that |
| `EditDistance.EditDistanceAtMost2` | harness/lib/did-you-mean.ts:14-31 | The banded computation with both early exits gives the distance capped at 3 if and only if not exactly one or two units are compared with the empty text |
| `EpisodeFacts.StepInv` | harness/lib/failure-episodes.ts:247-425 | Every event keeps the bounds on each episode and the two overrun bounds |
| `EpisodeFacts.RunInv` | harness/lib/failure-episodes.ts:236-425 | Over every run: per episode correlated <= after <= overrun, variants distinct and at most min(16, count), keys of active episodes distinct, each counted call counted in an episode |
| `EpisodeFacts.EveryFailureCounted` | harness/lib/failure-episodes.ts:280-318 | The counts of active and closed episodes add up to the failures since the last reset |
| `EpisodeFacts.ClosedOnlyGrows` | harness/lib/failure-episodes.ts:320-405 | What any run has closed stays closed, as it was and in order, until the next reset |
| `Episodes.CloseConserves` | harness/lib/failure-episodes.ts:320-405 | Closing moves episodes from active to closed and loses no count |
| `EpisodeHistory.LogTellsTheStory` | harness/lib/failure-episodes.ts:247-425 | In every run the active episodes are exactly the open stories told from the events: failures, calls after the second one, evidence, and the first sixteen ways it was called |
| `EpisodeHistory.ClosesExactly` | harness/lib/failure-episodes.ts:320-405 | Which episodes a success, an abandonment, a settlement or a clearing closes, and as what; the others stay as they are |
| `EpisodeHistory.FailureStaysActive` | harness/lib/failure-episodes.ts:320-405 | A failure stays active over any events of which none ends its story or resets the log |
| `EpisodeHistory.OverrunsExactly` | harness/lib/failure-episodes.ts:259-278 | The overrun counters are the calls made while something had failed twice and was not over, and those among them on its target |
| `FailureTracker.FailureEpisodeTracker.NoteToolCall` | harness/lib/failure-episodes.ts:259-278 | The loop over the exposed index does what the log without an index does |
| `FailureTracker.FailureEpisodeTracker.ObserveFailure` | harness/lib/failure-episodes.ts:280-318 | Opening or extending an episode keeps the index equal to the active keys with two failures or more, and every counter equal to what the log says |
| `FailureTracker.FailureEpisodeTracker.CloseEpisodes` | harness/lib/failure-episodes.ts:320-424 | The in-place walk that closes by recovery, settlement, abandonment or clearing; completed is the last 64 closings |
| `FailureTracker.FailureEpisodeTracker.Reset` | harness/lib/failure-episodes.ts:247-257 | Everything starts again |
| `GoalText.CleanNonblank` | harness/lib/goal-state.ts:131-133 | Cleaning a text, also twice, leaves something exactly when it said something |
| `GoalText.EvidenceSurvives` | harness/lib/goal-state.ts:373-373 | Dropping repeats and keeping sixteen entries cannot lose all evidence |
| `GoalText.CleanIs` | harness/lib/goal-state.ts:120-133 | Cleaned text is what stands between the white space at both ends once breaks and controls are spaces, whole or cut to the longest beginning that fits |
| `GoalText.EvidenceIs` | harness/lib/goal-state.ts:373-373 | A criterion keeps the cleaned entries it was given, each once, at most sixteen, all if they are fewer |
| `GoalText.EvidenceGrows` | harness/lib/goal-state.ts:373-373 | What is given later never takes the place of what is kept |
| `Goals.ApplyUpdates` | harness/lib/goal-state.ts:364-374 | The loop over criterion updates, with the first refusal |
| `GoalMeaning.UpdatesMean` | harness/lib/goal-state.ts:364-374 | For criteria with different ids, as every validated goal has: updates are taken if and only if each is allowed, and then every criterion has the status and evidence it was given last |
| `GoalMeaning.UpdateMeans` | harness/lib/goal-state.ts:354-382 | With different ids again: an update changes the criteria, the evidence and the risks, withdraws the pending proposal and leaves all else; refused exactly for a goal that is not active or an update that is not allowed |
| `GoalMeaning.NewProgressStays` | harness/lib/goal-state.ts:375-375 | Up to sixteen new pieces of progress are the last evidence of the updated goal |
| `GoalMeaning.CreateMeans` | harness/lib/goal-state.ts:269-298 | A new goal has the status asked for, open criteria and nothing behind it; refused exactly for an objective that says nothing or is too long |
| `GoalMeaning.AcceptMeans` | harness/lib/goal-state.ts:300-312 | A proposed goal, and no other, is accepted and then active |
| `GoalMeaning.PauseMeans` | harness/lib/goal-state.ts:330-333 | An active or blocked goal, and no other, can be paused |
| `GoalMeaning.ResumeMeans` | harness/lib/goal-state.ts:314-328 | Resuming makes a goal active and lifts its block; an active goal keeps all but its pending proposal; and which goals refuse |
| `GoalMeaning.CancelMeans` | harness/lib/goal-state.ts:335-338 | Every goal but a complete or cancelled one can be cancelled |
| `GoalMeaning.BlockMeans` | harness/lib/goal-state.ts:340-352 | A block leaves the goal blocked with its reason, evidence and what would lift it, and adds reason and evidence to the outcome |
| `GoalMeaning.ObjectionExactly` | harness/lib/goal-state.ts:423-438 | What a settlement needs, whole or in part, and that nothing else is asked |
| `GoalMeaning.SettleMeans` | harness/lib/goal-state.ts:422-449 | What settling leaves: the status, the cleaned outcome, no proposal |
| `GoalMeaning.ProposalsMean` | harness/lib/goal-state.ts:394-420 | The model settles whole or proposes to settle in part; the user settles the proposal as it stands |
| `GoalMeaning.OnlyTheValidatorRejects` | harness/lib/goal-state.ts:262-449 | Beyond these refusals only the validator refuses |
| `GoalFacts.ApplyInv` | harness/lib/goal-state.ts:300-452 | Every operation keeps the goal invariant |
| `GoalFacts.SettledGoalsAreBacked` | harness/lib/goal-state.ts:269-452 | From creation over every run: complete means each criterion met with evidence that says something; partly settled means each required one so and nothing optional open |
| `GoalFacts.PendingProposalIsAcceptable` | harness/lib/goal-state.ts:411-420 | A pending proposal of an active goal can always be accepted, validation aside, also after pause, block and resume |
| `GoalFacts.OnlyTheUserSettlesInPart` | harness/lib/goal-state.ts:396-420 | A goal becomes partly settled only by accepting its pending proposal, with exactly the proposed outcome |
| `GoalFacts.TerminalRun` | harness/lib/goal-state.ts:309-452 | Complete and cancelled goals never change again |
| `GoalFacts.WhatEndsAProposal` | harness/lib/goal-state.ts:314-420 | Which operations end, replace or keep a pending proposal |
| `GoalLedger.WhatIsLost` | harness/lib/goal-state.ts:562-574 | A write takes out a goal exactly when the ledger is full and the goal is new, and then the oldest one |
| `GoalLedger.OrdinaryWritesLoseOnlyTerminalGoals` | harness/lib/goal-state.ts:562-574 | Writing the current goal, or any while none is current, loses only terminal goals |
| `GoalLedger.UnfinishedGoalLostExactly` | harness/lib/goal-state.ts:562-617 | An accepted write loses an unfinished goal if and only if a new unfinished goal is written to a full ledger whose oldest entry is current |
| `GoalStore.OpenGoalLost` | harness/lib/goal-state.ts:562-587 | 64 accepted direct writes of valid goals from no ledger at all, after which one more accepted write takes out the goal that is still active |
| `GoalStore.MutateKeepsOpen` | harness/lib/goal-state.ts:626-649 | A mutation, through which every command and tool goes, takes no unfinished goal out of the ledger |
| `GoalStore.OnlyFinishedGoalsGoMissing` | harness/lib/goal-state.ts:626-649 | Over every run of commands and tools, with any refusals: a goal goes missing from the ledger only after it was complete or cancelled |
| `Sketch.BottomKSketch` | harness/lib/context-surface.ts:118-134 | The sketch is the ascending list of the 64 least shingle hashes of the bounded text |
| `Sketch.SketchSimilarity` | harness/lib/context-surface.ts:141-152 | The two-pointer walk gives the exact overlap of the full sets within the least members of their union |
| `Sketch.MergeIsBottom` | harness/lib/context-surface.ts:141-152 | What the walk has consumed is the bottom of the union |
| `Sketch.OverlapSymmetric` | harness/lib/context-surface.ts:136-152 | The comparison is symmetric |
| `Dedup.PathByCallId` | harness/lib/context-dedup.ts:33-45 | The nested loops give each call id its last path |
| `Dedup.DedupReadResults` | harness/lib/context-dedup.ts:30-78 | The pass equals the message-wise description; counts are exact, text bytes drop by exactly the saved bytes, and nothing is returned exactly when nothing changes |
| `Dedup.EachStubNamesAKeptCopy` | harness/lib/context-dedup.ts:48-76 | Each replaced message names an earlier unreplaced read of the same path and text and is shorter; every other message is untouched |
| `Dedup.PrefixIsStable` | harness/lib/context-dedup.ts:48-76 | Adding messages changes nothing already sent, if no later call takes the id of an earlier read result |
| `Dedup.SecondPassChangesNothing` | harness/lib/context-dedup.ts:30-78 | A second pass changes nothing if references grow with the index, results hold no calls and no file read looks like a reference |
| `Dedup.DefaultStubGrows` | harness/lib/context-dedup.ts:63-67 | The default wording meets the first of these conditions |
| `DedupMeaning.LabelsExactly` | harness/lib/context-dedup.ts:33-45 | The path of a result is that of the last call of read with its id |
| `DedupMeaning.ReplacedExactly` | harness/lib/context-dedup.ts:48-76 | A message is replaced if and only if it is a successful read with text that repeats an earlier one of the same path and the reference to the first of these is shorter |
| `Reservations.ContextReservationLedger.Reserve` | harness/lib/context-accounting.ts:323-334 | A reservation's answer and the new ledger, with every refusal |
| `Reservations.ContextReservationLedger.Release` | harness/lib/context-accounting.ts:336-336 | Releasing takes out exactly one id |
| `Reservations.ContextReservationLedger.Snapshot` | harness/lib/context-accounting.ts:343-348 | The loop sums the reservations of one epoch |
| `Reservations.ReservingStaysWithin` | harness/lib/context-accounting.ts:323-334 | Reserving leaves the ledger alone or ends within the allowance, also a fractional one, whatever was reserved before |
| `Reservations.ReservingTwice` | harness/lib/context-accounting.ts:326-330 | Asking again with the same amount answers yes and changes nothing |
| `AdmissionHistory.ReservesExactly` | harness/lib/context-accounting.ts:323-334 | The answer to every request for tokens, a fraction rounded up, and the ledger after it, from the numbers alone |
| `Admission.AdmittedFitsExactly` | harness/lib/context-accounting.ts:234-275 | An admitted request with its margin, reservations, overhead and completion fits the window, unless it counts as nothing and overhead and completion alone do not fit |
| `Admission.EstimatedAdmittedFits` | harness/lib/context-accounting.ts:234-275 | With an estimated count every admitted request fits |
| `AdmissionMeaning.VerdictExactly` | harness/lib/context-accounting.ts:182-275 | A request is admitted if and only if a window is known, the payload was counted, what was seen is not stale and there is room for it; otherwise the first of these that fails is the reason |
| `AdmissionHistory.OverMeans` | harness/lib/context-accounting.ts:182-275 | A measurement is over if and only if it means something, is not stale and there is no room for it |
| `ContextProfile.LimitsAgreeExactly` | harness/lib/context-profile.ts:59-94 | A built profile's own input limit and the one accounted with are equal if and only if a window is known, served or declared, or the overhead leaves nothing of the fallback window; the completion reserve never exceeds the window |
| `ContextProfile.ServedLimitsAgree` | harness/lib/context-profile.ts:96-103 | A profile given a measured window accounts with that window, and its two limits agree |
| `ContextProfile.AdmittedWithoutFitting` | harness/lib/context-accounting.ts:234-275 | A model with a declared window of 1000 whose exactly counted empty request is admitted and does not fit |
| `AdmissionFacts.RunInv` | harness/extensions/context-admission.ts:82-285 | The ledger's invariants hold after every run of events |
| `AdmissionFacts.AdmittedStaysSafe` | harness/extensions/context-admission.ts:229-230 | After an admitted request, until the allowance changes, the request and everything reserved since fit in the window together |
| `AdmissionFacts.ReservationsAreReleasable` | harness/extensions/context-admission.ts:134-138 | Every reservation belongs to the current epoch and can be released, leaving the others |
| `AdmissionFacts.ReservingAgainChangesNothing` | harness/extensions/context-admission.ts:111-133 | The same reservation asked for again changes nothing in the whole state |
| `AdmissionFacts.RecoveriesAreBounded` | harness/extensions/context-admission.ts:256-278 | In every session of every run a recovery compaction starts at most once for each request and at most 32 times, and the attempted set holds exactly the requests it started for |
| `AdmissionFacts.RecoveriesAreForRefusals` | harness/extensions/context-admission.ts:222-278 | A recovery compaction only ever starts for a request that was refused because it does not fit |
| `AdmissionHistory.StartsExactly` | harness/extensions/context-admission.ts:256-278 | Settling starts a compaction if and only if one is waited for under the epoch still served, it is the first for its request and one of the first 32, and the host can and may |
| `AdmissionHistory.WaitingExactly` | harness/extensions/context-admission.ts:82-278 | A compaction is waited for if and only if the last request was refused for its size and neither session, epoch nor a start has come since |
| `AdmissionHistory.AllowanceMeans` | harness/extensions/context-admission.ts:229-230 | After an admitted request tools may reserve exactly what there is room for beside it, after any other nothing |
| `AdmissionHistory.AllowanceExactly` | harness/extensions/context-admission.ts:82-285 | The allowance is that of the last accounted request, if no compaction, its end, or change of what is served came after it |
| `AdmissionHistory.OverflowExactly` | harness/extensions/context-admission.ts:195-211 | The overflow remembered is the last measurement that was over, if none after it was within and nothing else has been served since |
| `AdmissionHistory.OldOverflowAdmitsNothing` | harness/extensions/context-admission.ts:161-167 | An overflow from before a compaction never lets a request through: without a newer measurement under the same epoch nothing is admitted |
| `ContextAdmission.Extension.SyncEpoch` | harness/extensions/context-admission.ts:82-105 | A change of serving epoch drops allowance, observation and reservations |
| `ContextAdmission.Extension.ReserveOutput` | harness/extensions/context-admission.ts:111-133 | The reservation handler takes its step of the state machine |
| `ContextAdmission.Extension.BeforeProviderRequest` | harness/extensions/context-admission.ts:169-245 | The request handler takes its step; when it does not abort, the allowance is that of an admitted request |
| `ContextAdmission.Extension.OnAgentSettled` | harness/extensions/context-admission.ts:256-278 | Settling releases everything and may start one recovery |
| `Preserving.PreserveContextSections` | harness/lib/context-accounting.ts:407-466 | The whole function with its two loops against the specification of text and names; the text never exceeds the number of characters asked for, and is reported whole exactly when everything fits |
| `Preserving.Select` | harness/lib/context-accounting.ts:418-437 | The forward pass takes, clips and names lines as the specification does |
| `Preserving.Shrink` | harness/lib/context-accounting.ts:448-462 | The backward loop ends, and shortens or drops lines as the specification does |
| `PreserveFacts.SelectedShape` | harness/lib/context-accounting.ts:418-437 | The forward pass keeps lines whole from the front, then at most one clipped line, and names exactly the others |
| `PreserveNames.SelectionExactly` | harness/lib/context-accounting.ts:416-437 | How many lines are taken whole, the most that fit, and what is cut from the next: all the room that is left, unless it is the optional one |
| `PreserveNames.CutTextIsFull` | harness/lib/context-accounting.ts:447-465 | When a line stands cut, text and marker take all the room |
| `PreserveNames.NamesDiffer` | harness/lib/context-accounting.ts:459-461 | No section is named twice |
| `PreserveFacts.TextAndMarker` | harness/lib/context-accounting.ts:438-465 | The text keeps to its room; when something is omitted it is the kept lines and behind them the whole marker, or the marker alone, cut to the room |
| `PreserveFacts.WholeExactly` | harness/lib/context-accounting.ts:411-438 | Nothing is omitted if and only if everything fits beside the shortest marker; then all sections stand in full and in order |
| `PreserveFacts.KeepsBeginnings` | harness/lib/context-accounting.ts:418-465 | What stands in the text are nonempty beginnings of the supplied lines, in the order of importance, none skipped |
| `PreserveNames.CutsWithinExactly` | harness/lib/context-accounting.ts:448-462 | Dropping whole lines one after another ends within the last line that has any room beside the marker naming the rest, if that room is too short for it |
| `PreserveNames.NamedExactly` | harness/lib/context-accounting.ts:429-465 | Each section that does not stand in full is named if and only if the room that the marker leaves does not end within a line that was first taken whole; the room is told by lengths alone |
| `PreserveFacts.NamesExactly` | harness/lib/context-accounting.ts:459-462 | Each name beside the text is the name of a section if and only if no dropped line had been cut within its own name |
| `PreserveFacts.ExampleEntries` | harness/lib/context-accounting.ts:410-410 | Sections with an objective "o" and constraints "c" alone supply the two lines of the example |
| `PreserveFacts.ObjectiveCutUnnamed` | harness/lib/context-accounting.ts:439-465 | In 60 characters these two lines become "ob" with the names "con" and "constraints" |
| `PreserveFacts.EverySectionStands` | harness/lib/context-accounting.ts:409-410 | Each supplied section has its line |
| `PreserveFacts.LineStands` | harness/lib/context-accounting.ts:438-438 | Each line stands in the joined text, behind those before it |
| `ArbiterQueue.ControlArbiterQueue.Add` | harness/lib/control-arbiter.ts:13-35 | The method with its counting and eviction loops against the specification |
| `ArbiterQueue.ControlArbiterQueue.Decide` | harness/lib/control-arbiter.ts:37-123 | The decision with its two merges against the specification |
| `ArbiterFacts.AddedValid` | harness/lib/control-arbiter.ts:13-35 | After every add at most 128 entries are pending, with distinct ids in each boundary |
| `ArbiterFacts.AddingEvictsOnlyTheOldest` | harness/lib/control-arbiter.ts:26-34 | At most one entry is evicted, the first of the oldest boundary, and never the one just added |
| `ArbiterMeaning.AddsExactly` | harness/lib/control-arbiter.ts:13-35 | A proposal its boundary already has changes nothing; any other goes behind those of its boundary with at most 4000 characters of message, and with 128 pending the first of the oldest boundary makes room |
| `ArbiterMeaning.BoundariesInOrder` | harness/lib/control-arbiter.ts:13-35 | Boundaries keep the order in which they were first proposed for |
| `ArbiterMeaning.DecisionExactly` | harness/lib/control-arbiter.ts:37-123 | The whole decision: aborts and shutdowns first, then by kind, then in order; when the first requirement and the first lens are merged, the exact message, what counts as delivered, and the counts |
| `ArbiterMeaning.OthersWait` | harness/lib/control-arbiter.ts:43-44 | A decision leaves what waits for other boundaries as it is |
| `ArbiterFacts.WinnerIsTheFirst` | harness/lib/control-arbiter.ts:45-50 | The winner goes before every other entry: terminal, then priority, then earliest |
| `ArbiterFacts.RequirementStaysWhole` | harness/lib/control-arbiter.ts:64-86 | Messages stay within 4000 units and a merged requirement stays whole at the end, also behind a lens |
| `ArbiterFacts.DeliveredHolds` | harness/lib/control-arbiter.ts:98-107 | What counts as delivered: nothing unless the arbiter enforces and acts; then the winner first and each merged proposal once |
| `ArbiterFacts.DecisionsAreValid` | harness/lib/control-proposal.ts:241-259 | Every decision passes the validator of its listeners |
| `Rescue.StepInv` | harness/extensions/tool-call-rescue.ts:90-137 | Each event, the whole end of a turn being one, keeps the invariant and charges the budget exactly when the model hears a rescue at it |
| `Rescue.RescuesAreHeard` | harness/lib/control-charge.ts:38-57 | Over every run, whether the arbiter is there and enforces or not and whenever that changes: what is charged is exactly the turns at whose end the model heard a rescue, and at most two |
| `Rescue.TurnSettles` | harness/lib/control-charge.ts:41-50 | Under an enforcing arbiter nothing made for a turn stays parked when it has ended, if the later producers propose for that turn |

## Left out

- File, git, process and network input and output, locks, atomic writes, clocks and identifiers: times, ids and file contents are parameters.
- SHA-256: tags, hashes and revisions are compared as injective values or passed in; `fileTag` is a function parameter of the plan.
- The repairs of `normalizePatchText`, the texts of error messages, and which of several errors a malformed header line gives.
- Rounding of decimal numbers above 2^53 in native patch ranges: no file has that many lines.
- Shared event-bus listeners (`replaceContinuationAuthority`, `setContinuationDispatcherActive`), user notices, receipts for entries other than continuations, and telemetry.
- The compaction resume path of the dispatcher beyond its effect on aborts; the boundary's own entries are delivered like any other send.
- The dispatcher's grants, refusals and sends are history the code does not keep; the end of a settlement is an event of its own that may come at any time, which allows more runs than the code has.
- Regular-expression classifiers of failures, tool families, targets and messages: their results are inputs of the events.
- Timestamps and short ids of failure episodes; goal constraints, scope, timestamps, and the validator's byte caps and id patterns, for which any validator may stand.
- Goal recovery briefs, version 1 migration, and the JSON text of a section: any well-formed text may stand for it, of any length.
- Contributor breakdown of a request: only its count, its tokenization and its digest enter admission. The 12 and 15 percent shares are computed exactly, without floating-point rounding.
- Producers of control proposals other than the rescue. The handlers of one turn end run in the order of the manifest (package.json:54-75), each to its end: the rescue's, those of other producers, the arbiter's.
- `did-you-mean`'s search of directories and the receipt builder of the context surface.
- Verify-gate ordering, run kernel, plan graph, research ledger and the optimizer.
- Paging.InspectGoal: takes a cursor already read and no status; `Inspection.InspectGoalText` adds the active goal, the section names and the textual cursors.
- Dedup.PrefixIsStable: asks only that no later call reuses the id of an earlier read result, which calls before results with unique ids give.
- Truncation.TruncateByUnits: for text that is not well formed only the algorithm's own result is given, since a lone surrogate has no code point boundary.
- Sketch.SketchSimilarity: the quotient is an exact real, not the nearest floating-point number.
