# Conversation upkeep, modelled and proved

The agent keeps a conversation history alive far beyond one context window. The
code that does so is small but unforgiving: it rebuilds histories, repairs
tool-call pairings, measures requests without serializing them, reads back
foreign transcripts and terminal streams, and adds up bills. This project models
seven such pieces and proves what each is for.

- **Compaction** (`Text`, `SummaryFormat`, `SummaryMeaning`, `UserQuery`,
  `Conversation`, `Pairing`, `CompactedHistory`, `QueryMeaning`, `RepairHistory`,
  `RepairMeaning`, `RepairLoops`, `BudgetFit`): cleaning the
  model's summary, wrapping and re-extracting the user's query, rebuilding a
  history round after round, the two pairing rules and the passes that enforce
  them, and shrinking a history to a token budget.
- **Image budget** (`Json`, `ImageBudget`, `EvictedItems`, `EvictionEstimate`):
  the serialized size of a history computed without scanning base64 tails, and
  eviction of the oldest images against a running estimate.
- **Claude transcripts** (`ClaudeRecords`, `ParentChains`, `PreservedSegment`,
  `SnipRemoval`, `TranscriptPreparation`, `ClaudeLeaf`, `ClaudeChain`,
  `ParallelRecovery`): repairing a parent-pointer graph and reading one
  conversation out of it, on any input, cyclic ones included.
- **Terminal emulator** (`TerminalInput`, `TerminalTokens`, `ScreenStyle`,
  `Screen`, `ScreenPatches`): a byte-driven state machine fed in arbitrary pieces.
- **Split selection** (`SelectTurns`), **segment store** (`Segments`,
  `SegmentRender`) and **usage ledger** (`UsageLedger`, `CostArrangements`, on
  the machine integers of `Integers`).

Code that changes state step by step is a method over locals, an array or a
class, proved equal to a specification function; the lemmas then say what that
function means, element by element and in terms that do not use the function:
what stands where in the result, what is gone, what is unchanged. Pure code is a
function. An item's token cost, the text of generated summaries, reminders and
rendered turns, timestamps and request limits are parameters.

## Where the code and its promises part

Each of these is a lemma below: an input that shows it, and the exact condition
where the code does what it says.

- `repair_history` is documented as idempotent. It is exactly when no assistant
  message declares a call id twice and leaves it unanswered
  (`RepairIdempotent`, `RepeatedCallNotIdempotent`).
- The last human query survives any number of compactions exactly when it is
  trimmed, closes no `</user_query>`, holds no closed system-tag block and is
  not synthetic; a prompt of images alone is lost at once
  (`RunKeepsQuery`, `ImageOnlyQueryLost`).
- The running estimate of the eviction loop can fall below the true size. One eviction
  from an estimate that is not below it undercounts exactly when a user image falls
  short of its placeholder by more than the estimate is ahead (`EstimateUndercounts`,
  `SmallImageUndercounts`). Over the whole loop the estimate never falls below the
  true size exactly when no initial stretch of evictions drifts behind
  (`EstimateNeverFalls`).
- The loop can stop above its target with images left (`TargetMissed`). It reaches every
  target, or runs out of images, exactly when the drifts are not behind at any new low
  of the estimate (`ReachesExactly`), and exactly then one application settles under all
  limits (`SettlesExactly`). It never misses by more than the summed shortfall of the
  small images (`EvictWithin`).
- Relinking a preserved segment makes an acyclic transcript cyclic exactly when
  the anchor or one of its ancestors is itself preserved (`RelinkAcyclic`,
  `TailAsAnchorCycles`). The cut that follows can undo it (`CutUntangles`): the pass as
  a whole leaves a cycle exactly when that holds among the messages that are left
  (`CutAcyclic`, `PreservingAcyclic`).
- A survivor of snip removal stays attached to a removed message exactly when its
  parent lies in a set of removed messages that is closed under parents
  (`SplicedToRemoved`, `SurvivorHeld`).
- Recovering parallel results raises a key error exactly when the first chain
  assistant with an empty message id has an off-chain tool result below it
  (`FailsExactly`, `EmptyIdFails`).
- Reading a terminal stream in pieces is harmless for every continuation exactly
  when no cut falls between the ESC and the backslash that end a control string
  with visible text (`CutUnseenExactly`, `TornTitleShows`).
- A comment in the split selection asks for the highest fitting index; the code, as it
  should, finds the lowest (`BudgetSplit`).
- A segment document may exceed its cap, by at most one byte per separator
  (`DocumentBytes`, `CapExceeded`).
- Path classification is described as anchored on the `compaction/` component;
  for segments the code also accepts a component that merely ends in
  `compaction` (`SegmentExactly`).
- The bill's total cost and the sum over its models can differ. Reported costs
  agree in every arrangement exactly when they have one sign, or neither their
  positive nor their negative sum overflows (`CostsAgreeExactly`,
  `NegativeTicksDisagree`).

## Model

| member | source | states |
|---|---|---|
| SummaryFormat.FormatCompactSummary | packages/agent/xai-chat-state/src/compaction_utils.rs:792-830 | terminates on every string with all slices in range; the result is the cleaned text and is clean |
| SummaryFormat.DropAnalysisInPlace | packages/agent/xai-chat-state/src/compaction_utils.rs:794-815 | the loop that cuts leading analysis blocks computes the recursive cut, closed and unclosed blocks alike |
| SummaryFormat.CollapseInPlace | packages/agent/xai-chat-state/src/compaction_utils.rs:826-828 | the folding loop terminates and computes repeated folding |
| SummaryFormat.FormatIsClean | packages/agent/xai-chat-state/src/compaction_utils.rs:792-865 | for every input: none of the six control tokens, no triple newline, no surrounding whitespace |
| SummaryFormat.FormatOfClean | packages/agent/xai-chat-state/src/compaction_utils.rs:792-865 | clean text passes unchanged |
| SummaryFormat.FormatIdempotent | packages/agent/xai-chat-state/src/compaction_utils.rs:792-865 | cleaning twice is cleaning once |
| SummaryFormat.DefuseOccurs | packages/agent/xai-chat-state/src/compaction_utils.rs:858-865 | defusing one token removes it everywhere and creates no other token |
| SummaryFormat.LeadingAnalysisDropped | packages/agent/xai-chat-state/src/compaction_utils.rs:794-806 | a leading closed analysis block leaves no trace, whatever it quotes |
| SummaryFormat.NumberedSummaryKept | packages/agent/xai-chat-state/src/compaction_utils.rs:841-853 | a summary that opens with a numbered section keeps its whole body even if it quotes the tags later |
| SummaryMeaning.CollapseSqueezes | packages/agent/xai-chat-state/src/compaction_utils.rs:826-828 | replacing triple newlines until none is left is one pass that keeps the first two newlines of every run |
| SummaryMeaning.NeutralizeVisible | packages/agent/xai-chat-state/src/compaction_utils.rs:858-865 | defusing changes nothing but zero-width spaces, and nothing at all without a token |
| SummaryMeaning.WrapperUnwrapped | packages/agent/xai-chat-state/src/compaction_utils.rs:816-824 | the block from the first opener to the last closer gives way to its heading and cleaned body; what stands before and after it stays |
| SummaryMeaning.NothingUnwrapped | packages/agent/xai-chat-state/src/compaction_utils.rs:816-824 | where no opener stands before a closer nothing is unwrapped |
| SummaryMeaning.NumberedExactly | packages/agent/xai-chat-state/src/compaction_utils.rs:841-846 | a body counts as numbered if and only if a digit follows its leading heading and list characters |
| SummaryMeaning.ScratchpadPeeled | packages/agent/xai-chat-state/src/compaction_utils.rs:841-853 | a body without a number in front loses everything up to its last `</analysis>`, and then a leading summary opener |
| SummaryMeaning.ScratchpadKept | packages/agent/xai-chat-state/src/compaction_utils.rs:841-853 | a numbered body is kept whole; one without `</analysis>` loses at most a leading summary opener |
| SummaryMeaning.LeadsExactly | packages/agent/xai-chat-state/src/compaction_utils.rs:795-798 | an analysis opener leads if and only if a summary opener is still to come or only space stands before it, back to the summary opener or the start |
| SummaryMeaning.BlockDropped | packages/agent/xai-chat-state/src/compaction_utils.rs:799-806 | a leading closed block is cut out, wherever it stands, and the search goes on; one that does not lead stays |
| SummaryMeaning.UnclosedDropped | packages/agent/xai-chat-state/src/compaction_utils.rs:807-813 | a leading block without an end takes all the rest with it when no summary opener follows |
| SummaryMeaning.UnclosedToSummary | packages/agent/xai-chat-state/src/compaction_utils.rs:807-813 | otherwise it goes up to the next summary opener, and the search ends |
| UserQuery.StripTagInPlace | packages/agent/xai-chat-state/src/compaction_utils.rs:297-308 | the in-place removal loop for one tag computes the removal of all its closed blocks |
| UserQuery.StripAllSystemTags | packages/agent/xai-chat-state/src/compaction_utils.rs:295-310 | all twelve tags in order, then a trim |
| UserQuery.StripTagFixed | packages/agent/xai-chat-state/src/compaction_utils.rs:300-307 | text is left alone exactly when it has no closed block of the tag, and shrinks otherwise |
| UserQuery.StripTagWrapped | packages/agent/xai-chat-state/src/compaction_utils.rs:295-310 | stripping commutes with the query wrapper: no block reaches across it |
| UserQuery.ExtractWrapped | packages/agent/xai-chat-state/src/compaction_utils.rs:316-327 | what extraction makes of any wrapped text |
| UserQuery.ExtractUndoesWrap | packages/agent/xai-chat-state/src/compaction_utils.rs:316-327 | extraction undoes `wrap_user_query` (lines 944-947) if and only if the query is trimmed and has no closer and no closed system-tag block |
| UserQuery.ExtractTrimmed | packages/agent/xai-chat-state/src/compaction_utils.rs:316-327 | extraction always yields trimmed text |
| UserQuery.ExtractShrinks | packages/agent/xai-chat-state/src/compaction_utils.rs:316-327 | a re-extracted query is the query or strictly shorter |
| QueryMeaning.BlockStripped | packages/agent/xai-chat-state/src/compaction_utils.rs:300-307 | a metadata block goes from the first opener of its tag to the nearest closer |
| QueryMeaning.PlainExtracted | packages/agent/xai-chat-state/src/compaction_utils.rs:316-327 | a message with no closed block, of metadata or of the query, is the query, trimmed |
| QueryMeaning.BlockExtracted | packages/agent/xai-chat-state/src/compaction_utils.rs:316-327 | otherwise the query is the text from the first opener to the nearest closer, trimmed, whatever stands around it |
| QueryMeaning.WrapText | packages/agent/xai-chat-state/src/compaction_utils.rs:944-947 | the wrapper puts the query on lines of its own |
| QueryMeaning.HumanTurn | packages/agent/xai-chat-state/src/compaction_utils.rs:366-405 | a human turn is a user message without a reason that has an image or a text that is no sentinel |
| CompactedHistory.LastAnchor | packages/agent/xai-chat-state/src/compaction_utils.rs:535-545 | where the last anchor is, the last human turn or agent message is |
| CompactedHistory.RecentShape | packages/agent/xai-chat-state/src/compaction_utils.rs:546-579 | the retained tail holds the latest agent message, first, exactly when nothing human came after it |
| CompactedHistory.AnchorsAndTail | packages/agent/xai-chat-state/src/compaction_utils.rs:1023-1049 | in the full and in the compaction view, anchors and tail together hold the latest agent message once, on its side of the query |
| CompactedHistory.BuildCompactedHistory | packages/agent/xai-chat-state/src/compaction_utils.rs:998-1065 | the pushes give a history in which stand, in this order and with nothing between: system prompt, prefix, the project instructions of the directory's generation, the query with the agent message on its side unless the tail has one, the tail, one item of preamble, cleaned summary and hint, the reminder |
| CompactedHistory.CompactLaid | packages/agent/xai-chat-state/src/compaction_utils.rs:723-780 | one round in either view is laid out in that way from what was captured |
| CompactedHistory.CapturedMeaning | packages/agent/xai-chat-state/src/compaction_utils.rs:429-534 | the query captured is that of the last human turn; the agent message is the last one, with the side of that turn it stands on |
| CompactedHistory.TailStartMeaning | packages/agent/xai-chat-state/src/compaction_utils.rs:535-557 | the tail starts at a trailing agent message, right after a trailing human turn, or at the start, and no anchor follows |
| CompactedHistory.CarriedAt | packages/agent/xai-chat-state/src/compaction_utils.rs:558-580 | every agent message, response and result of the tail is carried over in its place, results with a placeholder and no images; nothing else is |
| CompactedHistory.JoinTextsSnoc | packages/ai/xai-grok-sampling-types/src/conversation.rs:1694-1705 | a message's texts are joined in order by single newlines, images skipped |
| CompactedHistory.CompactMeaning | packages/agent/xai-chat-state/src/compaction_utils.rs:723-780 | one round, either view, any summary: the query becomes its re-extraction, only the latest agent message remains, on the same side of the query |
| CompactedHistory.RunIsStable | packages/agent/xai-chat-state/src/compaction_utils.rs:998-1065 | any number of rounds keeps a stable query, exactly one agent message if there was one, its content and its before, after or only position |
| CompactedHistory.RunKeepsAgent | packages/agent/xai-chat-state/src/compaction_utils.rs:998-1065 | whatever becomes of the query, any number of rounds keeps exactly one agent message if there was one, with its content |
| CompactedHistory.RunKeepsQuery | packages/agent/xai-chat-state/src/compaction_utils.rs:429-435 | the query outlives the rounds if and only if it is stable |
| CompactedHistory.ImageOnlyQueryLost | packages/agent/xai-chat-state/src/compaction_utils.rs:388-405 | a prompt of images alone is a real turn whose query the next history no longer has |
| CompactedHistory.RebuiltPairing | packages/agent/xai-chat-state/src/compaction_utils.rs:1056-1060 | the rebuilt history misplaces exactly the results its tail misplaces |
| CompactedHistory.RebuiltValidates | packages/agent/xai-chat-state/src/compaction_utils.rs:998-1065 | when every result's call is reachable without crossing an anchor, the rebuilt history validates and has one agent message if there was any |
| Pairing.ValidateCompactedHistory | packages/agent/xai-chat-state/src/compaction_utils.rs:1083-1100 | the growing set of seen ids reports exactly the misplaced results, in order |
| Pairing.SanitizeCompactedHistory | packages/agent/xai-chat-state/src/compaction_utils.rs:1117-1144 | keeps what is paired and strips exactly the ids validation reports |
| Pairing.StripDisplacedToolResults | packages/agent/xai-chat-state/src/compaction_utils.rs:1196-1222 | the same for the contiguous-run rule |
| Pairing.KnownMeaning | packages/agent/xai-chat-state/src/compaction_utils.rs:1185-1198 | an id is known if and only if some earlier assistant declared it, with only tool results in between under the contiguous-run rule |
| Pairing.PassedAt | packages/agent/xai-chat-state/src/compaction_utils.rs:1083-1222 | item by item: what is not misplaced stays, behind what stays before it, and the id of what is misplaced is reported, behind those reported before it |
| Pairing.KeepPairedIsPaired | packages/agent/xai-chat-state/src/compaction_utils.rs:1117-1222 | what a pass keeps obeys its rule |
| Pairing.PairedFixed | packages/agent/xai-chat-state/src/compaction_utils.rs:1083-1144 | nothing is reported, and nothing removed, exactly from paired histories; reported and kept items add up |
| Pairing.KeepPairedIdempotent | packages/agent/xai-chat-state/src/compaction_utils.rs:1117-1222 | each pass is idempotent and its output validates |
| Pairing.KeepPairedSelects | packages/agent/xai-chat-state/src/compaction_utils.rs:1117-1222 | a pass only removes; the rest keeps its order |
| Pairing.StripKeepsLess | packages/agent/xai-chat-state/src/compaction_utils.rs:1190-1196 | the adjacency pass keeps a subsequence of what the sanitizer keeps |
| Pairing.ContiguousIsEarlier | packages/agent/xai-chat-state/src/compaction_utils.rs:1190-1196 | the contiguous-run rule implies the any-earlier rule |
| RepairHistory.RepairByBlocks | packages/agent/xai-chat-state/src/compaction_utils.rs:1170-1185 | the three passes together drop opening results and repair each item with its run of results |
| RepairHistory.BackfillMeaning | packages/ai/xai-grok-sampling-types/src/conversation.rs:3769-3822 | within one run, answers exactly the unanswered calls, once each if and only if no unanswered id is declared twice |
| RepairHistory.DedupMeaning | packages/ai/xai-grok-sampling-types/src/conversation.rs:3896-3946 | within one run, keeps one result per id and changes exactly the runs with duplicates |
| RepairMeaning.RepairedRun | packages/agent/xai-chat-state/src/compaction_utils.rs:1170-1185 | place by place: a repaired run is the last result of each called id, in order, then for each unanswered call, in call order, the text that names its tool |
| RepairHistory.RepairAnswers | packages/agent/xai-chat-state/src/compaction_utils.rs:1170-1185 | afterwards every result directly follows its call and every call has a result, one each if and only if no repeated id was unanswered |
| RepairHistory.RepairIdempotent | packages/agent/xai-chat-state/src/compaction_utils.rs:1164-1185 | repairing twice is repairing once if and only if no assistant declares an id twice and leaves it unanswered |
| RepairHistory.RepeatedCallNotIdempotent | packages/agent/xai-chat-state/src/compaction_utils.rs:1164-1185 | one assistant with the same unanswered id twice: the second repair changes the history again |
| RepairHistory.StripIsAdjacencyPass | packages/agent/xai-chat-state/src/compaction_utils.rs:1190-1222 | the block-wise strip pass is the contiguous-run pass over the whole history |
| RepairHistory.RepairIsPaired | packages/agent/xai-chat-state/src/compaction_utils.rs:1170-1222 | a repaired history obeys the contiguous-run rule |
| RepairLoops.DedupDuplicateToolResults | packages/ai/xai-grok-sampling-types/src/conversation.rs:3896-3951 | the loop with its seen map, removal in reverse order and rescan computes the dedup pass of the whole history; the count is exact and zero only when nothing changes |
| RepairLoops.StaleIndices | packages/ai/xai-grok-sampling-types/src/conversation.rs:3918-3934 | the marking pass, sorted and reversed, yields exactly the indices whose id comes again, each once |
| RepairLoops.RemovedFrom | packages/ai/xai-grok-sampling-types/src/conversation.rs:3935-3938 | removing the marked indices highest first leaves the last result of each id, in place |
| RepairLoops.CollectRepairs | packages/ai/xai-grok-sampling-types/src/conversation.rs:3773-3821 | the forward scan finds all insertion sites; inserting there is the dangling pass |
| RepairLoops.RepairDanglingToolCalls | packages/ai/xai-grok-sampling-types/src/conversation.rs:3769-3829 | splicing back to front computes the dangling pass of the whole history; the count is exact |
| RepairLoops.RepairItems | packages/agent/xai-chat-state/src/compaction_utils.rs:1145-1184 | the three passes in a row are the repair; the report counts the duplicates removed and the results inserted, names the ids stripped, and says that something changed if and only if it did |
| BudgetFit.TruncateTextToBytes | packages/agent/xai-chat-state/src/compaction_utils.rs:260-275 | the backward search for a character boundary finds the longest fitting prefix |
| BudgetFit.TruncatedText | packages/agent/xai-chat-state/src/compaction_utils.rs:260-275 | a longest character-boundary prefix plus a marker naming the exact bytes dropped; within the limit when the limit is at least 64 and fewer than ten to the eighth bytes are dropped |
| BudgetFit.SplitLastRun | packages/agent/xai-chat-state/src/compaction_utils.rs:201-205 | popping trailing results and reversing splits the history at its last run |
| BudgetFit.RecoverTruncatedTailUnit | packages/agent/xai-chat-state/src/compaction_utils.rs:197-229 | the last unit: its owner if it has calls, and every result truncated to an equal share |
| BudgetFit.ScanBack | packages/agent/xai-chat-state/src/compaction_utils.rs:176-185 | the backward scan with its shrinking remainder computes the recursive scan |
| BudgetFit.SkipForward | packages/agent/xai-chat-state/src/compaction_utils.rs:186-188 | the forward skip stops at the first item that is no tool result |
| BudgetFit.FitConversationToBudget | packages/agent/xai-chat-state/src/compaction_utils.rs:162-195 | computes the fitted history |
| BudgetFit.KeepStartOptimal | packages/agent/xai-chat-state/src/compaction_utils.rs:176-188 | the kept suffix fits, and no longer suffix that starts on a turn would |
| BudgetFit.FitMeaning | packages/agent/xai-chat-state/src/compaction_utils.rs:162-195 | the input when it fits; otherwise the system prompt, and of the rest the longest suffix that fits what the prompt leaves and starts at no result; if there is none, its last unit: the last item, or the results it ends with after the assistant that called them, each text cut to its bytes with the marker |
| BudgetFit.FitWithin | packages/agent/xai-chat-state/src/compaction_utils.rs:162-195 | a kept suffix costs, with the prompt, at most the larger of budget and prompt |
| BudgetFit.FitPaired | packages/agent/xai-chat-state/src/compaction_utils.rs:162-229 | a history that obeys the contiguous-run rule still obeys it after fitting, in every case |
| BudgetFit.TailUnitPaired | packages/agent/xai-chat-state/src/compaction_utils.rs:197-229 | the truncated last unit keeps its pairing |
| BudgetFit.TailUnitBytes | packages/agent/xai-chat-state/src/compaction_utils.rs:221-275 | with a share of at least 16 tokens, and fewer than ten to the eighth bytes dropped from each result, the truncated results take at most four bytes per token of the result budget |
| Json.EscapedBytesMeaning | packages/agent/xai-chat-state/src/image_budget.rs:82-91 | escaping per section 7 of RFC 8259 never shrinks a string and keeps its size exactly when nothing must be escaped |
| ImageBudget.EncodedUrlBytesMeaning | packages/agent/xai-chat-state/src/image_budget.rs:184-193 | the quick URL measure is at most the escaped size, and equal if and only if a base64 tail needs no escape |
| ImageBudget.BlankImageUrls | packages/agent/xai-chat-state/src/image_budget.rs:231-238 | blanks every image URL and adds up exactly their measures |
| ImageBudget.ConversationBodyBytes | packages/agent/xai-chat-state/src/image_budget.rs:210-229 | the blank-then-add-back loop computes the body measure |
| ImageBudget.BodyBytesExact | packages/agent/xai-chat-state/src/image_budget.rs:204-229 | the measure never exceeds the length of the full serialization and equals it if and only if no base64 tail needs escaping |
| ImageBudget.EvictAt | packages/agent/xai-chat-state/src/image_budget.rs:290-322 | one turn of the loop, in place: the arm taken matches the item found, so neither unreachable arm is entered |
| ImageBudget.EvictImagesToBudget | packages/agent/xai-chat-state/src/image_budget.rs:246-324 | the array loop evicts as many images as the recursive rule says, those, and nothing else; what that leaves of each item is `EvictedItems.EvictedHistory` |
| ImageBudget.FirstImageEvicted | packages/agent/xai-chat-state/src/image_budget.rs:257-322 | evicting the first image takes exactly the first discovered location off the list; later locations stay valid |
| ImageBudget.EvictIsOldest | packages/agent/xai-chat-state/src/image_budget.rs:246-324 | k evictions remove exactly the first k images of the history, each tool result noted |
| EvictedItems.EvictedHistory | packages/agent/xai-chat-state/src/image_budget.rs:246-324 | after k evictions each item lacks just those of the first k images it held: in a user message each gives way to the placeholder, in a tool result it is taken out and the note is appended after an empty line unless the text has it; all else is unchanged |
| ImageBudget.NotedOnce | packages/agent/xai-chat-state/src/image_budget.rs:314-318 | the tool note is added at most once |
| ImageBudget.EstimateDrift | packages/agent/xai-chat-state/src/image_budget.rs:288-322 | conservation: each eviction moves the estimate minus the true size by a drift read off the evicted item |
| EvictedItems.EstimateMoves | packages/agent/xai-chat-state/src/image_budget.rs:295-321 | that drift: for a user image what it falls short of the placeholder, for a tool result the twelve bytes of its array when that was the only part, and otherwise nothing |
| ImageBudget.EvictCountBound | packages/agent/xai-chat-state/src/image_budget.rs:290-323 | for every history the loop evicts no more images than there are |
| ImageBudget.EvictWithin | packages/agent/xai-chat-state/src/image_budget.rs:288-324 | for every history the loop ends at most the summed shortfall of the small user images above the target, or with no image left |
| EvictionEstimate.EvictReachesTarget | packages/agent/xai-chat-state/src/image_budget.rs:288-324 | when no user image is smaller than the placeholder the estimate never falls below the true size, and the loop ends at or under the target or with no image left |
| EvictionEstimate.EvictCountStops | packages/agent/xai-chat-state/src/image_budget.rs:288-324 | the loop stops at the first count at which the running estimate meets the target, or when no image is left |
| EvictionEstimate.BudgetStops | packages/agent/xai-chat-state/src/image_budget.rs:163-168 | from the measured size, the budget evicts until the estimate first meets the target, or to the last image |
| EvictionEstimate.EstimateFollows | packages/agent/xai-chat-state/src/image_budget.rs:288-322 | as long as no earlier stretch is behind, the estimate minus the true size is the sum of the drifts |
| EvictionEstimate.EstimateNeverFalls | packages/agent/xai-chat-state/src/image_budget.rs:288-322 | the estimate never falls below the true size, however many images go, if and only if every sum of initial drifts keeps it level or ahead |
| EvictionEstimate.ImageInBody | packages/agent/xai-chat-state/src/image_budget.rs:257-286 | an image evicted later counts in full in every earlier size |
| EvictionEstimate.ReachesExactly | packages/agent/xai-chat-state/src/image_budget.rs:246-324 | the loop ends at or under every target, or without images, if and only if at every new low of the size plus drift, before the images run out, the drifts are not behind |
| EvictionEstimate.SettlesExactly | packages/agent/xai-chat-state/src/image_budget.rs:155-182 | one application leaves nothing for a second, under all limits, if and only if the same holds |
| ImageBudget.EstimateUndercounts | packages/agent/xai-chat-state/src/image_budget.rs:295-301 | one eviction, from an estimate not below the true size, undercounts if and only if it replaces a user image that falls short of the placeholder by more than the estimate is ahead |
| ImageBudget.SmallImageUndercounts | packages/agent/xai-chat-state/src/image_budget.rs:295-301 | a user image without a URL undercounts |
| ImageBudget.TargetMissed | packages/agent/xai-chat-state/src/image_budget.rs:288-324 | a small image, a large one and a small one: for some target the loop stops above it with an image left |
| ImageBudget.ApplyImageBudgetWithLimits | packages/agent/xai-chat-state/src/image_budget.rs:155-182 | trigger, target and the reported outcome, sizes before and after included |
| ImageBudget.BudgetMeaning | packages/agent/xai-chat-state/src/image_budget.rs:155-182 | for every history: below the trigger or within the target nothing changes; otherwise exactly the oldest images are gone, at least one if there is any, and at most the shortfall is left above the target unless none is left |
| ImageBudget.BudgetSettles | packages/agent/xai-chat-state/src/image_budget.rs:155-182 | for every history and given limits: a second application evicts nothing if and only if the first ended below the trigger, at the target or without images; so when no user image is small, and when the shortfall keeps the target below the trigger |
| ImageBudget.SerializedBudget | packages/agent/xai-chat-state/src/image_budget.rs:155-229 | with clean URLs the bound is one on the serialized body itself |
| ImageBudget.ProductionSettles | packages/agent/xai-chat-state/src/image_budget.rs:140-148 | under the production texts and limits a history whose small images fall short by less than 22 MiB settles in one pass; up to 108,303 images always do |
| ClaudeRecords.Messages.constructor | bundled/skills/shared/resume-session/session_reader.py:443-451 | an ordered dictionary of records by uuid |
| ClaudeRecords.Messages.Pop | bundled/skills/shared/resume-session/session_reader.py:514-516 | drops exactly the given entries |
| ClaudeRecords.WithoutAt | bundled/skills/shared/resume-session/session_reader.py:514-516 | each entry that stays moves up by those that go before it |
| ClaudeRecords.ParentFields | bundled/skills/shared/resume-session/session_reader.py:421-426 | the parent is the first of the two fields that holds a non-empty string |
| ClaudeRecords.Messages.Reparent | bundled/skills/shared/resume-session/session_reader.py:429-432 | changes one entry's parent fields and nothing else |
| PreservedSegment.WalkPreserved | bundled/skills/shared/resume-session/session_reader.py:487-507 | the walk from tail to head finds the preserved set, or none when it leaves the table, cycles or misses the head |
| PreservedSegment.WalkMeaning | bundled/skills/shared/resume-session/session_reader.py:487-500 | the preserved set holds both ends, lies in the table and is closed under parents up to the head |
| PreservedSegment.WalkExactly | bundled/skills/shared/resume-session/session_reader.py:487-500 | the walk succeeds if and only if the head is in the table at or above the tail, and finds just the messages from the tail to the first place where the head stands |
| PreservedSegment.FindBoundaries | bundled/skills/shared/resume-session/session_reader.py:460-471 | the greatest index of a boundary and of a boundary with a segment, or -1 when there is none |
| PreservedSegment.RelinkInPlace | bundled/skills/shared/resume-session/session_reader.py:508-511 | relinking while iterating gives each message the parent the segment prescribes, from the original table |
| PreservedSegment.ApplyPreservedSegment | bundled/skills/shared/resume-session/session_reader.py:457-516 | untouched with a warning when metadata is incomplete or the head unreachable, untouched without one when there is no segment, else relinked and cut |
| PreservedSegment.PlanExactly | bundled/skills/shared/resume-session/session_reader.py:457-516 | by the last boundary and the last with a segment: nothing without a segment; a cut before the last boundary when that has none; a warning and nothing else exactly when its segment is incomplete or its head not above its tail; otherwise only the prescribed parents change and all before the boundary goes but the messages from tail to head |
| PreservedSegment.RelinkAcyclic | bundled/skills/shared/resume-session/session_reader.py:508-511 | relinking an acyclic table leaves it acyclic if and only if neither the anchor nor an ancestor of it is preserved |
| PreservedSegment.TailAsAnchorCycles | bundled/skills/shared/resume-session/session_reader.py:508-511 | two messages, the tail being its own anchor: acyclic before, cyclic after |
| PreservedSegment.DropAcyclic | bundled/skills/shared/resume-session/session_reader.py:514-516 | dropping messages creates no cycle |
| PreservedSegment.CutAcyclic | bundled/skills/shared/resume-session/session_reader.py:508-516 | relinking and then dropping unpreserved messages leaves an acyclic transcript acyclic if and only if no message at or above the anchor, among those left, is preserved |
| PreservedSegment.CutUntangles | bundled/skills/shared/resume-session/session_reader.py:508-516 | three messages: cyclic after relinking, acyclic after the cut |
| PreservedSegment.RelinkShape | bundled/skills/shared/resume-session/session_reader.py:508-516 | the head hangs below the anchor, every other former child of the anchor below the tail, which still leads to the head; all other messages are unchanged |
| PreservedSegment.PreservedSegmentApplied | bundled/skills/shared/resume-session/session_reader.py:457-516 | the segment of the last boundary of all, in an acyclic transcript, drops only unpreserved messages before that boundary, leaves an acyclic one if and only if its anchor is not tangled among those left, and then is in place |
| SnipRemoval.CollectRemoved | bundled/skills/shared/resume-session/session_reader.py:520-529 | the union of all removed uuids |
| SnipRemoval.AllRemovedMeaning | bundled/skills/shared/resume-session/session_reader.py:520-529 | a message is removed if and only if some record names it |
| SnipRemoval.Resolve | bundled/skills/shared/resume-session/session_reader.py:538-548 | terminates on cyclic maps; the answer is the plain walk's when that leaves the removed set and a removed uuid otherwise, and compression changes no walk |
| SnipRemoval.CompressSettled | bundled/skills/shared/resume-session/session_reader.py:546-547 | pointing a path straight at where it leads changes no walk, so the query order does not matter |
| SnipRemoval.CompressTrapped | bundled/skills/shared/resume-session/session_reader.py:546-547 | neither does pointing a cyclic path at one of its own |
| SnipRemoval.ApplySnipRemovals | bundled/skills/shared/resume-session/session_reader.py:519-553 | exactly the removed messages are gone, and every survivor is spliced |
| SnipRemoval.SplicedToNearest | bundled/skills/shared/resume-session/session_reader.py:550-553 | a survivor whose chain leaves the removed set hangs below its nearest surviving ancestor, and nothing else in it changes |
| SnipRemoval.NearestAbove | bundled/skills/shared/resume-session/session_reader.py:538-548 | the nearest survivor is the first of the original messages above that is not removed, or none where the chain ends first |
| SnipRemoval.EscapesExactly | bundled/skills/shared/resume-session/session_reader.py:538-548 | the plain walk never leaves the removed messages if and only if it starts in a set of them closed under parents |
| SnipRemoval.SplicedToRemoved | bundled/skills/shared/resume-session/session_reader.py:550-553 | it has a removed parent if and only if its chain never leaves the removed set, that is, its old parent lies in a closed set of removed messages |
| SnipRemoval.StepsAreOriginal | bundled/skills/shared/resume-session/session_reader.py:532-536 | walking the deleted parents is walking the original messages |
| SnipRemoval.CycleKeepsHold | bundled/skills/shared/resume-session/session_reader.py:538-548 | two removed messages that name each other never let go of the walk |
| SnipRemoval.SurvivorHeld | bundled/skills/shared/resume-session/session_reader.py:519-553 | a transcript of three messages whose survivor keeps a removed parent |
| TranscriptPreparation.PreservingAcyclic | bundled/skills/shared/resume-session/session_reader.py:457-516 | the first repair leaves an acyclic transcript acyclic if and only if its segment is not tangled among the messages left |
| TranscriptPreparation.SplicingPrepares | bundled/skills/shared/resume-session/session_reader.py:530-553 | splicing leaves an acyclic table with no survivor below a removed message if and only if every survivor's chain ended before it |
| TranscriptPreparation.PrepareMessages | bundled/skills/shared/resume-session/session_reader.py:452-454 | both repairs in a row, in place: which messages are left, how each is attached, when a warning is given, and the exact conditions under which each step leaves no cycle and no removed parent |
| ClaudeLeaf.FindLeaf | bundled/skills/shared/resume-session/session_reader.py:556-602 | the latest of the branch ends' nearest speakers, or of all speakers when there is none; the cycle warning is given if and only if some branch end climbs into a cycle without meeting a speaker |
| ClaudeLeaf.FindNearest | bundled/skills/shared/resume-session/session_reader.py:572-588 | the climb to the nearest speaking record terminates on cycles and reports exactly the climbs lost in one |
| ClaudeLeaf.LeafMeaning | bundled/skills/shared/resume-session/session_reader.py:556-602 | a leaf is found if and only if some record speaks; it speaks, and no choice is later: no branch end's speaker, nor any speaker when no branch end has one |
| ClaudeLeaf.NearestExactly | bundled/skills/shared/resume-session/session_reader.py:572-588 | the climb finds the first record that talks at or above its start, wherever there is one |
| ClaudeLeaf.LeafExactly | bundled/skills/shared/resume-session/session_reader.py:556-602 | the leaf is the last, by timestamp and then place, of the first talkers above records that are nobody's parent, or of all talkers when there is none |
| ClaudeLeaf.AcyclicUnwarned | bundled/skills/shared/resume-session/session_reader.py:572-582 | an acyclic transcript gives no warning |
| ClaudeChain.WalkChain | bundled/skills/shared/resume-session/session_reader.py:605-629 | chain and seen set agree, and the cycle warning is given if and only if the parent chain never ends |
| ClaudeChain.ChainMeaning | bundled/skills/shared/resume-session/session_reader.py:605-629 | on any table, a duplicate-free parent path that ends at the leaf and starts where no unvisited parent is left |
| ClaudeChain.ClimbCyclic | bundled/skills/shared/resume-session/session_reader.py:613-627 | the climb meets a repeat if and only if the chain is infinite |
| ParallelRecovery.RecoverParallel | bundled/skills/shared/resume-session/session_reader.py:632-692 | the grouping loop with its processed and seen sets computes the merged conversation, or fails; what stands where in it is `ParallelRecovery.RecoveredPlaced` |
| ParallelRecovery.SortedInOrder | bundled/skills/shared/resume-session/session_reader.py:676-681 | recovered records come in timestamp order |
| ParallelRecovery.BeforeMeaning | bundled/skills/shared/resume-session/session_reader.py:234-236 | that order: the lower timestamp, character by character, and of equal ones the record that stands first |
| ParallelRecovery.RecoveredPlaced | bundled/skills/shared/resume-session/session_reader.py:674-692 | after each chain record stands the next one; only after the last chain assistant of a non-empty message id its off-chain assistants come in between, all of them, and then all off-chain results below that id, each once and in order |
| ParallelRecovery.MergedDistinct | bundled/skills/shared/resume-session/session_reader.py:688-692 | nothing is shown twice |
| ParallelRecovery.MergedKeepsChain | bundled/skills/shared/resume-session/session_reader.py:688-692 | without the insertions the conversation is the chain, in order |
| ParallelRecovery.RecoversGroup | bundled/skills/shared/resume-session/session_reader.py:663-692 | every off-chain sibling of a non-empty message id and every off-chain result below the group is shown after the last chain assistant of that id, with no chain record in between |
| ParallelRecovery.FailsExactly | bundled/skills/shared/resume-session/session_reader.py:663-684 | the key error is raised if and only if the first chain assistant with an empty message id has an off-chain result |
| ParallelRecovery.EmptyIdFails | bundled/skills/shared/resume-session/session_reader.py:663-684 | one chain assistant with an empty message id and one off-chain result: the key error |
| TerminalInput.NextStable | desktop/comet/scripts/tui_capture.py:27-32 | more input never changes a decided token, except after the ESC of a half-read string terminator |
| TerminalInput.UntornCut | desktop/comet/scripts/tui_capture.py:83-132 | a cut that tears nothing leaves the operations and the carried bytes of the uncut stream |
| TerminalInput.TornCut | desktop/comet/scripts/tui_capture.py:83-132 | every torn cut is seen by some continuation |
| TerminalInput.CutUnseenExactly | desktop/comet/scripts/tui_capture.py:27-132 | a cut is unseen by every continuation if and only if it does not end inside the terminator of a control string with visible text |
| TerminalInput.TornTitle | desktop/comet/scripts/tui_capture.py:28-32 | the smallest torn cut: a skipped title becomes text |
| TerminalTokens.ControlToken | desktop/comet/scripts/tui_capture.py:27-97 | a control sequence is its parameters and its final byte, whatever follows |
| TerminalTokens.StringToken | desktop/comet/scripts/tui_capture.py:28-101 | a control string is skipped whole, ended by a BEL or by an ESC and a backslash |
| TerminalTokens.EscapeWaits | desktop/comet/scripts/tui_capture.py:32-92 | an escape waits exactly when it is an ESC, unended parameters or an unended string, a final line feed aside for the first two |
| TerminalTokens.OtherEscape | desktop/comet/scripts/tui_capture.py:103-104 | any other escape is two bytes |
| TerminalTokens.ControlByte | desktop/comet/scripts/tui_capture.py:105-112 | of the single control bytes the line feed and the carriage return act, the others are skipped |
| TerminalTokens.GroupBytes | desktop/comet/scripts/tui_capture.py:113-132 | the first byte of a glyph fixes its length; a whole group is painted, a part of one waits |
| TerminalTokens.EncodedGlyph | desktop/comet/scripts/tui_capture.py:113-132 | every encoded character from the space on is one glyph, wherever it stands (section 3 of RFC 3629) |
| ScreenStyle.XtermCube | desktop/comet/scripts/tui_capture.py:259-269 | the 216 cube indices give the colours of their three coordinates |
| ScreenStyle.PaletteValues | desktop/comet/scripts/tui_capture.py:259-269 | the sixteen named colours, the six levels of the cube and the greys |
| ScreenStyle.RgbRead | desktop/comet/scripts/tui_capture.py:190-190 | a colour of three bytes is a hash and three pairs of hexadecimal digits, read back |
| ScreenStyle.CodeAlone | desktop/comet/scripts/tui_capture.py:151-184 | code by code and field by field what each sets, and that every other field stays |
| ScreenStyle.CodesInTurn | desktop/comet/scripts/tui_capture.py:151-202 | codes act one after the other; an extended colour takes three or five numbers and sets one colour, and without enough numbers or with another mode it is passed over alone |
| ScreenStyle.OffCodesReset | desktop/comet/scripts/tui_capture.py:154-178 | turning everything off code by code is a reset, from any pen |
| ScreenStyle.CodesRendered | desktop/comet/scripts/tui_capture.py:151-202 | a look written as codes is read back exactly, from any pen |
| Screen.ErasedCells | desktop/comet/scripts/tui_capture.py:140-147 | cell by cell what each erasure blanks and keeps, cursor and pen included |
| Screen.LineMoves | desktop/comet/scripts/tui_capture.py:105-110 | a line feed goes one row down, not past the last, and a carriage return to the first column; nothing else changes |
| Screen.GlyphShows | desktop/comet/scripts/tui_capture.py:125-132 | a glyph changes the cell under the cursor to itself and the pen, and the cursor goes one column on or stays in the last |
| Screen.JumpMoves | desktop/comet/scripts/tui_capture.py:134-149 | a jump counts from one, takes one for a missing or zero number and stops at the edges; a rendition without numbers resets |
| Screen.FreshBlank | desktop/comet/scripts/tui_capture.py:71-80 | a new screen is blank and unstyled with the cursor in its first cell |
| Screen.Screen.constructor | desktop/comet/scripts/tui_capture.py:71-80 | a blank grid of the given size, cursor home, plain pen, nothing pending |
| Screen.Screen.Write | desktop/comet/scripts/tui_capture.py:126-131 | paints the cell under the cursor in the pen's style and moves right, stopping at the last column |
| Screen.Screen.Feed | desktop/comet/scripts/tui_capture.py:83-132 | performs the operations of the carried and new bytes and carries the undecided tail; cursor in the grid and dimensions kept |
| Screen.Screen.Escape | desktop/comet/scripts/tui_capture.py:89-104 | the escape branch consumes one token and performs it |
| Screen.Screen.Character | desktop/comet/scripts/tui_capture.py:105-132 | so do the line feed, carriage return, control and glyph branches |
| Screen.Screen.Csi | desktop/comet/scripts/tui_capture.py:134-149 | cursor position, erasures and renditions, other finals ignored |
| Screen.Screen.EraseLine | desktop/comet/scripts/tui_capture.py:144-147 | the loop blanks the cursor's row from the cursor on and nothing else |
| Screen.Screen.Sgr | desktop/comet/scripts/tui_capture.py:151-202 | the index loop, with its skips over extended colours, renders the whole list |
| Screen.FedTwice | desktop/comet/scripts/tui_capture.py:83-132 | two reads around an untorn cut are one read |
| Screen.ChunksAgree | desktop/comet/scripts/tui_capture.py:83-132 | any list of chunks without a torn cut leaves the grid, styles, cursor, pen and carried bytes of the whole stream |
| Screen.TornTitleShows | desktop/comet/scripts/tui_capture.py:83-132 | on every screen a title cut before its backslash paints a cell that the whole stream leaves alone |
| ScreenPatches.ParamsRead | desktop/comet/scripts/tui_capture.py:134-136 | numbers written as parameters are read back in order |
| ScreenPatches.FieldByField | desktop/comet/scripts/tui_capture.py:134-136 | between semicolons digits count as a number, and an empty field or one with a question mark is passed over |
| ScreenPatches.StreamPaints | desktop/comet/scripts/tui_capture.py:83-149 | a stream of "jump here, write that" writes exactly its cells, in order, and leaves nothing pending |
| ScreenPatches.RepaintReaches | desktop/comet/scripts/tui_capture.py:7-13 | patches that carry a wanted frame and cover every differing cell produce it |
| ScreenPatches.FrameReconstructed | desktop/comet/scripts/tui_capture.py:7-13 | so does reading their byte stream, however the reads cut it |
| SelectTurns.BudgetSplit | packages/agent/xai-grok-compaction/src/select.rs:77-90 | the backward scan with saturating sums finds the least index whose suffix fits |
| SelectTurns.SnapToSafeBoundary | packages/agent/xai-grok-compaction/src/select.rs:128-147 | advances to the first item from the candidate on that is no tool result |
| SelectTurns.SaturatingTotal | packages/agent/xai-grok-compaction/src/select.rs:105-109 | the saturating fold is the capped exact sum |
| SelectTurns.SelectTurnsToCompact | packages/agent/xai-grok-compaction/src/select.rs:60-119 | a plan is the least safe split with its capped prefix sum, at least the minimum; there is none exactly when all fits, no split is safe or the prefix is below the minimum |
| SelectTurns.FitsExactly | packages/agent/xai-grok-compaction/src/select.rs:79-90 | below the largest target the saturated comparison is the exact one; at the largest everything fits |
| SelectTurns.SnapIsLeast | packages/agent/xai-grok-compaction/src/select.rs:97-103 | snapping the least fitting split gives the least safe one, or shows there is none |
| SelectTurns.SplitKeepsPairs | packages/agent/xai-grok-compaction/src/select.rs:41-59 | a history obeys the contiguous-run rule exactly when both sides of a safe split do |
| SelectTurns.UnsafeSplitBreaksPairs | packages/agent/xai-grok-compaction/src/select.rs:41-59 | keeping from a tool result on always breaks the rule |
| Segments.FilenameParsed | packages/agent/xai-compaction-transcript/src/lib.rs:82-98 | every 64-bit index is read back from its file name |
| Segments.FilenamesDistinct | packages/agent/xai-compaction-transcript/src/lib.rs:82-89 | distinct indices never collide |
| Segments.LabelShape | packages/agent/xai-compaction-transcript/src/lib.rs:82-84 | a label is the index in digits, three of them or as many as it needs |
| Segments.ParsedExactly | packages/agent/xai-compaction-transcript/src/lib.rs:92-98 | a text reads as a number if and only if it is digits, with or without a plus in front, that name one of at most 64 bits |
| Segments.ParseSegmentExactly | packages/agent/xai-compaction-transcript/src/lib.rs:92-98 | a name parses to an index if and only if it is prefix, a number with an optional plus, suffix |
| Segments.SegmentExactly | packages/agent/xai-compaction-transcript/src/lib.rs:121-142 | a path is a segment if and only if it ends in `compaction/segment_N.md`, whatever stands before |
| Segments.PathRoundTrip | packages/agent/xai-compaction-transcript/src/lib.rs:82-142 | after any prefix, classifying the path of a segment gives its index |
| Segments.IndexClassified | packages/agent/xai-compaction-transcript/src/lib.rs:137-138 | the index file is recognized after any prefix |
| Segments.IndexExactly | packages/agent/xai-compaction-transcript/src/lib.rs:121-142 | a path is the index if and only if it ends in `compaction/INDEX.md` |
| Segments.DirExactly | packages/agent/xai-compaction-transcript/src/lib.rs:124-131 | a path is the store if and only if its last component is `compaction`, trailing slashes aside |
| SegmentRender.RenderTurns | packages/agent/xai-compaction-transcript/src/lib.rs:475-508 | a longest prefix of the turns that fits the budget, joined, and the notice with the exact number omitted when some are |
| SegmentRender.DocumentText | packages/agent/xai-compaction-transcript/src/lib.rs:497-508 | preamble, the kept turns, and the notice with the cap and the number left out when there are any |
| SegmentRender.JoinAt | packages/agent/xai-compaction-transcript/src/lib.rs:497-497 | each turn stands whole behind those before it, with one newline in front of every turn but the first |
| SegmentRender.BudgetIs | packages/agent/xai-compaction-transcript/src/lib.rs:480-483 | the turns get what preamble, notice and slack leave of the cap, or nothing |
| SegmentRender.KeepsLongest | packages/agent/xai-compaction-transcript/src/lib.rs:485-495 | the number of kept turns is the only one at which one more would not fit |
| SegmentRender.DocumentBytes | packages/agent/xai-compaction-transcript/src/lib.rs:475-508 | the exact byte length; at most the cap plus one byte per separator when preamble, notice and slack fit |
| SegmentRender.CapExceeded | packages/agent/xai-compaction-transcript/src/lib.rs:480-498 | one-byte turns that fill the budget outgrow the cap if and only if the budget exceeds the reserve |
| UsageLedger.BillExact | packages/agent/xai-chat-state/src/usage.rs:73-104 | every total and every per-model total is the exact sum of the entries folded into it, clamped to the field's range; counters always, costs of one sign or in range |
| UsageLedger.TotalsMatchModels | packages/agent/xai-chat-state/src/usage.rs:146-152 | totals equal the saturating sum over the models, in any order of them, under the same condition |
| UsageLedger.RunTotals | packages/agent/xai-chat-state/src/usage.rs:116-152 | both, for every field, after any run of operations |
| UsageLedger.RunCharged | packages/agent/xai-chat-state/src/usage.rs:45-152 | every field of the totals and of each model's total is the clamped sum of what the operations bring in for it: each token count of a call in its own field, one call, its duration, its cost if positive and otherwise a missing cost |
| UsageLedger.MainLoopAddable | packages/agent/xai-chat-state/src/usage.rs:45-62 | the condition holds for every counter, and for the costs of a run without subagents |
| UsageLedger.CostAbsentExactly | packages/agent/xai-chat-state/src/usage.rs:99-104 | the cost is absent if and only if no entry reported one |
| UsageLedger.NegativeTicksDisagree | packages/agent/xai-chat-state/src/usage.rs:99-104 | three entries: a total that saturated before a negative cost came differs from the sum of the models |
| CostArrangements.CostsAgreeExactly | packages/agent/xai-chat-state/src/usage.rs:99-104 | given the reported costs alone: total and models agree in every order, under all models and in every summation order if and only if the costs have one sign or neither their positive nor their negative sum overflows |
| CostArrangements.OffScaleDisagrees | packages/agent/xai-chat-state/src/usage.rs:99-104 | off that scale an arrangement that disagrees is constructed |
| CostArrangements.BillCost | packages/agent/xai-chat-state/src/usage.rs:99-104 | the total cost is the saturating sum in order of arrival |
| UsageLedger.MainLoopWithinCalls | packages/agent/xai-chat-state/src/usage.rs:120-130 | main-loop calls are counted exactly up to the cap and never exceed all model calls |
| UsageLedger.IncompleteExactly | packages/agent/xai-chat-state/src/usage.rs:132-144 | the ledger is incomplete if and only if some operation of the run said so |
| UsageLedger.PartialExactly | packages/agent/xai-chat-state/src/usage.rs:69-71 | the bill is partial if and only if some entry reported a cost and some call did not |
| UsageLedger.TotalTokensExact | packages/agent/xai-chat-state/src/usage.rs:65-67 | all tokens of the bill are their exact sum, capped once |
| UsageLedger.UsageLedger.constructor | packages/agent/xai-chat-state/src/usage.rs:106-114 | starts empty |
| UsageLedger.UsageLedger.RecordMainLoopCall | packages/agent/xai-chat-state/src/usage.rs:120-130 | one call folded in place: totals, its model, the main-loop count |
| UsageLedger.UsageLedger.RecordSubagent | packages/agent/xai-chat-state/src/usage.rs:132-140 | all entries folded in order, incomplete only ever set |
| UsageLedger.UsageLedger.SetIncomplete | packages/agent/xai-chat-state/src/usage.rs:142-144 | sets the mark and nothing else |
| UsageLedger.UsageLedger.FoldOne | packages/agent/xai-chat-state/src/usage.rs:146-152 | one entry into the totals and into its model, created when new |

## Left out

- Machine-width byte and token sums of the compaction and image code are unbounded naturals: a total beyond 64 bits is not modelled. The ledger, split selection and segment indices do model their widths.
- Token estimates are any non-negative function of an item; `estimate_item_tokens` itself is not part of this model.
- Parts of an item that these passes never look at are kept as opaque text; their own structure and serialization are not modelled.
- The alternate summary carrier, which the source does not compile in, and the wording of reminders, preambles and hints, which are parameters.
- Reading JSONL, sidechain filtering and scoping after the last plain boundary (`_prepare_claude_messages`), and rendering of transcripts: input, output and formatting.
- A record's uuid is the key it is stored under, as `_prepare_claude_messages` makes it; records with other uuids are not modelled.
- ParallelRecovery.RecoverParallel: the sibling and result dictionaries are selections over the table.
- The texts of the warnings, which are given as flags.
- Decoding a byte group to text with replacement characters: a cell holds the group, and decoding is a fixed function of it. Wide-glyph handling in `lines` and `runs`, the PTY driver and image rendering.
- Python's limit on the digits of an integer literal (over 4300 digits in one parameter).
- Screen.TornTitleShows: at the level of cells a torn cut may happen to paint what was there already, so the exact condition is stated for operations and carried bytes in `TerminalInput.CutUnseenExactly`.
- Screens with no rows or no columns, on which the source indexes out of range.
- The text of rendered turns, turn statistics, keywords and the index rows of a segment; `SegmentRender.RenderTurns` takes preamble and turn texts, and detail `None`, which stops after the preamble, is not modelled.
- SegmentRender.RenderTurns: the notice is written with its two numbers in place rather than by two textual replacements.
- The insertion order of the per-model index, which no total depends on.
- UsageLedger.RunTotals: for costs of both signs of which one sum overflows a single run may agree or not; that some arrangement of the same costs disagrees is `CostArrangements.OffScaleDisagrees`.
- The actor, its channels and persistence, policy defaults, keyword extraction and other filters over one item.
