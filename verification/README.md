# Verified kernels of the coding-agent workspace

Seven self-contained parts of the workspace, modelled in Dafny 4.11 and proved against
independent statements of what they are for.

- **Compaction** (`SummaryFormat`, `UserQuery`, `Conversation`, `Pairing`, `HistoryRepair`,
  `ChatHistory`, `CompactedHistory`, `Utf8Text`, `ItemSizes`, `BudgetFit`, `BudgetLimits`). A
  conversation is a list of items; a tool result must follow the assistant message that called
  for it. The strict rule (the contiguous run after its owner) and the lenient one (anywhere
  after) are stated by positions, and every scan, in-place pass and rebuild is proved against
  them. The summary cleaner is a string-rewriting system; its output is shown clean and a
  fixpoint.
- **Terminal waits** (`GridWait`, `StableWait`, `StyledRuns`). Feeder, resizer and waiter are
  a state machine of atomic steps in any order over the grid lock and the generation counter.
- **Code index** (`IndexEvents`, `IndexLoop`, `SharedIndex`, `SharedLoop`, `Interner`).
  Coalescing of file events refines single events; copy-on-write snapshots refine plain
  values, under the command loop too; the hash-bucketed arena refines a list of distinct
  strings.
- **Stream adapters and gateway** (`LineReader`, `Gateway`).
- **Crash blob** (`Utf8Decode`, `CrashFormat`, `CrashHandler`).
- **Usage ledger** (`UsageLedger`) and **segment documents** (`SegmentDoc`).

Code that updates state in place is a class or a method with loops, tied by its contract to a
specification function; what the function means is proved in lemmas about every input.

`dafny verify dfyconfig.toml` checks everything.

## Where the code and its comments differ

The model follows the code. Each point is a theorem about every input; most also have an
input that shows the difference.

- `repair_history` is documented as idempotent. It is, exactly when no message repeats a call
  id that its results leave unanswered (`HistoryRepair.RepairIdempotentIff`,
  `HistoryRepair.RepairNotIdempotentWitness`).
- An image-only prompt counts as a real user turn, yet compaction keeps only its (empty) text,
  so the turn is lost on rebuild; `CompactedHistory.CompactionFixpointIff` says which contexts
  come back (`CompactedHistory.ImagePromptIsLost`).
- Stripping is said to remove every block of a system tag. It does for every text in which
  no beginning of a tag stands directly before a block (`UserQuery.UnsplitIsStable`,
  `UserQuery.AnglesClosedIsStable`); a block in the middle of an earlier tag puts that tag
  together (`UserQuery.SplitTagIsNotStable`, `UserQuery.StrippedNotStableWitness`).
- Truncated text is said to stay within `max_bytes`; it does not with budgets under 57 bytes,
  nor when more bytes are dropped than the room for their count holds digits
  (`Utf8Text.TruncatedExceedsIff`).
- A conversation fitted to a token budget can exceed it, and fitting it again can change it:
  a system prompt over the budget, a last item that is not cut, arguments, images or several
  text parts that outweigh the budget, an owner dearer than it, or shares too small for the
  markers (`BudgetLimits.FitMeetsBudgetIff`, `BudgetLimits.RefitFixedIff`,
  `BudgetLimits.TinyBudgetWitness`).
- Cancelling a change against a removal is said to leave nothing to do; an entry from before
  the batch then stays (`IndexEvents.BatchRefinesIff`, `IndexEvents.DistinctAgreeIff`,
  `IndexEvents.CancelKeepsStaleEntry`). Names are lossy renderings of paths, and files that
  collide there overwrite each other in the order of a hash map
  (`IndexEvents.OrderIrrelevantIff`, `IndexEvents.CollidingNamesDisagree`).
- A resize after the feeder has exited announces nothing, so an outcome can say that a
  condition was never met over a screen that meets it: exactly when such a resize came
  between the last check and the snapshot and the last change in between meets the condition
  (`GridWait.EndedMeansNeverMet`, `GridWait.LateResizeIsMissed`).
- The styled view keeps combining characters under a drawn cursor, the plain view does not
  (`StyledRuns.ViewsAgreeIff`, `StyledRuns.AccentUnderCursor`).
- The segment document is said to stay within its cap; the separators between turns are not
  charged (`SegmentDoc.WholeDocumentExceedsIff`, `SegmentDoc.CutDocumentExceedsIff`,
  `SegmentDoc.ManySmallTurnsExceed`). Up to 75 turns it does (`SegmentDoc.FewTurnsWithinCap`).

## Model

| member | source | states |
|---|---|---|
| SummaryFormat.FormatCompactSummary | crates/codegen/xai-chat-state/src/compaction_utils.rs:625-663 | the source's loops compute the rewriting specified by `FormatSummary`, on every string; the loops end. What that rewriting keeps and drops is in the rows below |
| SummaryFormat.SummaryEndsBeforeAnalysis | crates/codegen/xai-chat-state/src/compaction_utils.rs:628-629 | the text between a `<summary>` and a later `<analysis>` is a valid slice: the two tags never overlap |
| SummaryFormat.FormatIsClean | crates/codegen/xai-chat-state/src/compaction_utils.rs:658-662 | no output holds one of the six control tokens or three newlines in a row, and it is trimmed |
| SummaryFormat.CleanIsFixed | crates/codegen/xai-chat-state/src/compaction_utils.rs:625-663 | text that is already clean comes back unchanged |
| SummaryFormat.FormatIdempotent | crates/codegen/xai-chat-state/src/compaction_utils.rs:625-663 | formatting twice is formatting once, for every string |
| SummaryFormat.DefuseCreatesNothing | crates/codegen/xai-chat-state/src/compaction_utils.rs:687-698 | defusing one control token never makes an occurrence of another |
| SummaryFormat.NeutralizeAllClears | crates/codegen/xai-chat-state/src/compaction_utils.rs:691-698 | after the six replacements in their order no token is left |
| SummaryFormat.CollapseClears | crates/codegen/xai-chat-state/src/compaction_utils.rs:659-661 | the newline loop ends only once no three newlines stand in a row |
| SummaryFormat.CollapseCreatesNothing | crates/codegen/xai-chat-state/src/compaction_utils.rs:659-661 | shortening newline runs creates no control token |
| SummaryFormat.LeadingScratchpadDropped | crates/codegen/xai-chat-state/src/compaction_utils.rs:627-638 | a closed leading `<analysis>` block is dropped whole wherever it stands: the text before and after it is formatted as if it had not been there |
| SummaryFormat.NumberedSummaryKept | crates/codegen/xai-chat-state/src/compaction_utils.rs:649-686 | a summary block that leads with a numbered section keeps its body whole, whatever tags a later section quotes and whatever text stands before and after the block |
| SummaryFormat.SummaryBlockKept | crates/codegen/xai-chat-state/src/compaction_utils.rs:649-686 | every summary block that opens on no scratchpad keeps its body, whatever stands around it: whole when it leads with a numbered section or quotes no `</analysis>`, otherwise what follows the last one; a leftover `<summary>` at the front goes, nothing else |
| SummaryFormat.LeadsIff | crates/codegen/xai-chat-state/src/compaction_utils.rs:628-631 | when an `<analysis>` counts as leading, in terms of the text before and after it |
| SummaryFormat.UnclosedScratchpadDropped | crates/codegen/xai-chat-state/src/compaction_utils.rs:640-646 | an unclosed leading `<analysis>` goes with everything up to the next `<summary>`, or to the end |
| SummaryFormat.PlainTextKept | crates/codegen/xai-chat-state/src/compaction_utils.rs:625-663 | without a scratchpad and without a whole summary block nothing is cut |
| SummaryFormat.NeutralizeReadsSame | crates/codegen/xai-chat-state/src/compaction_utils.rs:691-698 | neutralizing adds zero-width spaces and changes no other character |
| SummaryFormat.CollapseIsSqueezed | crates/codegen/xai-chat-state/src/compaction_utils.rs:659-661 | the repeated replacement leaves two newlines of every longer row, and everything else, as one scan would |
| UserQuery.StripSystemTagsLoop | crates/codegen/xai-chat-state/src/compaction_utils.rs:259-274 | the nested find-and-remove loops compute `StripSystemTags` |
| UserQuery.StripTagLeavesNoBlock | crates/codegen/xai-chat-state/src/compaction_utils.rs:264-271 | after one tag's loop no opening of it is followed by its close |
| UserQuery.StripTagTakesBlock | crates/codegen/xai-chat-state/src/compaction_utils.rs:264-271 | the first block of a tag is taken out with everything in it, and the text before and after it stays |
| UserQuery.SystemBlockGoes | crates/codegen/xai-chat-state/src/compaction_utils.rs:259-274 | the first block of any system tag, behind text without `<`, goes whole, and what stands around it is stripped as if it had not been there, whatever follows; so a text of blocks in a row strips to what is between them |
| UserQuery.QueryPartOfWrapped | crates/codegen/xai-chat-state/src/compaction_utils.rs:280-287 | from a text with a query wrapper exactly what stands in it is extracted, whatever stands before the opening and after the close |
| UserQuery.QueryPartOfUnwrapped | crates/codegen/xai-chat-state/src/compaction_utils.rs:280-288 | without an opening, or without a close behind the first, the whole text is taken |
| UserQuery.PlainTurnIsReal | crates/codegen/xai-chat-state/src/compaction_utils.rs:328-368 | a typed turn without tags is real unless it is blank or one of the two continuation texts; a synthetic one never is |
| UserQuery.QueryRoundTrip | crates/codegen/xai-chat-state/src/compaction_utils.rs:280-289 | extracting a wrapped query gives it back if and only if it is trimmed, has no block of a system tag and holds no closing query tag |
| UserQuery.StrippedFixedIff | crates/codegen/xai-chat-state/src/compaction_utils.rs:259-274 | stripping leaves a text alone if and only if it is trimmed and no system tag opens with its close behind it |
| UserQuery.UnsplitIsStable | crates/codegen/xai-chat-state/src/compaction_utils.rs:253-289 | every text in which no beginning of a system tag stands directly before a block of one extracts to a query without blocks, which a second stripping leaves alone |
| UserQuery.AnglesClosedIsStable | crates/codegen/xai-chat-state/src/compaction_utils.rs:253-289 | in particular every text whose angle brackets are each closed before the next opens |
| UserQuery.SplitTagIsNotStable | crates/codegen/xai-chat-state/src/compaction_utils.rs:262-272 | for every earlier tag, every later one and every place in the opening: a block of the later there gives a query that still holds a block of the earlier |
| UserQuery.StrippedNotStableWitness | crates/codegen/xai-chat-state/src/compaction_utils.rs:262-272 | one such text: a `git_status` block inside a `user_info` opening |
| Pairing.ValidateCompactedHistory | crates/codegen/xai-chat-state/src/compaction_utils.rs:881-900 | the scan reports exactly the ids of results without an owner anywhere before them |
| Pairing.SanitizeCompactedHistory | crates/codegen/xai-chat-state/src/compaction_utils.rs:917-944 | the scan keeps all but those results, and returns exactly the ids that validation reports |
| Pairing.StrictPassKeepsExactlyPaired | crates/codegen/xai-chat-state/src/compaction_utils.rs:996-1022 | stated by positions: the strict pass keeps, in order, every item but the results outside the contiguous run of their owner, and reports the rest |
| Pairing.LenientPassKeepsExactlyPaired | crates/codegen/xai-chat-state/src/compaction_utils.rs:917-944 | stated by positions: sanitizing keeps every item but the results with no owner before them |
| Pairing.StrictIffNothingDisplaced | crates/codegen/xai-chat-state/src/compaction_utils.rs:996-1022 | a history is strictly paired exactly when the strict pass strips nothing |
| Pairing.ValidIffLenient | crates/codegen/xai-chat-state/src/compaction_utils.rs:872-900 | validation returns nothing exactly when every result has an owner before it |
| Pairing.StrictIsLenient | crates/codegen/xai-chat-state/src/compaction_utils.rs:985-995 | the contiguous-run rule implies the anywhere-before rule |
| Pairing.StrictPassRepairs | crates/codegen/xai-chat-state/src/compaction_utils.rs:996-1022 | the strict pass leaves a strict history, changes only non-strict ones, and is idempotent |
| Pairing.SanitizerRepairs | crates/codegen/xai-chat-state/src/compaction_utils.rs:917-944 | sanitizing leaves a history that validates, is a no-op on valid ones, and on what the strict pass leaves |
| HistoryRepair.RepairFixesExactlyInvalid | crates/codegen/xai-chat-state/src/compaction_utils.rs:964-984 | repair leaves a history alone if and only if providers accept it: results right after their owner, every call answered, none twice |
| HistoryRepair.RepairedIsValidIff | crates/codegen/xai-chat-state/src/compaction_utils.rs:964-984 | the repaired history is acceptable if and only if no message repeats a call id its results leave unanswered |
| HistoryRepair.RepairIdempotentIff | crates/codegen/xai-chat-state/src/compaction_utils.rs:969-984 | repairing twice is repairing once under exactly that condition; the source's comment claims it always |
| HistoryRepair.RepairNotIdempotentWitness | crates/codegen/xai-chat-state/src/compaction_utils.rs:969-984 | one message calling one id twice, unanswered: the first repair adds two results and a second takes one back |
| HistoryRepair.RepairPairsAndAnswers | crates/codegen/xai-chat-state/src/compaction_utils.rs:964-984 | whatever the history was, after repair every result follows its owner and every call is answered |
| HistoryRepair.RepairIsBlockwise | crates/codegen/xai-chat-state/src/compaction_utils.rs:970-984 | the three passes over the whole history do the same as repairing each owner's run on its own |
| HistoryRepair.LastOnlyFacts | crates/codegen/xai-grok-sampling-types/src/conversation.rs:2911-2966 | deduplication keeps the answered ids, leaves them distinct, and changes only runs with duplicates |
| HistoryRepair.LastOnlyKeepsLast | crates/codegen/xai-grok-sampling-types/src/conversation.rs:2931-2956 | stated by positions: of a run of results exactly those stay, in order, that no later result for the same call supersedes |
| HistoryRepair.DedupKeepsLast | crates/codegen/xai-grok-sampling-types/src/conversation.rs:2911-2966 | the same for the whole history: all items stay, in order, but results superseded by a later one in the run of the same owner |
| HistoryRepair.MissingInOrder | crates/codegen/xai-grok-sampling-types/src/conversation.rs:2816-2826 | the inserted results are for exactly the unanswered calls, in call order, each naming its call and its tool |
| HistoryRepair.RepairRunKeepsLast | crates/codegen/xai-chat-state/src/compaction_utils.rs:970-984 | after repair an owner's run holds, in order, the last result of each of its calls that has one, then the inserted ones |
| HistoryRepair.MissingDistinct | crates/codegen/xai-grok-sampling-types/src/conversation.rs:2784-2844 | the inserted results are distinct exactly when repeated call ids were already answered |
| ChatHistory.History.DedupDuplicateToolResults | crates/codegen/xai-grok-sampling-types/src/conversation.rs:2911-2966 | the in-place pass keeps the last of several results for one call and counts what it removed |
| ChatHistory.History.StripDisplacedToolResults | crates/codegen/xai-chat-state/src/compaction_utils.rs:996-1022 | the in-place strict pass: kept items and stripped ids |
| ChatHistory.History.RepairDanglingToolCalls | crates/codegen/xai-grok-sampling-types/src/conversation.rs:2784-2844 | collecting insertions forward and applying them backward yields the specified history; the count is the growth |
| ChatHistory.History.RepairHistory | crates/codegen/xai-chat-state/src/compaction_utils.rs:956-984 | runs the three passes; the report says `changed` exactly when the history changed |
| ChatHistory.HasDanglingToolCalls | crates/codegen/xai-grok-sampling-types/src/conversation.rs:2854-2883 | true exactly when some message's calls are not all answered in its run |
| ChatHistory.FindRepairs | crates/codegen/xai-grok-sampling-types/src/conversation.rs:2784-2844 | the forward scan records insertion points whose application is the backfilled history |
| ChatHistory.EarlierDuplicates | crates/codegen/xai-grok-sampling-types/src/conversation.rs:2911-2966 | the positions marked are exactly those superseded by a later result for the same call |
| ChatHistory.PassesIdleIff | crates/codegen/xai-chat-state/src/compaction_utils.rs:956-984 | repair changes nothing exactly when each pass reports nothing |
| ChatHistory.NoDanglingAfterRepair | crates/codegen/xai-grok-sampling-types/src/conversation.rs:2854-2883 | no call dangles after repair, and backfilling is a no-op exactly when none did |
| CompactedHistory.RebuiltContext | crates/codegen/xai-chat-state/src/compaction_utils.rs:444-464 | for every input: recent messages always come back from the rebuilt history, the query as what extraction makes of its wrapper |
| CompactedHistory.CompactionFixpointIff | crates/codegen/xai-chat-state/src/compaction_utils.rs:570-580 | rebuilding the context from the compacted history gives it back if and only if the query is absent, or not synthetic, trimmed, and free of system-tag blocks and of the closing query tag |
| CompactedHistory.CompactionOfConversation | crates/codegen/xai-chat-state/src/compaction_utils.rs:828-863 | the same for the context of any conversation |
| CompactedHistory.CompactionOfOwnText | crates/codegen/xai-chat-state/src/compaction_utils.rs:828-863 | in terms of the user's own text: when it splits no tag, the context comes back exactly if its query is not synthetic and holds no closing query tag, and always for text alone without a bare closing tag |
| CompactedHistory.CompactionOfClosedText | crates/codegen/xai-chat-state/src/compaction_utils.rs:828-863 | a typed prompt whose angle brackets are closed one after the other comes back |
| CompactedHistory.ImagePromptIsLost | crates/codegen/xai-chat-state/src/compaction_utils.rs:350-371 | a prompt that is only an image anchors the first compaction with an empty query, and is no real user turn afterwards |
| CompactedHistory.TailOfStrictIsStrict | crates/codegen/xai-chat-state/src/compaction_utils.rs:444-464 | extracting the messages since the last real user turn keeps strict pairing |
| CompactedHistory.CompactedPairsIff | crates/codegen/xai-chat-state/src/compaction_utils.rs:828-863 | the compacted history is strictly paired exactly when the messages it carries are |
| CompactedHistory.CompactedHistoryValidates | crates/codegen/xai-chat-state/src/compaction_utils.rs:828-900 | compacting a strictly paired conversation gives a history that validates |
| CompactedHistory.CompactedLayout | crates/codegen/xai-chat-state/src/compaction_utils.rs:828-863 | item by item: system prompt, prefix, instructions, wrapped query, recent messages, one meta item that is the preamble, the cleaned summary and the hint, and the reminder |
| CompactedHistory.TailInOrder | crates/codegen/xai-chat-state/src/compaction_utils.rs:444-464 | the recent messages are, in order, the assistant messages unchanged and the tool results emptied, and nothing else |
| Conversation.JoinInOrder | crates/codegen/xai-grok-sampling-types/src/conversation.rs:1142-1150 | joining keeps every text whole at its offset, in order, one newline between each two |
| Conversation.TextsInOrder | crates/codegen/xai-grok-sampling-types/src/conversation.rs:1142-1150 | the texts joined are those of the text parts, in order |
| Utf8Text.TruncateTextToBytes | crates/codegen/xai-chat-state/src/compaction_utils.rs:225-240 | stepping back byte by byte finds the cut and the marked text; nothing is cut when the text fits |
| Utf8Text.PrefixEndsAtLargestBoundary | crates/codegen/xai-chat-state/src/compaction_utils.rs:229-233 | the cut is the largest character boundary (UTF-8, section 3 of RFC 3629) within the budget less 64, and wastes at most three bytes |
| Utf8Text.TruncatedReads | crates/codegen/xai-chat-state/src/compaction_utils.rs:225-240 | a cut text reads as its kept prefix and the marker with the number of bytes left out; one that fits is unchanged |
| Utf8Text.BoundaryIffWholeCharacters | crates/codegen/xai-chat-state/src/compaction_utils.rs:231-233 | a byte position is a boundary exactly when it ends a prefix of whole characters, so the slice is valid |
| Utf8Text.TruncatedWithinBudget | crates/codegen/xai-chat-state/src/compaction_utils.rs:223-240 | the result is at most `max_bytes` long (or 64) when fewer than 10^8 bytes are dropped |
| Utf8Text.TruncatedExceedsIff | crates/codegen/xai-chat-state/src/compaction_utils.rs:223-240 | for every text and budget, when a cut text is longer than `max_bytes`: always below 57 bytes, and otherwise exactly when the bytes dropped have more digits than the room left for them |
| Utf8Text.RetruncatedFixedIff | crates/codegen/xai-chat-state/src/compaction_utils.rs:225-240 | truncating a truncated text changes nothing exactly when it ended within the budget, or the text was 58 bytes long and the budget smaller |
| ItemSizes.TruncateItemToTokens | crates/codegen/xai-chat-state/src/compaction_utils.rs:196-222 | each kind of item is cut as specified, structural fields untouched |
| ItemSizes.CutResultCost | crates/codegen/xai-chat-state/src/compaction_utils.rs:196-222 | a cut result costs at most its tokens, or 16, and what its marker takes beyond the reserve, which is nothing below 10^8 bytes (`NoExcessIff`) |
| ItemSizes.EstimateByBytes | crates/codegen/xai-chat-state/src/actor/state.rs:40-79 | an item costs one token for every four whole bytes of its counted text, and 765 for each image |
| ItemSizes.NoExcessIff | crates/codegen/xai-chat-state/src/compaction_utils.rs:196-222 | the tokens that bound adds for a marker are none exactly when the text is under 10^8 bytes |
| ItemSizes.AssistantFitsIff | crates/codegen/xai-chat-state/src/compaction_utils.rs:205-210 | when cutting an assistant message brings it within its tokens, from the lengths of its text and its arguments |
| ItemSizes.UserFitsIff | crates/codegen/xai-chat-state/src/compaction_utils.rs:211-219 | when cutting a user message brings it within its tokens, from its images and its text parts, each cut to the whole budget |
| ItemSizes.CutOnceIff | crates/codegen/xai-chat-state/src/compaction_utils.rs:196-222 | for each kind of item, when cutting it twice is cutting it once |
| BudgetFit.FitConversationToBudget | crates/codegen/xai-chat-state/src/compaction_utils.rs:128-161 | the source's loops compute `Fit`, whose result the rows of `BudgetLimits` characterize |
| BudgetFit.RecoverTruncatedTailUnit | crates/codegen/xai-chat-state/src/compaction_utils.rs:163-194 | popping results and truncating them computes `RecoverTail` |
| BudgetFit.CutIsLongestFit | crates/codegen/xai-chat-state/src/compaction_utils.rs:139-150 | for any cost function the cut starts the longest suffix that fits what the system prompt leaves |
| BudgetLimits.FitKeepsLongest | crates/codegen/xai-chat-state/src/compaction_utils.rs:139-156 | over budget with some turn fitting, the result is the system prompt and a suffix of the body that fits what the prompt leaves and starts at no result, and every earlier such suffix costs more |
| BudgetLimits.FitRecovers | crates/codegen/xai-chat-state/src/compaction_utils.rs:157-194 | when no turn fits, the result is the system prompt and the last item cut to the rest, or the final results in order, each cut to the largest equal share of what their owner leaves, behind that owner |
| BudgetLimits.FitWithinIsWhole | crates/codegen/xai-chat-state/src/compaction_utils.rs:128-138 | within budget the conversation comes back unchanged |
| BudgetFit.SuffixFitsBudget | crates/codegen/xai-chat-state/src/compaction_utils.rs:151-156 | the kept suffix costs at most the budget or the system prompt alone, and never starts with a tool result |
| BudgetFit.FitIsFixed | crates/codegen/xai-chat-state/src/compaction_utils.rs:128-161 | while some turn fits, fitting the result again changes nothing, whatever the system prompt costs |
| BudgetFit.RecoveredTailCost | crates/codegen/xai-chat-state/src/compaction_utils.rs:163-194 | the recovered results cost at most their owner plus the rest of the budget, or 16 tokens each where that is more, and the excess of their markers |
| BudgetFit.TokenSizingIsSound | crates/codegen/xai-chat-state/src/actor/state.rs:50-82 | the source's estimator and cutter meet the conditions the budget theorems ask for |
| BudgetLimits.RecoveryIff | crates/codegen/xai-chat-state/src/compaction_utils.rs:139-160 | the tail is recovered exactly when the last turn with its results costs more than the system prompt leaves, or there is no turn before the results |
| BudgetLimits.SuffixFitsIff | crates/codegen/xai-chat-state/src/compaction_utils.rs:151-156 | while some turn fits, the result is within the budget exactly when the system prompt is |
| BudgetLimits.FitMeetsBudgetIff | crates/codegen/xai-chat-state/src/compaction_utils.rs:126-194 | for every conversation and budget, when the fitted conversation is within the budget, read off the conversation before it is cut |
| BudgetLimits.UncuttableTailFitsIff | crates/codegen/xai-chat-state/src/compaction_utils.rs:218-222 | with a last system message, reasoning item or backend call, exactly when the system prompt and that item fit by themselves |
| BudgetLimits.ResultRunFits | crates/codegen/xai-chat-state/src/compaction_utils.rs:176-194 | a final run of results: never within budget under a dearer owner, decided by text lengths for shares under 16 tokens, always within budget for larger shares and no excess |
| BudgetLimits.RefitFixedIff | crates/codegen/xai-chat-state/src/compaction_utils.rs:126-194 | for every conversation and budget, when fitting a second time changes nothing |
| BudgetLimits.TinyBudgetWitness | crates/codegen/xai-chat-state/src/compaction_utils.rs:182-194 | a 100-byte assistant text and a budget of one token: the result exceeds the budget, and fitting it again changes it |
| BudgetFit.LastItemKept | crates/codegen/xai-chat-state/src/compaction_utils.rs:126-194 | the last item is never dropped, only its text cut |
| BudgetFit.RecoveredTailIsStrict | crates/codegen/xai-chat-state/src/compaction_utils.rs:163-194 | truncated-tail recovery keeps strict pairing |
| BudgetFit.FitKeepsStrict | crates/codegen/xai-chat-state/src/compaction_utils.rs:128-161 | both ways of shrinking keep strict pairing, so the result validates |
| GridWait.NoLostWakeup | crates/codegen/ptyctl/src/wait.rs:97-128 | in every interleaving a waiter parked on a grid that meets its condition can be woken, unless the change is still unannounced or came from a resize after the feeder left; with a live sender and nothing pending its last check saw the current grid |
| GridWait.ParkedCanMatch | crates/codegen/ptyctl/src/wait.rs:97-128 | from every reachable state with a waiter parked on a grid that meets its condition the run can go on to a match on that grid, whatever is pending; the one exception is a resize that found the sender gone |
| GridWait.AnnouncementsComeAtOnce | crates/codegen/ptyctl/src/session.rs:159-172 | in every reachable state a painted but unannounced change has its announcing step, the feeder's and the resizer's alike, and after it a parked waiter can be woken or ends |
| GridWait.FedWaiterMatches | crates/codegen/ptyctl/src/session.rs:166-171 | a run that ends in the feeder painting a grid that meets the condition goes on by bump, wake, mark, lock and check to the match, with no resize under way |
| GridWait.WakesOnlyOnBump | crates/codegen/ptyctl/src/wait.rs:97-123 | in every run the generation is the one marked and the announcements since, and a parked waiter wakes exactly when there was one |
| GridWait.FreeLockIsTaken | crates/codegen/ptyctl/src/session.rs:272-283 | with the lock free feeder and resizer can paint and announce, and this is all they change |
| GridWait.DeadlineEnds | crates/codegen/ptyctl/src/wait.rs:124-126 | a parked waiter can always end at its deadline, with the screen of that moment |
| GridWait.EndedMeansNeverMet | crates/codegen/ptyctl/src/wait.rs:117-121 | an `ended` outcome fails the condition on the screen it shows if and only if no resize found the sender gone between the last check and the snapshot, or no change came in between, or the last one fails the condition; a match met it |
| GridWait.ScreenIsLastChange | crates/codegen/ptyctl/src/wait.rs:117-128 | the screen of an outcome is the one last painted between the check and the snapshot, or the one checked |
| GridWait.LateIsCounted | crates/codegen/ptyctl/src/session.rs:272-283 | in every run the count of late resizes an outcome records is the number of such steps |
| GridWait.LateResizeIsMissed | crates/codegen/ptyctl/src/session.rs:272-283 | that exception is real: a resize after the feeder exited bumps nothing, and the outcome says never met over a screen that meets the condition |
| GridWait.RunKeepsInv | crates/codegen/ptyctl/src/session.rs:159-172 | lock ownership, generation order and the currency of the last check hold after every step of every run |
| StableWait.WaitStable | crates/codegen/ptyctl/src/wait.rs:132-165 | a match comes only after a whole window since the call and since every processed bump, ending by the deadline; a miss only at the deadline; once the sender is gone at most one more turn |
| StableWait.RawTail.Push | crates/codegen/ptyctl/src/wait.rs:202-213 | the tail is the last 2048 bytes of everything pushed so far |
| IndexEvents.BatchRefinesIff | crates/codegen/xai-codebase-graph/src/index_manager.rs:1133-1161 | in every order of its map a coalesced batch has the effect of its events one at a time, if and only if at each touched name the paths left agree with the name's last event, and a name with no path left had no entry |
| IndexEvents.DistinctAgreeIff | crates/codegen/xai-codebase-graph/src/index_manager.rs:1545-1569 | when no two files share a name, that condition is that no path whose change was cancelled by a removal had an entry before |
| IndexEvents.OrderIrrelevantIff | crates/codegen/xai-codebase-graph/src/index_manager.rs:1136-1161 | the order in which the event map is walked does not matter exactly when the paths left under one name agree |
| IndexEvents.CollidingNamesDisagree | crates/codegen/xai-codebase-graph/src/index_manager.rs:1136-1161 | two files rendered to one name that read differently do not agree |
| IndexEvents.CoalescedKind | crates/codegen/xai-codebase-graph/src/index_manager.rs:1545-1569 | a path left in the map has the effect of its last event; one that is not ended on a removal |
| IndexEvents.CancelledIff | crates/codegen/xai-codebase-graph/src/index_manager.rs:1545-1569 | a touched path is not in the map exactly when its last two changes are a creation or modification and its removal; otherwise its kind acts as the last change |
| IndexEvents.RenameMoves | crates/codegen/xai-codebase-graph/src/index_manager.rs:1531-1537 | after a rename with two paths the new name holds what the disk reads for the new path, the old name nothing unless it is the same, and every other name what it held |
| IndexEvents.EventRereads | crates/codegen/xai-codebase-graph/src/index_manager.rs:1539-1541 | after any other event each name it lists holds what the disk reads for it, or nothing when it was removed; other names are untouched |
| IndexEvents.ApplyAllAt | crates/codegen/xai-codebase-graph/src/index_manager.rs:1182-1249 | applied singly, only the last event of each name counts |
| IndexEvents.CancelKeepsStaleEntry | crates/codegen/xai-codebase-graph/src/index_manager.rs:1554-1557 | an indexed file changed and deleted within one batch keeps its stale entry |
| IndexLoop.CoalescedEvents.Insert | crates/codegen/xai-codebase-graph/src/index_manager.rs:1545-1569 | the map update is the specified coalescing |
| IndexLoop.CoalescedEvents.Add | crates/codegen/xai-codebase-graph/src/index_manager.rs:1531-1543 | the event goes into the map as the touches whose effect `RenameMoves` and `EventRereads` state |
| IndexLoop.CoalescedEvents.Drain | crates/codegen/xai-codebase-graph/src/index_manager.rs:844-868 | exactly the file commands pending behind a single event are collected, none behind a batch |
| IndexLoop.IndexManager.ApplyCoalesced | crates/codegen/xai-codebase-graph/src/index_manager.rs:1133-1161 | walking the map in any order applies each left path once |
| IndexLoop.IndexManager.ProcessCommandCoalesced | crates/codegen/xai-codebase-graph/src/index_manager.rs:838-878 | one command and those it drains become one batch, flushed before the command that ended the drain |
| IndexLoop.IndexManager.RunLoop | crates/codegen/xai-codebase-graph/src/index_manager.rs:797-820 | the loop over a queue, however it is cut, is a run of such groups, and equals single-event processing when every batch is safe |
| IndexLoop.GroupedRefinesSingle | crates/codegen/xai-codebase-graph/src/index_manager.rs:830-868 | for every grouping of every queue, every query sees the index that single events would have given |
| IndexLoop.EventCommandEffect | crates/codegen/xai-codebase-graph/src/index_manager.rs:853-878 | what one file event does to the index and to nothing else, name by name |
| IndexLoop.BatchCommandEffect | crates/codegen/xai-codebase-graph/src/index_manager.rs:865-874 | a batch command is its events one after the other |
| IndexLoop.RefreshEffect | crates/codegen/xai-codebase-graph/src/index_manager.rs:1100-1127 | after a refresh stale names hold what the disk reads, deleted ones nothing, others what they held |
| IndexLoop.QueryAnswers | crates/codegen/xai-codebase-graph/src/index_manager.rs:879-882 | a query is answered with the index of its time, in order, and no later command changes the answer |
| IndexLoop.RebuildAndShutdown | crates/codegen/xai-codebase-graph/src/index_manager.rs:875-951 | a rebuild replaces the index; after a shutdown no command has an effect |
| SharedIndex.Manager.MakeMut | crates/codegen/xai-codebase-graph/src/index_manager.rs:557-561 | afterwards no one else holds the manager's cell; no snapshot changes |
| SharedIndex.Manager.Apply | crates/codegen/xai-codebase-graph/src/index_manager.rs:1182-1256 | an update changes the manager's index and no held snapshot |
| SharedIndex.Run | crates/codegen/xai-codebase-graph/src/index_manager.rs:879-882 | over every run of updates, rebuilds, snapshots and releases the reference-counted index behaves like one that copies values |
| SharedIndex.SnapshotsDoNotMatter | crates/codegen/xai-codebase-graph/src/index_manager.rs:557-561 | the manager's index does not depend on which snapshots are taken and released |
| SharedIndex.SnapshotKeepsItsTime | crates/codegen/xai-codebase-graph/src/index_manager.rs:879-882 | as long as it is held a snapshot shows the index of the time it was taken, whatever is changed, taken or released around it |
| SharedLoop.RunShared | crates/codegen/xai-codebase-graph/src/index_manager.rs:797-882 | the command loop over the shared cells: the snapshots its queries hand out equal, at the end of every run of every grouping, the answers of the loop by value, and under a safe grouping those of single events |
| Interner.StringInterner.InternBytes | crates/codegen/xai-codebase-graph/src/interner.rs:119-144 | with room, interning appends a new string or finds its id, for any hash function; an id reads back as its string exactly when 16 bits hold the length |
| Interner.StringInterner.GetBytesId | crates/codegen/xai-codebase-graph/src/interner.rs:157-168 | lookup succeeds exactly on interned strings, with their id |
| Interner.StringInterner.GetBytes | crates/codegen/xai-codebase-graph/src/interner.rs:180-184 | ids below the count read back as their strings, others as nothing |
| Interner.StringInterner.Clear | crates/codegen/xai-codebase-graph/src/interner.rs:254-258 | afterwards the interner represents no strings |
| Interner.StringInterner.FromParts | crates/codegen/xai-codebase-graph/src/interner.rs:283-303 | rebuilt from arena and offsets it represents the same list, so it answers the same |
| Interner.StringInterner.InternAll | crates/codegen/xai-codebase-graph/src/interner.rs:119-191 | over any sequence that fits, ids are equal exactly when strings are, and all read back |
| Interner.InterningAppends | crates/codegen/xai-codebase-graph/src/interner.rs:119-144 | ids stay stable, strings stay distinct, and exactly the interned strings are found |
| Interner.ReadsBackIff | crates/codegen/xai-codebase-graph/src/interner.rs:132-138 | a string stored at the end of the arena reads back exactly when its length fits in 16 bits |
| Interner.PushIndexes | crates/codegen/xai-codebase-graph/src/interner.rs:140-141 | a new id in its hash bucket keeps the buckets exact, collisions included |
| LineReader.ReadLineCapped | crates/codegen/xai-acp-lib/src/line_reader.rs:140-177 | however the source is chunked, the result is the next line, the end, a fault, or that the line is over-long |
| LineReader.LineBufferedRead.ReadOne | crates/codegen/xai-acp-lib/src/line_reader.rs:68-85 | one turn of the task sends the next line or ends; nothing is lost in the channel |
| LineReader.LineBufferedRead.PollRead | crates/codegen/xai-acp-lib/src/line_reader.rs:96-132 | bytes served are the next ones of the lines, none lost or repeated; zero only at the end for a non-empty buffer; pending only between lines |
| LineReader.Run | crates/codegen/xai-acp-lib/src/line_reader.rs:62-132 | over every chunking and every interleaving of task and consumer, with buffers of any sizes, the consumer gets a prefix of the lines' bytes, and all of them once it sees the end or an error |
| LineReader.LinesAreTheSource | crates/codegen/xai-acp-lib/src/line_reader.rs:68-85 | the lines concatenate to the source up to the first over-long line or fault, and to all of it without one |
| LineReader.LinesEndInNewline | crates/codegen/xai-acp-lib/src/line_reader.rs:140-177 | every line but the very last ends in its only newline and is within the cap |
| LineReader.ErrorsIff | crates/codegen/xai-acp-lib/src/line_reader.rs:140-177 | a line is over-long exactly when no newline stands within the cap of a longer rest; a fault shows exactly when no newline comes before it |
| LineReader.FaultIsReported | crates/codegen/xai-acp-lib/src/line_reader.rs:72-84 | a faulting source always ends in an error, a sound one never in a fault |
| Gateway.RequestsConserved | crates/codegen/xai-acp-lib/src/gateway.rs:315-335 | in every run each accepted request is exactly one of queued, in flight, answered or lost; dispatch is in order and at most once |
| Gateway.ResultsMean | crates/codegen/xai-acp-lib/src/channel.rs:34-59 | a response comes from a completed handler; `SendFailed` means never enqueued; `RecvFailed` means enqueued and never handled to the end |
| Gateway.ResponseIsItsHandlers | crates/codegen/xai-acp-lib/src/gateway.rs:122-142 | in every run the response a caller gets is the one the handler of its own request gave; a failed send means that the loop was gone, a failed receive that the loop or the task was |
| Gateway.OrdersAreTheRuns | crates/codegen/xai-acp-lib/src/gateway.rs:172-230 | requests are accepted in the order of their sends, every one while the loop lives, and completed in the order of the handlers' ends |
| Gateway.SendHasOutcome | crates/codegen/xai-acp-lib/src/channel.rs:46-51 | a send is at once either enqueued last or reported as failed |
| Gateway.LossIsReported | crates/codegen/xai-acp-lib/src/channel.rs:53-58 | when the loop ends or a task is dropped, the callers of its requests learn of it |
| Gateway.DrainedBatchIsHandled | crates/codegen/xai-acp-lib/src/gateway.rs:337-347 | when every completion of a batch has been received, every handler of it completed |
| Gateway.SettledStays | crates/codegen/xai-acp-lib/src/gateway.rs:122-142 | an answer or its loss is final and results are never replaced |
| Gateway.NoCallerStuck | crates/codegen/xai-acp-lib/src/channel.rs:34-59 | while a caller listens, its request can always advance |
| Gateway.ListenerCanBeAnswered | crates/codegen/xai-acp-lib/src/channel.rs:34-59 | from every state the run can go on to a result for a listening caller: any response its handler gives, unless it is lost or answered already |
| Gateway.RunKeepsInv | crates/codegen/xai-acp-lib/src/gateway.rs:144-176 | queue, phases and results stay consistent over every run |
| Utf8Decode.DecodeEncoded | crates/codegen/xai-crash-handler/src/format.rs:74-78 | decoding inverts UTF-8 encoding (section 3 of RFC 3629) |
| Utf8Decode.DecodedIsEncoded | crates/codegen/xai-crash-handler/src/format.rs:74-78 | nothing but encoded text is accepted |
| CrashFormat.WriteHeader | crates/codegen/xai-crash-handler/src/format.rs:126-153 | every header field lands at its documented place, and nothing beyond the header changes |
| CrashFormat.WriteFrame | crates/codegen/xai-crash-handler/src/format.rs:160-163 | eight little-endian bytes at the offset, nothing else |
| CrashFormat.WriteBlob | crates/codegen/xai-crash-handler/src/handler.rs:367-376 | header and frames fill the buffer as laid out; the size is what is written |
| CrashFormat.ParseBlob | crates/codegen/xai-crash-handler/src/format.rs:49-111 | the parser's branches and frame loop |
| CrashFormat.ParseInvertsWrite | crates/codegen/xai-crash-handler/src/format.rs:49-163 | parsing gives back every field and frame written, whatever follows in the file |
| CrashFormat.ParsesIff | crates/codegen/xai-crash-handler/src/format.rs:49-84 | exactly which byte sequences parse |
| CrashFormat.ParsedIsWritten | crates/codegen/xai-crash-handler/src/format.rs:49-111 | whatever parses holds its header and frames where the writer puts them |
| CrashFormat.VersionSurvives | crates/codegen/xai-crash-handler/src/format.rs:74-78 | a version of at most 32 bytes without trailing NULs comes back whole |
| CrashHandler.WalkFramePointers | crates/codegen/xai-crash-handler/src/handler.rs:155-185 | the walk collects the specified addresses or faults |
| CrashHandler.WalkClimbs | crates/codegen/xai-crash-handler/src/handler.rs:155-185 | it visits strictly increasing, aligned pointers above the first page, takes the address stored beside each, and stops only at `max`, at a pointer that does not climb or is implausible, or at a return address in the first page |
| CrashHandler.WalkFaultsIff | crates/codegen/xai-crash-handler/src/handler.rs:155-185 | the walk faults exactly when, within `max` frames, the climbing chain comes to a plausible pointer that cannot be read |
| CrashHandler.WriteCrashBlob | crates/codegen/xai-crash-handler/src/handler.rs:356-393 | after each completed write the file parses, starts with the crash address, and the early frames are a prefix of the later; a fault while walking leaves the first write |
| CrashHandler.TornRewriteParsesIff | crates/codegen/xai-crash-handler/src/handler.rs:384-391 | when only part of the second write reaches the file it parses exactly if the new frame count did not, or everything did |
| UsageLedger.UsageLedger.FoldOne | crates/codegen/xai-chat-state/src/usage.rs:140-146 | folds into the totals and into the model's entry, in order of first use |
| UsageLedger.UsageLedger.RecordMainLoopCall | crates/codegen/xai-chat-state/src/usage.rs:114-124 | one call counted and folded |
| UsageLedger.UsageLedger.RecordSubagent | crates/codegen/xai-chat-state/src/usage.rs:127-134 | every entry folded, main-loop calls untouched, incompleteness kept |
| UsageLedger.UsageLedger.MarkAsIncomplete | crates/codegen/xai-chat-state/src/usage.rs:136-138 | sets the flag and nothing else |
| UsageLedger.LedgerCountsEveryFold | crates/codegen/xai-chat-state/src/usage.rs:71-91 | in every reachable ledger each model's counter is the saturated sum of what was folded for it, each total of everything |
| UsageLedger.LedgerCountsEveryCall | crates/codegen/xai-chat-state/src/usage.rs:45-146 | each counter, in all and for each model, is the saturated sum of what the main-loop calls and subagent entries themselves say |
| UsageLedger.CallsAndFlag | crates/codegen/xai-chat-state/src/usage.rs:114-138 | main-loop calls are counted one by one; the ledger is incomplete exactly when some step said so |
| UsageLedger.ModelsInFirstUseOrder | crates/codegen/xai-chat-state/src/usage.rs:140-146 | the breakdown lists the models once each, in the order of their first use |
| UsageLedger.TotalsMatchBreakdown | crates/codegen/xai-chat-state/src/usage.rs:102-146 | each total is the saturated sum over the models, and main-loop calls never exceed calls |
| UsageLedger.CostAlwaysMatchesIff | crates/codegen/xai-chat-state/src/usage.rs:93-98 | the merged cost is the saturated sum of the models' costs after every fold of a run, if and only if no fold pulls a sum back from beyond 64 bits or saturates a model against the others; without negative costs none does |
| UsageLedger.CostExactInRange | crates/codegen/xai-chat-state/src/usage.rs:93-98 | while no running cost sum, in all or for one model, leaves 64 bits, whatever the signs: the total is the plain sum of the reported costs, each model's its own, and the total is the sum over the models |
| UsageLedger.SaturatedCostBreaksMatch | crates/codegen/xai-chat-state/src/usage.rs:93-98 | one subagent's entries that saturate the total and then take it back leave a total that is not the sum over the models |
| UsageLedger.IncompleteSticks | crates/codegen/xai-chat-state/src/usage.rs:107-138 | the incompleteness flag is never taken back |
| SegmentDoc.RenderTurns | crates/codegen/xai-chat-state/src/compaction_transcript.rs:484-506 | the budget loop and the notice compute `Document` |
| SegmentDoc.LongestPrefixKept | crates/codegen/xai-chat-state/src/compaction_transcript.rs:484-495 | the kept turns are the longest prefix of whole turns within the budget |
| SegmentDoc.DocumentReads | crates/codegen/xai-chat-state/src/compaction_transcript.rs:484-506 | the document reads as the preamble, the kept turns joined, and, when turns are left out, the notice with their number |
| SegmentDoc.TurnPlaced | crates/codegen/xai-chat-state/src/compaction_transcript.rs:484-506 | every kept turn stands whole in the document, at its offset |
| SegmentDoc.DocumentWithinCap | crates/codegen/xai-chat-state/src/compaction_transcript.rs:478-506 | the document exceeds the cap by at most the separators between kept turns, which are not charged |
| SegmentDoc.WholeDocumentExceedsIff | crates/codegen/xai-chat-state/src/compaction_transcript.rs:478-506 | with all turns kept it exceeds the cap exactly when preamble, turns and separators together do |
| SegmentDoc.CutDocumentExceedsIff | crates/codegen/xai-chat-state/src/compaction_transcript.rs:478-506 | with turns omitted behind a preamble that leaves room, it does exactly when the separators and the digits of the omitted count outgrow 74 bytes and what the budget had over |
| SegmentDoc.NoRoomExceedsIff | crates/codegen/xai-chat-state/src/compaction_transcript.rs:478-506 | behind a preamble without that room only empty turns are kept, and the exact condition is on preamble, separators and notice alone |
| SegmentDoc.FewTurnsWithinCap | crates/codegen/xai-chat-state/src/compaction_transcript.rs:478-506 | up to 75 turns keep within the cap behind any preamble that leaves room for the notice |
| SegmentDoc.SeventySixTurnsExceed | crates/codegen/xai-chat-state/src/compaction_transcript.rs:478-506 | 75 turns that use the budget up and one omitted exceed it by a byte |
| SegmentDoc.ManySmallTurnsExceed | crates/codegen/xai-chat-state/src/compaction_transcript.rs:478-506 | 400,000 one-byte turns give a document of 799,999 bytes |
| SegmentDoc.DocumentSize | crates/codegen/xai-chat-state/src/compaction_transcript.rs:497-506 | its exact size: preamble, kept turns, separators and notice; kept and omitted are all turns |
| SegmentDoc.NoticeFits | crates/codegen/xai-chat-state/src/compaction_transcript.rs:478-482 | the filled-in notice fits the room reserved for it |
| SegmentDoc.FilenameRoundTrip | crates/codegen/xai-chat-state/src/compaction_transcript.rs:81-97 | a segment's index comes back from its file name, for every index |
| SegmentDoc.LabelIsPadded | crates/codegen/xai-chat-state/src/compaction_transcript.rs:81-83 | labels are padded to three digits and otherwise plain decimals |
| StyledRuns.ExtractStyledLine | crates/codegen/ptyctl/src/styled.rs:91-163 | the loop's runs are the coalesced form of the line, less trailing blank runs |
| StyledRuns.OnlyBlankRunsGo | crates/codegen/ptyctl/src/styled.rs:151-157 | exactly the trailing runs go that hold only whitespace, without colours and not bold; the last run kept shows something |
| StyledRuns.RunsOfExpand | crates/codegen/ptyctl/src/styled.rs:106-148 | the coalesced form spells exactly the line's characters and styles, and neighbouring runs differ in style |
| StyledRuns.CoalescedUnique | crates/codegen/ptyctl/src/styled.rs:106-148 | a styled line has exactly one coalesced form |
| StyledRuns.ScreenLine | crates/codegen/ptyctl/src/term.rs:260-303 | the plain text of one row, trimmed at the right |
| StyledRuns.ViewsAgreeIff | crates/codegen/ptyctl/src/styled.rs:119-146 | styled and plain view show the same characters if and only if no drawn cursor covers combining characters |
| StyledRuns.AccentUnderCursor | crates/codegen/ptyctl/src/styled.rs:119-146 | one accented cell under a drawn cursor: the styled view shows the accent, the plain view does not |
| StyledRuns.RunsReadAsText | crates/codegen/ptyctl/src/styled.rs:150-157 | dropping blank runs loses only trailing whitespace, so the runs read as the plain text |

## Left out

- Process and operating-system plumbing: PTY spawning, signal registration, terminal modes, file descriptors, real memory. Memory is a partial function and files are byte sequences.
- HTTP, WebSocket and command-line code, session registry files, logging and tracing.
- The index manager's `spawn` loop over the weak per-root registry, cache files and the background refresh thread; a refresh command itself is modelled.
- Tree-sitter extraction, the terminal emulator's grid, regular expressions and condition text search: abstract functions (`World.extract`, grids and conditions as parameters).
- Symbol tables, aliases and the order of occurrences inside the index: an entry is one value per file name.
- Real time and fairness: discrete clocks and any order of steps; safety, and that a next step exists, but not that it is taken.
- `is_bootstrap_reminder_text` and the alternate summary carrier, which this build compiles to constants.
- `strip_reasoning_blocks`, `strip_images`, `truncate_trailing_incomplete_tool_call`, `bound_captured_output` and `is_degenerate_summary`: one filter or comparison each.
- Fields of items and of the compaction context that none of these functions read (model ids, todos, running tasks).
- Turn rendering, statistics, `with_thousands`, keyword extraction and HTML templates: only byte-exact text. The rendered turns are parameters of `SegmentDoc`.
- Wrap-around of the generation counter and of reference counts, and overflow of token sums; the interner's and the ledger's integer widths are modelled.
- `FxHasher` itself: the interner is proved for every hash function.
- GridWait.RunKeepsInv: one waiter and one resize call at a time; further waiters only read the same lock and counter, and resize calls exclude each other by the lock.
- UserQuery.UnsplitIsStable: one direction, since a beginning that nothing completes does no harm; that every opening of an earlier tag, split anywhere by a later one and completed, does is `SplitTagIsNotStable`.
- Interner.StringInterner.InternAll: asks for strings under 2^16 bytes and an arena and count under 2^32; beyond that the source truncates silently, as `InternBytes` and `ReadsBackIff` state.
- BudgetFit.RecoveredTailCost: an upper bound for the results branch; the exact condition for every branch is `BudgetLimits.FitMeetsBudgetIff`, in terms of where each text is cut when its share is 16 tokens or more.
- CrashHandler.WalkFramePointers: an address near the top of memory whose second word would wrap around is not modelled.
