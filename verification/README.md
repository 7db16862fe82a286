# Verification of the ds-build conversation core

This project models four components of ds-build in Dafny and proves what they
guarantee:

- **Conversation compaction, repair and budget fitting**
  (`crates/codegen/ds-chat-state/src/compaction_utils.rs`, with the passes it calls
  in `crates/codegen/ds-sampling-types/src/conversation.rs` and the estimator in
  `crates/codegen/ds-chat-state/src/actor/state.rs`): cleaning the summary the model
  wrote, recovering the user's query, building the compacted history, enforcing the
  pairing of tool calls and tool results, and shrinking a history to a token budget.
- **The cancel-safe line reader** (`crates/codegen/ds-acp-lib/src/line_reader.rs`):
  the capped line reader, `poll_read`, and the whole system of producer, bounded
  channel and consumer as a state machine over freely interleaved steps.
- **The subagent list against the lookup it summarises**
  (`crates/codegen/ds-agent/src/discovery.rs`).
- **The segment store** (`crates/codegen/ds-chat-state/src/compaction_transcript.rs`):
  file names and paths, and rendering under a byte cap.

`dafny verify dfyconfig.toml` checks everything.

## Layout

| file | holds |
|---|---|
| Text.dfy | substring search, replacement, trimming, and the laws of `<`-led tokens |
| Utf8.dfy, Decimal.dfy | UTF-8 (section 3 of RFC 3629) and decimal printing and parsing |
| Summary.dfy, SummaryKept.dfy, SummaryScratch.dfy, SummaryPlain.dfy | `format_compact_summary`: what never survives, what always does, scratchpads in front of a summary, and everything else |
| Queries.dfy, QueryBlocks.dfy | query extraction; what stripping metadata blocks leaves |
| Compaction.dfy, CompactionPairing.dfy | the compacted history, compaction as a fixpoint; what the validator finds in it |
| Conversation.dfy, Pairing.dfy | conversation items; validate, sanitize, strip |
| Positions.dfy | positions picked out of a sequence, with which filters are specified |
| Repair.dfy, RepairLaws.dfy, RepairMeaning.dfy | `repair_history` and its three passes; what is left of a block, by position |
| Budget.dfy, Truncation.dfy | truncation and `fit_conversation_to_budget`; the size of a truncated text |
| BudgetLaws.dfy, BudgetMeaning.dfy, BudgetSize.dfy, BudgetFixpoint.dfy | what fitting keeps, which items and texts it returns, what the result costs, when fitting again changes nothing |
| LineReader.dfy, LineProtocol.dfy, LineProgress.dfy | the capped line reader; the reader as a protocol: safety, then progress |
| Discovery.dfy, Subagents.dfy | definitions on disk and lookups; the merged list |
| Segments.dfy | segment paths; segment rendering |

Loops of the source are methods proved against a function that says what they
compute; the laws are lemmas about those functions. Strings are sequences of
characters; where the source counts bytes, the model counts the bytes of the UTF-8
encoding.

## Where code and documentation disagree

The model follows the code. Each point has a lemma with the exact condition.

- `format_compact_summary` is documented to preserve a summary that leads with a
  numbered section "even when it quotes `</analysis>`". Behind a scratchpad that was
  never closed the quoted tag is taken for its end, and the summary is lost up to the
  quote: `SummaryScratch.NumberedSummaryIsLost`. The exact condition is
  `SummaryScratch.BodyIsKeptIff`.
- `strip_system_tags` is documented to remove every block of every tag. Removing an
  inner block can join the halves of a tag that was passed over before:
  `QueryBlocks.JoinedBlockRemains`. Each single tag is stripped completely
  (`QueryBlocks.StripTagStrips`), and all of them are where no `<` opens inside another
  (`QueryBlocks.StripSystemTagsStrips`).
- `repair_history` is documented as idempotent. A turn that declares one call id
  twice and has no result for it gets two synthetic results, and the next repair
  removes one: `RepairLaws.SecondRepairIsQuietIff`, `RepairLaws.RepairIsNotIdempotent`.
  A third repair never finds anything: `RepairLaws.TwoRepairsSuffice`.
- `merge_subagents` is documented to keep "visible == callable". Two families of
  files break it: a user or bundled file named after a built-in that is no subagent is
  listed, but the name runs the built-in (`Subagents.HiddenDefinitionIsListed`); and a
  file whose frontmatter name differs from its file name is listed under the one and
  found under the other (`Subagents.MisnamedFileIsListed`). The exact condition is
  `Subagents.VisibleIsCallableIff`. The comments speak of three subagent built-ins; the
  code lists six.
- `truncate_text_to_bytes` is documented to stay within `max_bytes`. Below 64 bytes the
  marker alone can be longer, and from 64 on it outgrows its reserve once the dropped
  count prints in nine digits: `Truncation.TruncationWithinBudget`,
  `Truncation.TruncationOverruns`.
- `fit_conversation_to_budget` is documented to shrink to `max_tokens`. A user turn is
  truncated text by text, so two texts of the full budget stay as they are at twice the
  limit (`BudgetSize.TwoTextsOverrun`); the exact condition is `BudgetSize.FitFitsIff`.
  Fitting the result again to the same limit can cut its marker once more
  (`BudgetFixpoint.FitIsNotIdempotent`), exactly unless
  `BudgetFixpoint.FitIsIdempotentIff` says otherwise.
- `render_segment_md` reserves room "so the rendered doc stays under the cap", but
  the separators between turns are not charged and the preamble is never cut:
  `SegmentRender.TruncatedDocumentSize`, `SegmentRender.CapIsExceeded`,
  `SegmentRender.WholeCapIsExceeded`, `SegmentRender.LongPreambleExceeds`.

## Model

| member | source | states |
|---|---|---|
| Text.TokensDisjoint | crates/codegen/ds-chat-state/src/compaction_utils.rs:635-708 | two control tokens never overlap, so the slice bounds between matches are in range |
| Summary.SummaryBeforeAnalysis | crates/codegen/ds-chat-state/src/compaction_utils.rs:638-641 | the slice between a summary tag and a later analysis tag is in range |
| Summary.DropLeadingAnalysis | crates/codegen/ds-chat-state/src/compaction_utils.rs:636-657 | the scratchpad loop terminates and computes StripAnalysis |
| Summary.CollapseBlankLines | crates/codegen/ds-chat-state/src/compaction_utils.rs:669-671 | the newline loop terminates and computes CollapseNewlines |
| Summary.FormatCompactSummary | crates/codegen/ds-chat-state/src/compaction_utils.rs:635-673 | the result holds none of the six control tokens and no triple newline, and cleaning it again changes nothing |
| Summary.DefuseRemoves | crates/codegen/ds-chat-state/src/compaction_utils.rs:701-708 | defusing one token removes it and brings no other token into being |
| Summary.NeutralizeRemoves | crates/codegen/ds-chat-state/src/compaction_utils.rs:701-708 | after all replacements none of the listed tokens is left and none has appeared |
| Summary.NewlinesJoinNoToken | crates/codegen/ds-chat-state/src/compaction_utils.rs:669-671 | removing newlines never joins the halves of a token |
| Summary.CleanIsInert | crates/codegen/ds-chat-state/src/compaction_utils.rs:635-673 | for every input the cleaned text is trimmed and free of control tokens and triple newlines |
| Summary.CleanIsIdempotent | crates/codegen/ds-chat-state/src/compaction_utils.rs:635-673 | cleaning is idempotent on every input |
| Summary.CollapseIsSqueeze | crates/codegen/ds-chat-state/src/compaction_utils.rs:669-671 | replacing triples until none is left equals one pass that caps every newline run at two |
| SummaryScratch.BodyIsKeptIff | crates/codegen/ds-chat-state/src/compaction_utils.rs:635-696 | a body that is numbered, whatever tags it quotes, or that closes no scratchpad and opens no second wrapper, is unwrapped whole whatever stands around it, exactly unless a scratchpad left open in front of the wrapper finds a closing tag behind it |
| SummaryScratch.BodySurvivesIff | crates/codegen/ds-chat-state/src/compaction_utils.rs:635-696 | then every character of heading and body but newlines survives cleaning in order, and with nothing else around only then |
| SummaryScratch.UnclosedScratchpadIff | crates/codegen/ds-chat-state/src/compaction_utils.rs:642-657 | behind one scratchpad that is never closed, such a summary survives exactly when it quotes no closing tag |
| SummaryScratch.OpenScratchpadSwallows | crates/codegen/ds-chat-state/src/compaction_utils.rs:646-650 | if it does, the result is that of the text behind the quoted tag alone |
| SummaryScratch.NumberedSummaryIsLost | crates/codegen/ds-chat-state/src/compaction_utils.rs:632-650 | a concrete numbered summary that is lost up to the tag it quotes |
| SummaryScratch.CleanAddsNoInk | crates/codegen/ds-chat-state/src/compaction_utils.rs:635-673 | for every input, cleaning adds no visible character |
| SummaryKept.InnerWrapperGoes | crates/codegen/ds-chat-state/src/compaction_utils.rs:692-696 | a second wrapper right inside the first goes with it |
| SummaryPlain.NumberedIff | crates/codegen/ds-chat-state/src/compaction_utils.rs:684-688 | a body is numbered exactly if a digit comes first behind nothing but heading, list and quote marks |
| SummaryPlain.InnerScratchpadGoes | crates/codegen/ds-chat-state/src/compaction_utils.rs:638-648 | a closed scratchpad that opens the body, blanks aside, leaves no trace |
| SummaryPlain.BlankScratchpadGoes | crates/codegen/ds-chat-state/src/compaction_utils.rs:637-648 | nor does one behind nothing but blanks, whatever follows |
| SummaryPlain.OpenScratchpadTakesAll | crates/codegen/ds-chat-state/src/compaction_utils.rs:650-656 | one that is never closed, with no summary behind it, takes everything with it |
| SummaryPlain.VisibleTextStops | crates/codegen/ds-chat-state/src/compaction_utils.rs:640-645 | text in front of the first scratchpad and no summary: nothing is stripped |
| SummaryPlain.NoWrapperStays | crates/codegen/ds-chat-state/src/compaction_utils.rs:659-668 | a summary tag that is never closed is no wrapper |
| SummaryPlain.PlainTextSurvives | crates/codegen/ds-chat-state/src/compaction_utils.rs:635-673 | text that opens neither a scratchpad nor a summary keeps every character but newlines in order |
| SummaryPlain.CleanHoldsNoTag | crates/codegen/ds-chat-state/src/compaction_utils.rs:697-708 | none of the six tags, by name, ever survives |
| SummaryKept.ScratchpadIsPeeled | crates/codegen/ds-chat-state/src/compaction_utils.rs:674-696 | a scratchpad up to the last closing tag is dropped whole from an unnumbered body that opens no tag at once, even if it quotes the closing tag mid-reasoning |
| SummaryKept.NumberedSummaryIsKept | crates/codegen/ds-chat-state/src/compaction_utils.rs:635-696 | cleaning a wrapped numbered summary is exactly heading, defused tokens and squeezed newlines |
| SummaryKept.NumberedSummarySurvives | crates/codegen/ds-chat-state/src/compaction_utils.rs:635-696 | every character of it other than newlines survives in order, and nothing comes in between but zero-width spaces |
| SummaryKept.ScratchpadVanishes | crates/codegen/ds-chat-state/src/compaction_utils.rs:637-657 | a closed scratchpad in front of any text leaves no trace in the result |
| Queries.RemoveBlocks | crates/codegen/ds-chat-state/src/compaction_utils.rs:272-282 | the loop over one tag terminates and removes its blocks |
| Queries.RemoveSystemTags | crates/codegen/ds-chat-state/src/compaction_utils.rs:269-284 | the loop over all tags computes StripSystemTags |
| Queries.StripTagFixed | crates/codegen/ds-chat-state/src/compaction_utils.rs:265-282 | text is left alone exactly when no opening tag is followed by its closing tag; otherwise it shrinks |
| Queries.StripSystemTagsFixed | crates/codegen/ds-chat-state/src/compaction_utils.rs:269-284 | stripping is the identity exactly on trimmed text without a closed block |
| Queries.ExtractWithoutWrapper | crates/codegen/ds-chat-state/src/compaction_utils.rs:286-299 | a message without a closed query wrapper is stripped whole |
| Queries.ExtractFromWrapper | crates/codegen/ds-chat-state/src/compaction_utils.rs:286-299 | of any other message only what the first wrapper holds is read |
| Queries.StripTagCuts | crates/codegen/ds-chat-state/src/compaction_utils.rs:272-282 | removing a block joins what stands before and behind it and touches nothing else |
| Queries.ExtractOfWrap | crates/codegen/ds-chat-state/src/compaction_utils.rs:290-299 | a query reads back from its wrapper exactly when it is trimmed, never closes the wrapper and holds no closed metadata block |
| Queries.ExtractShrinks | crates/codegen/ds-chat-state/src/compaction_utils.rs:290-299 | reading a query back from its wrapper gives the query or something strictly shorter |
| QueryBlocks.StripTagStrips | crates/codegen/ds-chat-state/src/compaction_utils.rs:272-282 | for every text, stripping one tag leaves no closed block of it |
| QueryBlocks.StripSystemTagsStrips | crates/codegen/ds-chat-state/src/compaction_utils.rs:265-284 | where no angle bracket opens inside another, no block of any tag is left |
| QueryBlocks.JoinedBlockRemains | crates/codegen/ds-chat-state/src/compaction_utils.rs:265-284 | a concrete text in which a block of an earlier tag is joined and stays |
| Compaction.LastRealUserIsLast | crates/codegen/ds-chat-state/src/compaction_utils.rs:401-407 | the boundary found is the last real user turn |
| Compaction.RealTurnCases | crates/codegen/ds-chat-state/src/compaction_utils.rs:344-380 | injected turns are never real, turns with an image always, others exactly if they ask something |
| Compaction.TextOfParts | crates/codegen/ds-sampling-types/src/conversation.rs:1143-1154 | the texts of a turn are read one per line, images aside |
| Compaction.ContextMeaning | crates/codegen/ds-chat-state/src/compaction_utils.rs:401-474 | the state is what the last real turn asked and the condensed items behind it |
| Compaction.ContextWithoutTurn | crates/codegen/ds-chat-state/src/compaction_utils.rs:401-474 | without a real turn there is no query and everything is condensed |
| Compaction.CondensedItems | crates/codegen/ds-chat-state/src/compaction_utils.rs:454-474 | condensing keeps assistant turns whole and results as placeholders, in order, and drops the rest |
| Compaction.WrappedIsReal | crates/codegen/ds-chat-state/src/compaction_utils.rs:338-380 | a rebuilt query turn counts as real exactly when what it reads back as is not synthetic |
| Compaction.SummaryTurnIsInert | crates/codegen/ds-chat-state/src/compaction_utils.rs:838-848 | whatever the model wrote, no live control token lies before the transcript hint, and behind a line break there is one exactly if the hint holds one |
| Compaction.BuildCompactedHistory | crates/codegen/ds-chat-state/src/compaction_utils.rs:838-873 | the pushes build preface, query, recent messages, summary and reminder in that order |
| Compaction.HistoryByPosition | crates/codegen/ds-chat-state/src/compaction_utils.rs:838-873 | what stands where: system message, prefix, instructions, wrapped query, recent messages, the turn with the cleaned summary and hint, reminder |
| Compaction.CompactionFixpoint | crates/codegen/ds-chat-state/src/compaction_utils.rs:580-590 | reading the state back gives the same recent messages always, the same query exactly when it survives, and otherwise what extracting the rebuilt turn gives |
| Compaction.RepeatedCompaction | crates/codegen/ds-chat-state/src/compaction_utils.rs:580-590 | with a query that survives, the captured state never changes over any chain of compactions |
| Compaction.CompactionSettles | crates/codegen/ds-chat-state/src/compaction_utils.rs:580-590 | with any query, it stops changing after at most one compaction more than the query has characters |
| CompactionPairing.CompactionReportsExactly | crates/codegen/ds-chat-state/src/compaction_utils.rs:454-474 | for every conversation, validation of the compacted history reports exactly the results that no turn since the last real user turn declares, in order |
| CompactionPairing.CompactedIsContigIff | crates/codegen/ds-chat-state/src/compaction_utils.rs:454-474 | for every conversation, the compacted history is contiguous exactly when every result kept answers the nearest turn before it |
| CompactionPairing.SpanningPairIsKept | crates/codegen/ds-chat-state/src/compaction_utils.rs:439-474 | a call and its result on either side of an injected user turn are displaced before compaction and contiguous after |
| CompactionPairing.CompactedHistoryIsContig | crates/codegen/ds-chat-state/src/compaction_utils.rs:838-915 | in particular compacting a contiguous history gives a contiguous one: validation is empty and sanitizing strips nothing |
| CompactionPairing.RepairThenCompact | crates/codegen/ds-chat-state/src/compaction_utils.rs:974-994 | from any history at all, repair followed by compaction is acceptable |
| Pairing.AcceptsMeaning | crates/codegen/ds-chat-state/src/compaction_utils.rs:876-1032 | the running id sets accept exactly the results declared earlier, respectively by the owner of their run |
| Pairing.ValidateCompactedHistory | crates/codegen/ds-chat-state/src/compaction_utils.rs:891-910 | reports the rejected ids in order, none exactly when every result is declared earlier |
| Pairing.SanitizeCompactedHistory | crates/codegen/ds-chat-state/src/compaction_utils.rs:927-955 | strips exactly the ids validation reports, and what is left validates |
| Pairing.StripDisplacedToolResults | crates/codegen/ds-chat-state/src/compaction_utils.rs:1006-1032 | strips exactly the displaced results, leaves a contiguous history, and is the identity exactly on one |
| Pairing.FiltersByPosition | crates/codegen/ds-chat-state/src/compaction_utils.rs:891-1032 | each filter keeps exactly the items that fit its rule, and reports the ids of the others, in order |
| Pairing.FiltersNothingIff | crates/codegen/ds-chat-state/src/compaction_utils.rs:891-1032 | each filter drops something exactly when its invariant is broken |
| Pairing.FiltersAreIdempotent | crates/codegen/ds-chat-state/src/compaction_utils.rs:927-1032 | each filter is idempotent |
| Pairing.StripAbsorbsSanitize | crates/codegen/ds-chat-state/src/compaction_utils.rs:1000-1032 | every result stripping keeps, sanitizing keeps; the two commute with stripping winning |
| Repair.FindDuplicates | crates/codegen/ds-sampling-types/src/conversation.rs:3145-3159 | marks exactly the results whose call is answered again later in the run |
| Repair.RemoveMarked | crates/codegen/ds-sampling-types/src/conversation.rs:3160-3168 | removing them back to front keeps the last result of each call |
| Repair.DedupDuplicateToolResults | crates/codegen/ds-sampling-types/src/conversation.rs:3125-3180 | the rescanning loop terminates with every run deduplicated and counts what it removed |
| Repair.CollectAnswered | crates/codegen/ds-sampling-types/src/conversation.rs:3019-3029 | collects the ids answered in the run after a turn |
| Repair.FindDangling | crates/codegen/ds-sampling-types/src/conversation.rs:3002-3050 | the recorded insertions, applied, backfill every unanswered call |
| Repair.RepairDanglingToolCalls | crates/codegen/ds-sampling-types/src/conversation.rs:2998-3058 | splicing from the back gives the backfilled history and the number inserted |
| Repair.RepairHistory | crates/codegen/ds-chat-state/src/compaction_utils.rs:974-994 | the three passes in order, and the report of what each changed |
| RepairLaws.RepairedBlock | crates/codegen/ds-chat-state/src/compaction_utils.rs:974-994 | all three passes act block by block, on one turn and the results after it |
| RepairMeaning.RepairedBlockByPosition | crates/codegen/ds-chat-state/src/compaction_utils.rs:974-994 | of a turn and the results behind it repair leaves the turn, the last result of each of its calls in order, then one synthetic result per call without, in call order, that names its tool and the cause |
| RepairMeaning.MissingCalls | crates/codegen/ds-sampling-types/src/conversation.rs:3030-3041 | the synthetic results are those of the unanswered calls, in call order, each for its id and naming its tool |
| RepairMeaning.DedupedBlockByPosition | crates/codegen/ds-sampling-types/src/conversation.rs:3112-3180 | removing duplicates keeps the last result of each call behind a turn that makes calls, and all results elsewhere |
| RepairLaws.RepairPairsIff | crates/codegen/ds-chat-state/src/compaction_utils.rs:974-994 | after repair every call has exactly one result in its own run, exactly unless some turn repeats an id its run leaves unanswered |
| RepairLaws.RepairAnswersEveryCall | crates/codegen/ds-chat-state/src/compaction_utils.rs:974-994 | for every input, no displaced result is left and every call is answered in its own run |
| RepairLaws.RepairReportsExactly | crates/codegen/ds-chat-state/src/compaction_utils.rs:955-994 | the report says changed exactly for histories that were not paired, and those that were are returned as they are |
| RepairLaws.SecondRepairIsQuietIff | crates/codegen/ds-chat-state/src/compaction_utils.rs:974-994 | a second repair reports no change exactly when no turn repeats an unanswered id |
| RepairLaws.RepairIsNotIdempotent | crates/codegen/ds-chat-state/src/compaction_utils.rs:974-994 | a concrete history on which the second repair reports a change |
| RepairLaws.TwoRepairsSuffice | crates/codegen/ds-chat-state/src/compaction_utils.rs:974-994 | from any history, two repairs pair every call and a third reports no change |
| RepairLaws.RepairKeepsNonResults | crates/codegen/ds-chat-state/src/compaction_utils.rs:974-994 | everything that is no tool result survives untouched and in order |
| Utf8.DecodesBack | crates/codegen/ds-chat-state/src/compaction_utils.rs:235-244 | each character reads back from its encoding, the first byte announces the length, and no form is overlong |
| Utf8.FloorIsNear | crates/codegen/ds-chat-state/src/compaction_utils.rs:241-244 | a character boundary is at most three bytes back |
| Utf8.Slice | crates/codegen/ds-chat-state/src/compaction_utils.rs:246-249 | a cut at a boundary is the encoding of a prefix of the text |
| Budget.TruncateTextToBytes | crates/codegen/ds-chat-state/src/compaction_utils.rs:235-250 | none exactly when the text fits, else the longest boundary-safe prefix and the marker |
| BudgetMeaning.TruncatedText | crates/codegen/ds-chat-state/src/compaction_utils.rs:234-250 | a text over budget becomes its longest prefix that leaves 64 bytes and a marker with the number of bytes dropped |
| BudgetMeaning.TruncatedItemIs | crates/codegen/ds-chat-state/src/compaction_utils.rs:205-233 | truncating an item touches its texts, each on its own, and nothing else |
| BudgetMeaning.EstimateMeaning | crates/codegen/ds-chat-state/src/actor/state.rs:42-79 | one token per four bytes of everything an item says and 765 per image |
| Budget.TruncateItemToTokens | crates/codegen/ds-chat-state/src/compaction_utils.rs:206-233 | truncates each text of the item and nothing else |
| Budget.PopResults | crates/codegen/ds-chat-state/src/compaction_utils.rs:177-181 | pops exactly the trailing run of results |
| Budget.RecoverTruncatedTailUnit | crates/codegen/ds-chat-state/src/compaction_utils.rs:173-204 | the last turn truncated, or the trailing results truncated to their shares behind their owner |
| Budget.WalkBack | crates/codegen/ds-chat-state/src/compaction_utils.rs:152-161 | finds the longest suffix within the budget |
| Budget.FindSuffix | crates/codegen/ds-chat-state/src/compaction_utils.rs:152-164 | that suffix less the results it opens with |
| Budget.FitConversationToBudget | crates/codegen/ds-chat-state/src/compaction_utils.rs:138-171 | computes Fit |
| Truncation.TruncatedLength | crates/codegen/ds-chat-state/src/compaction_utils.rs:235-250 | the exact size of a truncated text, and at most three bytes given up to reach a boundary |
| Truncation.TruncationBound | crates/codegen/ds-chat-state/src/compaction_utils.rs:235-250 | at most max(max_bytes, 64) bytes, exactly when the dropped count prints short enough |
| Truncation.TruncationWithinBudget | crates/codegen/ds-chat-state/src/compaction_utils.rs:234-250 | exactly when the documented bound max_bytes holds, below 64 bytes and from 64 on |
| Truncation.TruncationWithinBudgetBySize | crates/codegen/ds-chat-state/src/compaction_utils.rs:234-250 | from 64 bytes on, on sizes alone: within the bound if fewer than 100 million bytes are dropped, and for ASCII text only then |
| Truncation.TruncationOverruns | crates/codegen/ds-chat-state/src/compaction_utils.rs:234-250 | for every budget a text that is cut to more than it |
| Truncation.TruncatedTwiceIff | crates/codegen/ds-chat-state/src/compaction_utils.rs:235-250 | truncating again changes nothing exactly when the first cut met the budget or the text is 58 bytes long |
| Truncation.TruncationFits | crates/codegen/ds-chat-state/src/compaction_utils.rs:235-250 | at most max(max_bytes, 64) bytes for every text that drops fewer than 100 million bytes |
| BudgetSize.TailUnitFits | crates/codegen/ds-chat-state/src/compaction_utils.rs:188-204 | with shares of 16 tokens or more the tail costs at most its budget, and its results at most four bytes per token left after their owner |
| BudgetSize.FitTailFits | crates/codegen/ds-chat-state/src/compaction_utils.rs:138-204 | then the fitted conversation costs at most max_tokens |
| BudgetSize.TruncatedItemBound | crates/codegen/ds-chat-state/src/compaction_utils.rs:205-233 | a truncated item of any kind costs at most max(t, 16) per text, plus arguments, images and what is never truncated |
| BudgetSize.OneTextFitsIff | crates/codegen/ds-chat-state/src/compaction_utils.rs:205-250 | exactly when a single truncated text is within its tokens |
| BudgetSize.FitFitsIff | crates/codegen/ds-chat-state/src/compaction_utils.rs:138-204 | exactly when the fitted conversation meets max_tokens, from the sizes of the texts before the call, for every conversation |
| BudgetSize.FitBound | crates/codegen/ds-chat-state/src/compaction_utils.rs:138-204 | whatever the last item is, the fitted conversation costs at most max_tokens or its system message and the cap of the truncated tail |
| BudgetSize.TwoTextsOverrun | crates/codegen/ds-chat-state/src/compaction_utils.rs:220-230 | for every limit a two-text user turn of twice the limit that is not shrunk at all |
| BudgetLaws.FitKeepsContig | crates/codegen/ds-chat-state/src/compaction_utils.rs:138-204 | fitting never separates a result from its call, in either branch |
| BudgetLaws.FitKeepsPairing | crates/codegen/ds-chat-state/src/compaction_utils.rs:137-204 | tool runs stay unsplit: if every call had exactly one result in its own run, it still has |
| BudgetLaws.FitKeepsEnds | crates/codegen/ds-chat-state/src/compaction_utils.rs:138-204 | the system message stays first and the most recent item stays last, at most truncated |
| BudgetLaws.FitKeepsTheLatestResult | crates/codegen/ds-chat-state/src/compaction_utils.rs:138-204 | a most recent result is kept with the turn that made the call |
| BudgetMeaning.FitIsOldestGoodCut | crates/codegen/ds-chat-state/src/compaction_utils.rs:142-171 | where some cut in front of a non-result fits, the result is the system message and everything from the oldest such cut on |
| BudgetMeaning.FitCutsTheLastTurn | crates/codegen/ds-chat-state/src/compaction_utils.rs:173-186 | where none does and a turn comes last, it is kept alone, truncated to what the system message leaves |
| BudgetMeaning.FitCutsTheLastResults | crates/codegen/ds-chat-state/src/compaction_utils.rs:187-204 | where none does and results come last, they are kept behind the turn that made the calls, each truncated to an equal share |
| BudgetLaws.FitKeepsTheLongestSuffix | crates/codegen/ds-chat-state/src/compaction_utils.rs:142-171 | the kept suffix fits, every longer admissible one does not, and the total is at most max(limit, head) |
| BudgetFixpoint.FitIsIdempotentIff | crates/codegen/ds-chat-state/src/compaction_utils.rs:138-250 | for every conversation, exactly when fitting again to the same limit is the identity: the first fit kept it or a suffix, its tail met the budget, or every text of the tail is settled |
| BudgetFixpoint.FitIsIdempotentWithRoom | crates/codegen/ds-chat-state/src/compaction_utils.rs:138-250 | in particular when every share has room for the marker |
| BudgetFixpoint.FitIsNotIdempotent | crates/codegen/ds-chat-state/src/compaction_utils.rs:138-250 | a concrete turn that a second fit changes |
| Lines.FlattenSplit | crates/codegen/ds-acp-lib/src/line_reader.rs:140-177 | the lines of a stream put together are the stream |
| LineReader.BufferedSource.FillBuf | crates/codegen/ds-acp-lib/src/line_reader.rs:146-150 | nothing is available only at the end, and no byte is lost |
| LineReader.BufferedSource.Consume | crates/codegen/ds-acp-lib/src/line_reader.rs:162 | exactly the consumed bytes are gone |
| LineReader.TakeAvailable | crates/codegen/ds-acp-lib/src/line_reader.rs:146-162 | one fill takes up to and including a newline, or all there is |
| LineReader.ReadLineCapped | crates/codegen/ds-acp-lib/src/line_reader.rs:140-177 | for every chunking: the first line and exactly it if within the cap, an error otherwise, and never more than the cap plus one chunk in memory |
| LineProtocol.LineBufferedRead.PollRead | crates/codegen/ds-acp-lib/src/line_reader.rs:96-133 | refines Poll: new state, outcome, and the bytes written into the caller's buffer |
| LineProtocol.NextKeeps | crates/codegen/ds-acp-lib/src/line_reader.rs:62-133 | every step of producer or consumer keeps the invariant |
| LineProtocol.RunInv | crates/codegen/ds-acp-lib/src/line_reader.rs:62-133 | the invariant holds at every point of every run |
| LineProtocol.BytesAreConserved | crates/codegen/ds-acp-lib/src/line_reader.rs:1-12 | over every interleaving, delivered and held bytes are a prefix of the source, and until the producer gives up the rest is still to come |
| LineProtocol.PollAnswers | crates/codegen/ds-acp-lib/src/line_reader.rs:96-133 | what a poll answers by what there is to serve: pending exactly if nothing is queued and the producer has not stopped |
| LineProtocol.EndIsReported | crates/codegen/ds-acp-lib/src/line_reader.rs:129-131 | once the stream has ended every poll says so, whatever its room |
| LineProtocol.PendingOnlyBetweenLines | crates/codegen/ds-acp-lib/src/line_reader.rs:8-12 | a poll is pending only when whole lines have been delivered |
| LineProtocol.StartedLineIsServed | crates/codegen/ds-acp-lib/src/line_reader.rs:103-114 | over every run: once part of a line is out, until it is finished only its next bytes are delivered, the rest of it stays, and every poll is ready |
| LineProtocol.StartedLineIsFinished | crates/codegen/ds-acp-lib/src/line_reader.rs:103-114 | every poll with room shortens the rest, so as many as it has bytes finish the line |
| LineProtocol.EndOfStreamIsComplete | crates/codegen/ds-acp-lib/src/line_reader.rs:117-131 | end of stream before any error means the whole source was delivered |
| LineProtocol.HealthySourceNeverFaults | crates/codegen/ds-acp-lib/src/line_reader.rs:71-86 | the producer gives up only for a cause: in every run over a source that never fails and whose lines are within the cap, it never does |
| LineProtocol.LinesOnTrack | crates/codegen/ds-acp-lib/src/line_reader.rs:71-86 | at every point of every run, the lines received, in flight and to come are exactly those the caller is to get |
| LineProtocol.StreamIsExact | crates/codegen/ds-acp-lib/src/line_reader.rs:71-133 | at the end, by error or not, the caller has exactly the lines before the first that is over the cap or cut short by a failing source |
| LineProtocol.ErrorIsRight | crates/codegen/ds-acp-lib/src/line_reader.rs:71-86 | the error the caller sees is an oversized line if that comes next, the failure of the source otherwise |
| LineProtocol.ErrorIsReportedIff | crates/codegen/ds-acp-lib/src/line_reader.rs:71-133 | by the end an error was reported exactly if the source failed or a line was over the cap |
| LineProgress.StepShrinks | crates/codegen/ds-acp-lib/src/line_reader.rs:62-133 | every step but an idle poll lowers a measure, and an idle poll changes nothing |
| LineProgress.NoDeadlock | crates/codegen/ds-acp-lib/src/line_reader.rs:62-133 | before the end some step that is not idle is always enabled, whatever the channel holds |
| LineProgress.RunsAreBounded | crates/codegen/ds-acp-lib/src/line_reader.rs:62-133 | no run takes more than eight such steps per byte of the source and five more |
| LineProgress.EveryRunCanFinish | crates/codegen/ds-acp-lib/src/line_reader.rs:62-133 | every run can be carried on to the end, with exactly the deliverable bytes delivered, an error told exactly if there was one, and the end told to every further poll |
| LineProgress.ReadStepsReadALine | crates/codegen/ds-acp-lib/src/line_reader.rs:71-86 | for every chunking the producer's read steps come to the line or error that read_line_capped returns, and leave what follows it |
| Agents.FromStrOfName | crates/codegen/ds-agent/src/config.rs:684-703 | built-in names parse back, so they are distinct |
| Agents.LoadDefinitionsFromDir | crates/codegen/ds-agent/src/discovery.rs:629-664 | loads a directory with the first definition of each name winning |
| Agents.Discover | crates/codegen/ds-agent/src/discovery.rs:231-248 | project directories first, then user and bundled ones |
| Agents.DiscoveredByPosition | crates/codegen/ds-agent/src/discovery.rs:231-248 | discovery lists, in search order, each file that parses and is the first to carry its name |
| Agents.DiscoveryIsFirstNamed | crates/codegen/ds-agent/src/discovery.rs:231-248 | discovery holds, for each name, the first file whose frontmatter carries it, whatever the files are called |
| Agents.SearchIsFirstFiled | crates/codegen/ds-agent/src/discovery.rs:574-588 | the search by name finds the first file that parses and is filed under it |
| Agents.DiscoveryIsFirstMatch | crates/codegen/ds-agent/src/discovery.rs:231-305 | for each name that files and frontmatter agree on, discovery holds what the directory search finds |
| Agents.DiscoveredDistinct | crates/codegen/ds-agent/src/discovery.rs:629-664 | discovered names are distinct, whatever the files are called |
| Subagents.MergeSubagents | crates/codegen/ds-agent/src/discovery.rs:92-181 | the merge loop and the toggle compute Enabled of Merged |
| Subagents.MergeIsCorrect | crates/codegen/ds-agent/src/discovery.rs:92-175 | for any definitions in any order: distinct names, built-ins first in their fixed slots, and each name given the first definition of highest priority, only a project one replacing a built-in |
| Subagents.ListedByScope | crates/codegen/ds-agent/src/discovery.rs:92-175 | under each name stands the first project definition, else the subagent built-in of that name, else the first user definition, else the first bundled one |
| Subagents.ListedIff | crates/codegen/ds-agent/src/discovery.rs:92-175 | exactly the subagent built-ins and the names of definitions that are no built-ins are listed |
| Subagents.ListedInOrder | crates/codegen/ds-agent/src/discovery.rs:92-175 | behind the built-in slots the names stand in order of discovery |
| Subagents.ToggleOnlyRemoves | crates/codegen/ds-agent/src/discovery.rs:176-181 | the toggle removes exactly the entries it names and sets to false, and keeps the others in order |
| Subagents.OmittedIsEnabled | crates/codegen/ds-agent/src/discovery.rs:176-181 | a name the toggle omits is enabled |
| Subagents.VisibleIsCallableIff | crates/codegen/ds-agent/src/discovery.rs:119-145 | on every disk: a listed built-in is what its name resolves to exactly when no project file is filed under it, any other entry exactly when no built-in hides it and the first file under that name holds what the first file carrying it holds |
| Subagents.FiledIsCallableIff | crates/codegen/ds-agent/src/discovery.rs:119-145 | where file names and frontmatter agree on the entry's name, it is callable exactly unless it is hidden behind a built-in that is no subagent |
| Subagents.CallableIsVisible | crates/codegen/ds-agent/src/discovery.rs:62-73 | every subagent built-in and every discovered name is listed, whatever the files are called |
| Subagents.HiddenDefinitionIsListed | crates/codegen/ds-agent/src/discovery.rs:258-266 | a concrete user file that is listed but resolves to a built-in |
| Subagents.MisnamedFileIsListed | crates/codegen/ds-agent/src/discovery.rs:574-663 | a concrete project file that is listed under a name that resolves to nothing |
| Segments.FilenameIs | crates/codegen/ds-chat-state/src/compaction_transcript.rs:81-88 | prefix, the index with leading zeros up to three digits, suffix |
| Segments.FilenameRoundTrip | crates/codegen/ds-chat-state/src/compaction_transcript.rs:81-97 | a segment file name parses back to its index, for every 64-bit index |
| Segments.ParsesIff | crates/codegen/ds-chat-state/src/compaction_transcript.rs:90-97 | a file name parses exactly if it is the prefix, a 64-bit number and the suffix |
| Segments.FilenamesAreDistinct | crates/codegen/ds-chat-state/src/compaction_transcript.rs:81-88 | distinct segments have distinct files |
| Segments.ClassifiesSegments | crates/codegen/ds-chat-state/src/compaction_transcript.rs:120-141 | a segment path is recognised under every prefix, even one that mentions the directory |
| Segments.ClassifiesIndex | crates/codegen/ds-chat-state/src/compaction_transcript.rs:120-141 | the index is recognised under every prefix |
| Segments.ClassifiesStoreDir | crates/codegen/ds-chat-state/src/compaction_transcript.rs:120-130 | the directory is recognised bare or under a parent, with any trailing slashes |
| Segments.SegmentPathIff | crates/codegen/ds-chat-state/src/compaction_transcript.rs:120-141 | a path is a segment's exactly if a segment's file name stands directly below the store directory |
| Segments.IndexPathIff | crates/codegen/ds-chat-state/src/compaction_transcript.rs:120-141 | it is the index exactly if that file does |
| Segments.DirPathIff | crates/codegen/ds-chat-state/src/compaction_transcript.rs:120-130 | it is the directory exactly if its last name is, trailing slashes aside |
| SegmentRender.RenderSegment | crates/codegen/ds-chat-state/src/compaction_transcript.rs:478-507 | shows the longest prefix of turns within the budget and a notice counting the rest |
| SegmentRender.DocumentByPosition | crates/codegen/ds-chat-state/src/compaction_transcript.rs:478-507 | the document opens with the preamble and shows the turns in order on lines of their own |
| SegmentRender.DocumentEnds | crates/codegen/ds-chat-state/src/compaction_transcript.rs:478-507 | and ends with the notice of how many were left out, if any were |
| SegmentRender.DocumentLength | crates/codegen/ds-chat-state/src/compaction_transcript.rs:478-507 | the exact size of the document in bytes |
| SegmentRender.TruncatedDocumentSize | crates/codegen/ds-chat-state/src/compaction_transcript.rs:478-507 | for every preamble: at most the cap, or what the preamble forces, plus the separators and the digits of the omitted count less 74; and exactly when it is within the cap |
| SegmentRender.WholeDocumentSize | crates/codegen/ds-chat-state/src/compaction_transcript.rs:478-507 | an untruncated document of up to 129 turns is within the cap, or what the preamble forces |
| SegmentRender.ShortSegmentFits | crates/codegen/ds-chat-state/src/compaction_transcript.rs:478-507 | where the preamble leaves the reserve, every segment of at most 75 turns is within the cap |
| SegmentRender.LongerSegmentExceeds | crates/codegen/ds-chat-state/src/compaction_transcript.rs:478-507 | 76 turns can exceed it |
| SegmentRender.CapIsExceeded | crates/codegen/ds-chat-state/src/compaction_transcript.rs:478-507 | the bound is reached for every number of turns shown and omitted |
| SegmentRender.WholeCapIsExceeded | crates/codegen/ds-chat-state/src/compaction_transcript.rs:478-507 | for every number of turns a whole document that reaches its bound, so 130 turns can exceed the cap |
| SegmentRender.LongPreambleExceeds | crates/codegen/ds-chat-state/src/compaction_transcript.rs:478-507 | a preamble over the cap exceeds it whatever is shown |

## Left out

- The preparation helpers that filter or map items one by one (stripping reasoning, images and tool messages, dropping a trailing call): true but easy.
- Subagent, task, server and todo summaries in the compaction state: carried through unchanged.
- The alternate summary carrier: the build returns none, so the summary always follows the recent messages.
- Assistant fingerprint and effort, and the structure behind a backend tool call's summary and a reasoning item's text: no modelled function reads them.
- 64-bit overflow when token estimates are added up: sums are unbounded naturals.
- Rendering of single turns, statistics, keywords and the `none` detail level of a segment: turns enter as rendered blocks.
- Dropping the line reader while its producer runs, and sources that yield more bytes after reporting their end.
- Wake-ups and scheduling: that a step which can be taken is taken in the end is the runtime's affair; the protocol lemmas hold over all interleavings.
- Plugin agents, file parsing, the choice of agent directories and the config source of an entry: directories enter as ordered lists of parsed files, built-in descriptions as a function.
