/**
 Building the compacted history from the state captured before compaction, and what
 survives when the result is itself compacted again.
 */
module Compaction {
  import opened Wrappers
  import opened Text
  import opened Conversation
  import opened Queries
  import opened Positions
  import Summary

  const OMITTED := "Tool call omitted..."
  const CONTINUED :=
    "This session is being continued from a " + "previous conversation that ran out of "
  const COVERED :=
    "context. The summary below covers the " + "earlier portion of the conversation.\n\n"
  const CONTINUATION := CONTINUED + COVERED

  // ----- reading the conversation

  predicate IsRealUserTurn(item: Item) {
    && item.User?
    && item.reason.None?
    && (HasImages(item.parts) || !IsSyntheticExtractedQuery(ExtractUserQuery(TextContent(item))))
  }

  function LastRealUser(conversation: seq<Item>): (r: Option<nat>)
    ensures r.Some? ==> r.value < |conversation|
  {
    if conversation == [] then None
    else if IsRealUserTurn(conversation[|conversation| - 1]) then Some(|conversation| - 1)
    else LastRealUser(conversation[..|conversation| - 1])
  }

  function ExtractLastRealUserQuery(conversation: seq<Item>): Option<string> {
    match LastRealUser(conversation)
    case Some(i) => Some(ExtractUserQuery(TextContent(conversation[i])))
    case None => None
  }

  /** What the compacted tail keeps of one item: assistant turns whole, results as placeholders. */
  function Condense(item: Item): seq<Item> {
    match item
    case Assistant(_, _, _) => [item]
    case ToolResult(callId, _, _) => [ToolResult(callId, OMITTED, [])]
    case _ => []
  }

  function CondenseAll(items: seq<Item>): seq<Item> {
    if items == [] then [] else CondenseAll(items[..|items| - 1]) + Condense(items[|items| - 1])
  }

  function TailStart(conversation: seq<Item>): (start: nat)
    ensures start <= |conversation|
  {
    match LastRealUser(conversation) case Some(i) => i + 1 case None => 0
  }

  function ExtractMessagesSinceLastRealUser(conversation: seq<Item>): seq<Item> {
    CondenseAll(conversation[TailStart(conversation)..])
  }

  datatype StateContext = StateContext(recentMessages: seq<Item>, lastUserQuery: Option<string>)

  function ContextOf(conversation: seq<Item>): StateContext {
    StateContext(ExtractMessagesSinceLastRealUser(conversation), ExtractLastRealUserQuery(conversation))
  }

  // ----- writing the compacted history

  datatype HistoryInput = HistoryInput(
    systemMessage: Item,
    userMessagePrefix: string,
    agentsMdReminder: Option<string>,
    context: StateContext,
    compactionSummary: string,
    systemReminder: Option<string>,
    transcriptHint: Option<string>)

  function Optional(text: Option<string>, reason: Option<SyntheticReason>): seq<Item> {
    match text case Some(t) => [UserText(t, reason)] case None => []
  }

  function Preface(input: HistoryInput): seq<Item> {
    [input.systemMessage, UserText(input.userMessagePrefix, Some(CompactionMeta))]
    + Optional(input.agentsMdReminder, Some(ProjectInstructions))
  }

  function QueryTurn(query: Option<string>): seq<Item> {
    match query case Some(q) => [UserText(WrapUserQuery(q), None)] case None => []
  }

  function Hint(input: HistoryInput): string {
    match input.transcriptHint case Some(hint) => hint case None => ""
  }

  function SummaryText(input: HistoryInput): string {
    CONTINUATION + Summary.Clean(input.compactionSummary) + Hint(input)
  }

  function Closing(input: HistoryInput): seq<Item> {
    [UserText(SummaryText(input), Some(CompactionMeta))]
    + Optional(input.systemReminder, Some(SystemReminder))
  }

  function CompactedHistory(input: HistoryInput): seq<Item> {
    Preface(input) + QueryTurn(input.context.lastUserQuery) + input.context.recentMessages + Closing(input)
  }

  method FormatSummaryItem(input: HistoryInput) returns (item: Item)
    ensures item == UserText(SummaryText(input), Some(CompactionMeta))
  {
    hide Summary.Clean;
    var cleaned := Summary.FormatCompactSummary(input.compactionSummary);
    var formatted := CONTINUATION + cleaned;
    if input.transcriptHint.Some? {
      formatted := formatted + input.transcriptHint.value;
    } else {
      assert formatted + "" == formatted;
    }
    item := UserText(formatted, Some(CompactionMeta));
  }

  method BuildCompactedHistory(input: HistoryInput) returns (compacted: seq<Item>)
    ensures compacted == CompactedHistory(input)
  {
    hide SummaryText, WrapUserQuery;
    var summaryItem := FormatSummaryItem(input);
    compacted := [input.systemMessage, UserText(input.userMessagePrefix, Some(CompactionMeta))];
    if input.agentsMdReminder.Some? {
      compacted := compacted + [UserText(input.agentsMdReminder.value, Some(ProjectInstructions))];
    }
    assert compacted == Preface(input);
    if input.context.lastUserQuery.Some? {
      compacted := compacted + [UserText(WrapUserQuery(input.context.lastUserQuery.value), None)];
    }
    ghost var opening := Preface(input) + QueryTurn(input.context.lastUserQuery);
    assert compacted == opening;
    var recent := input.context.recentMessages;
    for i := 0 to |recent|
      invariant compacted == opening + recent[..i]
    {
      assert recent[..i + 1] == recent[..i] + [recent[i]];
      compacted := compacted + [recent[i]];
    }
    assert recent[..|recent|] == recent;
    compacted := compacted + [summaryItem];
    if input.systemReminder.Some? {
      compacted := compacted + [UserText(input.systemReminder.value, Some(SystemReminder))];
    }
  }

  // ----- what the parts mean

  /** Which user turns are real: no injected one, every one with an image, and else those that ask something. */
  lemma RealTurnCases(item: Item)
    ensures !item.User? ==> !IsRealUserTurn(item)
    ensures item.User? && item.reason.Some? ==> !IsRealUserTurn(item)
    ensures item.User? && item.reason.None? && (exists i :: 0 <= i < |item.parts| && item.parts[i].ImagePart?) ==>
              IsRealUserTurn(item)
    ensures item.User? && item.reason.None? && (forall i :: 0 <= i < |item.parts| ==> item.parts[i].TextPart?) ==>
              (IsRealUserTurn(item) <==>
               ExtractUserQuery(TextContent(item)) !in {"", "__auto_continue__", AUTO_CONTINUE_PROMPT})
  {
    hide ExtractUserQuery, TextContent;
    if item.User? {
      forall p | p in item.parts ensures exists i :: 0 <= i < |item.parts| && item.parts[i] == p {}
    }
  }

  /** The texts of a user turn are read one per line, images aside. */
  lemma TextOfParts(a: string, url: string, b: string, reason: Option<SyntheticReason>)
    ensures TextContent(User([TextPart(a), ImagePart(url), TextPart(b)], reason, None, None)) == a + "\n" + b
    ensures TextContent(User([TextPart(a)], reason, None, None)) == a
    ensures TextContent(User([ImagePart(url)], reason, None, None)) == ""
  {
    var parts := [TextPart(a), ImagePart(url), TextPart(b)];
    assert parts[1..] == [ImagePart(url), TextPart(b)] && parts[1..][1..] == [TextPart(b)] && [TextPart(b)][1..] == [];
    assert Texts([TextPart(b)]) == [b] && Texts(parts[1..]) == [b] && Texts(parts) == [a, b];
    assert [a, b][1..] == [b] && Join([b], "\n") == b;
    assert Join([a, b], "\n") == a + "\n" + b;
    assert [TextPart(a)][1..] == [] && [ImagePart(url)][1..] == [];
    assert Texts([TextPart(a)]) == [a] && Texts([ImagePart(url)]) == [];
  }

  /** The state is what the last real turn asked and what followed it. */
  lemma ContextMeaning(before: seq<Item>, turn: Item, after: seq<Item>)
    requires IsRealUserTurn(turn) && forall i :: 0 <= i < |after| ==> !IsRealUserTurn(after[i])
    ensures ContextOf(before + [turn] + after) ==
            StateContext(CondenseAll(after), Some(ExtractUserQuery(TextContent(turn))))
  {
    hide IsRealUserTurn, CondenseAll, ExtractUserQuery, TextContent;
    var s, n := before + [turn] + after, |before|;
    LastRealSkips(before + [turn], after);
    assert (before + [turn])[..n] == before && (before + [turn])[n] == turn && s[n] == turn;
    assert s[n + 1..] == after;
  }

  lemma ContextWithoutTurn(items: seq<Item>)
    requires forall i :: 0 <= i < |items| ==> !IsRealUserTurn(items[i])
    ensures ContextOf(items) == StateContext(CondenseAll(items), None)
  {
    hide IsRealUserTurn, CondenseAll, ExtractUserQuery, TextContent, LastRealUser;
    LastRealUserIsLast(items);
    assert items[0..] == items;
  }

  /** `at` are the positions of turns and results, and `c` holds the turns whole and the results as placeholders. */
  ghost predicate CondensedAt(items: seq<Item>, c: seq<Item>, at: seq<nat>) {
    && Increasing(at, |items|) && |c| == |at|
    && (forall k: nat :: k < |items| ==> (k in at <==> items[k].Assistant? || items[k].ToolResult?))
    && forall i :: 0 <= i < |at| ==>
         c[i] == if items[at[i]].ToolResult? then ToolResult(items[at[i]].callId, "Tool call omitted...", []) else items[at[i]]
  }

  lemma CondensedStep(items: seq<Item>, last: Item, c: seq<Item>, at: seq<nat>)
    requires CondensedAt(items, c, at)
    ensures if last.Assistant? || last.ToolResult? then CondensedAt(items + [last], c + Condense(last), at + [|items|])
            else CondensedAt(items + [last], c + Condense(last), at)
  {
    var all := items + [last];
    Appended(at, |items|);
    assert forall k :: 0 <= k < |items| ==> all[k] == items[k];
  }

  /** Condensing keeps assistant turns whole and results as placeholders, in order, and drops the rest. */
  lemma {:induction false} CondensedItems(items: seq<Item>) returns (at: seq<nat>)
    ensures CondensedAt(items, CondenseAll(items), at)
  {
    hide CondensedAt, Condense;
    if items == [] {
      at := [];
      NothingCondensed();
    } else {
      var n := |items| - 1;
      var before := CondensedItems(items[..n]);
      CondensedStep(items[..n], items[n], CondenseAll(items[..n]), before);
      at := if items[n].Assistant? || items[n].ToolResult? then before + [n] else before;
      assert items[..n] + [items[n]] == items;
    }
  }

  lemma NothingCondensed()
    ensures CondensedAt([], [], [])
  {
  }

  function Present(text: Option<string>): nat { if text.Some? then 1 else 0 }

  function Turn(text: string, reason: Option<SyntheticReason>): Item {
    User([TextPart(text)], reason, None, None)
  }

  /**
   What stands where in a compacted history: the system message, the prefix, the project
   instructions, the query, the recent messages, the summary, the reminder.
   */
  lemma HistoryByPosition(input: HistoryInput)
    ensures var h := CompactedHistory(input);
            var query, recent := input.context.lastUserQuery, input.context.recentMessages;
            var a := 2 + Present(input.agentsMdReminder);
            var r := a + Present(query);
            var s := r + |recent|;
            var hint := if input.transcriptHint.Some? then input.transcriptHint.value else "";
            && |h| == s + 1 + Present(input.systemReminder)
            && h[0] == input.systemMessage && h[1] == Turn(input.userMessagePrefix, Some(CompactionMeta))
            && (input.agentsMdReminder.Some? ==> h[2] == Turn(input.agentsMdReminder.value, Some(ProjectInstructions)))
            && (query.Some? ==> h[a] == Turn("<user_query>\n" + query.value + "\n</user_query>", None))
            && h[r..s] == recent
            && h[s] == Turn(CONTINUATION + Summary.Clean(input.compactionSummary) + hint, Some(CompactionMeta))
            && (input.systemReminder.Some? ==> h[s + 1] == Turn(input.systemReminder.value, Some(SystemReminder)))
  {
    hide Summary.Clean, WrapUserQuery, SummaryText, Preface, Closing, QueryTurn, Turn;
    var query, recent := input.context.lastUserQuery, input.context.recentMessages;
    PrefaceIs(input);
    QueryTurnIs(query);
    ClosingIs(input);
    var p, t, c := Preface(input), QueryTurn(query), Closing(input);
    FourParts(p, t, recent, c);
    assert CompactedHistory(input) == p + t + recent + c;
  }

  lemma PrefaceIs(input: HistoryInput)
    ensures var p := Preface(input);
            && |p| == 2 + Present(input.agentsMdReminder)
            && p[0] == input.systemMessage && p[1] == Turn(input.userMessagePrefix, Some(CompactionMeta))
            && (input.agentsMdReminder.Some? ==> p[2] == Turn(input.agentsMdReminder.value, Some(ProjectInstructions)))
  {
  }

  lemma QueryTurnIs(query: Option<string>)
    ensures |QueryTurn(query)| == Present(query)
    ensures query.Some? ==> QueryTurn(query)[0] == Turn("<user_query>\n" + query.value + "\n</user_query>", None)
  {
    hide WrapUserQuery;
    if query.Some? { WrapIs(query.value); }
  }

  lemma ClosingIs(input: HistoryInput)
    ensures var c := Closing(input);
            && |c| == 1 + Present(input.systemReminder)
            && c[0] == Turn(CONTINUATION + Summary.Clean(input.compactionSummary) + Hint(input), Some(CompactionMeta))
            && (input.systemReminder.Some? ==> c[1] == Turn(input.systemReminder.value, Some(SystemReminder)))
  {
    hide Summary.Clean, Hint, SummaryText;
    SummaryTextIs(input);
  }

  lemma FourParts(p: seq<Item>, t: seq<Item>, recent: seq<Item>, c: seq<Item>)
    ensures var h, r := p + t + recent + c, |p| + |t|;
            && |h| == r + |recent| + |c| && h[r..r + |recent|] == recent
            && (forall i :: 0 <= i < |p| ==> h[i] == p[i]) && (forall i :: 0 <= i < |t| ==> h[|p| + i] == t[i])
            && (forall i :: 0 <= i < |c| ==> h[r + |recent| + i] == c[i])
  {
  }

  lemma SummaryTextIs(input: HistoryInput)
    ensures SummaryText(input) == CONTINUATION + Summary.Clean(input.compactionSummary) + Hint(input)
  {
    hide Summary.Clean, Hint;
  }

  lemma WrapIs(q: string)
    ensures WrapUserQuery(q) == "<user_query>\n" + q + "\n</user_query>"
  {
  }

  // ----- the summary turn primes nothing

  lemma EarlierPart(a: string, b: string, token: string, j: nat)
    requires At(a + b, token, j) && j + |token| <= |a|
    ensures Contains(a, token)
  {
    assert a[j..j + |token|] == (a + b)[j..j + |token|];
    ContainsAt(a, token, j);
  }

  /** No token straddles a seam at which a newline begins. */
  lemma NotAcrossNewline(a: string, b: string, token: string, k: nat)
    requires '\n' !in token && (b != [] ==> b[0] == '\n') && At(a + b, token, k) && k < |a|
    ensures k + |token| <= |a|
  {
    if k + |token| > |a| {
      AtChar(a + b, token, k, |a| - k);
      assert false;
    }
  }

  lemma SeamHoldsNoToken(a: string, b: string, token: string)
    requires IsToken(token) && '\n' !in token && !Contains(a, token) && (b != [] ==> b[0] == '\n')
    ensures Contains(a + b, token) <==> Contains(b, token)
  {
    hide IsToken, At;
    var s := a + b;
    assert s[|a|..] == b && s[|a|..|s|] == b;
    if Contains(b, token) {
      ContainsSlice(s, token, |a|, |s|);
    }
    if Contains(s, token) {
      var k: nat :| k <= |s| && At(s, token, k);
      if k < |a| {
        NotAcrossNewline(a, b, token, k);
        EarlierPart(a, b, token, k);
      } else {
        AtShift(s, token, |a|, k - |a|);
        ContainsAt(b, token, k - |a|);
      }
    }
  }

  /**
   Whatever the model wrote, no live control token of the summary turn lies before the
   hint appended to it; where the hint starts on a new line, as all hints the program
   builds do, there is one exactly if the hint itself holds one.
   */
  lemma SummaryTurnIsInert(input: HistoryInput, token: string)
    requires token in Summary.CONTROL_TOKENS
    ensures forall j: nat :: At(SummaryText(input), token, j) ==> j + |token| > |SummaryText(input)| - |Hint(input)|
    ensures Hint(input) == "" || Hint(input)[0] == '\n' ==>
              (Contains(SummaryText(input), token) <==> Contains(Hint(input), token))
  {
    hide Contains, Summary.Clean, IsToken;
    var cleaned, hint := Summary.Clean(input.compactionSummary), Hint(input);
    Summary.CleanIsInert(input.compactionSummary);
    Summary.ControlTokensAreTokens();
    assert Summary.IsControlToken(token);
    ContinuedOpensNoTag();
    CoveredOpensNoTag();
    TokenIsInTail(CONTINUED, COVERED, cleaned, token);
    var opening := CONTINUATION + cleaned;
    assert SummaryText(input) == opening + hint;
    forall j: nat | At(opening + hint, token, j) ensures j + |token| > |opening| {
      if j + |token| <= |opening| { EarlierPart(opening, hint, token, j); }
    }
    if hint == "" || hint[0] == '\n' { SeamHoldsNoToken(opening, hint, token); }
  }

  lemma ContinuedOpensNoTag()
    ensures '<' !in CONTINUED
  {
  }

  lemma CoveredOpensNoTag()
    ensures '<' !in COVERED
  {
  }

  lemma TokenIsInTail(a: string, b: string, tail: string, token: string)
    requires IsToken(token) && '<' !in a && '<' !in b && !Contains(tail, token)
    ensures !Contains(a + b + tail, token)
  {
    if Contains(a + b + tail, token) {
      ContainsAfter(a + b, tail, token);
    }
  }

  // ----- compaction is a fixpoint

  lemma {:induction false} LastRealUserIsLast(conversation: seq<Item>)
    ensures match LastRealUser(conversation)
            case Some(i) =>
              IsRealUserTurn(conversation[i]) && forall j :: i < j < |conversation| ==> !IsRealUserTurn(conversation[j])
            case None => forall j :: 0 <= j < |conversation| ==> !IsRealUserTurn(conversation[j])
  {
    hide IsRealUserTurn;
    if conversation != [] {
      LastRealUserIsLast(conversation[..|conversation| - 1]);
    }
  }

  lemma {:induction false} CondenseConcat(a: seq<Item>, b: seq<Item>)
    ensures CondenseAll(a + b) == CondenseAll(a) + CondenseAll(b)
  {
    hide Condense;
    if b == [] {
      assert a + b == a;
    } else {
      var s, n := a + b, |b| - 1;
      assert s[..|s| - 1] == a + b[..n] && s[|s| - 1] == b[n];
      CondenseConcat(a, b[..n]);
    }
  }

  ghost predicate Condensed(items: seq<Item>) {
    forall i :: 0 <= i < |items| ==> Condense(items[i]) == [items[i]]
  }

  lemma {:induction false} CondenseIsCondensed(items: seq<Item>)
    ensures Condensed(CondenseAll(items))
  {
    if items != [] {
      CondenseIsCondensed(items[..|items| - 1]);
    }
  }

  lemma {:induction false} CondensedIsFixed(items: seq<Item>)
    requires Condensed(items)
    ensures CondenseAll(items) == items
  {
    if items != [] {
      var n := |items| - 1;
      CondensedIsFixed(items[..n]);
      assert items == items[..n] + [items[n]];
    }
  }

  lemma {:induction false} CondenseToNothing(items: seq<Item>)
    requires forall i :: 0 <= i < |items| ==> Condense(items[i]) == []
    ensures CondenseAll(items) == []
  {
    if items != [] {
      CondenseToNothing(items[..|items| - 1]);
    }
  }

  lemma {:induction false} LastRealSkips(a: seq<Item>, b: seq<Item>)
    requires forall i :: 0 <= i < |b| ==> !IsRealUserTurn(b[i])
    ensures LastRealUser(a + b) == LastRealUser(a)
  {
    hide IsRealUserTurn;
    if b == [] {
      assert a + b == a;
    } else {
      var s, n := a + b, |b| - 1;
      assert s[..|s| - 1] == a + b[..n] && s[|s| - 1] == b[n];
      LastRealSkips(a, b[..n]);
    }
  }

  /** A wrapped query is a real turn exactly when what it reads back as is no synthetic text. */
  lemma WrappedIsReal(q: string)
    ensures TextContent(UserText(WrapUserQuery(q), None)) == WrapUserQuery(q)
    ensures IsRealUserTurn(UserText(WrapUserQuery(q), None))
       <==> !IsSyntheticExtractedQuery(ExtractUserQuery(WrapUserQuery(q)))
  {
    hide WrapUserQuery, ExtractUserQuery, IsSyntheticExtractedQuery;
    var part := TextPart(WrapUserQuery(q));
    assert [part][1..] == [];
    assert Texts([part]) == [WrapUserQuery(q)];
  }

  /** The query outlives compaction: there is none, or it reads back as itself and as no synthetic text. */
  ghost predicate Survives(query: Option<string>) {
    query.Some? ==> Stable(query.value) && !IsSyntheticExtractedQuery(query.value)
  }

  /** Items that compaction adds around the conversation: never a real turn, never a call or a result. */
  ghost predicate Inert(items: seq<Item>) {
    forall i :: 0 <= i < |items| ==> items[i].System? || (items[i].User? && items[i].reason.Some?)
  }

  lemma AddedItemsAreInert(input: HistoryInput)
    requires input.systemMessage.System?
    ensures Inert(Preface(input)) && Inert(Closing(input))
    ensures Preface(input) != []
  {
    hide SummaryText;
  }

  lemma InertReadsEmpty(items: seq<Item>)
    requires Inert(items)
    ensures CondenseAll(items) == []
    ensures forall i :: 0 <= i < |items| ==> !IsRealUserTurn(items[i])
  {
    hide ExtractUserQuery, TextContent, IsSyntheticExtractedQuery, HasImages;
    CondenseToNothing(items);
  }

  /** The query the next compaction finds in a rebuilt query turn. */
  function NextQuery(query: Option<string>): Option<string> {
    match query
    case None => None
    case Some(q) =>
      var read := ExtractUserQuery(WrapUserQuery(q));
      if IsSyntheticExtractedQuery(read) then None else Some(read)
  }

  lemma QueryTurnReads(before: seq<Item>, query: Option<string>)
    requires forall i :: 0 <= i < |before| ==> !IsRealUserTurn(before[i])
    ensures var s := before + QueryTurn(query);
            && CondenseAll(QueryTurn(query)) == []
            && (LastRealUser(s).Some? ==> TailStart(s) == |s|)
            && (ExtractLastRealUserQuery(s) == query <==> Survives(query))
            && ExtractLastRealUserQuery(s) == NextQuery(query)
  {
    hide Stable, WrapUserQuery, ExtractUserQuery, IsSyntheticExtractedQuery, IsRealUserTurn;
    var t := QueryTurn(query);
    var s := before + t;
    CondenseToNothing(t);
    LastRealUserIsLast(s);
    if query.Some? {
      WrappedIsReal(query.value);
      ExtractOfWrap(query.value);
      assert s[|before|] == t[0] && forall i :: 0 <= i < |before| ==> s[i] == before[i];
    } else {
      assert s == before;
    }
  }

  /**
   Reading the state back from a compacted history gives the recent messages it was
   built from, always, and the query it was built from exactly when the query survives.
   */
  lemma CompactionFixpoint(conversation: seq<Item>, input: HistoryInput)
    requires input.context == ContextOf(conversation) && input.systemMessage.System?
    ensures var again := ContextOf(CompactedHistory(input));
            && again.recentMessages == input.context.recentMessages
            && (again.lastUserQuery == input.context.lastUserQuery <==> Survives(input.context.lastUserQuery))
            && again.lastUserQuery == NextQuery(input.context.lastUserQuery)
  {
    hide Preface, Closing, QueryTurn, Survives, NextQuery, IsRealUserTurn, ExtractUserQuery, LastRealUser, CondenseAll, Condensed,
         TailStart, ExtractLastRealUserQuery;
    var p, t := Preface(input), QueryTurn(input.context.lastUserQuery);
    var recent, c := input.context.recentMessages, Closing(input);
    AddedItemsAreInert(input);
    InertReadsEmpty(p);
    InertReadsEmpty(c);
    CondenseIsCondensed(conversation[TailStart(conversation)..]);
    QueryTurnReads(p, input.context.lastUserQuery);
    CondenseConcat(p, t);
    CondenseHistory(p + t, recent, c);
    CondensedAreNoUsers(recent);
    LastRealSkips(p + t, recent + c);
    ReadBack(p + t, recent + c, recent);
    assert CompactedHistory(input) == p + t + (recent + c);
  }

  lemma CondenseHistory(o: seq<Item>, recent: seq<Item>, c: seq<Item>)
    requires CondenseAll(o) == [] && CondenseAll(c) == [] && Condensed(recent)
    ensures CondenseAll(recent + c) == recent && CondenseAll(o + (recent + c)) == recent
  {
    hide CondenseAll, Condensed;
    CondensedIsFixed(recent);
    CondenseConcat(recent, c);
    CondenseConcat(o, recent + c);
  }

  lemma ReadBack(o: seq<Item>, tail: seq<Item>, recent: seq<Item>)
    requires CondenseAll(tail) == recent && CondenseAll(o + tail) == recent
    requires LastRealUser(o + tail) == LastRealUser(o)
    requires LastRealUser(o).Some? ==> TailStart(o) == |o|
    ensures ExtractMessagesSinceLastRealUser(o + tail) == recent
    ensures ExtractLastRealUserQuery(o + tail) == ExtractLastRealUserQuery(o)
  {
  }

  lemma CondensedAreNoUsers(items: seq<Item>)
    requires Condensed(items)
    ensures forall i :: 0 <= i < |items| ==> !IsRealUserTurn(items[i])
  {
  }

  // ----- every chain of compactions settles

  /** `inputs` are compactions one after the other, each of the history the one before it built. */
  ghost predicate IsChain(conversation: seq<Item>, inputs: seq<HistoryInput>) {
    && (inputs != [] ==> inputs[0].context == ContextOf(conversation))
    && (forall k :: 0 <= k < |inputs| ==> inputs[k].systemMessage.System?)
    && forall k :: 0 <= k < |inputs| - 1 ==> inputs[k + 1].context == ContextOf(CompactedHistory(inputs[k]))
  }

  function QueryWeight(query: Option<string>): nat {
    match query case None => 0 case Some(q) => |q| + 1
  }

  lemma NextQuerySettles(query: Option<string>)
    ensures if Survives(query) then NextQuery(query) == query else QueryWeight(NextQuery(query)) < QueryWeight(query)
  {
    hide Stable, WrapUserQuery, ExtractUserQuery, IsSyntheticExtractedQuery;
    if query.Some? {
      ExtractOfWrap(query.value);
      ExtractShrinks(query.value);
    }
  }

  lemma ChainStep(conversation: seq<Item>, inputs: seq<HistoryInput>, k: nat)
    requires IsChain(conversation, inputs) && k + 1 < |inputs|
    ensures inputs[k + 1].context.recentMessages == inputs[k].context.recentMessages
    ensures inputs[k + 1].context.lastUserQuery == NextQuery(inputs[k].context.lastUserQuery)
  {
    hide ContextOf, CompactedHistory, NextQuery, Survives;
    var before := if k == 0 then conversation else CompactedHistory(inputs[k - 1]);
    assert k > 0 ==> inputs[(k - 1) + 1].context == ContextOf(CompactedHistory(inputs[k - 1]));
    CompactionFixpoint(before, inputs[k]);
  }

  /** Each compaction leaves the query alone from then on, or at least one character shorter. */
  lemma {:induction false} ChainSettles(conversation: seq<Item>, inputs: seq<HistoryInput>, k: nat)
    requires IsChain(conversation, inputs) && k < |inputs|
    ensures inputs[k].context.recentMessages == ContextOf(conversation).recentMessages
    ensures var query := inputs[k].context.lastUserQuery;
            Survives(query) || QueryWeight(query) + k <= QueryWeight(ContextOf(conversation).lastUserQuery)
  {
    hide IsChain, ContextOf, NextQuery, Survives, QueryWeight;
    if k == 0 {
      ChainStart(conversation, inputs);
    } else {
      ChainSettles(conversation, inputs, k - 1);
      ChainStep(conversation, inputs, k - 1);
      NextQuerySettles(inputs[k - 1].context.lastUserQuery);
    }
  }

  lemma ChainStart(conversation: seq<Item>, inputs: seq<HistoryInput>)
    requires IsChain(conversation, inputs) && inputs != []
    ensures inputs[0].context == ContextOf(conversation)
  {
  }

  lemma NoQuerySurvives(query: Option<string>)
    requires QueryWeight(query) == 0
    ensures Survives(query)
  {
  }

  /**
   However often a session is compacted and whatever its query, the state it carries
   stops changing after at most one round more than the query has characters.
   */
  lemma {:induction false} CompactionSettles(conversation: seq<Item>, inputs: seq<HistoryInput>, n: nat, k: nat)
    requires IsChain(conversation, inputs) && n <= k < |inputs|
    requires n >= QueryWeight(ContextOf(conversation).lastUserQuery)
    ensures Survives(inputs[k].context.lastUserQuery) && inputs[k].context == inputs[n].context
    decreases k
  {
    hide IsChain, ContextOf, NextQuery, Survives, QueryWeight;
    ChainSettles(conversation, inputs, k);
    if QueryWeight(inputs[k].context.lastUserQuery) == 0 { NoQuerySurvives(inputs[k].context.lastUserQuery); }
    if k > n {
      CompactionSettles(conversation, inputs, n, k - 1);
      ChainStep(conversation, inputs, k - 1);
      NextQuerySettles(inputs[k - 1].context.lastUserQuery);
    }
  }

  /** A query that survives stays from the first round on: the state never changes. */
  lemma {:induction false} RepeatedCompaction(conversation: seq<Item>, inputs: seq<HistoryInput>, k: nat)
    requires IsChain(conversation, inputs) && k < |inputs| && Survives(ContextOf(conversation).lastUserQuery)
    ensures inputs[k].context == ContextOf(conversation)
  {
    hide IsChain, ContextOf, NextQuery, Survives;
    if k == 0 {
      ChainStart(conversation, inputs);
    } else {
      RepeatedCompaction(conversation, inputs, k - 1);
      ChainStep(conversation, inputs, k - 1);
      NextQuerySettles(inputs[k - 1].context.lastUserQuery);
    }
  }
}
