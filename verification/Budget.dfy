/** Shrinking a conversation to a token budget, and truncating one text to a byte budget. */
module Budget {
  import opened Wrappers
  import opened Conversation
  import opened Decimal
  import opened Utf8
  import opened Repair

  const USIZE_MAX := U64_MAX
  const BYTES_PER_TOKEN := 4
  const IMAGE_TOKEN_ESTIMATE := 765
  const MARKER_RESERVE := 64

  function Minus(a: nat, b: nat): nat { if a >= b then a - b else 0 }

  function Max(a: nat, b: nat): nat { if a >= b then a else b }

  // ----- the token estimate

  function TextBytes(parts: seq<ContentPart>): nat {
    if parts == [] then 0
    else (match parts[0] case TextPart(text) => ByteLen(text) case ImagePart(_) => 0) + TextBytes(parts[1..])
  }

  function ImageCount(parts: seq<ContentPart>): nat {
    if parts == [] then 0 else (if parts[0].ImagePart? then 1 else 0) + ImageCount(parts[1..])
  }

  function ArgumentBytes(calls: seq<ToolCall>): nat {
    if calls == [] then 0 else ByteLen(calls[0].arguments) + ArgumentBytes(calls[1..])
  }

  function EstimateItemTokens(item: Item): nat {
    match item
    case System(content) => ByteLen(content) / BYTES_PER_TOKEN
    case User(parts, _, _, _) => TextBytes(parts) / BYTES_PER_TOKEN + ImageCount(parts) * IMAGE_TOKEN_ESTIMATE
    case Assistant(content, calls, _) => (ByteLen(content) + ArgumentBytes(calls)) / BYTES_PER_TOKEN
    case ToolResult(_, content, _) => ByteLen(content) / BYTES_PER_TOKEN
    case BackendToolCall(summary) => ByteLen(summary) / BYTES_PER_TOKEN
    case Reasoning(text, encrypted) =>
      (ByteLen(text) + match encrypted case Some(blob) => ByteLen(blob) case None => 0) / BYTES_PER_TOKEN
  }

  function Cost(items: seq<Item>): nat {
    if items == [] then 0 else EstimateItemTokens(items[0]) + Cost(items[1..])
  }

  // ----- truncating one text

  function Marker(dropped: nat): string {
    "\n[... truncated " + Dec(dropped) + " bytes to fit the compaction window ...]"
  }

  /** Where the text is cut: the last character boundary that leaves room for the marker. */
  function CutPoint(s: string, maxBytes: nat): (end: nat)
    requires ByteLen(s) > maxBytes
    ensures end <= ByteLen(s) && IsCharBoundary(Encode(s), end)
  {
    Floor(Encode(s), Minus(maxBytes, MARKER_RESERVE))
  }

  function Truncated(s: string, maxBytes: nat): string {
    if ByteLen(s) <= maxBytes then s
    else Slice(s, CutPoint(s, maxBytes)) + Marker(ByteLen(s) - CutPoint(s, maxBytes))
  }

  method TruncateTextToBytes(s: string, maxBytes: nat) returns (r: Option<string>)
    ensures r.None? <==> ByteLen(s) <= maxBytes
    ensures r.Some? ==> r.value == Truncated(s, maxBytes)
  {
    hide Encode, Slice, Marker, IsContinuation;
    var bytes := Encode(s);
    if |bytes| <= maxBytes {
      return None;
    }
    var keep := Minus(maxBytes, MARKER_RESERVE);
    var end := if keep < |bytes| then keep else |bytes|;
    while end > 0 && !IsCharBoundary(bytes, end)
      invariant 0 <= end <= keep && Floor(bytes, end) == Floor(bytes, keep)
    {
      end := end - 1;
    }
    var dropped := |bytes| - end;
    r := Some(Slice(s, end) + Marker(dropped));
  }

  // ----- truncating one item

  function TruncatePart(part: ContentPart, maxBytes: nat): ContentPart {
    match part case TextPart(text) => TextPart(Truncated(text, maxBytes)) case ImagePart(_) => part
  }

  function TruncateParts(parts: seq<ContentPart>, maxBytes: nat): (r: seq<ContentPart>)
    ensures |r| == |parts|
  {
    if parts == [] then [] else TruncateParts(parts[..|parts| - 1], maxBytes) + [TruncatePart(parts[|parts| - 1], maxBytes)]
  }

  function MaxBytes(maxTokens: nat): nat {
    if maxTokens * 4 <= USIZE_MAX then maxTokens * 4 else USIZE_MAX
  }

  function TruncateItem(item: Item, maxTokens: nat): Item {
    var maxBytes := MaxBytes(maxTokens);
    match item
    case ToolResult(callId, content, images) => ToolResult(callId, Truncated(content, maxBytes), images)
    case Assistant(content, calls, modelId) => Assistant(Truncated(content, maxBytes), calls, modelId)
    case User(parts, reason, interrupt, promptIndex) =>
      User(TruncateParts(parts, maxBytes), reason, interrupt, promptIndex)
    case _ => item
  }

  method TruncateText(s: string, maxBytes: nat) returns (r: string)
    ensures r == Truncated(s, maxBytes)
  {
    var cut := TruncateTextToBytes(s, maxBytes);
    r := if cut.Some? then cut.value else s;
  }

  method TruncateEachPart(parts: seq<ContentPart>, maxBytes: nat) returns (cut: seq<ContentPart>)
    ensures cut == TruncateParts(parts, maxBytes)
  {
    hide TruncatePart;
    cut := parts;
    for i := 0 to |parts|
      invariant |cut| == |parts| && cut[i..] == parts[i..]
      invariant cut[..i] == TruncateParts(parts[..i], maxBytes)
    {
      assert parts[..i + 1][..i] == parts[..i] && cut[i] == parts[i..][0];
      assert cut[i + 1..] == cut[i..][1..] && parts[i + 1..] == parts[i..][1..];
      var part := TruncateOnePart(parts[i], maxBytes);
      cut := cut[i := part];
      assert cut[..i + 1] == cut[..i] + [part];
    }
    assert parts[..|parts|] == parts && cut[..|parts|] == cut;
  }

  method TruncateOnePart(part: ContentPart, maxBytes: nat) returns (r: ContentPart)
    ensures r == TruncatePart(part, maxBytes)
  {
    hide Truncated;
    match part
    case TextPart(text) =>
      var cut := TruncateText(text, maxBytes);
      r := TextPart(cut);
    case ImagePart(_) =>
      r := part;
  }

  method TruncateItemToTokens(item: Item, maxTokens: nat) returns (r: Item)
    ensures r == TruncateItem(item, maxTokens)
  {
    hide Truncated, TruncateParts;
    var maxBytes := MaxBytes(maxTokens);
    match item
    case ToolResult(callId, content, images) =>
      var text := TruncateText(content, maxBytes);
      r := ToolResult(callId, text, images);
    case Assistant(content, calls, modelId) =>
      var text := TruncateText(content, maxBytes);
      r := Assistant(text, calls, modelId);
    case User(parts, reason, interrupt, promptIndex) =>
      var cut := TruncateEachPart(parts, maxBytes);
      r := User(cut, reason, interrupt, promptIndex);
    case _ =>
      r := item;
  }

  function TruncateAll(items: seq<Item>, maxTokens: nat): (r: seq<Item>)
    ensures |r| == |items|
    ensures forall i :: 0 <= i < |items| ==> r[i] == TruncateItem(items[i], maxTokens)
  {
    if items == [] then [] else [TruncateItem(items[0], maxTokens)] + TruncateAll(items[1..], maxTokens)
  }

  // ----- the tail unit

  /** Where the results at the end of `body` begin. */
  function TrailStart(body: seq<Item>): (k: nat)
    ensures k <= |body| && AllResults(body[k..])
    ensures k > 0 ==> !body[k - 1].ToolResult?
  {
    if body == [] || !body[|body| - 1].ToolResult? then |body|
    else
      var k := TrailStart(body[..|body| - 1]);
      assert body[k..] == body[..|body| - 1][k..] + [body[|body| - 1]];
      k
  }

  /** The turn that owns the results at the end of `body`. */
  function TailOwner(body: seq<Item>): seq<Item> {
    var k := TrailStart(body);
    if k > 0 && MakesCalls(body[k - 1]) then [body[k - 1]] else []
  }

  /** What each of `count` results may cost once the turn that owns them is paid for. */
  function Share(budget: nat, ownerCost: nat, count: nat): nat
    requires count > 0
  {
    Max(Minus(budget, ownerCost) / count, 1)
  }

  function TailUnit(body: seq<Item>, budget: nat): seq<Item> {
    if body == [] then []
    else
      var k := TrailStart(body);
      if k == |body| then [TruncateItem(body[k - 1], budget)]
      else
        var owner := TailOwner(body);
        owner + TruncateAll(body[k..], Share(budget, Cost(owner), |body| - k))
  }

  function Reversed(s: seq<Item>): seq<Item> {
    if s == [] then [] else Reversed(s[1..]) + [s[0]]
  }

  lemma {:induction false} ReversedSnoc(s: seq<Item>, x: Item)
    ensures Reversed(s + [x]) == [x] + Reversed(s)
  {
    if s == [] {
      assert s + [x] == [x] && [x][1..] == [];
    } else {
      assert (s + [x])[0] == s[0] && (s + [x])[1..] == s[1..] + [x];
      ReversedSnoc(s[1..], x);
    }
  }

  lemma TrailPop(body: seq<Item>)
    requires body != [] && body[|body| - 1].ToolResult?
    ensures TrailStart(body[..|body| - 1]) == TrailStart(body) < |body|
  {
  }

  lemma TrailNone(body: seq<Item>)
    requires body == [] || !body[|body| - 1].ToolResult?
    ensures TrailStart(body) == |body|
  {
  }

  /** Pops the results off the end of the conversation; they come out back to front. */
  method PopResults(items: seq<Item>) returns (body: seq<Item>, popped: seq<Item>)
    ensures body == items[..TrailStart(items)] && Reversed(popped) == items[TrailStart(items)..]
  {
    hide TrailStart, Reversed;
    body, popped := items, [];
    assert items == items + Reversed([]) by { NothingReversed(); }
    while body != [] && body[|body| - 1].ToolResult?
      invariant TrailStart(body) == TrailStart(items) && items == body + Reversed(popped)
      decreases |body|
    {
      var last := body[|body| - 1];
      TrailPop(body);
      ReversedSnoc(popped, last);
      assert body + Reversed(popped) == body[..|body| - 1] + ([last] + Reversed(popped));
      popped := popped + [last];
      body := body[..|body| - 1];
    }
    TrailNone(body);
  }

  lemma NothingReversed()
    ensures Reversed([]) == []
  {
  }

  method RecoverTruncatedTailUnit(items: seq<Item>, budget: nat) returns (unit: seq<Item>)
    ensures unit == TailUnit(items, budget)
  {
    hide EstimateItemTokens, TruncateItem, TrailStart, Cost, Reversed;
    var body, popped := PopResults(items);
    var results := Reversed(popped);
    if results == [] {
      if body == [] {
        return [];
      }
      var item := TruncateItemToTokens(body[|body| - 1], budget);
      return [item];
    }
    var owner: seq<Item> := [];
    if body != [] && MakesCalls(body[|body| - 1]) {
      owner := [body[|body| - 1]];
    }
    assert owner == TailOwner(items);
    var per := Share(budget, Cost(owner), |results|);
    var cut := TruncateEach(results, per);
    unit := owner + cut;
  }

  method TruncateEach(results: seq<Item>, per: nat) returns (cut: seq<Item>)
    ensures cut == TruncateAll(results, per)
  {
    hide TruncateItem, TruncateAll;
    cut := [];
    for i := 0 to |results|
      invariant cut == TruncateAll(results, per)[..i]
    {
      var r := TruncateItemToTokens(results[i], per);
      cut := cut + [r];
    }
  }

  // ----- the fit

  /** The start of the longest suffix of `body` within the budget, searching down from `start`. */
  function LongestFit(body: seq<Item>, budget: nat, start: nat): (r: nat)
    requires start <= |body| && Cost(body[start..]) <= budget
    ensures r <= start && Cost(body[r..]) <= budget && (r > 0 ==> Cost(body[r - 1..]) > budget)
  {
    if start > 0 && Cost(body[start - 1..]) <= budget then LongestFit(body, budget, start - 1) else start
  }

  function Head(conversation: seq<Item>): (head: seq<Item>)
    ensures head <= conversation
  {
    if conversation != [] && conversation[0].System? then [conversation[0]] else []
  }

  function Body(conversation: seq<Item>): seq<Item> {
    conversation[|Head(conversation)|..]
  }

  function BodyBudget(conversation: seq<Item>, maxTokens: nat): nat {
    Minus(maxTokens, Cost(Head(conversation)))
  }

  /** Where the kept part of the body starts: past the results the longest fitting suffix opens with. */
  function SuffixStart(body: seq<Item>, budget: nat): (start: nat)
    ensures start <= |body| && (start < |body| ==> !body[start].ToolResult?)
  {
    assert body[|body|..] == [];
    RunEnd(body, LongestFit(body, budget, |body|))
  }

  /** The fitting suffix, or the truncated tail unit when no turn fits whole. */
  function KeptBody(body: seq<Item>, budget: nat): seq<Item> {
    var start := SuffixStart(body, budget);
    if start < |body| then body[start..] else TailUnit(body, budget)
  }

  function Fit(conversation: seq<Item>, maxTokens: nat): seq<Item> {
    if Cost(conversation) <= maxTokens then conversation
    else Head(conversation) + KeptBody(Body(conversation), BodyBudget(conversation, maxTokens))
  }

  lemma CostStep(items: seq<Item>, i: nat)
    requires i < |items|
    ensures Cost(items[i..]) == EstimateItemTokens(items[i]) + Cost(items[i + 1..])
  {
  }

  /** Walks back from the end while the next older item still fits. */
  method WalkBack(body: seq<Item>, budget: nat) returns (start: nat)
    ensures start <= |body| && Cost(body[|body|..]) <= budget
    ensures start == LongestFit(body, budget, |body|)
  {
    hide EstimateItemTokens;
    var remaining := budget;
    start := |body|;
    assert body[|body|..] == [];
    while start > 0
      invariant 0 <= start <= |body| && remaining >= 0 && Cost(body[start..]) == budget - remaining
      invariant LongestFit(body, budget, start) == LongestFit(body, budget, |body|)
      decreases start
    {
      var cost := EstimateItemTokens(body[start - 1]);
      CostStep(body, start - 1);
      if cost > remaining {
        break;
      }
      remaining := remaining - cost;
      start := start - 1;
    }
  }

  method FindSuffix(body: seq<Item>, budget: nat) returns (start: nat)
    ensures start == SuffixStart(body, budget)
  {
    hide Cost, LongestFit;
    start := WalkBack(body, budget);
    ghost var first := start;
    while start < |body| && body[start].ToolResult?
      invariant first <= start <= |body| && RunEnd(body, start) == RunEnd(body, first)
    {
      start := start + 1;
    }
  }

  method FitConversationToBudget(conversation: seq<Item>, maxTokens: nat) returns (r: seq<Item>)
    ensures r == Fit(conversation, maxTokens)
  {
    hide Cost, SuffixStart, TailUnit;
    if Cost(conversation) <= maxTokens {
      return conversation;
    }
    var head: seq<Item> := [];
    var body := conversation;
    if body != [] && body[0].System? {
      head := head + [body[0]];
      body := body[1..];
    }
    assert head == Head(conversation) && body == Body(conversation);
    var budget := Minus(maxTokens, Cost(head));
    var start := FindSuffix(body, budget);
    if start < |body| {
      r := head + body[start..];
    } else {
      var unit := RecoverTruncatedTailUnit(body, budget);
      r := head + unit;
    }
  }
}
