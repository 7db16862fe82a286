/** What fitting returns, said without its own searches: which items stay, and what is left of their texts. */
module BudgetMeaning {
  import opened Wrappers
  import opened Conversation
  import opened Decimal
  import opened Utf8
  import opened Repair
  import opened Budget
  import opened BudgetLaws
  import opened BudgetFixpoint
  import BudgetSize

  // ----- the estimate

  function Joined(texts: seq<string>): string {
    if texts == [] then [] else texts[0] + Joined(texts[1..])
  }

  function Arguments(calls: seq<ToolCall>): seq<string> {
    if calls == [] then [] else [calls[0].arguments] + Arguments(calls[1..])
  }

  /** Everything an item says, put together. */
  function AllText(item: Item): string {
    match item
    case System(content) => content
    case User(parts, _, _, _) => Joined(Texts(parts))
    case Assistant(content, calls, _) => content + Joined(Arguments(calls))
    case ToolResult(_, content, _) => content
    case BackendToolCall(summary) => summary
    case Reasoning(text, Some(blob)) => text + blob
    case Reasoning(text, None) => text
  }

  function Images(item: Item): int {
    if item.User? then |item.parts| - |Texts(item.parts)| else 0
  }

  lemma {:induction false} PartsMeaning(parts: seq<ContentPart>)
    ensures |Texts(parts)| <= |parts|
    ensures TextBytes(parts) == ByteLen(Joined(Texts(parts))) && ImageCount(parts) == |parts| - |Texts(parts)|
  {
    hide Encode;
    if parts == [] {
      AsciiByteLen([]);
    } else {
      PartsMeaning(parts[1..]);
      var rest := Texts(parts[1..]);
      match parts[0]
      case TextPart(text) =>
        assert ([text] + rest)[1..] == rest;
        EncodeConcat(text, Joined(rest));
      case ImagePart(_) =>
        assert [] + rest == rest;
    }
  }

  lemma {:induction false} ArgumentsMeaning(calls: seq<ToolCall>)
    ensures ArgumentBytes(calls) == ByteLen(Joined(Arguments(calls)))
  {
    hide Encode;
    if calls == [] {
      AsciiByteLen([]);
    } else {
      ArgumentsMeaning(calls[1..]);
      var rest := Arguments(calls[1..]);
      assert ([calls[0].arguments] + rest)[1..] == rest;
      EncodeConcat(calls[0].arguments, Joined(rest));
    }
  }

  /** One token per four bytes of everything the item says, and 765 per image of a user turn. */
  lemma EstimateMeaning(item: Item)
    ensures Images(item) >= 0 && EstimateItemTokens(item) == ByteLen(AllText(item)) / 4 + 765 * Images(item)
  {
    hide Encode, TextBytes, ImageCount, ArgumentBytes, Joined, Texts;
    match item
    case User(parts, _, _, _) => PartsMeaning(parts);
    case Assistant(content, calls, _) =>
      ArgumentsMeaning(calls);
      EncodeConcat(content, Joined(Arguments(calls)));
    case Reasoning(text, Some(blob)) => EncodeConcat(text, blob);
    case _ =>
  }

  // ----- which items stay

  /** A cut at `i` would do: it opens with no result and what follows is within the budget. */
  ghost predicate GoodCut(body: seq<Item>, budget: nat, i: nat) {
    i < |body| && !body[i].ToolResult? && Cost(body[i..]) <= budget
  }

  /** Where some cut would do, the result is the system message and everything from the oldest such cut on. */
  lemma FitIsOldestGoodCut(conversation: seq<Item>, maxTokens: nat, j: nat)
    requires Cost(conversation) > maxTokens
    requires var body, budget := Body(conversation), BodyBudget(conversation, maxTokens);
             GoodCut(body, budget, j) && forall i: nat :: i < j ==> !GoodCut(body, budget, i)
    ensures Fit(conversation, maxTokens) == Head(conversation) + Body(conversation)[j..]
  {
    hide Cost, SuffixStart, GoodCut, Fit, Head, Body, BodyBudget;
    OldestIsStart(Body(conversation), BodyBudget(conversation, maxTokens), j);
    SuffixIsKept(conversation, maxTokens);
  }

  lemma OldestIsStart(body: seq<Item>, budget: nat, j: nat)
    requires GoodCut(body, budget, j) && forall i: nat :: i < j ==> !GoodCut(body, budget, i)
    ensures SuffixStart(body, budget) == j < |body|
  {
    hide Cost, SuffixStart;
    var start := SuffixStart(body, budget);
    SuffixIsLongest(body, budget, j);
    assert GoodCut(body, budget, start) ==> j <= start;
  }

  lemma SuffixIsKept(conversation: seq<Item>, maxTokens: nat)
    requires Cost(conversation) > maxTokens
    ensures var body, budget := Body(conversation), BodyBudget(conversation, maxTokens);
            var start := SuffixStart(body, budget);
            start < |body| ==> Fit(conversation, maxTokens) == Head(conversation) + body[start..]
  {
    hide Cost, SuffixStart, TailUnit;
  }

  lemma NoGoodCut(body: seq<Item>, budget: nat)
    requires forall i: nat :: !GoodCut(body, budget, i)
    ensures SuffixStart(body, budget) == |body|
  {
    hide Cost, SuffixStart;
    var start := SuffixStart(body, budget);
    SuffixIsLongest(body, budget, 0);
    assert !GoodCut(body, budget, start);
  }

  /** Where no cut would do and the last item is a turn, that turn is kept alone, truncated to what the system message leaves. */
  lemma FitCutsTheLastTurn(conversation: seq<Item>, maxTokens: nat)
    requires Cost(conversation) > maxTokens && Body(conversation) != []
    requires forall i: nat :: !GoodCut(Body(conversation), BodyBudget(conversation, maxTokens), i)
    requires var body := Body(conversation); !body[|body| - 1].ToolResult?
    ensures var body := Body(conversation);
            Fit(conversation, maxTokens) ==
            Head(conversation) + [TruncateItem(body[|body| - 1], BodyBudget(conversation, maxTokens))]
  {
    hide Cost, KeepsSuffix, TruncateItem, TrailStart, Fit, Head, Body, BodyBudget, GoodCut;
    NoCutNoSuffix(conversation, maxTokens);
    TailIsKept(conversation, maxTokens);
    TrailNone(Body(conversation));
  }

  lemma NoCutNoSuffix(conversation: seq<Item>, maxTokens: nat)
    requires forall i: nat :: !GoodCut(Body(conversation), BodyBudget(conversation, maxTokens), i)
    ensures !KeepsSuffix(conversation, maxTokens)
  {
    hide Cost, SuffixStart, Body, BodyBudget, GoodCut;
    NoGoodCut(Body(conversation), BodyBudget(conversation, maxTokens));
  }

  /** What each result may cost: an equal share of what the system message and the owner leave, but at least one token. */
  function ShareOf(left: int, count: nat): nat
    requires count > 0
  {
    if left < count then 1 else left / count
  }

  lemma ShareMeaning(budget: nat, ownerCost: nat, count: nat)
    requires count > 0
    ensures Share(budget, ownerCost, count) == ShareOf(budget - ownerCost, count)
  {
    var left := Minus(budget, ownerCost);
    if left < count { assert left / count == 0; } else { assert left / count >= 1; }
  }

  /** The turn that made the calls answered from `k` on, if there is one. */
  function CallerBefore(body: seq<Item>, k: nat): seq<Item>
    requires k <= |body|
  {
    if k > 0 && body[k - 1].Assistant? && body[k - 1].toolCalls != [] then [body[k - 1]] else []
  }

  lemma CallerIsOwner(body: seq<Item>, k: nat)
    requires k <= |body| && TrailStart(body) == k
    ensures TailOwner(body) == CallerBefore(body, k)
  {
    hide TrailStart;
  }

  lemma ShareLeft(maxTokens: nat, headCost: nat, budget: nat, ownerCost: nat, count: nat)
    requires count > 0 && budget == if headCost <= maxTokens then maxTokens - headCost else 0
    ensures ShareOf(budget - ownerCost, count) == ShareOf(maxTokens - headCost - ownerCost, count)
  {
  }

  lemma TailUnitIs(body: seq<Item>, budget: nat, k: nat)
    requires k < |body| && AllResults(body[k..]) && (k > 0 ==> !body[k - 1].ToolResult?)
    ensures var owner := CallerBefore(body, k);
            TailUnit(body, budget) == owner + TruncateAll(body[k..], ShareOf(budget - Cost(owner), |body| - k))
  {
    hide Cost, TruncateAll, TrailStart, Share, ShareOf, AllResults, TailOwner, CallerBefore, TruncateItem;
    TrailStartIs(body, k);
    CallerIsOwner(body, k);
    ShareMeaning(budget, Cost(CallerBefore(body, k)), |body| - k);
  }

  /**
   Where no cut would do and the conversation ends in results, they are kept behind the
   turn that made the calls, each truncated to an equal share of what is left.
   */
  lemma FitCutsTheLastResults(conversation: seq<Item>, maxTokens: nat, k: nat)
    requires Cost(conversation) > maxTokens
    requires forall i: nat :: !GoodCut(Body(conversation), BodyBudget(conversation, maxTokens), i)
    requires var body := Body(conversation);
             k < |body| && AllResults(body[k..]) && (k > 0 ==> !body[k - 1].ToolResult?)
    ensures var head, body := Head(conversation), Body(conversation);
            var owner := CallerBefore(body, k);
            var share := ShareOf(maxTokens - Cost(head) - Cost(owner), |body| - k);
            Fit(conversation, maxTokens) == head + owner + TruncateAll(body[k..], share)
  {
    hide Cost, KeepsSuffix, TailUnit, TruncateAll, CallerBefore, ShareOf, Fit, AllResults, GoodCut, Head, Body, BodyBudget;
    var head, body, budget := Head(conversation), Body(conversation), BodyBudget(conversation, maxTokens);
    var owner := CallerBefore(body, k);
    NoCutNoSuffix(conversation, maxTokens);
    TailIsKept(conversation, maxTokens);
    TailUnitIs(body, budget, k);
    BudgetLeft(conversation, maxTokens);
    ShareLeft(maxTokens, Cost(head), budget, Cost(owner), |body| - k);
    Behind(head, owner, TruncateAll(body[k..], ShareOf(budget - Cost(owner), |body| - k)));
  }

  lemma Behind(head: seq<Item>, owner: seq<Item>, cut: seq<Item>)
    ensures head + (owner + cut) == head + owner + cut
  {
  }

  // ----- what is left of a text

  lemma PrefixIsBoundary(s: string, n: nat)
    requires n <= |s|
    ensures ByteLen(s[..n]) <= ByteLen(s) && IsCharBoundary(Encode(s), ByteLen(s[..n]))
  {
    hide Encode;
    assert s == s[..n] + s[n..];
    EncodeConcat(s[..n], s[n..]);
    if n < |s| {
      StartIsBoundary(s[n..]);
      assert Encode(s)[ByteLen(s[..n])] == Encode(s[n..])[0];
    } else {
      assert s[..n] == s && s[n..] == [];
    }
  }

  /**
   A text over its budget is cut to its longest prefix that leaves 64 bytes for the
   marker, and the marker behind it says how many bytes were dropped.
   */
  lemma TruncatedText(s: string, maxBytes: nat) returns (p: string)
    requires ByteLen(s) > maxBytes
    ensures p <= s && ByteLen(p) <= Minus(maxBytes, 64) && ByteLen(p) <= ByteLen(s)
    ensures forall n :: |p| < n <= |s| ==> ByteLen(s[..n]) > Minus(maxBytes, 64)
    ensures Truncated(s, maxBytes) ==
            p + "\n[... truncated " + Dec(ByteLen(s) - ByteLen(p)) + " bytes to fit the compaction window ...]"
  {
    hide Encode, Slice, Dec, Floor;
    var cut := CutPoint(s, maxBytes);
    p := Slice(s, cut);
    assert Truncated(s, maxBytes) == p + Marker(ByteLen(s) - cut);
    forall n | |p| < n <= |s| ensures ByteLen(s[..n]) > Minus(maxBytes, 64) {
      PrefixIsBoundary(s, n);
      LongerIsLater(s, p, n);
    }
    MarkerReads(p, ByteLen(s) - cut);
  }

  lemma MarkerReads(p: string, n: nat)
    ensures p + Marker(n) == p + "\n[... truncated " + Dec(n) + " bytes to fit the compaction window ...]"
  {
    hide Dec;
    var a, d, b := "\n[... truncated ", Dec(n), " bytes to fit the compaction window ...]";
    Regroup3(p, a, d, b);
  }

  lemma Regroup3(p: string, a: string, d: string, b: string)
    ensures p + (a + d + b) == p + a + d + b
  {
  }

  lemma LongerIsLater(s: string, p: string, n: nat)
    requires p <= s && |p| < n <= |s|
    ensures ByteLen(p) < ByteLen(s[..n])
  {
    hide Encode;
    assert s[..n] == p + s[|p|..n];
    EncodeConcat(p, s[|p|..n]);
    StartIsBoundary(s[|p|..n]);
  }

  /** Truncating an item touches its texts, each on its own, and nothing else. */
  lemma TruncatedItemIs(item: Item, maxTokens: nat)
    requires maxTokens * 4 <= U64_MAX
    ensures var r := TruncateItem(item, maxTokens);
            match item
            case ToolResult(id, content, images) => r == ToolResult(id, Truncated(content, maxTokens * 4), images)
            case Assistant(content, calls, model) => r == Assistant(Truncated(content, maxTokens * 4), calls, model)
            case User(parts, reason, interrupt, index) =>
              && r == User(r.parts, reason, interrupt, index) && |r.parts| == |parts|
              && (forall i :: 0 <= i < |parts| ==>
                    r.parts[i] == if parts[i].TextPart? then TextPart(Truncated(parts[i].text, maxTokens * 4)) else parts[i])
            case _ => r == item
  {
    hide Truncated, TruncateParts;
    if item.User? {
      forall i | 0 <= i < |item.parts|
        ensures TruncateParts(item.parts, maxTokens * 4)[i] == TruncatePart(item.parts[i], maxTokens * 4)
      {
        BudgetSize.TruncatedPartAt(item.parts, maxTokens * 4, i);
      }
    }
  }
}
