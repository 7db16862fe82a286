/** What a fitted conversation costs, exactly and at most. */
module BudgetSize {
  import opened Conversation
  import opened Decimal
  import opened Utf8
  import opened Repair
  import opened Budget
  import opened BudgetLaws
  import opened Truncation

  const MARKER_TOKENS := MARKER_RESERVE / BYTES_PER_TOKEN

  // ----- one truncated item

  /** The bytes of the text parts once each is truncated. */
  function TruncatedBytes(parts: seq<ContentPart>, maxBytes: nat): nat {
    if parts == [] then 0
    else TruncatedBytes(parts[..|parts| - 1], maxBytes)
         + match parts[|parts| - 1] case TextPart(text) => TruncatedSize(text, maxBytes) case ImagePart(_) => 0
  }

  /** What an item costs once truncated, from the sizes of its texts. */
  function TruncatedCost(item: Item, maxTokens: nat): nat {
    var maxBytes := MaxBytes(maxTokens);
    match item
    case ToolResult(_, content, _) => TruncatedSize(content, maxBytes) / BYTES_PER_TOKEN
    case Assistant(content, calls, _) => (TruncatedSize(content, maxBytes) + ArgumentBytes(calls)) / BYTES_PER_TOKEN
    case User(parts, _, _, _) =>
      TruncatedBytes(parts, maxBytes) / BYTES_PER_TOKEN + ImageCount(parts) * IMAGE_TOKEN_ESTIMATE
    case _ => EstimateItemTokens(item)
  }

  lemma {:induction false} TextBytesSnoc(parts: seq<ContentPart>, part: ContentPart)
    ensures TextBytes(parts + [part])
         == TextBytes(parts) + match part case TextPart(text) => ByteLen(text) case ImagePart(_) => 0
    ensures ImageCount(parts + [part]) == ImageCount(parts) + if part.ImagePart? then 1 else 0
  {
    hide Encode;
    if parts == [] {
      assert parts + [part] == [part] && [part][1..] == [];
    } else {
      assert (parts + [part])[0] == parts[0] && (parts + [part])[1..] == parts[1..] + [part];
      TextBytesSnoc(parts[1..], part);
    }
  }

  lemma NoParts()
    ensures TextBytes([]) == 0 && ImageCount([]) == 0
  {
  }

  lemma {:induction false} TruncatedPartsBytes(parts: seq<ContentPart>, maxBytes: nat)
    ensures TextBytes(TruncateParts(parts, maxBytes)) == TruncatedBytes(parts, maxBytes)
    ensures ImageCount(TruncateParts(parts, maxBytes)) == ImageCount(parts)
  {
    hide Encode, Truncated, TruncatedSize, TextBytes, ImageCount;
    if parts == [] {
      NoParts();
    } else {
      var front, last := parts[..|parts| - 1], parts[|parts| - 1];
      TruncatedPartsBytes(front, maxBytes);
      TextBytesSnoc(TruncateParts(front, maxBytes), TruncatePart(last, maxBytes));
      TextBytesSnoc(front, last);
      assert front + [last] == parts;
      if last.TextPart? { TruncatedLength(last.text, maxBytes); }
    }
  }

  lemma TruncatedItemCost(item: Item, maxTokens: nat)
    ensures EstimateItemTokens(TruncateItem(item, maxTokens)) == TruncatedCost(item, maxTokens)
  {
    hide Encode, Truncated, TruncatedSize, TruncateParts, TextBytes, TruncatedBytes, ImageCount, ArgumentBytes;
    var maxBytes := MaxBytes(maxTokens);
    match item
    case ToolResult(_, content, _) => TruncatedLength(content, maxBytes);
    case Assistant(content, _, _) => TruncatedLength(content, maxBytes);
    case User(parts, _, _, _) => TruncatedPartsBytes(parts, maxBytes);
    case _ =>
  }

  // ----- a bound for every kind of item

  function TextCount(parts: seq<ContentPart>): nat {
    if parts == [] then 0 else TextCount(parts[..|parts| - 1]) + if parts[|parts| - 1].TextPart? then 1 else 0
  }

  /** The text drops fewer than 100 million bytes when truncated. */
  predicate Moderate(s: string, maxTokens: nat) {
    ByteLen(s) < Keep(MaxBytes(maxTokens)) + Pow10(8)
  }

  ghost predicate ModerateItem(item: Item, maxTokens: nat) {
    match item
    case ToolResult(_, content, _) => Moderate(content, maxTokens)
    case Assistant(content, _, _) => Moderate(content, maxTokens)
    case User(parts, _, _, _) => forall i :: 0 <= i < |parts| && parts[i].TextPart? ==> Moderate(parts[i].text, maxTokens)
    case _ => true
  }

  /**
   The most a truncated item can cost: each text its budget or 16 tokens for the
   marker; arguments, images and items that are never truncated in full.
   */
  function TruncatedCap(item: Item, maxTokens: nat): nat {
    var each := Max(maxTokens, MARKER_TOKENS);
    match item
    case ToolResult(_, _, _) => each
    case Assistant(_, calls, _) => each + ArgumentBytes(calls) / BYTES_PER_TOKEN
    case User(parts, _, _, _) => TextCount(parts) * each + ImageCount(parts) * IMAGE_TOKEN_ESTIMATE
    case _ => EstimateItemTokens(item)
  }

  lemma ModerateText(s: string, maxTokens: nat)
    requires Moderate(s, maxTokens)
    ensures TruncatedSize(s, MaxBytes(maxTokens)) <= BYTES_PER_TOKEN * Max(maxTokens, MARKER_TOKENS)
  {
    hide Encode, TruncatedSize, Pow10, Truncated;
    TruncationFits(s, MaxBytes(maxTokens));
  }

  lemma {:induction false} ModerateParts(parts: seq<ContentPart>, maxTokens: nat)
    requires forall i :: 0 <= i < |parts| && parts[i].TextPart? ==> Moderate(parts[i].text, maxTokens)
    ensures TruncatedBytes(parts, MaxBytes(maxTokens))
         <= BYTES_PER_TOKEN * (TextCount(parts) * Max(maxTokens, MARKER_TOKENS))
  {
    hide Moderate, TruncatedSize, MaxBytes, Max;
    if parts != [] {
      var front, last := parts[..|parts| - 1], parts[|parts| - 1];
      ModerateParts(front, maxTokens);
      if last.TextPart? { ModerateText(last.text, maxTokens); }
      var n, each := TextCount(front), Max(maxTokens, MARKER_TOKENS);
      assert (n + 1) * each == n * each + each;
    }
  }

  lemma TruncatedItemBound(item: Item, maxTokens: nat)
    requires ModerateItem(item, maxTokens)
    ensures EstimateItemTokens(TruncateItem(item, maxTokens)) <= TruncatedCap(item, maxTokens)
  {
    hide Moderate, TruncatedSize, MaxBytes, Max, TruncateItem, TruncatedBytes, TextCount, ImageCount, ArgumentBytes;
    TruncatedItemCost(item, maxTokens);
    match item
    case ToolResult(_, content, _) => ModerateText(content, maxTokens);
    case Assistant(content, _, _) => ModerateText(content, maxTokens);
    case User(parts, _, _, _) => ModerateParts(parts, maxTokens);
    case _ =>
  }

  /** A single text within its token budget: exactly when the dropped count prints short enough. */
  lemma OneTextFitsIff(s: string, maxTokens: nat)
    requires ByteLen(s) > BYTES_PER_TOKEN * maxTokens && BYTES_PER_TOKEN * maxTokens <= USIZE_MAX
    ensures var keep := Keep(BYTES_PER_TOKEN * maxTokens);
            var g := GivenUp(s, keep);
            TruncatedSize(s, MaxBytes(maxTokens)) / BYTES_PER_TOKEN <= maxTokens <==>
            if maxTokens < MARKER_TOKENS then maxTokens >= 14 && ByteLen(s) < Pow10(4 * maxTokens - 53)
            else ByteLen(s) - keep + g < Pow10(11 + g)
  {
    hide Encode, Dec, Pow10, Floor;
    var keep := Keep(BYTES_PER_TOKEN * maxTokens);
    var g := GivenUp(s, keep);
    if maxTokens >= MARKER_TOKENS {
      DecLength(ByteLen(s) - keep + g, 11 + g);
    } else if maxTokens >= 14 {
      DecLength(ByteLen(s), 4 * maxTokens - 53);
    }
  }

  // ----- the tail unit

  function TruncatedCosts(items: seq<Item>, maxTokens: nat): nat {
    if items == [] then 0 else TruncatedCost(items[0], maxTokens) + TruncatedCosts(items[1..], maxTokens)
  }

  lemma {:induction false} TruncatedItemsCost(items: seq<Item>, maxTokens: nat)
    ensures Cost(TruncateAll(items, maxTokens)) == TruncatedCosts(items, maxTokens)
  {
    hide EstimateItemTokens, TruncatedCost, TruncateItem;
    if items != [] {
      TruncatedItemCost(items[0], maxTokens);
      TruncatedItemsCost(items[1..], maxTokens);
      var cut := TruncateAll(items, maxTokens);
      assert cut[1..] == TruncateAll(items[1..], maxTokens);
    }
  }

  /** What each result at the end of `body` may cost. */
  function TailShare(body: seq<Item>, budget: nat): nat
    requires TrailStart(body) < |body|
  {
    Share(budget, Cost(TailOwner(body)), |body| - TrailStart(body))
  }

  /** What the truncated tail costs, from the sizes of its texts. */
  function TailCost(body: seq<Item>, budget: nat): nat {
    if body == [] then 0
    else
      var k := TrailStart(body);
      if k == |body| then TruncatedCost(body[k - 1], budget)
      else Cost(TailOwner(body)) + TruncatedCosts(body[k..], TailShare(body, budget))
  }

  lemma TailUnitParts(body: seq<Item>, budget: nat)
    requires TrailStart(body) < |body|
    ensures var owner := TailOwner(body);
            var cut := TruncateAll(body[TrailStart(body)..], TailShare(body, budget));
            TailUnit(body, budget) == owner + cut && owner <= TailUnit(body, budget) && TailUnit(body, budget)[|owner|..] == cut
  {
    hide Cost, TrailStart, TailOwner, Share, TruncateAll;
  }

  lemma CostOne(item: Item)
    ensures Cost([item]) == EstimateItemTokens(item)
  {
    assert [item][1..] == [];
  }

  lemma TailUnitCost(body: seq<Item>, budget: nat)
    ensures Cost(TailUnit(body, budget)) == TailCost(body, budget)
  {
    hide EstimateItemTokens, TruncatedCost, TruncateItem, TruncateAll, TruncatedCosts, TrailStart, TailOwner, Cost, TailShare;
    var k := TrailStart(body);
    if body == [] {
      NoCost(body);
    } else if k == |body| {
      TruncatedItemCost(body[k - 1], budget);
      CostOne(TruncateItem(body[k - 1], budget));
    } else {
      TailUnitParts(body, budget);
      CostConcat(TailOwner(body), TruncateAll(body[k..], TailShare(body, budget)));
      TruncatedItemsCost(body[k..], TailShare(body, budget));
    }
  }

  // ----- what the fitted conversation costs

  /** The fitted conversation meets the limit: it did to begin with, or its system message does and what is kept behind it fits. */
  lemma FitFitsIff(conversation: seq<Item>, maxTokens: nat)
    ensures var body, budget := Body(conversation), BodyBudget(conversation, maxTokens);
            Cost(Fit(conversation, maxTokens)) <= maxTokens <==>
            || Cost(conversation) <= maxTokens
            || (Cost(Head(conversation)) <= maxTokens
                && (KeepsSuffix(conversation, maxTokens) || TailCost(body, budget) <= budget))
  {
    hide Cost, TrailStart, TailOwner, Share, TailUnit, SuffixStart, TailCost;
    var head, body, budget := Head(conversation), Body(conversation), BodyBudget(conversation, maxTokens);
    if Cost(conversation) > maxTokens {
      if KeepsSuffix(conversation, maxTokens) {
        FitKeepsTheLongestSuffix(conversation, maxTokens, 0);
      } else {
        TailUnitCost(body, budget);
      }
      CostConcat(head, KeptBody(body, budget));
    }
  }

  /** The results and the turn in front of them that the tail is cut to are moderate. */
  ghost predicate ModerateTail(body: seq<Item>, budget: nat) {
    body != [] ==>
      var k := TrailStart(body);
      if k == |body| then ModerateItem(body[k - 1], budget)
      else forall i :: k <= i < |body| ==> ModerateItem(body[i], TailShare(body, budget))
  }

  /** The most that `count` results can cost, each cut to its share. */
  function ResultsCap(count: nat, share: nat): nat { count * Max(share, MARKER_TOKENS) }

  function TailCap(body: seq<Item>, budget: nat): nat {
    if body == [] then 0
    else
      var k := TrailStart(body);
      if k == |body| then TruncatedCap(body[k - 1], budget)
      else Cost(TailOwner(body)) + ResultsCap(|body| - k, TailShare(body, budget))
  }

  lemma OneMoreResult(count: nat, share: nat)
    ensures ResultsCap(count + 1, share) == ResultsCap(count, share) + Max(share, MARKER_TOKENS)
  {
    hide Max;
    var each := Max(share, MARKER_TOKENS);
    assert (count + 1) * each == count * each + each;
  }

  lemma {:induction false} ResultsBound(results: seq<Item>, share: nat)
    requires AllResults(results) && forall i :: 0 <= i < |results| ==> ModerateItem(results[i], share)
    ensures TruncatedCosts(results, share) <= ResultsCap(|results|, share)
  {
    hide ModerateItem, TruncatedCost, TruncateItem, EstimateItemTokens, ResultsCap, Max;
    if results == [] {
      assert ResultsCap(0, share) >= 0;
    } else {
      ResultsBound(results[1..], share);
      TruncatedItemBound(results[0], share);
      TruncatedItemCost(results[0], share);
      OneMoreResult(|results| - 1, share);
    }
  }

  lemma TailBound(body: seq<Item>, budget: nat)
    requires ModerateTail(body, budget)
    ensures TailCost(body, budget) <= TailCap(body, budget)
  {
    hide ModerateItem, TruncatedCost, TruncatedCosts, TruncatedCap, TruncateItem, TailOwner, Cost, Max, TailShare, TrailStart;
    if body != [] {
      var k := TrailStart(body);
      if k == |body| {
        TruncatedItemBound(body[k - 1], budget);
        TruncatedItemCost(body[k - 1], budget);
      } else {
        ResultsBound(body[k..], TailShare(body, budget));
      }
    }
  }

  /**
   Whatever the conversation ends with, the fitted one costs at most the limit or its
   system message with the cap of the truncated tail.
   */
  lemma FitBound(conversation: seq<Item>, maxTokens: nat)
    requires Cost(conversation) > maxTokens && !KeepsSuffix(conversation, maxTokens) ==>
               ModerateTail(Body(conversation), BodyBudget(conversation, maxTokens))
    ensures Cost(Fit(conversation, maxTokens))
         <= Max(maxTokens, Cost(Head(conversation)) + TailCap(Body(conversation), BodyBudget(conversation, maxTokens)))
  {
    hide Cost, TailUnit, SuffixStart, TailCost, TailCap, ModerateTail;
    var head, body, budget := Head(conversation), Body(conversation), BodyBudget(conversation, maxTokens);
    if Cost(conversation) > maxTokens {
      if KeepsSuffix(conversation, maxTokens) {
        FitKeepsTheLongestSuffix(conversation, maxTokens, 0);
      } else {
        TailUnitCost(body, budget);
        TailBound(body, budget);
        CostConcat(head, TailUnit(body, budget));
      }
    }
  }

  lemma SharesAddUp(budget: nat, ownerCost: nat, count: nat)
    requires count > 0 && Share(budget, ownerCost, count) > 1
    ensures ownerCost + count * Share(budget, ownerCost, count) <= budget
  {
  }

  /** When each trailing result's share is at least 16 tokens, the fitted conversation meets the limit. */
  lemma FitTailFits(conversation: seq<Item>, maxTokens: nat)
    requires Cost(conversation) > maxTokens && !KeepsSuffix(conversation, maxTokens)
    requires var body, budget := Body(conversation), BodyBudget(conversation, maxTokens);
             TrailStart(body) < |body| && TailShare(body, budget) >= MARKER_TOKENS && ModerateTail(body, budget)
    ensures Cost(Fit(conversation, maxTokens)) <= maxTokens
  {
    hide Fit, KeepsSuffix, Cost, TailCost, ModerateTail, TailShare, TrailStart, TailOwner;
    var body, budget := Body(conversation), BodyBudget(conversation, maxTokens);
    TailBound(body, budget);
    TailCapFits(body, budget);
    FitFitsIff(conversation, maxTokens);
  }

  lemma TailCapFits(body: seq<Item>, budget: nat)
    requires TrailStart(body) < |body| && TailShare(body, budget) >= MARKER_TOKENS
    ensures TailCap(body, budget) <= budget && budget > 0
  {
    hide Cost, TrailStart, TailOwner, Share;
    SharesAddUp(budget, Cost(TailOwner(body)), |body| - TrailStart(body));
    OneShare(|body| - TrailStart(body), TailShare(body, budget));
  }

  lemma OneShare(count: nat, share: nat)
    requires count > 0
    ensures count * share >= share
  {
  }

  function ContentBytes(results: seq<Item>): nat {
    if results == [] then 0
    else (if results[0].ToolResult? then ByteLen(results[0].content) else 0) + ContentBytes(results[1..])
  }

  lemma {:induction false} ResultsFitShares(results: seq<Item>, share: nat)
    requires AllResults(results) && share >= MARKER_TOKENS
    requires forall i :: 0 <= i < |results| ==> ModerateItem(results[i], share)
    ensures ContentBytes(TruncateAll(results, share)) <= BYTES_PER_TOKEN * (|results| * share)
  {
    hide Moderate, TruncatedSize, Truncated, Encode;
    if results != [] {
      var content, rest := results[0].content, results[1..];
      ModerateText(content, share);
      TruncatedLength(content, MaxBytes(share));
      ResultsFitShares(rest, share);
      var cut := TruncateAll(results, share);
      assert cut[1..] == TruncateAll(rest, share);
      assert (|rest| + 1) * share == |rest| * share + share;
    }
  }

  /** Then the results together take at most four bytes per token left after their owner. */
  lemma TailUnitFits(body: seq<Item>, budget: nat)
    requires TrailStart(body) < |body| && TailShare(body, budget) >= MARKER_TOKENS && ModerateTail(body, budget)
    ensures var owner := TailOwner(body);
            && owner <= TailUnit(body, budget) && Cost(TailUnit(body, budget)) <= budget
            && ContentBytes(TailUnit(body, budget)[|owner|..]) <= BYTES_PER_TOKEN * Minus(budget, Cost(owner))
  {
    hide Cost, TrailStart, TailOwner, ContentBytes, Share, ModerateItem, TruncateAll, TailUnit, TailCost;
    var k, owner := TrailStart(body), TailOwner(body);
    ResultsFitShares(body[k..], TailShare(body, budget));
    SharesAddUp(budget, Cost(owner), |body| - k);
    TailUnitParts(body, budget);
    TailBound(body, budget);
    TailUnitCost(body, budget);
  }

  // ----- a turn that is not shrunk

  /** A turn with two texts of the full budget is not shrunk at all, though it costs twice the limit. */
  lemma TwoTextsOverrun(maxTokens: nat)
    requires 0 < BYTES_PER_TOKEN * maxTokens <= USIZE_MAX
    ensures var text := TextPart(Letters(BYTES_PER_TOKEN * maxTokens));
            var c := [User([text, text], Wrappers.None, Wrappers.None, Wrappers.None)];
            Fit(c, maxTokens) == c && Cost(c) == 2 * maxTokens
  {
    hide Encode, Letters, Fit, Cost, EstimateItemTokens, TruncateItem;
    var text := TextPart(Letters(BYTES_PER_TOKEN * maxTokens));
    var turn := User([text, text], Wrappers.None, Wrappers.None, Wrappers.None);
    TwoFullTexts(text.text, maxTokens);
    CostOne(turn);
    OneTurnIsTruncated(turn, maxTokens);
  }

  lemma {:induction false} TruncatedPartAt(parts: seq<ContentPart>, maxBytes: nat, i: nat)
    requires i < |parts|
    ensures TruncateParts(parts, maxBytes)[i] == TruncatePart(parts[i], maxBytes)
  {
    hide TruncatePart;
    if i < |parts| - 1 { TruncatedPartAt(parts[..|parts| - 1], maxBytes, i); }
  }

  lemma TwoFullTexts(s: string, maxTokens: nat)
    requires ByteLen(s) == BYTES_PER_TOKEN * maxTokens <= USIZE_MAX
    ensures var turn := User([TextPart(s), TextPart(s)], Wrappers.None, Wrappers.None, Wrappers.None);
            EstimateItemTokens(turn) == 2 * maxTokens && TruncateItem(turn, maxTokens) == turn
  {
    hide Encode, TextBytes, ImageCount;
    var text, maxBytes := TextPart(s), MaxBytes(maxTokens);
    var parts := [text] + [text];
    assert parts == [text, text] && [] + [text] == [text];
    NoParts();
    TextBytesSnoc([], text);
    TextBytesSnoc([text], text);
    TruncatedPartAt(parts, maxBytes, 0);
    TruncatedPartAt(parts, maxBytes, 1);
  }

  /** A lone turn over the limit is truncated, not dropped. */
  lemma OneTurnIsTruncated(turn: Item, maxTokens: nat)
    requires !turn.ToolResult? && !turn.System? && EstimateItemTokens(turn) > maxTokens
    ensures Fit([turn], maxTokens) == [TruncateItem(turn, maxTokens)]
    ensures !KeepsSuffix([turn], maxTokens) && Cost([turn]) > maxTokens
    ensures Body([turn]) == [turn] && BodyBudget([turn], maxTokens) == maxTokens && TrailStart([turn]) == 1
  {
    hide EstimateItemTokens, TruncateItem;
    CostOne(turn);
    assert [turn][0..] == [turn] && [turn][1..] == [];
    NoCost([]);
    SuffixIsLongest([turn], maxTokens, 0);
    var start := SuffixStart([turn], maxTokens);
    assert start != 0;
  }
}
