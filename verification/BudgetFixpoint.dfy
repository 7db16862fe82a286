/** When fitting a conversation a second time to the same limit changes nothing. */
module BudgetFixpoint {
  import opened Conversation
  import opened Decimal
  import opened Utf8
  import opened Repair
  import opened Budget
  import opened BudgetLaws
  import opened BudgetSize
  import opened Truncation

  // ----- one item

  predicate Settled(s: string, maxBytes: nat) {
    ByteLen(s) == 58 || TruncatedSize(s, maxBytes) <= maxBytes
  }

  /** Every text of the item is within the budget once cut, or is 58 bytes long. */
  ghost predicate SettledItem(item: Item, maxTokens: nat) {
    var maxBytes := MaxBytes(maxTokens);
    match item
    case ToolResult(_, content, _) => Settled(content, maxBytes)
    case Assistant(content, _, _) => Settled(content, maxBytes)
    case User(parts, _, _, _) => forall i :: 0 <= i < |parts| && parts[i].TextPart? ==> Settled(parts[i].text, maxBytes)
    case _ => true
  }

  ghost predicate AllSettled(items: seq<Item>, from: nat, share: nat) {
    forall i :: from <= i < |items| ==> SettledItem(items[i], share)
  }

  lemma SettledIff(s: string, maxBytes: nat)
    ensures Truncated(Truncated(s, maxBytes), maxBytes) == Truncated(s, maxBytes) <==> Settled(s, maxBytes)
  {
    hide Truncated, TruncatedSize, Encode;
    TruncatedTwiceIff(s, maxBytes);
  }

  lemma PartsTwiceIff(parts: seq<ContentPart>, maxBytes: nat)
    ensures var cut := TruncateParts(parts, maxBytes);
            TruncateParts(cut, maxBytes) == cut <==>
            forall i :: 0 <= i < |parts| && parts[i].TextPart? ==> Settled(parts[i].text, maxBytes)
  {
    hide Truncated, Settled, TruncateParts;
    var cut := TruncateParts(parts, maxBytes);
    var again := TruncateParts(cut, maxBytes);
    forall i | 0 <= i < |parts|
      ensures again[i] == cut[i] <==> (parts[i].TextPart? ==> Settled(parts[i].text, maxBytes))
    {
      TruncatedPartAt(parts, maxBytes, i);
      TruncatedPartAt(cut, maxBytes, i);
      if parts[i].TextPart? { SettledIff(parts[i].text, maxBytes); }
    }
  }

  lemma TruncateItemTwiceIff(item: Item, maxTokens: nat)
    ensures var cut := TruncateItem(item, maxTokens);
            TruncateItem(cut, maxTokens) == cut <==> SettledItem(item, maxTokens)
  {
    hide Truncated, Settled, TruncateParts, MaxBytes;
    var maxBytes := MaxBytes(maxTokens);
    match item
    case ToolResult(_, content, _) => SettledIff(content, maxBytes);
    case Assistant(content, _, _) => SettledIff(content, maxBytes);
    case User(parts, _, _, _) => PartsTwiceIff(parts, maxBytes);
    case _ =>
  }

  lemma TruncateAllTwiceIff(items: seq<Item>, share: nat)
    ensures var cut := TruncateAll(items, share);
            TruncateAll(cut, share) == cut <==> AllSettled(items, 0, share)
  {
    hide TruncateItem, SettledItem;
    var cut := TruncateAll(items, share);
    var again := TruncateAll(cut, share);
    forall i | 0 <= i < |items| ensures again[i] == cut[i] <==> SettledItem(items[i], share) {
      TruncateItemTwiceIff(items[i], share);
    }
  }

  // ----- the tail unit

  /** The texts at the end of `body` are settled at the budgets they are cut to. */
  ghost predicate SettledTail(body: seq<Item>, budget: nat) {
    body != [] ==>
      var k := TrailStart(body);
      if k == |body| then SettledItem(body[k - 1], budget)
      else AllSettled(body, k, TailShare(body, budget))
  }

  lemma {:induction false} TrailStartIs(body: seq<Item>, k: nat)
    requires k <= |body| && AllResults(body[k..]) && (k > 0 ==> !body[k - 1].ToolResult?)
    ensures TrailStart(body) == k
  {
    hide TrailStart;
    if k == |body| {
      TrailNone(body);
    } else {
      var n := |body| - 1;
      assert body[k..][n - k] == body[n] && body[..n][k..] == body[k..][..n - k];
      TrailPop(body);
      TrailStartIs(body[..n], k);
    }
  }

  lemma TailOwnerShape(body: seq<Item>)
    ensures |TailOwner(body)| <= 1 && forall x | x in TailOwner(body) :: x.Assistant? && MakesCalls(x)
  {
  }

  lemma TruncatedResults(results: seq<Item>, share: nat)
    requires AllResults(results)
    ensures AllResults(TruncateAll(results, share))
  {
    hide TruncateItem;
    forall i | 0 <= i < |results| ensures TruncateAll(results, share)[i].ToolResult? {
      TruncationKeepsShape(results[i], share);
    }
  }

  lemma OwnerOfUnit(owner: seq<Item>, cut: seq<Item>)
    requires |owner| <= 1 && (forall x | x in owner :: x.Assistant? && MakesCalls(x)) && AllResults(cut) && cut != []
    ensures var u := owner + cut; TrailStart(u) == |owner| && TailOwner(u) == owner && u[|owner|..] == cut
  {
    hide TrailStart;
    var u := owner + cut;
    assert u[|owner|..] == cut;
    if |owner| == 1 { assert u[0] == owner[0] && owner[0] in owner; }
    TrailStartIs(u, |owner|);
  }

  /** The truncated tail is a tail with the same owner and the same shares. */
  lemma TailUnitShape(body: seq<Item>, budget: nat)
    requires TrailStart(body) < |body|
    ensures var u, n := TailUnit(body, budget), |body| - TrailStart(body);
            && |u| == |TailOwner(body)| + n && TrailStart(u) == |u| - n && TailOwner(u) == TailOwner(body)
            && u[TrailStart(u)..] == TruncateAll(body[TrailStart(body)..], TailShare(body, budget))
            && TailShare(u, budget) == TailShare(body, budget)
  {
    hide Cost, TrailStart, TruncateItem, Share, TruncateAll, TailOwner, TailUnit;
    TailUnitParts(body, budget);
    TailOwnerShape(body);
    var results := body[TrailStart(body)..];
    var cut := TruncateAll(results, TailShare(body, budget));
    TruncatedResults(results, TailShare(body, budget));
    OwnerOfUnit(TailOwner(body), cut);
  }

  lemma LoneTail(body: seq<Item>, budget: nat)
    requires body != [] && TrailStart(body) == |body|
    ensures var x := TruncateItem(body[|body| - 1], budget);
            TailUnit(body, budget) == [x] && !x.ToolResult? && TailUnit([x], budget) == [TruncateItem(x, budget)]
  {
    hide TruncateItem, TrailStart;
    var last := body[|body| - 1];
    var x := TruncateItem(last, budget);
    TruncationKeepsShape(last, budget);
    TrailStartIs([x], 1);
  }

  lemma AllSettledShift(items: seq<Item>, k: nat, share: nat)
    requires k <= |items|
    ensures AllSettled(items, k, share) <==> AllSettled(items[k..], 0, share)
  {
    hide SettledItem;
    assert forall i :: k <= i < |items| ==> items[i] == items[k..][i - k];
  }

  lemma SameBehind(owner: seq<Item>, a: seq<Item>, b: seq<Item>)
    ensures owner + a == owner + b <==> a == b
  {
    assert (owner + a)[|owner|..] == a && (owner + b)[|owner|..] == b;
  }

  lemma ResultsTwiceIff(body: seq<Item>, budget: nat)
    requires TrailStart(body) < |body|
    ensures var u := TailUnit(body, budget);
            TailUnit(u, budget) == u <==> AllSettled(body, TrailStart(body), TailShare(body, budget))
  {
    hide Cost, TruncateAll, AllSettled, TrailStart, TailOwner, TailShare, TailUnit, AllResults;
    var u, k, share := TailUnit(body, budget), TrailStart(body), TailShare(body, budget);
    TailUnitShape(body, budget);
    TailUnitParts(body, budget);
    TailUnitParts(u, budget);
    TruncateAllTwiceIff(body[k..], share);
    AllSettledShift(body, k, share);
    var cut := TruncateAll(body[k..], share);
    SameBehind(TailOwner(body), TruncateAll(cut, share), cut);
  }

  lemma TailUnitTwiceIff(body: seq<Item>, budget: nat)
    requires body != []
    ensures var u := TailUnit(body, budget);
            TailUnit(u, budget) == u <==> SettledTail(body, budget)
  {
    hide Cost, TruncateItem, SettledItem, TrailStart, TailOwner, TailShare, TruncateAll, TailUnit;
    var k := TrailStart(body);
    if k == |body| {
      LoneTail(body, budget);
      TruncateItemTwiceIff(body[k - 1], budget);
    } else {
      ResultsTwiceIff(body, budget);
    }
  }

  // ----- what the second fit keeps of the first one's tail

  lemma {:induction false} CostOfMember(items: seq<Item>, i: nat)
    requires i < |items|
    ensures EstimateItemTokens(items[i]) <= Cost(items)
  {
    hide EstimateItemTokens;
    if i > 0 { CostOfMember(items[1..], i - 1); }
  }

  lemma FreeResultIsSettled(r: Item, share: nat)
    requires r.ToolResult? && share > 0 && EstimateItemTokens(TruncateItem(r, share)) == 0
    ensures SettledItem(r, share)
  {
    hide TruncatedSize, TruncateItem;
    TruncatedItemCost(r, share);
  }

  lemma FreeCutsAreSettled(owner: seq<Item>, results: seq<Item>, share: nat)
    requires AllResults(results) && share > 0 && Cost(owner + TruncateAll(results, share)) == 0
    ensures AllSettled(results, 0, share)
  {
    hide Cost, SettledItem, TruncateItem, EstimateItemTokens;
    var cut := TruncateAll(results, share);
    forall i | 0 <= i < |results| ensures SettledItem(results[i], share) {
      CostOfMember(owner + cut, |owner| + i);
      assert (owner + cut)[|owner| + i] == cut[i];
      FreeResultIsSettled(results[i], share);
    }
  }

  /** Results that cost nothing are shorter than any share. */
  lemma FreeResultsAreSettled(body: seq<Item>, budget: nat)
    requires TrailStart(body) < |body| && Cost(TailUnit(body, budget)) == 0
    ensures SettledTail(body, budget)
  {
    hide Cost, TrailStart, TailOwner, TruncateAll, TailUnit, AllSettled;
    var k := TrailStart(body);
    TailUnitParts(body, budget);
    FreeCutsAreSettled(TailOwner(body), body[k..], TailShare(body, budget));
    AllSettledShift(body, k, TailShare(body, budget));
  }

  lemma OnlyTheFirstIsNoResult(body: seq<Item>, budget: nat)
    requires body != []
    ensures var u := TailUnit(body, budget); forall i :: 1 <= i < |u| ==> u[i].ToolResult?
  {
    hide Cost, TrailStart, TruncateItem, TailOwner, TruncateAll, TailShare, TailUnit;
    var u, k := TailUnit(body, budget), TrailStart(body);
    if k < |body| {
      TailUnitShape(body, budget);
      TailOwnerShape(body);
      assert AllResults(u[TrailStart(u)..]);
    } else {
      LoneTail(body, budget);
    }
  }

  /** A tail that does not fit is cut again; one that fits is kept or cut again. */
  lemma SecondKeep(body: seq<Item>, budget: nat)
    requires body != []
    ensures var u := TailUnit(body, budget);
            && (Cost(u) > budget ==> KeptBody(u, budget) == TailUnit(u, budget))
            && (Cost(u) <= budget ==> KeptBody(u, budget) == u || KeptBody(u, budget) == TailUnit(u, budget))
  {
    hide Cost, TailUnit, TrailStart, TruncateItem, TailOwner, TruncateAll, LongestFit, SuffixStart;
    var u := TailUnit(body, budget);
    var start := SuffixStart(u, budget);
    OnlyTheFirstIsNoResult(body, budget);
    SuffixIsLongest(u, budget, 0);
    if start < |u| {
      assert start == 0 && u[0..] == u;
    }
  }

  lemma FirstCostsAll(body: seq<Item>, budget: nat)
    requires body != [] && Cost(TailUnit(body, budget)) <= budget && TrailStart(body) == |body|
    ensures KeptBody(TailUnit(body, budget), budget) == TailUnit(body, budget)
  {
    hide Cost, TailUnit, TrailStart, TruncateItem, SuffixStart;
    var u := TailUnit(body, budget);
    LoneTail(body, budget);
    var longest := LongestFitOf(u, budget);
    assert SuffixStart(u, budget) == 0;
    assert u[0..] == u;
  }

  /** With no budget left, a tail that fits costs nothing and is kept as it is. */
  lemma FreeTail(body: seq<Item>, budget: nat)
    requires body != [] && budget == 0 && Cost(TailUnit(body, budget)) <= budget
    ensures KeptBody(TailUnit(body, budget), budget) == TailUnit(body, budget)
  {
    hide Cost, TailUnit, KeptBody, SettledTail, TrailStart;
    if TrailStart(body) == |body| {
      FirstCostsAll(body, budget);
    } else {
      FreeResultsAreSettled(body, budget);
      TailUnitTwiceIff(body, budget);
      SecondKeep(body, budget);
    }
  }

  // ----- the whole conversation

  lemma FitsAlready(conversation: seq<Item>, maxTokens: nat)
    requires Cost(conversation) <= maxTokens
    ensures Fit(conversation, maxTokens) == conversation
  {
    hide Cost;
  }

  lemma TailIsKept(conversation: seq<Item>, maxTokens: nat)
    requires Cost(conversation) > maxTokens && !KeepsSuffix(conversation, maxTokens)
    ensures Fit(conversation, maxTokens)
         == Head(conversation) + TailUnit(Body(conversation), BodyBudget(conversation, maxTokens))
  {
    hide Cost, TailUnit, SuffixStart;
  }

  lemma ResultsOpenNoSystem(body: seq<Item>, budget: nat)
    requires TrailStart(body) < |body|
    ensures var u := TailUnit(body, budget); u != [] && !u[0].System?
  {
    hide Cost, TrailStart, TruncateAll, TailOwner, TailShare, TailUnit;
    TailUnitShape(body, budget);
    TailOwnerShape(body);
    TailUnitParts(body, budget);
    var u, owner := TailUnit(body, budget), TailOwner(body);
    if owner != [] { assert u[0] == owner[0] && owner[0] in owner; } else { assert u == u[0..]; }
  }

  lemma SystemIsSettled(item: Item, budget: nat)
    requires TruncateItem(item, budget).System?
    ensures SettledItem(item, budget)
  {
  }

  /** A system message is never truncated. */
  lemma LoneSystem(body: seq<Item>, budget: nat)
    requires body != [] && TailUnit(body, budget) != [] && TailUnit(body, budget)[0].System?
    ensures |TailUnit(body, budget)| == 1 && SettledTail(body, budget)
  {
    hide Cost, TrailStart, TruncateItem, SettledItem, TailUnit;
    if TrailStart(body) < |body| {
      ResultsOpenNoSystem(body, budget);
      assert false;
    } else {
      LoneTail(body, budget);
      SystemIsSettled(body[|body| - 1], budget);
    }
  }

  /** In the tail branch the second fit sees the first one's tail behind the same system message. */
  lemma SecondFit(conversation: seq<Item>, maxTokens: nat)
    requires Cost(conversation) > maxTokens && !KeepsSuffix(conversation, maxTokens) && Body(conversation) != []
    requires Cost(Fit(conversation, maxTokens)) > maxTokens
    ensures var r, budget := Fit(conversation, maxTokens), BodyBudget(conversation, maxTokens);
            var u := TailUnit(Body(conversation), budget);
            && u != [] && r == Head(conversation) + u
            && ((Fit(r, maxTokens) == r && SettledTail(Body(conversation), budget))
                || Fit(r, maxTokens) == Head(conversation) + KeptBody(u, budget))
  {
    hide Cost, TailUnit, KeptBody, SettledTail, TruncateItem;
    var c := conversation;
    var head, body, budget := Head(c), Body(c), BodyBudget(c, maxTokens);
    var u, r := TailUnit(body, budget), Fit(c, maxTokens);
    TailIsKept(c, maxTokens);
    TailUnitEnd(body, budget);
    if head == [] && u[0].System? {
      LoneSystem(body, budget);
      assert r == u && Head(r) == u && Body(r) == [];
      NothingToKeep(BodyBudget(r, maxTokens));
      assert u + [] == u;
    } else {
      assert Head(r) == head && Body(r) == u;
    }
  }

  lemma BudgetLeft(conversation: seq<Item>, maxTokens: nat)
    ensures var head := Cost(Head(conversation));
            BodyBudget(conversation, maxTokens) == if head <= maxTokens then maxTokens - head else 0
  {
    hide Cost;
  }

  lemma NoTail(conversation: seq<Item>, maxTokens: nat)
    requires Body(conversation) == [] && Cost(conversation) > maxTokens
    ensures Fit(Fit(conversation, maxTokens), maxTokens) == Fit(conversation, maxTokens)
    ensures TailCost([], BodyBudget(conversation, maxTokens)) == 0
  {
    hide Cost, KeptBody;
    var head, budget := Head(conversation), BodyBudget(conversation, maxTokens);
    assert conversation == head;
    NothingToKeep(budget);
    assert head + [] == head;
  }

  lemma FitTwiceInTail(conversation: seq<Item>, maxTokens: nat)
    requires Cost(conversation) > maxTokens && !KeepsSuffix(conversation, maxTokens)
    ensures var body, budget := Body(conversation), BodyBudget(conversation, maxTokens);
            Fit(Fit(conversation, maxTokens), maxTokens) == Fit(conversation, maxTokens) <==>
            TailCost(body, budget) <= budget || SettledTail(body, budget)
  {
    hide Fit, Cost, TailUnit, KeptBody, TailCost, SettledTail, KeepsSuffix, Head, Body, BodyBudget;
    var head, body, budget := Head(conversation), Body(conversation), BodyBudget(conversation, maxTokens);
    var r, u := Fit(conversation, maxTokens), TailUnit(body, budget);
    TailUnitCost(body, budget);
    TailIsKept(conversation, maxTokens);
    CostConcat(head, u);
    BudgetLeft(conversation, maxTokens);
    if Cost(r) <= maxTokens {
      FitsAlready(r, maxTokens);
    } else if body == [] {
      NoTail(conversation, maxTokens);
    } else {
      SecondFit(conversation, maxTokens);
      SecondKeep(body, budget);
      TailUnitTwiceIff(body, budget);
      assert (head + u)[|head|..] == u && (head + KeptBody(u, budget))[|head|..] == KeptBody(u, budget);
      if Cost(u) <= budget { FreeTail(body, budget); }
    }
  }

  /**
   Fitting twice is fitting once exactly when the conversation fits or keeps a suffix,
   or the truncated tail meets its budget, or every text of it is settled.
   */
  lemma FitIsIdempotentIff(conversation: seq<Item>, maxTokens: nat)
    ensures var body, budget := Body(conversation), BodyBudget(conversation, maxTokens);
            Fit(Fit(conversation, maxTokens), maxTokens) == Fit(conversation, maxTokens) <==>
            || Cost(conversation) <= maxTokens || KeepsSuffix(conversation, maxTokens)
            || TailCost(body, budget) <= budget || SettledTail(body, budget)
  {
    hide Fit, Cost, TailUnit, KeptBody, TailCost, SettledTail, KeepsSuffix;
    if Cost(conversation) <= maxTokens {
      FitsAlready(conversation, maxTokens);
    } else if KeepsSuffix(conversation, maxTokens) {
      FitIsIdempotentOnSuffixes(conversation, maxTokens);
    } else {
      FitTwiceInTail(conversation, maxTokens);
    }
  }

  lemma ModerateTextIsSettled(s: string, maxTokens: nat)
    requires Moderate(s, maxTokens) && maxTokens >= MARKER_TOKENS
    ensures Settled(s, MaxBytes(maxTokens))
  {
    hide Encode, TruncatedSize, Pow10, Truncated;
    TruncationFits(s, MaxBytes(maxTokens));
  }

  lemma ModerateIsSettled(item: Item, maxTokens: nat)
    requires ModerateItem(item, maxTokens) && maxTokens >= MARKER_TOKENS
    ensures SettledItem(item, maxTokens)
  {
    hide Moderate, TruncatedSize, Settled;
    match item
    case ToolResult(_, content, _) => ModerateTextIsSettled(content, maxTokens);
    case Assistant(content, _, _) => ModerateTextIsSettled(content, maxTokens);
    case User(parts, _, _, _) =>
      forall i | 0 <= i < |parts| && parts[i].TextPart? ensures Settled(parts[i].text, MaxBytes(maxTokens)) {
        ModerateTextIsSettled(parts[i].text, maxTokens);
      }
    case _ =>
  }

  /** With room for the marker in every share, and moderate texts, fitting is idempotent. */
  lemma FitIsIdempotentWithRoom(conversation: seq<Item>, maxTokens: nat)
    requires var body, budget := Body(conversation), BodyBudget(conversation, maxTokens);
             && ModerateTail(body, budget)
             && (TrailStart(body) < |body| ==> TailShare(body, budget) >= MARKER_TOKENS)
             && (TrailStart(body) == |body| ==> budget >= MARKER_TOKENS)
    ensures Fit(Fit(conversation, maxTokens), maxTokens) == Fit(conversation, maxTokens)
  {
    hide Fit, Cost, TailCost, KeepsSuffix, Head, Body, BodyBudget, TailShare, TrailStart, ModerateItem, SettledItem;
    var body, budget := Body(conversation), BodyBudget(conversation, maxTokens);
    FitIsIdempotentIff(conversation, maxTokens);
    if body != [] {
      var k := TrailStart(body);
      if k == |body| {
        ModerateIsSettled(body[k - 1], budget);
      } else {
        forall i | k <= i < |body| ensures SettledItem(body[i], TailShare(body, budget)) {
          ModerateIsSettled(body[i], TailShare(body, budget));
        }
      }
    }
  }

  lemma HundredCutToFour(s: string)
    requires ByteLen(s) == 100
    ensures TruncatedSize(s, 4) == 59
  {
    hide Encode;
    DecLength(100, 2);
    DecLength(100, 3);
    SmallPowers();
  }

  /** Fitting is not idempotent: a 100-byte turn cut to one token becomes a marker of 59 bytes, and that one of 58. */
  lemma FitIsNotIdempotent()
    ensures var c := [Assistant(Letters(100), [], Wrappers.None)];
            Fit(Fit(c, 1), 1) != Fit(c, 1)
  {
    hide Encode, Letters, TrailStart, Fit, KeepsSuffix, TruncatedSize, Cost;
    var s := Letters(100);
    var turn := Assistant(s, [], Wrappers.None);
    OneTurnIsTruncated(turn, 1);
    FitIsIdempotentIff([turn], 1);
    HundredCutToFour(s);
  }
}
