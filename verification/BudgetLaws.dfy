/** What fitting a conversation to its budget keeps: pairing, recency, the longest suffix. */
module BudgetLaws {
  import opened Conversation
  import opened Pairing
  import opened Repair
  import opened RepairLaws
  import opened Budget

  // ----- pairing

  /** A cut in front of anything but a result leaves both sides paired as they were. */
  lemma ObeysFreshSuffix(a: seq<Item>, b: seq<Item>)
    requires Obeys(OwnRun, a + b) && StartsFresh(b)
    ensures Obeys(OwnRun, b)
  {
    hide Kept, Obeys, Dropped;
    FiltersNothingIff(OwnRun, a + b);
    FiltersNothingIff(OwnRun, b);
    KeptSplit(a, b);
    KeptAndDropped(OwnRun, a);
    KeptAndDropped(OwnRun, b);
    assert (a + b)[|a|..] == b;
    assert |Kept(OwnRun, a)| == |a|;
    assert (Kept(OwnRun, a) + Kept(OwnRun, b))[|a|..] == Kept(OwnRun, b);
  }

  lemma TruncationKeepsShape(item: Item, t: nat)
    ensures var r := TruncateItem(item, t);
            && r.ToolResult? == item.ToolResult? && (item.ToolResult? ==> r.callId == item.callId && r.images == item.images)
            && r.Assistant? == item.Assistant? && CallIds(r) == CallIds(item)
            && r.User? == item.User? && (item.User? ==> |r.parts| == |item.parts| && r.reason == item.reason)
            && (item.System? || item.BackendToolCall? || item.Reasoning? ==> r == item)
  {
  }

  /** A block whose results all answer its head is paired. */
  lemma OwnedBlockObeys(h: Item, run: seq<Item>)
    requires !h.ToolResult? && AllResults(run)
    ensures Obeys(OwnRun, [h] + run) <==> forall k :: 0 <= k < |run| ==> run[k].callId in CallIds(h)
  {
    hide Obeys, Kept, Owned, CallIds;
    FiltersNothingIff(OwnRun, [h] + run);
    KeptRun(h, run);
    OwnedIff(h, run);
    assert ([h] + run)[1..] == run && ([h] + Owned(h, run))[1..] == Owned(h, run);
  }

  lemma TailUnitObeys(body: seq<Item>, budget: nat)
    requires Obeys(OwnRun, body)
    ensures Obeys(OwnRun, TailUnit(body, budget))
  {
    hide Obeys, CallIds, TruncateItem;
    if body == [] {
      NoItemsObey();
    } else {
      var k := TrailStart(body);
      if k == |body| {
        TruncationKeepsShape(body[k - 1], budget);
        OneItemObeys(TruncateItem(body[k - 1], budget));
      } else {
        TailWithResultsObeys(body, budget);
      }
    }
  }

  lemma NoItemsObey()
    ensures Obeys(OwnRun, [])
  {
  }

  lemma OneItemObeys(x: Item)
    requires !x.ToolResult?
    ensures Obeys(OwnRun, [x])
  {
  }

  lemma TailWithResultsObeys(body: seq<Item>, budget: nat)
    requires Obeys(OwnRun, body) && TrailStart(body) < |body|
    ensures Obeys(OwnRun, TailUnit(body, budget))
  {
    hide Obeys, CallIds, TruncateItem, TruncateAll, Cost, Share, TrailStart;
    var k := TrailStart(body);
    var run := body[k..];
    if k == 0 {
      assert body == run;
      OrphansDisobey(body);
      assert false;
    }
    var h := body[k - 1];
    assert body == body[..k - 1] + ([h] + run);
    ObeysFreshSuffix(body[..k - 1], [h] + run);
    OwnedBlockObeys(h, run);
    assert run[0].callId in CallIds(h);
    OwnersMakeCalls(h, run[0].callId);
    CutBlockObeys(h, run, Share(budget, Cost([h]), |run|));
  }

  /** Truncating its results leaves a paired block paired. */
  lemma CutBlockObeys(h: Item, run: seq<Item>, share: nat)
    requires !h.ToolResult? && AllResults(run) && Obeys(OwnRun, [h] + run)
    ensures Obeys(OwnRun, [h] + TruncateAll(run, share))
  {
    hide Obeys, CallIds, TruncateItem;
    OwnedBlockObeys(h, run);
    var cut := TruncateAll(run, share);
    forall i | 0 <= i < |cut| ensures cut[i].ToolResult? && cut[i].callId in CallIds(h) {
      assert cut[i] == TruncateItem(run[i], share);
      TruncationKeepsShape(run[i], share);
    }
    OwnedBlockObeys(h, cut);
  }

  lemma OrphansDisobey(items: seq<Item>)
    requires items != [] && AllResults(items)
    ensures !Obeys(OwnRun, items)
  {
    assert items[..0] == [];
    assert !Accepts(OwnRun, items[..0], items[0]);
  }

  lemma OwnersMakeCalls(h: Item, id: string)
    requires id in CallIds(h)
    ensures MakesCalls(h)
  {
  }

  /** Fitting never separates a result from the turn that declares its call. */
  lemma FitKeepsContig(conversation: seq<Item>, maxTokens: nat)
    requires Contig(conversation)
    ensures Contig(Fit(conversation, maxTokens))
  {
    hide Cost, KeptBody, Obeys, Contig, Live;
    ObeysMeaning(conversation);
    ObeysMeaning(Fit(conversation, maxTokens));
    if Cost(conversation) > maxTokens {
      var head, body := Head(conversation), Body(conversation);
      var budget := BodyBudget(conversation, maxTokens);
      assert conversation == head + body;
      HeadIsClean(conversation);
      ObeysSuffix(head, body);
      KeptBodyObeys(body, budget);
      ObeysConcat(head, KeptBody(body, budget));
    }
  }

  lemma KeptBodyObeys(body: seq<Item>, budget: nat)
    requires Obeys(OwnRun, body)
    ensures Obeys(OwnRun, KeptBody(body, budget))
  {
    hide Obeys, SuffixStart, TailUnit;
    var start := SuffixStart(body, budget);
    if start < |body| {
      assert body == body[..start] + body[start..];
      ObeysFreshSuffix(body[..start], body[start..]);
    } else {
      TailUnitObeys(body, budget);
    }
  }

  lemma HeadIsClean(conversation: seq<Item>)
    ensures Obeys(OwnRun, Head(conversation)) && Live(OwnRun, Head(conversation)) == {}
  {
  }

  // ----- every call keeps exactly one result

  lemma PairedSuffix(a: seq<Item>, b: seq<Item>)
    requires Paired(a + b) && StartsFresh(b)
    ensures Paired(b)
  {
    hide Contig, Obeys, RunAfter, Answers, CallIds;
    ObeysMeaning(a + b);
    ObeysMeaning(b);
    ObeysFreshSuffix(a, b);
    forall i, id | 0 <= i < |b| && id in CallIds(b[i]) ensures Answers(RunAfter(b, i), id) == 1 {
      assert (a + b)[|a| + i] == b[i];
      RunAfterShift(a, b, i);
    }
  }

  lemma {:induction false} TruncationKeepsAnswers(run: seq<Item>, t: nat, id: string)
    ensures Answers(TruncateAll(run, t), id) == Answers(run, id)
  {
    hide TruncateItem;
    if run != [] {
      TruncationKeepsShape(run[0], t);
      TruncationKeepsAnswers(run[1..], t, id);
      assert TruncateAll(run, t)[1..] == TruncateAll(run[1..], t);
    }
  }

  /** Truncating a paired block leaves it paired. */
  lemma TruncatedBlockIsPaired(h: Item, run: seq<Item>, h': Item, share: nat)
    requires !h.ToolResult? && !h'.ToolResult? && CallIds(h') == CallIds(h) && AllResults(run)
    requires Paired([h] + run)
    ensures Paired([h'] + TruncateAll(run, share))
  {
    hide Paired, CallIds, TruncateItem, Answers, Owned;
    var cut := TruncateAll(run, share);
    assert [h] + run + [] == [h] + run && [h'] + cut + [] == [h'] + cut;
    forall i | 0 <= i < |cut| ensures cut[i].ToolResult? && cut[i].callId == run[i].callId {
      TruncationKeepsShape(run[i], share);
    }
    PairedBlock(h, run, []);
    PairedBlock(h', cut, []);
    OwnedIff(h, run);
    OwnedIff(h', cut);
    forall id | id in CallIds(h') ensures Answers(cut, id) == 1 { TruncationKeepsAnswers(run, share, id); }
  }

  lemma TailUnitIsPaired(body: seq<Item>, budget: nat)
    requires Paired(body) && body != []
    ensures Paired(TailUnit(body, budget))
  {
    hide Paired, Contig, CallIds, TruncateItem, TruncateAll, Cost, Share, TrailStart;
    var k := TrailStart(body);
    var run := body[k..];
    if k == 0 {
      PairedIsContig(body);
      ObeysMeaning(body);
      assert body == run;
      OrphansDisobey(body);
      assert false;
    }
    var h := body[k - 1];
    assert body == body[..k - 1] + ([h] + run);
    PairedSuffix(body[..k - 1], [h] + run);
    if run == [] {
      TruncationKeepsShape(h, budget);
      TruncatedBlockIsPaired(h, [], TruncateItem(h, budget), 1);
      assert [TruncateItem(h, budget)] + TruncateAll([], 1) == TailUnit(body, budget);
    } else {
      OwnerOfPaired(h, run);
      TruncatedBlockIsPaired(h, run, h, Share(budget, Cost([h]), |run|));
    }
  }

  lemma PairedIsContig(items: seq<Item>)
    requires Paired(items)
    ensures Contig(items)
  {
  }

  lemma OwnerOfPaired(h: Item, run: seq<Item>)
    requires !h.ToolResult? && AllResults(run) && run != [] && Paired([h] + run)
    ensures MakesCalls(h)
  {
    hide Paired, CallIds, Answers, Owned;
    assert [h] + run + [] == [h] + run;
    PairedBlock(h, run, []);
    OwnedIff(h, run);
    OwnersMakeCalls(h, run[0].callId);
  }

  lemma KeptBodyIsPaired(body: seq<Item>, budget: nat)
    requires Paired(body)
    ensures Paired(KeptBody(body, budget)) && StartsFresh(KeptBody(body, budget))
  {
    hide Paired, Contig, SuffixStart, TailUnit;
    var start := SuffixStart(body, budget);
    if start < |body| {
      assert body == body[..start] + body[start..];
      PairedSuffix(body[..start], body[start..]);
    } else if body != [] {
      TailUnitIsPaired(body, budget);
      PairedStartsFresh(TailUnit(body, budget));
    } else {
      NothingToKeep(budget);
    }
  }

  lemma PairedStartsFresh(items: seq<Item>)
    requires Paired(items)
    ensures StartsFresh(items)
  {
  }

  /** Tool runs are not split: where every call has exactly one result in its own run, fitting keeps it so. */
  lemma FitKeepsPairing(conversation: seq<Item>, maxTokens: nat)
    requires Paired(conversation)
    ensures Paired(Fit(conversation, maxTokens))
  {
    hide Cost, KeptBody, Paired, Contig;
    if Cost(conversation) > maxTokens {
      var head, body := Head(conversation), Body(conversation);
      var kept := KeptBody(body, BodyBudget(conversation, maxTokens));
      assert conversation == head + body;
      PairedBehindHead(conversation);
      PairedSuffix(head, body);
      KeptBodyIsPaired(body, BodyBudget(conversation, maxTokens));
      if head == [] {
        assert head + kept == kept;
      } else {
        PairedHead(head[0], body, kept);
      }
    }
  }

  lemma PairedBehindHead(conversation: seq<Item>)
    requires Paired(conversation)
    ensures StartsFresh(Body(conversation))
  {
    hide RunAfter, Answers;
  }

  lemma PairedHead(h: Item, body: seq<Item>, kept: seq<Item>)
    requires h.System? && Paired([h] + body) && StartsFresh(body) && Paired(kept) && StartsFresh(kept)
    ensures Paired([h] + kept)
  {
    hide Paired, RunPaired;
    assert [h] + [] + body == [h] + body && [h] + [] + kept == [h] + kept;
    PairedBlock(h, [], body);
    PairedBlock(h, [], kept);
  }

  // ----- what is always kept

  /** The same item up to shortened text. */
  ghost predicate SameUpToText(a: Item, b: Item) {
    a == b || exists t: nat :: a == TruncateItem(b, t)
  }

  /** The system message stays in front and the most recent item stays at the end, if need be truncated. */
  lemma FitKeepsEnds(conversation: seq<Item>, maxTokens: nat)
    requires conversation != []
    ensures var r := Fit(conversation, maxTokens);
            && r != []
            && (conversation[0].System? ==> r[0] == conversation[0])
            && SameUpToText(r[|r| - 1], conversation[|conversation| - 1])
  {
    hide Cost, KeptBody, SameUpToText;
    var c := conversation;
    Reflexive(c[|c| - 1]);
    if Cost(c) > maxTokens {
      var head, body := Head(c), Body(c);
      var budget := BodyBudget(c, maxTokens);
      assert c == head + body;
      if body != [] {
        KeptBodyEnd(body, budget);
        LastOfConcat(head, KeptBody(body, budget));
        LastOfConcat(head, body);
      } else {
        NothingToKeep(budget);
        assert head + [] == head;
      }
    }
  }

  lemma KeptBodyEnd(body: seq<Item>, budget: nat)
    requires body != []
    ensures var r := KeptBody(body, budget); r != [] && SameUpToText(r[|r| - 1], body[|body| - 1])
  {
    hide SuffixStart, TailUnit, SameUpToText;
    Reflexive(body[|body| - 1]);
    TailUnitEnd(body, budget);
  }

  lemma NothingToKeep(budget: nat)
    ensures KeptBody([], budget) == []
  {
  }

  lemma Reflexive(item: Item)
    ensures SameUpToText(item, item)
  {
  }

  lemma LastOfConcat(a: seq<Item>, b: seq<Item>)
    requires b != []
    ensures (a + b)[|a + b| - 1] == b[|b| - 1] && (a != [] ==> (a + b)[0] == a[0])
  {
  }

  lemma TailUnitEnd(body: seq<Item>, budget: nat)
    requires body != []
    ensures var u := TailUnit(body, budget); u != [] && SameUpToText(u[|u| - 1], body[|body| - 1])
  {
    hide Cost, TruncateItem, TailOwner, Share, TrailStart;
    var k := TrailStart(body);
    if k < |body| {
      var share := Share(budget, Cost(TailOwner(body)), |body| - k);
      var cut := TruncateAll(body[k..], share);
      assert cut[|cut| - 1] == TruncateItem(body[|body| - 1], share);
      assert TailUnit(body, budget) == TailOwner(body) + cut;
    } else {
      assert TailUnit(body, budget) == [TruncateItem(body[|body| - 1], budget)];
    }
  }

  /** The history ends with a result for this call, in the run of the turn that made it. */
  ghost predicate EndsWithOwnedResult(r: seq<Item>, id: string) {
    r != [] && r[|r| - 1].ToolResult? && r[|r| - 1].callId == id && DeclaredByRunOwner(r, |r| - 1, id)
  }

  /** If the most recent item is a result, it is kept together with the turn that made the call. */
  lemma FitKeepsTheLatestResult(conversation: seq<Item>, maxTokens: nat)
    requires Contig(conversation) && conversation != [] && conversation[|conversation| - 1].ToolResult?
    ensures EndsWithOwnedResult(Fit(conversation, maxTokens), conversation[|conversation| - 1].callId)
  {
    hide Fit, TruncateItem, DeclaredByRunOwner;
    var r, last := Fit(conversation, maxTokens), conversation[|conversation| - 1];
    FitKeepsContig(conversation, maxTokens);
    FitKeepsEnds(conversation, maxTokens);
    if r[|r| - 1] != last {
      var t: nat :| r[|r| - 1] == TruncateItem(last, t);
      TruncationKeepsShape(last, t);
    }
  }

  // ----- the suffix branch

  ghost predicate KeepsSuffix(conversation: seq<Item>, maxTokens: nat) {
    var body := Body(conversation);
    Cost(conversation) > maxTokens && SuffixStart(body, BodyBudget(conversation, maxTokens)) < |body|
  }

  lemma {:induction false} CostConcat(a: seq<Item>, b: seq<Item>)
    ensures Cost(a + b) == Cost(a) + Cost(b)
  {
    hide EstimateItemTokens;
    if a == [] {
      assert a + b == b;
    } else {
      assert (a + b)[0] == a[0] && (a + b)[1..] == a[1..] + b;
      CostConcat(a[1..], b);
    }
  }

  lemma {:induction false} CostSuffix(items: seq<Item>, i: nat, j: nat)
    requires i <= j <= |items|
    ensures Cost(items[j..]) <= Cost(items[i..])
    decreases j - i
  {
    hide EstimateItemTokens;
    if i < j {
      CostStep(items, i);
      CostSuffix(items, i + 1, j);
    }
  }

  /**
   The kept suffix fits, and no older cut would do: every longer suffix that does not
   open with a result is over budget.
   */
  lemma FitKeepsTheLongestSuffix(conversation: seq<Item>, maxTokens: nat, i: nat)
    requires KeepsSuffix(conversation, maxTokens)
    ensures var body, budget := Body(conversation), BodyBudget(conversation, maxTokens);
            var start := SuffixStart(body, budget);
            && Cost(body[start..]) <= budget
            && (i < start && !body[i].ToolResult? ==> Cost(body[i..]) > budget)
            && Cost(Fit(conversation, maxTokens)) <= Max(maxTokens, Cost(Head(conversation)))
  {
    hide EstimateItemTokens, Cost, SuffixStart, LongestFit, TailUnit;
    var body, budget := Body(conversation), BodyBudget(conversation, maxTokens);
    var start := SuffixStart(body, budget);
    SuffixIsLongest(body, budget, i);
    CostConcat(Head(conversation), body[start..]);
  }

  lemma SuffixIsLongest(body: seq<Item>, budget: nat, i: nat)
    ensures var start := SuffixStart(body, budget);
            Cost(body[start..]) <= budget && (i < start && !body[i].ToolResult? ==> Cost(body[i..]) > budget)
  {
    hide EstimateItemTokens, Cost, SuffixStart, LongestFit;
    var longest := LongestFitOf(body, budget);
    var start := SuffixStart(body, budget);
    CostSuffix(body, longest, start);
    if i < start && !body[i].ToolResult? {
      CostSuffix(body, i, longest - 1);
    }
  }

  lemma LongestFitOf(body: seq<Item>, budget: nat) returns (longest: nat)
    ensures longest <= SuffixStart(body, budget) && Cost(body[longest..]) <= budget
    ensures longest > 0 ==> Cost(body[longest - 1..]) > budget
    ensures forall k :: longest <= k < SuffixStart(body, budget) ==> body[k].ToolResult?
    ensures SuffixStart(body, budget) == RunEnd(body, longest)
    ensures Cost(body) <= budget ==> longest == 0
  {
    assert body[|body|..] == [];
    longest := LongestFit(body, budget, |body|);
    if Cost(body) <= budget && longest > 0 {
      assert body[0..] == body;
      CostSuffix(body, 0, longest - 1);
      assert false;
    }
  }

  /** Where a suffix was kept, fitting it again to the same limit changes nothing. */
  lemma FitIsIdempotentOnSuffixes(conversation: seq<Item>, maxTokens: nat)
    requires KeepsSuffix(conversation, maxTokens)
    ensures Fit(Fit(conversation, maxTokens), maxTokens) == Fit(conversation, maxTokens)
  {
    hide EstimateItemTokens, Cost, LongestFit, SuffixStart, TailUnit;
    var head, body := Head(conversation), Body(conversation);
    var budget := BodyBudget(conversation, maxTokens);
    var start := SuffixStart(body, budget);
    var suffix := body[start..];
    var r := Fit(conversation, maxTokens);
    assert r == head + suffix;
    FitKeepsTheLongestSuffix(conversation, maxTokens, 0);
    if Cost(r) > maxTokens {
      CostConcat(head, suffix);
      assert head != [] by { if head == [] { NoCost(head); assert false; } }
      assert Head(r) == head && Body(r) == suffix;
      var longest := LongestFitOf(suffix, budget);
      assert SuffixStart(suffix, budget) == 0;
      assert suffix[0..] == suffix;
    }
  }

  lemma NoCost(items: seq<Item>)
    requires items == []
    ensures Cost(items) == 0
  {
  }
}
