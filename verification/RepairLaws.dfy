/**
 What history repair guarantees. A conversation splits into blocks, an item that is
 no tool result followed by the results after it, and all three passes work block
 by block; the laws are proved for one block and carried along the conversation.
 */
module RepairLaws {
  import opened Conversation
  import opened Pairing
  import opened Repair

  /** How many of the calls carry this id. */
  function Occurrences(calls: seq<ToolCall>, id: string): nat {
    if calls == [] then 0
    else (if calls[0].id == id then 1 else 0) + Occurrences(calls[1..], id)
  }

  function Calls(item: Item): seq<ToolCall> {
    if item.Assistant? then item.toolCalls else []
  }

  /** No turn declares twice an id that its run leaves unanswered. */
  ghost predicate NoRepeatedUnanswered(items: seq<Item>) {
    forall i, id :: 0 <= i < |items| && Occurrences(Calls(items[i]), id) > 1 ==> Answered(RunAfter(items, i), id)
  }

  // ----- one block

  ghost predicate StartsFresh(rest: seq<Item>) {
    rest != [] ==> !rest[0].ToolResult?
  }

  ghost predicate IsBlock(h: Item, run: seq<Item>, rest: seq<Item>) {
    !h.ToolResult? && AllResults(run) && StartsFresh(rest)
  }

  function DedupRun(h: Item, run: seq<Item>): seq<Item>
    requires forall k :: 0 <= k < |run| ==> run[k].ToolResult?
  {
    if MakesCalls(h) then LastOfEach(run) else run
  }

  function Owned(h: Item, run: seq<Item>): seq<Item> {
    if run == [] then []
    else
      var last := run[|run| - 1];
      Owned(h, run[..|run| - 1]) + if last.ToolResult? ==> last.callId in CallIds(h) then [last] else []
  }

  ghost function MissingFor(h: Item, run: seq<Item>): seq<Item> {
    Missing(Calls(h), AnsweredIds(run), REPAIR_REASON)
  }

  ghost predicate RunPaired(h: Item, run: seq<Item>) {
    Owned(h, run) == run && forall id :: id in CallIds(h) ==> Answers(run, id) == 1
  }

  // ----- the passes, block by block

  lemma BlockRunEnd(h: Item, run: seq<Item>, rest: seq<Item>)
    requires IsBlock(h, run, rest)
    ensures var s := [h] + run + rest;
            RunEnd(s, 1) == 1 + |run| && RunAfter(s, 0) == run && s[1 + |run|..] == rest && s[0] == h
  {
    var s := [h] + run + rest;
    assert s[1..1 + |run|] == run && s[1 + |run|..] == rest;
    RunEndIs(s, 1, 1 + |run|);
  }

  lemma {:induction false} DedupResults(run: seq<Item>, rest: seq<Item>)
    requires AllResults(run)
    ensures Deduped(run + rest) == run + Deduped(rest)
  {
    hide Deduped, Backfilled;
    if run == [] {
      assert run + rest == rest;
    } else {
      var s := run + rest;
      DedupedPlainHead(s);
      assert s[0] == run[0] && s[1..] == run[1..] + rest;
      DedupResults(run[1..], rest);
      assert run == [run[0]] + run[1..];
    }
  }

  lemma DedupBlock(h: Item, run: seq<Item>, rest: seq<Item>)
    requires IsBlock(h, run, rest)
    ensures Deduped([h] + run + rest) == [h] + DedupRun(h, run) + Deduped(rest)
  {
    hide LastOfEach, RunEnd, Deduped;
    var s := [h] + run + rest;
    BlockRunEnd(h, run, rest);
    if MakesCalls(h) {
      DedupedHead(s);
      assert s[1..1 + |run|] == run;
    } else {
      DedupedPlainHead(s);
      assert s[1..] == run + rest;
      DedupResults(run, rest);
      assert [h] + (run + Deduped(rest)) == [h] + run + Deduped(rest);
    }
  }

  lemma {:induction false} BackfillResults(run: seq<Item>, rest: seq<Item>)
    requires AllResults(run)
    ensures Backfilled(run + rest, REPAIR_REASON) == run + Backfilled(rest, REPAIR_REASON)
  {
    hide Deduped, Backfilled;
    if run == [] {
      assert run + rest == rest;
    } else {
      var s := run + rest;
      BackfilledPlainHead(s, REPAIR_REASON);
      assert s[0] == run[0] && s[1..] == run[1..] + rest;
      BackfillResults(run[1..], rest);
      assert run == [run[0]] + run[1..];
    }
  }

  lemma BackfillBlock(h: Item, run: seq<Item>, rest: seq<Item>)
    requires IsBlock(h, run, rest)
    ensures Backfilled([h] + run + rest, REPAIR_REASON)
         == [h] + (run + MissingFor(h, run)) + Backfilled(rest, REPAIR_REASON)
  {
    hide RunEnd, AnsweredIds, Backfilled;
    var s := [h] + run + rest;
    BlockRunEnd(h, run, rest);
    if MakesCalls(h) {
      hide Missing;
      BackfilledHead(s, REPAIR_REASON);
      assert s[1..1 + |run|] == run;
    } else {
      BackfilledPlainHead(s, REPAIR_REASON);
      assert s[1..] == run + rest;
      BackfillResults(run, rest);
      assert MissingFor(h, run) == [];
      assert run + [] == run;
    }
  }

  /** A fresh start forgets every id live before it. */
  lemma {:induction false} LiveFresh(a: seq<Item>, b: seq<Item>)
    requires b != [] && !b[0].ToolResult?
    ensures Live(OwnRun, a + b) == Live(OwnRun, b)
  {
    var n := |b| - 1;
    assert (a + b)[..|a| + n] == a + b[..n] && (a + b)[|a| + n] == b[n];
    if n > 0 {
      LiveFresh(a, b[..n]);
    }
  }

  lemma {:induction false} KeptSplit(a: seq<Item>, b: seq<Item>)
    requires StartsFresh(b)
    ensures Kept(OwnRun, a + b) == Kept(OwnRun, a) + Kept(OwnRun, b)
  {
    if b == [] {
      assert a + b == a;
    } else {
      var n := |b| - 1;
      var s := a + b;
      assert s[..|s| - 1] == a + b[..n] && s[|s| - 1] == b[n];
      if n > 0 {
        LiveFresh(a, b[..n]);
      }
      KeptSplit(a, b[..n]);
    }
  }

  lemma {:induction false} KeptRun(h: Item, run: seq<Item>)
    requires !h.ToolResult? && AllResults(run)
    ensures Kept(OwnRun, [h] + run) == [h] + Owned(h, run)
    ensures Live(OwnRun, [h] + run) == CallIds(h)
  {
    hide CallIds;
    var s := [h] + run;
    if run == [] {
      assert s == [h] && s[..0] == [];
    } else {
      var n := |run| - 1;
      var before := [h] + run[..n];
      assert s[..|s| - 1] == before && s[|s| - 1] == run[n];
      KeptRun(h, run[..n]);
      assert Kept(OwnRun, s) == Kept(OwnRun, before) + if Accepts(OwnRun, before, run[n]) then [run[n]] else [];
    }
  }

  lemma KeptBlock(h: Item, run: seq<Item>, rest: seq<Item>)
    requires IsBlock(h, run, rest)
    ensures Kept(OwnRun, [h] + run + rest) == [h] + Owned(h, run) + Kept(OwnRun, rest)
  {
    KeptSplit([h] + run, rest);
    KeptRun(h, run);
  }

  lemma {:induction false} OwnedResults(h: Item, run: seq<Item>)
    requires AllResults(run)
    ensures AllResults(Owned(h, run)) && |Owned(h, run)| <= |run|
    ensures |Owned(h, run)| == |run| ==> Owned(h, run) == run
    ensures forall k :: 0 <= k < |Owned(h, run)| ==> Owned(h, run)[k].callId in CallIds(h)
  {
    hide CallIds;
    if run != [] {
      OwnedResults(h, run[..|run| - 1]);
    }
  }

  lemma FreshAfterDedup(rest: seq<Item>)
    requires StartsFresh(rest)
    ensures StartsFresh(Deduped(rest))
  {
  }

  lemma {:induction false} KeptFirst(items: seq<Item>)
    requires items != [] && !items[0].ToolResult?
    ensures Kept(OwnRun, items) != [] && Kept(OwnRun, items)[0] == items[0]
  {
    if |items| > 1 {
      KeptFirst(items[..|items| - 1]);
    }
  }

  lemma FreshAfterKept(rest: seq<Item>)
    requires StartsFresh(rest)
    ensures StartsFresh(Kept(OwnRun, rest))
  {
    if rest != [] { KeptFirst(rest); }
  }

  ghost function KeptOfRun(h: Item, run: seq<Item>): seq<Item>
    requires AllResults(run)
  {
    Owned(h, DedupRun(h, run))
  }

  ghost function RepairRun(h: Item, run: seq<Item>): seq<Item>
    requires AllResults(run)
  {
    KeptOfRun(h, run) + MissingFor(h, KeptOfRun(h, run))
  }

  lemma RepairedBlock(h: Item, run: seq<Item>, rest: seq<Item>)
    requires IsBlock(h, run, rest)
    ensures var d := DedupRun(h, run);
            && Deduped([h] + run + rest) == [h] + d + Deduped(rest)
            && Kept(OwnRun, Deduped([h] + run + rest)) == [h] + KeptOfRun(h, run) + Kept(OwnRun, Deduped(rest))
            && Repaired([h] + run + rest) == [h] + RepairRun(h, run) + Repaired(rest)
  {
    hide Deduped, Kept, Backfilled, Owned, Missing, LastOfEach;
    var d := DedupRun(h, run);
    DedupBlock(h, run, rest);
    FreshAfterDedup(rest);
    assert AllResults(d);
    KeptBlock(h, d, Deduped(rest));
    OwnedResults(h, d);
    FreshAfterKept(Deduped(rest));
    BackfillBlock(h, Owned(h, d), Kept(OwnRun, Deduped(rest)));
  }

  lemma {:induction false} KeptOrphans(lead: seq<Item>)
    requires AllResults(lead)
    ensures Kept(OwnRun, lead) == [] && Live(OwnRun, lead) == {}
  {
    if lead != [] {
      KeptOrphans(lead[..|lead| - 1]);
    }
  }

  /** Results at the very front have no owner: all of them go. */
  lemma RepairedOrphans(lead: seq<Item>, rest: seq<Item>)
    requires AllResults(lead) && StartsFresh(rest)
    ensures Deduped(lead + rest) == lead + Deduped(rest)
    ensures Kept(OwnRun, lead + Deduped(rest)) == Kept(OwnRun, Deduped(rest))
    ensures Repaired(lead + rest) == Repaired(rest)
  {
    hide Deduped, Kept, Backfilled;
    DedupResults(lead, rest);
    FreshAfterDedup(rest);
    KeptSplit(lead, Deduped(rest));
    KeptOrphans(lead);
    assert [] + Kept(OwnRun, Deduped(rest)) == Kept(OwnRun, Deduped(rest));
  }

  /** The front of a conversation: orphaned results, or one block. */
  lemma Decompose(items: seq<Item>) returns (h: Item, run: seq<Item>, rest: seq<Item>)
    requires items != []
    ensures items[0].ToolResult? ==> run != [] && AllResults(run) && StartsFresh(rest) && items == run + rest
    ensures !items[0].ToolResult? ==> IsBlock(h, run, rest) && items == [h] + run + rest
    ensures |rest| < |items|
  {
    h := items[0];
    var start := if h.ToolResult? then 0 else 1;
    var end := RunEnd(items, start);
    run, rest := items[start..end], items[end..];
    if h.ToolResult? { assert end > 0; }
    assert items == items[..start] + run + rest;
    if !h.ToolResult? { assert items[..1] == [h]; }
  }

  // ----- counting answers in a run

  lemma {:induction false} AnswersIff(run: seq<Item>, id: string)
    ensures Answers(run, id) > 0 <==> Answered(run, id)
  {
    if run != [] {
      AnswersIff(run[1..], id);
      AnsweredSplit(run[..1], run[1..], id);
      assert run == run[..1] + run[1..] && run[..1][0] == run[0];
    }
  }

  lemma {:induction false} AnswersConcat(a: seq<Item>, b: seq<Item>, id: string)
    ensures Answers(a + b, id) == Answers(a, id) + Answers(b, id)
  {
    if a == [] {
      assert a + b == b;
    } else {
      assert (a + b)[0] == a[0] && (a + b)[1..] == a[1..] + b;
      AnswersConcat(a[1..], b, id);
    }
  }

  lemma AnswersOne(r: Item, id: string)
    ensures Answers([r], id) == if r.ToolResult? && r.callId == id then 1 else 0
  {
  }

  lemma {:induction false} AnswersLast(run: seq<Item>, id: string)
    requires AllResults(run)
    ensures Answers(LastOfEach(run), id) == if Answered(run, id) then 1 else 0
  {
    if run != [] {
      hide Answered;
      AnswersLast(run[1..], id);
      AnsweredSplit(run[..1], run[1..], id);
      assert run == run[..1] + run[1..] && run[..1] == [run[0]];
      AnswersIff([run[0]], id);
      AnswersOne(run[0], id);
      var r := LastOfEach(run[1..]);
      AnswersConcat([run[0]], r, id);
      assert [] + r == r;
    }
  }

  lemma {:induction false} AnswersOwned(h: Item, run: seq<Item>, id: string)
    requires id in CallIds(h)
    ensures Answers(Owned(h, run), id) == Answers(run, id)
  {
    hide CallIds;
    if run != [] {
      var n := |run| - 1;
      AnswersOwned(h, run[..n], id);
      assert run == run[..n] + [run[n]];
      AnswersConcat(run[..n], [run[n]], id);
      AnswersConcat(Owned(h, run[..n]), [run[n]], id);
      AnswersOne(run[n], id);
      assert Owned(h, run[..n]) + [] == Owned(h, run[..n]);
    }
  }

  lemma {:induction false} AnswersMissing(calls: seq<ToolCall>, answered: set<string>, id: string)
    ensures Answers(Missing(calls, answered, REPAIR_REASON), id)
         == if id in answered then 0 else Occurrences(calls, id)
  {
    if calls != [] {
      AnswersMissing(calls[1..], answered, id);
      var r := Result(calls[0].id, SyntheticText(calls[0].name, REPAIR_REASON));
      AnswersOne(r, id);
      var rest := Missing(calls[1..], answered, REPAIR_REASON);
      AnswersConcat([r], rest, id);
      assert [] + rest == rest;
    }
  }

  lemma AnsweredIdsIff(run: seq<Item>, id: string)
    ensures id in AnsweredIds(run) <==> Answered(run, id)
  {
  }

  lemma {:induction false} OccursIff(calls: seq<ToolCall>, id: string)
    ensures id in (set call | call in calls :: call.id) <==> Occurrences(calls, id) > 0
  {
    if calls != [] {
      OccursIff(calls[1..], id);
      assert calls == [calls[0]] + calls[1..];
    }
  }

  lemma {:induction false} OwnedIff(h: Item, run: seq<Item>)
    requires AllResults(run)
    ensures Owned(h, run) == run <==> forall k :: 0 <= k < |run| ==> run[k].callId in CallIds(h)
  {
    hide CallIds;
    if run != [] {
      var n := |run| - 1;
      OwnedIff(h, run[..n]);
      OwnedResults(h, run[..n]);
      assert run == run[..n] + [run[n]];
    }
  }

  lemma {:induction false} MissingShape(h: Item, calls: seq<ToolCall>, answered: set<string>)
    requires forall call | call in calls :: call.id in CallIds(h)
    ensures var m := Missing(calls, answered, REPAIR_REASON);
            AllResults(m) && forall k :: 0 <= k < |m| ==> m[k].callId in CallIds(h)
    ensures (forall call | call in calls :: call.id in answered) ==> Missing(calls, answered, REPAIR_REASON) == []
  {
    hide CallIds;
    if calls != [] {
      assert calls[0] in calls;
      MissingShape(h, calls[1..], answered);
    }
  }

  // ----- one block repaired

  lemma RepairRunShape(h: Item, run: seq<Item>)
    requires !h.ToolResult? && AllResults(run)
    ensures AllResults(RepairRun(h, run)) && Owned(h, RepairRun(h, run)) == RepairRun(h, run)
  {
    var k := KeptOfRun(h, run);
    OwnedResults(h, DedupRun(h, run));
    MissingShape(h, Calls(h), AnsweredIds(k));
    OwnedIff(h, RepairRun(h, run));
  }

  /** After repair a call has one answer if its run had any, else one per declaration. */
  lemma RepairRunAnswers(h: Item, run: seq<Item>, id: string)
    requires AllResults(run) && id in CallIds(h)
    ensures Answers(RepairRun(h, run), id) == if Answered(run, id) then 1 else Occurrences(Calls(h), id)
  {
    assert MakesCalls(h);
    hide Answered, LastOfEach, Owned, AnsweredIds, Answers, Missing;
    var d := LastOfEach(run);
    var k := Owned(h, d);
    AnswersLast(run, id);
    AnswersOwned(h, d, id);
    AnswersIff(k, id);
    AnsweredIdsIff(k, id);
    AnswersMissing(Calls(h), AnsweredIds(k), id);
    AnswersConcat(k, MissingFor(h, k), id);
  }

  ghost predicate RunNoRepeat(h: Item, run: seq<Item>) {
    forall id :: Occurrences(Calls(h), id) > 1 ==> Answered(run, id)
  }

  lemma RepairRunPairs(h: Item, run: seq<Item>)
    requires !h.ToolResult? && AllResults(run)
    ensures RunPaired(h, RepairRun(h, run)) <==> RunNoRepeat(h, run)
  {
    hide Answered, Answers, RepairRun, Owned;
    RepairRunShape(h, run);
    forall id
      ensures id in CallIds(h) <==> Occurrences(Calls(h), id) > 0
      ensures id in CallIds(h) ==>
                Answers(RepairRun(h, run), id) == if Answered(run, id) then 1 else Occurrences(Calls(h), id)
    {
      OccursIff(Calls(h), id);
      if id in CallIds(h) { RepairRunAnswers(h, run, id); }
    }
  }

  ghost predicate RunUnchanged(h: Item, run: seq<Item>)
    requires AllResults(run)
  {
    && |DedupRun(h, run)| == |run|
    && |KeptOfRun(h, run)| == |DedupRun(h, run)|
    && MissingFor(h, KeptOfRun(h, run)) == []
  }

  lemma {:induction false} DistinctIsKept(run: seq<Item>)
    requires AllResults(run) && forall k :: 0 <= k < |run| ==> Answers(run, run[k].callId) == 1
    ensures LastOfEach(run) == run
  {
    if run != [] {
      AnswersIff(run[1..], run[0].callId);
      forall k | 0 <= k < |run[1..]| ensures Answers(run[1..], run[1..][k].callId) == 1 {
        var id := run[k + 1].callId;
        assert run[1..][k] == run[k + 1] && Answers(run, id) == 1;
        AnswersIff(run[1..], id);
        assert Answered(run[1..], id);
      }
      DistinctIsKept(run[1..]);
    }
  }

  lemma PairedRunStays(h: Item, run: seq<Item>)
    requires !h.ToolResult? && AllResults(run) && RunPaired(h, run)
    ensures RunUnchanged(h, run) && RepairRun(h, run) == run
  {
    OwnedIff(h, run);
    DistinctIsKept(run);
    forall call | call in Calls(h) ensures call.id in AnsweredIds(run) {
      assert call.id in CallIds(h);
      AnswersIff(run, call.id);
      AnsweredIdsIff(run, call.id);
    }
    MissingShape(h, Calls(h), AnsweredIds(run));
    assert run + [] == run;
  }

  lemma UnchangedRunIsPaired(h: Item, run: seq<Item>)
    requires !h.ToolResult? && AllResults(run) && RunUnchanged(h, run)
    ensures RunPaired(h, run)
  {
    hide Answers, Answered, Missing, AnsweredIds;
    LastOfEachLength(run);
    OwnedResults(h, DedupRun(h, run));
    forall id | id in CallIds(h) ensures Answers(run, id) == 1 {
      OccursIff(Calls(h), id);
      RepairRunAnswers(h, run, id);
      AnswersMissing(Calls(h), AnsweredIds(run), id);
      AnswersNone(id);
      AnsweredIdsIff(run, id);
      AnswersLast(run, id);
    }
  }

  lemma AnswersNone(id: string)
    ensures Answers([], id) == 0
  {
  }

  // ----- carried along the conversation

  lemma RunAfterShift(a: seq<Item>, rest: seq<Item>, i: nat)
    requires i < |rest|
    ensures RunAfter(a + rest, |a| + i) == RunAfter(rest, i)
  {
    var s := a + rest;
    assert s[|a|..] == rest;
    RunEndShift(s, |a|, i + 1);
  }

  lemma ContigBlock(h: Item, run: seq<Item>, rest: seq<Item>)
    requires IsBlock(h, run, rest)
    ensures Contig([h] + run + rest) <==> Owned(h, run) == run && Contig(rest)
  {
    var s := [h] + run + rest;
    ObeysMeaning(s);
    ObeysMeaning(rest);
    FiltersNothingIff(OwnRun, s);
    FiltersNothingIff(OwnRun, rest);
    KeptAndDropped(OwnRun, rest);
    KeptBlock(h, run, rest);
    OwnedResults(h, run);
    hide Kept, Contig, Owned, Obeys, Dropped;
    if Kept(OwnRun, s) == s {
      assert |Owned(h, run)| == |run|;
      assert s[1 + |run|..] == rest && ([h] + run + Kept(OwnRun, rest))[1 + |run|..] == Kept(OwnRun, rest);
    }
  }

  /** The runs of a block and of what follows it. */
  lemma BlockRuns(h: Item, run: seq<Item>, rest: seq<Item>)
    requires IsBlock(h, run, rest)
    ensures var s := [h] + run + rest;
            var n := 1 + |run|;
            && |s| == n + |rest| && s[0] == h && RunAfter(s, 0) == run
            && (forall i | 1 <= i < n :: CallIds(s[i]) == {} && Calls(s[i]) == [])
            && (forall i | n <= i < |s| :: s[i] == rest[i - n] && RunAfter(s, i) == RunAfter(rest, i - n))
  {
    hide RunAfter, CallIds, Calls, AllResults;
    var s := [h] + run + rest;
    BlockRunEnd(h, run, rest);
    forall i | 1 <= i < 1 + |run| ensures CallIds(s[i]) == {} && Calls(s[i]) == [] {
      RunMakesNoCalls(h, run, rest, i);
    }
    forall i | 1 + |run| <= i < |s| ensures s[i] == rest[i - 1 - |run|] && RunAfter(s, i) == RunAfter(rest, i - 1 - |run|) {
      RunAfterShift([h] + run, rest, i - 1 - |run|);
    }
  }

  lemma RunMakesNoCalls(h: Item, run: seq<Item>, rest: seq<Item>, i: nat)
    requires AllResults(run) && 1 <= i < 1 + |run|
    ensures var item := ([h] + run + rest)[i]; CallIds(item) == {} && Calls(item) == []
  {
  }

  lemma PairedBlock(h: Item, run: seq<Item>, rest: seq<Item>)
    requires IsBlock(h, run, rest)
    ensures Paired([h] + run + rest) <==> RunPaired(h, run) && Paired(rest)
  {
    hide Contig, Answers, Owned, RunAfter, CallIds;
    var s := [h] + run + rest;
    var n := 1 + |run|;
    ContigBlock(h, run, rest);
    BlockRuns(h, run, rest);
    if Paired(s) {
      forall i, id | 0 <= i < |rest| && id in CallIds(rest[i]) ensures Answers(RunAfter(rest, i), id) == 1 {
        assert s[n + i] == rest[i];
      }
    }
  }

  lemma NoRepeatBlock(h: Item, run: seq<Item>, rest: seq<Item>)
    requires IsBlock(h, run, rest)
    ensures NoRepeatedUnanswered([h] + run + rest) <==> RunNoRepeat(h, run) && NoRepeatedUnanswered(rest)
  {
    hide Answered, RunAfter, Calls, Occurrences;
    var s := [h] + run + rest;
    var n := 1 + |run|;
    BlockRuns(h, run, rest);
    NoOccurrences();
    if NoRepeatedUnanswered(s) {
      forall i, id | 0 <= i < |rest| && Occurrences(Calls(rest[i]), id) > 1 ensures Answered(RunAfter(rest, i), id) {
        assert s[n + i] == rest[i];
      }
    }
  }

  lemma NoOccurrences()
    ensures forall id :: Occurrences([], id) == 0
  {
  }

  lemma NoRepeatOrphans(lead: seq<Item>, rest: seq<Item>)
    requires AllResults(lead)
    ensures NoRepeatedUnanswered(lead + rest) <==> NoRepeatedUnanswered(rest)
  {
    hide Answered, RunAfter, Occurrences;
    var s := lead + rest;
    var n := |lead|;
    forall i | n <= i < |s| ensures RunAfter(s, i) == RunAfter(rest, i - n) && s[i] == rest[i - n] {
      RunAfterShift(lead, rest, i - n);
    }
    forall i | 0 <= i < n ensures Calls(s[i]) == [] {
      assert s[i] == lead[i];
    }
    NoOccurrences();
    if NoRepeatedUnanswered(s) {
      forall i, id | 0 <= i < |rest| && Occurrences(Calls(rest[i]), id) > 1 ensures Answered(RunAfter(rest, i), id) {
        assert s[n + i] == rest[i];
      }
    }
  }

  lemma FreshAfterRepair(rest: seq<Item>)
    requires StartsFresh(rest)
    ensures StartsFresh(Repaired(rest))
  {
    hide Deduped, Kept;
    FreshAfterDedup(rest);
    FreshAfterKept(Deduped(rest));
  }

  // ----- the main results

  /**
   Repair pairs every call with exactly one result in its own run, except where a
   turn declares twice an id that nothing in its run answers: the backfill then adds
   one synthetic result per declaration.
   */
  lemma {:induction false} RepairPairsIff(items: seq<Item>)
    ensures Paired(Repaired(items)) <==> NoRepeatedUnanswered(items)
    decreases |items|
  {
    hide Deduped, Kept, Backfilled, Paired, NoRepeatedUnanswered, RunPaired, RunNoRepeat, RepairRun;
    if items == [] {
      NothingToRepair();
    } else {
      var h, run, rest := Decompose(items);
      RepairPairsIff(rest);
      if items[0].ToolResult? {
        RepairedOrphans(run, rest);
        NoRepeatOrphans(run, rest);
      } else {
        RepairedBlock(h, run, rest);
        RepairRunShape(h, run);
        FreshAfterRepair(rest);
        PairedBlock(h, RepairRun(h, run), Repaired(rest));
        RepairRunPairs(h, run);
        NoRepeatBlock(h, run, rest);
      }
    }
  }

  lemma NothingToRepair()
    ensures Repaired([]) == [] && Paired([]) && NoRepeatedUnanswered([])
    ensures Deduped([]) == [] && Kept(OwnRun, []) == []
  {
  }

  ghost predicate Unchanged(items: seq<Item>) {
    var d := Deduped(items);
    var k := Kept(OwnRun, d);
    |d| == |items| && |k| == |d| && |Backfilled(k, REPAIR_REASON)| == |k|
  }

  lemma {:induction false} PassesMeasured(items: seq<Item>)
    ensures |Deduped(items)| <= |items|
    ensures |Kept(OwnRun, Deduped(items))| <= |Deduped(items)|
    ensures |Kept(OwnRun, Deduped(items))| <= |Repaired(items)|
    ensures Unchanged(items) <==> Paired(items)
    ensures Paired(items) ==> Repaired(items) == items
    decreases |items|
  {
    hide Deduped, Kept, Backfilled, Paired, RunPaired, RunUnchanged, RepairRun;
    if items == [] {
      NothingToRepair();
    } else {
      var h, run, rest := Decompose(items);
      PassesMeasured(rest);
      if items[0].ToolResult? {
        RepairedOrphans(run, rest);
        OrphansAreUnpaired(items);
      } else {
        RepairedBlock(h, run, rest);
        PairedBlock(h, run, rest);
        BlockMeasured(h, run);
        if RunPaired(h, run) { PairedRunStays(h, run); }
        if RunUnchanged(h, run) { UnchangedRunIsPaired(h, run); }
      }
    }
  }

  lemma BlockMeasured(h: Item, run: seq<Item>)
    requires AllResults(run)
    ensures |DedupRun(h, run)| <= |run| && |KeptOfRun(h, run)| <= |DedupRun(h, run)|
    ensures |KeptOfRun(h, run)| <= |RepairRun(h, run)|
    ensures RunUnchanged(h, run) <==>
            |DedupRun(h, run)| == |run| && |KeptOfRun(h, run)| == |DedupRun(h, run)| && |RepairRun(h, run)| == |KeptOfRun(h, run)|
  {
    LastOfEachLength(run);
    OwnedResults(h, DedupRun(h, run));
  }

  lemma OrphansAreUnpaired(items: seq<Item>)
    requires items != [] && items[0].ToolResult?
    ensures !Paired(items)
  {
  }

  /** The report says "changed" exactly for histories a provider would reject; an accepted one is left alone. */
  lemma RepairReportsExactly(items: seq<Item>, report: Report)
    requires Reports(items, report)
    ensures Changed(report) <==> !Paired(items)
    ensures !Changed(report) ==> Repaired(items) == items
  {
    PassesMeasured(items);
    KeptAndDropped(OwnRun, Deduped(items));
  }

  /** A second repair reports no change exactly when no turn repeats an unanswered id. */
  lemma SecondRepairIsQuietIff(items: seq<Item>, report: Report)
    requires Reports(Repaired(items), report)
    ensures !Changed(report) <==> NoRepeatedUnanswered(items)
  {
    RepairReportsExactly(Repaired(items), report);
    RepairPairsIff(items);
  }

  /** The documented idempotence fails on a turn that declares one id twice and got no answer. */
  lemma RepairIsNotIdempotent(report: Report)
    requires var turn := Assistant("", [ToolCall("x", "grep", "{}"), ToolCall("x", "grep", "{}")], Wrappers.None);
             Reports(Repaired([turn]), report)
    ensures Changed(report)
  {
    var call := ToolCall("x", "grep", "{}");
    var turn := Assistant("", [call, call], Wrappers.None);
    assert [call, call][1..] == [call] && [call][1..] == [];
    assert Occurrences(Calls(turn), "x") == 2;
    assert RunAfter([turn], 0) == [];
    assert !NoRepeatedUnanswered([turn]);
    SecondRepairIsQuietIff([turn], report);
  }

  // ----- what repair guarantees without any condition

  ghost predicate AllAnswered(items: seq<Item>) {
    forall i, id :: 0 <= i < |items| && id in CallIds(items[i]) ==> Answered(RunAfter(items, i), id)
  }

  lemma AllAnsweredBlock(h: Item, run: seq<Item>, rest: seq<Item>)
    requires IsBlock(h, run, rest) && AllAnswered(rest) && forall id :: id in CallIds(h) ==> Answered(run, id)
    ensures AllAnswered([h] + run + rest)
  {
    hide Answered, RunAfter, CallIds;
    BlockRuns(h, run, rest);
  }

  /** Whatever the input, no displaced result is left and every declared call is answered in its own run. */
  lemma {:induction false} RepairAnswersEveryCall(items: seq<Item>)
    ensures Contig(Repaired(items)) && AllAnswered(Repaired(items))
    decreases |items|
  {
    hide Deduped, Kept, Backfilled, Contig, AllAnswered, RepairRun, Owned, Answered;
    if items == [] {
      NothingToRepair();
      NothingIsAnswered();
    } else {
      var h, run, rest := Decompose(items);
      RepairAnswersEveryCall(rest);
      if items[0].ToolResult? {
        RepairedOrphans(run, rest);
      } else {
        RepairedBlock(h, run, rest);
        RepairRunShape(h, run);
        FreshAfterRepair(rest);
        ContigBlock(h, RepairRun(h, run), Repaired(rest));
        forall id | id in CallIds(h) ensures Answered(RepairRun(h, run), id) {
          OccursIff(Calls(h), id);
          RepairRunAnswers(h, run, id);
          AnswersIff(RepairRun(h, run), id);
        }
        AllAnsweredBlock(h, RepairRun(h, run), Repaired(rest));
      }
    }
  }

  /** Two repairs always suffice: the first leaves no call unanswered, so the second pairs every call and a third is quiet. */
  lemma TwoRepairsSuffice(items: seq<Item>, report: Report)
    requires Reports(Repaired(Repaired(items)), report)
    ensures Paired(Repaired(Repaired(items))) && !Changed(report)
  {
    hide Repaired, Paired, Reports, Changed, Answered, RunAfter, Occurrences, Contig;
    var once := Repaired(items);
    RepairAnswersEveryCall(items);
    forall i, id | 0 <= i < |once| && Occurrences(Calls(once[i]), id) > 1 ensures Answered(RunAfter(once, i), id) {
      OccursIff(Calls(once[i]), id);
    }
    RepairPairsIff(once);
    RepairReportsExactly(Repaired(once), report);
  }

  lemma NothingIsAnswered()
    ensures Contig([]) && AllAnswered([])
  {
  }

  // ----- what repair leaves alone

  function NonResults(items: seq<Item>): seq<Item> {
    if items == [] then []
    else (if items[0].ToolResult? then [] else [items[0]]) + NonResults(items[1..])
  }

  lemma {:induction false} NonResultsOfRun(run: seq<Item>, rest: seq<Item>)
    requires AllResults(run)
    ensures NonResults(run + rest) == NonResults(rest)
  {
    if run == [] {
      assert run + rest == rest;
    } else {
      assert (run + rest)[0] == run[0] && (run + rest)[1..] == run[1..] + rest;
      NonResultsOfRun(run[1..], rest);
    }
  }

  lemma NonResultsBlock(h: Item, run: seq<Item>, rest: seq<Item>)
    requires !h.ToolResult? && AllResults(run)
    ensures NonResults([h] + run + rest) == [h] + NonResults(rest)
  {
    var s := [h] + run + rest;
    assert s[0] == h && s[1..] == run + rest;
    NonResultsOfRun(run, rest);
  }

  /** Everything that is no tool result survives repair untouched and in order. */
  lemma {:induction false} RepairKeepsNonResults(items: seq<Item>)
    ensures NonResults(Repaired(items)) == NonResults(items)
    decreases |items|
  {
    hide Deduped, Kept, Backfilled, NonResults, RepairRun;
    if items == [] {
      NothingToRepair();
    } else {
      var h, run, rest := Decompose(items);
      RepairKeepsNonResults(rest);
      if items[0].ToolResult? {
        RepairedOrphans(run, rest);
        NonResultsOfRun(run, rest);
      } else {
        RepairedBlock(h, run, rest);
        RepairRunShape(h, run);
        NonResultsBlock(h, run, rest);
        NonResultsBlock(h, RepairRun(h, run), Repaired(rest));
      }
    }
  }
}
