/**
 History repair: duplicate results are dropped, displaced ones stripped, and calls
 left unanswered get synthetic results.
 */
module Repair {
  import opened Conversation
  import opened Pairing

  // ----- runs of tool results

  /** One past the last result of the run that starts at `i`. */
  function RunEnd(items: seq<Item>, i: nat): (end: nat)
    requires i <= |items|
    ensures i <= end <= |items|
    ensures forall k :: i <= k < end ==> items[k].ToolResult?
    ensures end < |items| ==> !items[end].ToolResult?
    decreases |items| - i
  {
    if i < |items| && items[i].ToolResult? then RunEnd(items, i + 1) else i
  }

  ghost predicate AllResults(run: seq<Item>) {
    forall k :: 0 <= k < |run| ==> run[k].ToolResult?
  }

  /** The results that belong to the item at `i`. */
  function RunAfter(items: seq<Item>, i: nat): seq<Item>
    requires i < |items|
  {
    items[i + 1..RunEnd(items, i + 1)]
  }

  predicate MakesCalls(item: Item) {
    item.Assistant? && item.toolCalls != []
  }

  predicate Answered(run: seq<Item>, id: string) {
    exists k :: 0 <= k < |run| && run[k].ToolResult? && run[k].callId == id
  }

  function Answers(run: seq<Item>, id: string): nat {
    if run == [] then 0
    else (if run[0].ToolResult? && run[0].callId == id then 1 else 0) + Answers(run[1..], id)
  }

  /**
   What strict providers accept: every result stands in the run of the turn that
   declares its call, and every declared call has exactly one result in that run.
   */
  ghost predicate Paired(items: seq<Item>) {
    && Contig(items)
    && forall i, id :: 0 <= i < |items| && id in CallIds(items[i]) ==> Answers(RunAfter(items, i), id) == 1
  }

  // ----- first pass: duplicates

  /** The last result for each id, in order. */
  function LastOfEach(run: seq<Item>): (r: seq<Item>)
    requires forall k :: 0 <= k < |run| ==> run[k].ToolResult?
    ensures AllResults(r)
  {
    if run == [] then []
    else (if Answered(run[1..], run[0].callId) then [] else [run[0]]) + LastOfEach(run[1..])
  }

  function Deduped(items: seq<Item>): seq<Item>
    decreases |items|
  {
    if items == [] then []
    else if MakesCalls(items[0]) then
      var end := RunEnd(items, 1);
      [items[0]] + LastOfEach(items[1..end]) + Deduped(items[end..])
    else [items[0]] + Deduped(items[1..])
  }

  /** The call answered at `p` is answered again before `end`. */
  ghost predicate AgainBefore(items: seq<Item>, p: nat, end: nat)
    requires p < end <= |items| && items[p].ToolResult?
  {
    Answered(items[p + 1..end], items[p].callId)
  }

  lemma AgainStep(items: seq<Item>, p: nat, idx: nat)
    requires p < idx < |items| && items[p].ToolResult? && items[idx].ToolResult?
    ensures AgainBefore(items, p, idx + 1) <==> AgainBefore(items, p, idx) || items[p].callId == items[idx].callId
  {
    var run := items[p + 1..idx];
    assert items[p + 1..idx + 1] == run + [items[idx]];
    AnsweredSplit(run, [items[idx]], items[p].callId);
    assert [items[idx]][0] == items[idx];
  }

  lemma AgainAt(items: seq<Item>, p: nat, q: nat, end: nat)
    requires p < q < end <= |items| && items[p].ToolResult? && items[q].ToolResult?
    requires items[p].callId == items[q].callId
    ensures AgainBefore(items, p, end)
  {
  }

  /**
   The positions in `[start, end)` whose call is answered again later in the run.
   The source sorts them before use, so only membership matters.
   */
  method FindDuplicates(items: seq<Item>, start: nat, end: nat) returns (toRemove: set<nat>)
    requires start <= end <= |items|
    requires forall k :: start <= k < end ==> items[k].ToolResult?
    ensures forall p | p in toRemove :: start <= p < end
    ensures forall p | start <= p < end :: p in toRemove <==> AgainBefore(items, p, end)
  {
    hide AgainBefore;
    var seen: map<string, nat> := map[];
    toRemove := {};
    for idx := start to end
      invariant forall p | start <= p < idx :: items[p].callId in seen && p <= seen[items[p].callId]
      invariant forall id | id in seen :: start <= seen[id] < idx && items[seen[id]].callId == id
      invariant forall p | p in toRemove :: start <= p < idx
      invariant forall p | start <= p < idx :: p in toRemove <==> AgainBefore(items, p, idx)
    {
      var id := items[idx].callId;
      AgainStepAll(items, start, idx, seen, toRemove);
      if id in seen {
        toRemove := toRemove + {seen[id]};
      }
      seen := seen[id := idx];
      assert !AgainBefore(items, idx, idx + 1) by { NeverAgainAtEnd(items, idx); }
    }
  }

  /** Reading one more result marks exactly the earlier results for the same call. */
  lemma AgainStepAll(items: seq<Item>, start: nat, idx: nat, seen: map<string, nat>, marked: set<nat>)
    requires start <= idx < |items| && forall k :: start <= k <= idx ==> items[k].ToolResult?
    requires forall p | start <= p < idx :: items[p].callId in seen && p <= seen[items[p].callId]
    requires forall id | id in seen :: start <= seen[id] < idx && items[seen[id]].callId == id
    requires forall p | start <= p < idx :: p in marked <==> AgainBefore(items, p, idx)
    ensures var id := items[idx].callId;
            forall p | start <= p < idx :: AgainBefore(items, p, idx + 1) <==> p in marked || (id in seen && p == seen[id])
  {
    hide AgainBefore;
    var id := items[idx].callId;
    forall p | start <= p < idx
      ensures AgainBefore(items, p, idx + 1) <==> p in marked || (id in seen && p == seen[id])
    {
      AgainStep(items, p, idx);
      if items[p].callId == id && p != seen[id] { AgainAt(items, p, seen[id], idx); }
    }
  }

  lemma NeverAgainAtEnd(items: seq<Item>, idx: nat)
    requires idx < |items| && items[idx].ToolResult?
    ensures !AgainBefore(items, idx, idx + 1)
  {
  }

  lemma LastStep(items: seq<Item>, k: nat, end: nat)
    requires k < end <= |items| && AllResults(items[k..end])
    ensures items[k].ToolResult? && AllResults(items[k + 1..end])
    ensures LastOfEach(items[k..end])
         == (if AgainBefore(items, k, end) then [] else [items[k]]) + LastOfEach(items[k + 1..end])
  {
  }

  lemma LastOfNone(run: seq<Item>)
    requires run == []
    ensures LastOfEach(run) == []
  {
  }

  lemma SpliceAround(a: seq<Item>, x: Item, b: seq<Item>, c: seq<Item>)
    ensures var s := a + [x] + b + c;
            s[..|a|] + s[|a| + 1..] == a + ([] + b) + c && s == a + ([x] + b) + c
  {
  }

  /** Removes the marked positions from the back, so that earlier ones stay valid. */
  method RemoveMarked(items: seq<Item>, start: nat, end: nat, toRemove: set<nat>) returns (r: seq<Item>)
    requires start <= end <= |items| && AllResults(items[start..end])
    requires forall k :: start <= k < end ==> items[k].ToolResult?
    requires forall p | start <= p < end :: p in toRemove <==> AgainBefore(items, p, end)
    ensures r == items[..start] + LastOfEach(items[start..end]) + items[end..]
  {
    hide AgainBefore, LastOfEach, Answered;
    r := items;
    var k := end;
    assert r == items[..end] + LastOfEach(items[end..end]) + items[end..] by { LastOfNone(items[end..end]); }
    while k > start
      invariant start <= k <= end && AllResults(items[k..end])
      invariant r == items[..k] + LastOfEach(items[k..end]) + items[end..]
    {
      k := k - 1;
      MarkedStep(items, k, end);
      if k in toRemove {
        r := r[..k] + r[k + 1..];
      }
    }
  }

  /** Dropping position `k` or keeping it, the result for `k` follows from the one for `k + 1`. */
  lemma MarkedStep(items: seq<Item>, k: nat, end: nat)
    requires k < end <= |items| && items[k].ToolResult? && AllResults(items[k + 1..end])
    ensures AllResults(items[k..end])
    ensures var r := items[..k + 1] + LastOfEach(items[k + 1..end]) + items[end..];
            (if AgainBefore(items, k, end) then r[..k] + r[k + 1..] else r) ==
            items[..k] + LastOfEach(items[k..end]) + items[end..]
  {
    hide AgainBefore, LastOfEach, Answered;
    var run := LastOfEach(items[k + 1..end]);
    assert items[k..end] == [items[k]] + items[k + 1..end];
    LastStep(items, k, end);
    assert items[..k + 1] == items[..k] + [items[k]];
    SpliceAround(items[..k], items[k], run, items[end..]);
  }

  /** One window of the scan: the run after the calling turn at `i`. */
  method DedupWindow(c: seq<Item>, i: nat) returns (r: seq<Item>)
    requires i < |c| && MakesCalls(c[i])
    ensures var end := RunEnd(c, i + 1); r == c[..i + 1] + LastOfEach(c[i + 1..end]) + c[end..]
  {
    var start, end := i + 1, RunEnd(c, i + 1);
    assert AllResults(c[start..end]);
    var toRemove := FindDuplicates(c, start, end);
    r := RemoveMarked(c, start, end, toRemove);
  }

  method DedupDuplicateToolResults(items: seq<Item>) returns (conversation: seq<Item>, totalRemoved: nat)
    ensures conversation == Deduped(items) && totalRemoved == |items| - |conversation|
  {
    hide Deduped, LastOfEach, Answered;
    conversation, totalRemoved := items, 0;
    var i := 0;
    assert items[..0] + Deduped(items[0..]) == Deduped(items) by { assert items[0..] == items; }
    while i < |conversation|
      invariant 0 <= i <= |conversation|
      invariant conversation[..i] + Deduped(conversation[i..]) == Deduped(items)
      invariant totalRemoved == |items| - |conversation|
      decreases |conversation|, |conversation| - i
    {
      if MakesCalls(conversation[i]) {
        var before := conversation;
        conversation := DedupWindow(before, i);
        if |conversation| < |before| {
          totalRemoved := totalRemoved + (|before| - |conversation|);
          WindowAfterRemoval(before, conversation, i);
        } else {
          WindowUnchanged(before, conversation, i);
          i := RunEnd(before, i + 1);
        }
      } else {
        PlainStep(conversation, i);
        i := i + 1;
      }
    }
    assert Deduped(conversation[i..]) == [] by { EndOfScan(conversation[i..]); }
  }

  lemma EndOfScan(c: seq<Item>)
    requires c == []
    ensures Deduped(c) == []
  {
  }

  lemma PlainStep(c: seq<Item>, i: nat)
    requires i < |c| && !MakesCalls(c[i])
    ensures c[..i + 1] + Deduped(c[i + 1..]) == c[..i] + Deduped(c[i..])
  {
  }

  /** A window that lost nothing had no duplicates, and the scan moves past it. */
  lemma WindowUnchanged(c: seq<Item>, c': seq<Item>, i: nat)
    requires i < |c| && MakesCalls(c[i])
    requires var end := RunEnd(c, i + 1); c' == c[..i + 1] + LastOfEach(c[i + 1..end]) + c[end..]
    requires |c'| >= |c|
    ensures var end := RunEnd(c, i + 1); c' == c && c[..end] + Deduped(c[end..]) == c[..i] + Deduped(c[i..])
  {
    hide Deduped, LastOfEach, RunEnd, Answered;
    var end := RunEnd(c, i + 1);
    DedupedWindow(c, i);
    LastOfEachLength(c[i + 1..end]);
    assert c == c[..i + 1] + c[i + 1..end] + c[end..];
    assert c[..end] == c[..i] + ([c[i]] + c[i + 1..end]);
  }

  lemma DedupedWindow(c: seq<Item>, i: nat)
    requires i < |c| && MakesCalls(c[i])
    ensures var end := RunEnd(c, i + 1);
            Deduped(c[i..]) == [c[i]] + LastOfEach(c[i + 1..end]) + Deduped(c[end..])
  {
    hide LastOfEach, Answered, RunEnd, Deduped;
    var s, end := c[i..], RunEnd(c, i + 1);
    RunEndShift(c, i, 1);
    assert s[1..end - i] == c[i + 1..end] && s[end - i..] == c[end..];
    DedupedHead(s);
  }

  lemma DedupedPlainHead(s: seq<Item>)
    requires s != [] && !MakesCalls(s[0])
    ensures Deduped(s) == [s[0]] + Deduped(s[1..])
  {
  }

  lemma DedupedHead(s: seq<Item>)
    requires s != [] && MakesCalls(s[0])
    ensures var end := RunEnd(s, 1); Deduped(s) == [s[0]] + LastOfEach(s[1..end]) + Deduped(s[end..])
  {
  }

  lemma {:induction false} RunEndShift(c: seq<Item>, i: nat, k: nat)
    requires i + k <= |c|
    ensures RunEnd(c[i..], k) == RunEnd(c, i + k) - i
    decreases |c| - k
  {
  }

  lemma {:induction false} LastOfEachLength(run: seq<Item>)
    requires AllResults(run)
    ensures |LastOfEach(run)| <= |run|
    ensures |LastOfEach(run)| == |run| ==> LastOfEach(run) == run
  {
    if run != [] {
      LastOfEachLength(run[1..]);
    }
  }

  lemma {:induction false} AnsweredLast(run: seq<Item>, id: string)
    requires AllResults(run)
    ensures Answered(LastOfEach(run), id) <==> Answered(run, id)
  {
    if run != [] {
      AnsweredLast(run[1..], id);
      var r := LastOfEach(run[1..]);
      AnsweredSplit(run[..1], run[1..], id);
      assert run == run[..1] + run[1..];
      AnsweredSplit(run[..1], r, id);
      assert [run[0]] == run[..1];
      assert [] + r == r;
      assert run[..1][0] == run[0];
    }
  }

  lemma AnsweredSplit(a: seq<Item>, b: seq<Item>, id: string)
    ensures Answered(a + b, id) <==> Answered(a, id) || Answered(b, id)
  {
    var s := a + b;
    if k :| 0 <= k < |a| && a[k].ToolResult? && a[k].callId == id {
      assert s[k] == a[k];
    }
    if k :| 0 <= k < |b| && b[k].ToolResult? && b[k].callId == id {
      assert s[|a| + k] == b[k];
    }
    if k :| 0 <= k < |s| && s[k].ToolResult? && s[k].callId == id {
      if k < |a| { assert a[k] == s[k]; } else { assert b[k - |a|] == s[k]; }
    }
  }

  lemma {:induction false} LastOfEachIdempotent(run: seq<Item>)
    requires AllResults(run)
    ensures LastOfEach(LastOfEach(run)) == LastOfEach(run)
  {
    if run != [] {
      LastOfEachIdempotent(run[1..]);
      AnsweredLast(run[1..], run[0].callId);
      var r := LastOfEach(run[1..]);
      assert ([run[0]] + r)[1..] == r;
      assert [] + r == r;
    }
  }

  /** After a removal the window is scanned again, to the same final effect. */
  lemma WindowAfterRemoval(c: seq<Item>, c': seq<Item>, i: nat)
    requires i < |c| && MakesCalls(c[i])
    requires var end := RunEnd(c, i + 1); c' == c[..i + 1] + LastOfEach(c[i + 1..end]) + c[end..]
    ensures |c'| <= |c| && i < |c'| && c'[..i] == c[..i] && Deduped(c'[i..]) == Deduped(c[i..])
  {
    hide LastOfEach, Answered, Deduped;
    var end := RunEnd(c, i + 1);
    var last := LastOfEach(c[i + 1..end]);
    var end' := i + 1 + |last|;
    RunEndIs(c', i + 1, end');
    DedupedWindow(c, i);
    DedupedWindow(c', i);
    assert c'[i + 1..end'] == last && c'[end'..] == c[end..];
    LastOfEachIdempotent(c[i + 1..end]);
    LastOfEachLength(c[i + 1..end]);
  }

  lemma {:induction false} RunEndIs(c: seq<Item>, i: nat, end: nat)
    requires i <= end <= |c| && AllResults(c[i..end]) && (end < |c| ==> !c[end].ToolResult?)
    ensures RunEnd(c, i) == end
    decreases end - i
  {
  }

  // ----- third pass: unanswered calls

  datatype DanglingReason = UserCancelled | HarnessHalted(cause: string)

  function SyntheticText(name: string, reason: DanglingReason): string {
    match reason
    case UserCancelled =>
      "Tool execution was cancelled by the user (tool `" + name + "` was not executed)."
    case HarnessHalted(cause) =>
      "Tool execution was halted by the harness (" + cause + "); the tool `" + name + "` was not executed."
  }

  function AnsweredIds(run: seq<Item>): set<string> {
    set r | r in run && r.ToolResult? :: r.callId
  }

  /** A synthetic result for each call whose id is not answered, in call order. */
  function Missing(calls: seq<ToolCall>, answered: set<string>, reason: DanglingReason): seq<Item> {
    if calls == [] then []
    else
      (if calls[0].id in answered then [] else [Result(calls[0].id, SyntheticText(calls[0].name, reason))])
      + Missing(calls[1..], answered, reason)
  }

  function Backfilled(items: seq<Item>, reason: DanglingReason): seq<Item>
    decreases |items|
  {
    if items == [] then []
    else if MakesCalls(items[0]) then
      var end := RunEnd(items, 1);
      var run := items[1..end];
      [items[0]] + run + Missing(items[0].toolCalls, AnsweredIds(run), reason) + Backfilled(items[end..], reason)
    else [items[0]] + Backfilled(items[1..], reason)
  }

  /** Synthetic results and the position they go in front of. */
  datatype Site = Site(at: nat, synthetic: seq<Item>)

  ghost predicate SitesWithin(sites: seq<Site>, n: nat) {
    sites != [] ==> var last := sites[|sites| - 1]; last.at <= n && SitesWithin(sites[..|sites| - 1], last.at)
  }

  ghost function Apply(items: seq<Item>, sites: seq<Site>): seq<Item>
    requires SitesWithin(sites, |items|)
    decreases |sites|
  {
    if sites == [] then items
    else
      var last := sites[|sites| - 1];
      Apply(items[..last.at], sites[..|sites| - 1]) + last.synthetic + items[last.at..]
  }

  function TotalInserted(sites: seq<Site>): nat {
    if sites == [] then 0
    else TotalInserted(sites[..|sites| - 1]) + |sites[|sites| - 1].synthetic|
  }

  method CollectAnswered(items: seq<Item>, i: nat) returns (answered: set<string>, j: nat)
    requires i < |items|
    ensures j == RunEnd(items, i + 1) && answered == AnsweredIds(items[i + 1..j])
  {
    answered, j := {}, i + 1;
    assert items[i + 1..i + 1] == [];
    while j < |items| && items[j].ToolResult?
      invariant i + 1 <= j <= |items| && RunEnd(items, j) == RunEnd(items, i + 1)
      invariant answered == AnsweredIds(items[i + 1..j])
    {
      AnsweredIdsStep(items, i + 1, j);
      answered := answered + {items[j].callId};
      j := j + 1;
    }
  }

  lemma AnsweredIdsStep(items: seq<Item>, i: nat, j: nat)
    requires i <= j < |items| && items[j].ToolResult?
    ensures AnsweredIds(items[i..j + 1]) == AnsweredIds(items[i..j]) + {items[j].callId}
  {
  }

  /** Finds every turn with unanswered calls. */
  method FindDangling(items: seq<Item>, reason: DanglingReason) returns (sites: seq<Site>)
    ensures SitesWithin(sites, |items|) && Apply(items, sites) == Backfilled(items, reason)
  {
    hide Backfilled, Apply, AnsweredIds;
    sites := [];
    var i := 0;
    assert Apply(items[..0], []) + Backfilled(items[0..], reason) == Backfilled(items, reason) by {
      NoSites(items[..0]);
      assert items[0..] == items;
    }
    while i < |items|
      invariant 0 <= i <= |items| && SitesWithin(sites, i)
      invariant Apply(items[..i], sites) + Backfilled(items[i..], reason) == Backfilled(items, reason)
    {
      if MakesCalls(items[i]) {
        var answered, j := CollectAnswered(items, i);
        var synthetic := Missing(items[i].toolCalls, answered, reason);
        WithinFurther(sites, i, j);
        BackfillWindow(items, i, sites, reason);
        if synthetic != [] {
          sites := sites + [Site(j, synthetic)];
        }
        i := j;
      } else {
        WithinFurther(sites, i, i + 1);
        BackfillPlain(items, i, sites, reason);
        i := i + 1;
      }
    }
    assert items[..i] == items && items[i..] == [];
    assert Backfilled([], reason) == [] by { BackfillNothing(reason); }
  }

  method RepairDanglingToolCalls(items: seq<Item>, reason: DanglingReason)
    returns (conversation: seq<Item>, total: nat)
    ensures conversation == Backfilled(items, reason) && total == |conversation| - |items|
  {
    hide Backfilled, AnsweredIds;
    var sites := FindDangling(items, reason);
    total := TotalInserted(sites);
    ApplyLength(items, sites);
    conversation := items;
    var k, bound := |sites|, |items|;
    assert sites[..k] == sites && items[..bound] == items;
    while k > 0
      invariant 0 <= k <= |sites| && 0 <= bound <= |items| && bound <= |conversation|
      invariant SitesWithin(sites[..k], bound) && conversation[..bound] == items[..bound]
      invariant Apply(items[..bound], sites[..k]) + conversation[bound..] == Apply(items, sites)
      decreases k
    {
      k := k - 1;
      var at, synthetic := sites[k].at, sites[k].synthetic;
      assert sites[..k + 1][..k] == sites[..k] && sites[..k + 1][k] == sites[k];
      SpliceStep(items, conversation, bound, sites[..k + 1]);
      conversation := conversation[..at] + synthetic + conversation[at..];
      bound := at;
    }
    assert conversation == items[..bound] + conversation[bound..];
  }

  lemma SpliceStep(items: seq<Item>, c: seq<Item>, bound: nat, sites: seq<Site>)
    requires sites != [] && bound <= |items| && bound <= |c| && SitesWithin(sites, bound)
    requires c[..bound] == items[..bound]
    ensures var last := sites[|sites| - 1];
            var c' := c[..last.at] + last.synthetic + c[last.at..];
            && last.at <= bound && c'[..last.at] == items[..last.at]
            && Apply(items[..last.at], sites[..|sites| - 1]) + c'[last.at..] == Apply(items[..bound], sites) + c[bound..]
  {
    var last := sites[|sites| - 1];
    var a := Apply(items[..last.at], sites[..|sites| - 1]);
    var c' := c[..last.at] + last.synthetic + c[last.at..];
    assert items[..bound][..last.at] == items[..last.at];
    assert c[..last.at] == c[..bound][..last.at];
    assert c[last.at..] == c[..bound][last.at..] + c[bound..];
    assert c'[last.at..] == last.synthetic + (items[..bound][last.at..] + c[bound..]);
    assert a + c'[last.at..] == (a + last.synthetic + items[..bound][last.at..]) + c[bound..];
  }

  lemma {:induction false} ApplyLength(items: seq<Item>, sites: seq<Site>)
    requires SitesWithin(sites, |items|)
    ensures |Apply(items, sites)| == |items| + TotalInserted(sites)
    decreases |sites|
  {
    if sites != [] {
      ApplyLength(items[..sites[|sites| - 1].at], sites[..|sites| - 1]);
    }
  }

  lemma NoSites(items: seq<Item>)
    ensures Apply(items, []) == items
  {
  }

  lemma BackfillNothing(reason: DanglingReason)
    ensures Backfilled([], reason) == []
  {
  }

  lemma WithinFurther(sites: seq<Site>, n: nat, m: nat)
    requires SitesWithin(sites, n) && n <= m
    ensures SitesWithin(sites, m)
  {
  }

  /** Items past every site are carried over untouched. */
  lemma ApplyExtend(a: seq<Item>, b: seq<Item>, sites: seq<Site>)
    requires SitesWithin(sites, |a|) && SitesWithin(sites, |a + b|)
    ensures Apply(a + b, sites) == Apply(a, sites) + b
  {
    if sites != [] {
      var last := sites[|sites| - 1];
      assert (a + b)[..last.at] == a[..last.at] && (a + b)[last.at..] == a[last.at..] + b;
    }
  }

  lemma BackfillPlain(items: seq<Item>, i: nat, sites: seq<Site>, reason: DanglingReason)
    requires i < |items| && !MakesCalls(items[i]) && SitesWithin(sites, i) && SitesWithin(sites, i + 1)
    ensures Apply(items[..i + 1], sites) + Backfilled(items[i + 1..], reason)
         == Apply(items[..i], sites) + Backfilled(items[i..], reason)
  {
    hide Apply;
    assert items[..i + 1] == items[..i] + [items[i]];
    ApplyExtend(items[..i], [items[i]], sites);
    assert items[i..][0] == items[i] && items[i..][1..] == items[i + 1..];
  }

  lemma BackfillWindow(items: seq<Item>, i: nat, sites: seq<Site>, reason: DanglingReason)
    requires i < |items| && MakesCalls(items[i]) && SitesWithin(sites, i)
    requires SitesWithin(sites, RunEnd(items, i + 1))
    ensures var j := RunEnd(items, i + 1);
            var synthetic := Missing(items[i].toolCalls, AnsweredIds(items[i + 1..j]), reason);
            var sites' := if synthetic == [] then sites else sites + [Site(j, synthetic)];
            && SitesWithin(sites', j)
            && Apply(items[..j], sites') + Backfilled(items[j..], reason)
            == Apply(items[..i], sites) + Backfilled(items[i..], reason)
  {
    hide AnsweredIds, Apply, Backfilled, Missing, SitesWithin, RunEnd;
    var j := RunEnd(items, i + 1);
    var run := items[i + 1..j];
    var synthetic := Missing(items[i].toolCalls, AnsweredIds(run), reason);
    BackfilledWindow(items, i, reason);
    assert items[..j] == items[..i] + ([items[i]] + run);
    ApplyExtend(items[..i], [items[i]] + run, sites);
    ApplyLast(items[..j], sites, Site(j, synthetic));
    Regroup(Apply(items[..i], sites), [items[i]] + run, synthetic, Backfilled(items[j..], reason));
  }

  lemma Regroup(a: seq<Item>, b: seq<Item>, c: seq<Item>, d: seq<Item>)
    ensures a + b + c + d == a + (b + c + d)
    ensures c == [] ==> a + b + d == a + (b + c + d)
  {
  }

  lemma ApplyLast(a: seq<Item>, sites: seq<Site>, site: Site)
    requires SitesWithin(sites, |a|) && site.at == |a|
    ensures SitesWithin(sites + [site], |a|) && Apply(a, sites + [site]) == Apply(a, sites) + site.synthetic
  {
    assert (sites + [site])[..|sites|] == sites;
    assert a[..|a|] == a && a[|a|..] == [];
  }

  lemma BackfilledWindow(c: seq<Item>, i: nat, reason: DanglingReason)
    requires i < |c| && MakesCalls(c[i])
    ensures var end := RunEnd(c, i + 1);
            var run := c[i + 1..end];
            Backfilled(c[i..], reason) ==
            [c[i]] + run + Missing(c[i].toolCalls, AnsweredIds(run), reason) + Backfilled(c[end..], reason)
  {
    hide AnsweredIds, Missing, RunEnd, Backfilled;
    var s, end := c[i..], RunEnd(c, i + 1);
    RunEndShift(c, i, 1);
    assert s[1..end - i] == c[i + 1..end] && s[end - i..] == c[end..];
    BackfilledHead(s, reason);
  }

  lemma BackfilledPlainHead(s: seq<Item>, reason: DanglingReason)
    requires s != [] && !MakesCalls(s[0])
    ensures Backfilled(s, reason) == [s[0]] + Backfilled(s[1..], reason)
  {
  }

  lemma BackfilledHead(s: seq<Item>, reason: DanglingReason)
    requires s != [] && MakesCalls(s[0])
    ensures var end := RunEnd(s, 1);
            var run := s[1..end];
            Backfilled(s, reason) ==
            [s[0]] + run + Missing(s[0].toolCalls, AnsweredIds(run), reason) + Backfilled(s[end..], reason)
  {
  }

  // ----- the whole repair

  const REPAIR_REASON := HarnessHalted("history_repair")

  datatype Report = Report(duplicatesRemoved: nat, strippedIds: seq<string>, syntheticInserted: nat)

  predicate Changed(report: Report) {
    report.duplicatesRemoved > 0 || report.strippedIds != [] || report.syntheticInserted > 0
  }

  ghost function Repaired(items: seq<Item>): seq<Item> {
    Backfilled(Kept(OwnRun, Deduped(items)), REPAIR_REASON)
  }

  ghost predicate Reports(items: seq<Item>, report: Report) {
    var deduped := Deduped(items);
    var kept := Kept(OwnRun, deduped);
    && report.duplicatesRemoved == |items| - |deduped|
    && report.strippedIds == Dropped(OwnRun, deduped)
    && report.syntheticInserted == |Backfilled(kept, REPAIR_REASON)| - |kept|
  }

  method RepairHistory(items: seq<Item>) returns (repaired: seq<Item>, report: Report)
    ensures repaired == Repaired(items) && Reports(items, report)
  {
    var deduped, removed := DedupDuplicateToolResults(items);
    var kept, stripped := StripDisplacedToolResults(deduped);
    var inserted;
    repaired, inserted := RepairDanglingToolCalls(kept, REPAIR_REASON);
    report := Report(removed, stripped, inserted);
  }
}
