/** What repair leaves of one block, by position: the last result of each call, then one synthetic result per unanswered call. */
module RepairMeaning {
  import opened Conversation
  import opened Pairing
  import opened Positions
  import opened Repair
  import opened RepairLaws

  // ----- synthetic results

  lemma SyntheticSays(name: string, cause: string)
    ensures SyntheticText(name, HarnessHalted(cause)) ==
            "Tool execution was halted by the harness (" + cause + "); the tool `" + name + "` was not executed."
  {
  }

  /** `at` are the unanswered calls, and `m` holds a synthetic result for each, in call order. */
  ghost predicate MissingAt(calls: seq<ToolCall>, answered: set<string>, reason: DanglingReason, m: seq<Item>, at: seq<nat>) {
    && Increasing(at, |calls|) && |m| == |at|
    && (forall k: nat :: k < |calls| ==> (k in at <==> calls[k].id !in answered))
    && forall i :: 0 <= i < |at| ==> m[i] == Synthetic(calls[at[i]], reason)
  }

  function Synthetic(call: ToolCall, reason: DanglingReason): Item {
    ToolResult(call.id, SyntheticText(call.name, reason), [])
  }

  lemma NothingMissing(answered: set<string>, reason: DanglingReason)
    ensures MissingAt([], answered, reason, [], [])
  {
  }

  lemma MissingStep(calls: seq<ToolCall>, answered: set<string>, reason: DanglingReason, m: seq<Item>, at: seq<nat>)
    requires calls != [] && MissingAt(calls[1..], answered, reason, m, at)
    ensures var first := calls[0].id !in answered;
            MissingAt(calls, answered, reason, (if first then [Synthetic(calls[0], reason)] else []) + m, Prepend(first, at))
  {
    hide Synthetic, Prepend, Increasing;
    var first, rest := calls[0].id !in answered, calls[1..];
    Prepended(first, at, |rest|);
    var r := Prepend(first, at);
    var more := (if first then [Synthetic(calls[0], reason)] else []) + m;
    forall i | 0 <= i < |r| ensures r[i] < |calls| && more[i] == Synthetic(calls[r[i]], reason) {
      var d := |r| - |at|;
      if i >= d { InRange(at, |rest|, i - d); assert rest[at[i - d]] == calls[r[i]]; }
    }
    assert forall k :: 1 <= k < |calls| ==> calls[k] == rest[k - 1];
  }

  lemma InRange(at: seq<nat>, n: nat, i: nat)
    requires Increasing(at, n) && i < |at|
    ensures at[i] < n
  {
  }

  /** The synthetic results are those of the unanswered calls, in call order. */
  lemma {:induction false} MissingCalls(calls: seq<ToolCall>, answered: set<string>, reason: DanglingReason) returns (at: seq<nat>)
    ensures MissingAt(calls, answered, reason, Missing(calls, answered, reason), at)
  {
    hide MissingAt, SyntheticText;
    if calls == [] {
      at := [];
      NothingMissing(answered, reason);
    } else {
      var rest := MissingCalls(calls[1..], answered, reason);
      MissingStep(calls, answered, reason, Missing(calls[1..], answered, reason), rest);
      at := Prepend(calls[0].id !in answered, rest);
    }
  }

  lemma MissingSays(calls: seq<ToolCall>, answered: set<string>, cause: string, m: seq<Item>, at: seq<nat>)
    requires MissingAt(calls, answered, HarnessHalted(cause), m, at)
    ensures |m| == |at| && forall i :: 0 <= i < |m| ==>
              at[i] < |calls| && m[i].ToolResult? &&
              m[i].content == "Tool execution was halted by the harness (" + cause + "); the tool `" + calls[at[i]].name
                              + "` was not executed."
  {
    hide SyntheticText;
    forall i | 0 <= i < |m|
      ensures at[i] < |calls| && m[i].ToolResult?
      ensures m[i].content == "Tool execution was halted by the harness (" + cause + "); the tool `" + calls[at[i]].name
                              + "` was not executed."
    {
      SyntheticSays(calls[at[i]].name, cause);
    }
  }

  // ----- the results that stay

  /** The result at `k` answers a call of the turn, and none after it answers the same. */
  ghost predicate LastAnswer(h: Item, run: seq<Item>, k: nat)
    requires AllResults(run) && k < |run|
  {
    run[k].callId in CallIds(h) && forall j :: k < j < |run| ==> run[j].callId != run[k].callId
  }

  ghost predicate StaysAt(h: Item, run: seq<Item>, kept: seq<Item>, at: seq<nat>)
    requires AllResults(run)
  {
    && Increasing(at, |run|) && |kept| == |at|
    && (forall k: nat :: k < |run| ==> (k in at <==> LastAnswer(h, run, k)))
    && forall i :: 0 <= i < |at| ==> kept[i] == run[at[i]]
  }

  lemma {:induction false} OwnedConcat(h: Item, a: seq<Item>, b: seq<Item>)
    ensures Owned(h, a + b) == Owned(h, a) + Owned(h, b)
  {
    hide CallIds;
    if b == [] {
      assert a + b == a;
    } else {
      var s, n := a + b, |b| - 1;
      assert s[..|s| - 1] == a + b[..n] && s[|s| - 1] == b[n];
      OwnedConcat(h, a, b[..n]);
    }
  }

  lemma OwnedOne(h: Item, r: Item)
    requires r.ToolResult?
    ensures Owned(h, [r]) == if r.callId in CallIds(h) then [r] else []
  {
    hide CallIds;
    assert [r][..0] == [];
  }

  lemma LastAnswerBehind(h: Item, run: seq<Item>, k: nat)
    requires AllResults(run) && 0 < k < |run|
    ensures AllResults(run[1..]) && (LastAnswer(h, run, k) <==> LastAnswer(h, run[1..], k - 1))
  {
    hide CallIds;
    var rest := run[1..];
    assert forall j :: 1 <= j < |run| ==> run[j] == rest[j - 1];
    assert forall j :: 0 <= j < |rest| ==> rest[j] == run[j + 1];
  }

  lemma LastAnswerFirst(h: Item, run: seq<Item>)
    requires AllResults(run) && run != []
    ensures LastAnswer(h, run, 0) <==> run[0].callId in CallIds(h) && !Answered(run[1..], run[0].callId)
  {
    hide CallIds;
    var rest := run[1..];
    assert forall j :: 1 <= j < |run| ==> run[j] == rest[j - 1];
    assert forall j :: 0 <= j < |rest| ==> rest[j] == run[j + 1];
  }

  lemma StaysStep(h: Item, run: seq<Item>, kept: seq<Item>, at: seq<nat>)
    requires run != [] && AllResults(run) && AllResults(run[1..]) && StaysAt(h, run[1..], kept, at)
    ensures var first := run[0].callId in CallIds(h) && !Answered(run[1..], run[0].callId);
            StaysAt(h, run, (if first then [run[0]] else []) + kept, Prepend(first, at))
  {
    hide CallIds, LastAnswer, Answered, Prepend, Increasing;
    var first, rest := run[0].callId in CallIds(h) && !Answered(run[1..], run[0].callId), run[1..];
    Prepended(first, at, |rest|);
    PickedBehind(run[0], rest, kept, first, at);
    assert [run[0]] + rest == run;
    LastAnswerFirst(h, run);
    forall k: nat | 0 < k < |run| ensures LastAnswer(h, run, k) <==> LastAnswer(h, rest, k - 1) { LastAnswerBehind(h, run, k); }
  }

  lemma NothingStays(h: Item)
    ensures StaysAt(h, [], [], [])
  {
  }

  /** Of the results behind a turn that makes calls, the last one of each of its calls stays, in order. */
  lemma {:induction false} LastAnswersStay(h: Item, run: seq<Item>) returns (at: seq<nat>)
    requires AllResults(run)
    ensures StaysAt(h, run, Owned(h, LastOfEach(run)), at)
  {
    hide StaysAt, CallIds, Answered, Owned;
    if run == [] {
      at := [];
      NothingStays(h);
      NothingOwned(h);
    } else {
      var rest := LastAnswersStay(h, run[1..]);
      var r, later := run[0], LastOfEach(run[1..]);
      StaysStep(h, run, Owned(h, later), rest);
      OwnedOne(h, r);
      OwnedConcat(h, [r], later);
      assert [] + later == later && [] + Owned(h, later) == Owned(h, later);
      at := Prepend(r.callId in CallIds(h) && !Answered(run[1..], r.callId), rest);
    }
  }

  lemma NothingOwned(h: Item)
    ensures Owned(h, []) == []
  {
  }

  /** Behind a turn without calls nothing stays, whatever results follow it. */
  lemma {:induction false} NothingStaysWithoutCalls(h: Item, run: seq<Item>)
    requires AllResults(run) && CallIds(h) == {}
    ensures Owned(h, run) == []
  {
    if run != [] { NothingStaysWithoutCalls(h, run[..|run| - 1]); }
  }

  lemma NoCallIds(h: Item)
    requires !MakesCalls(h)
    ensures CallIds(h) == {}
  {
  }

  /**
   Repairing a turn and the results behind it leaves the turn, the last result of each of
   its calls in order, then a synthetic result for each call without one, in call order.
   */
  lemma RepairedBlockByPosition(h: Item, run: seq<Item>, rest: seq<Item>)
    returns (kept: seq<Item>, synthetic: seq<Item>, at: seq<nat>, missing: seq<nat>)
    requires IsBlock(h, run, rest)
    ensures Repaired([h] + run + rest) == [h] + kept + synthetic + Repaired(rest)
    ensures StaysAt(h, run, kept, at)
    ensures MissingAt(Calls(h), AnsweredIds(kept), HarnessHalted("history_repair"), synthetic, missing)
    ensures |missing| == |synthetic| && forall i :: 0 <= i < |synthetic| ==>
              missing[i] < |Calls(h)| && synthetic[i].ToolResult? &&
              synthetic[i].content == "Tool execution was halted by the harness (" + "history_repair" + "); the tool `"
                                      + Calls(h)[missing[i]].name + "` was not executed."
  {
    hide Repaired, Missing, LastOfEach, Owned, StaysAt, MissingAt, CallIds;
    RepairedBlock(h, run, rest);
    kept := KeptOfRun(h, run);
    synthetic := MissingFor(h, kept);
    missing := MissingCalls(Calls(h), AnsweredIds(kept), REPAIR_REASON);
    Grouped([h], kept, synthetic, Repaired(rest));
    MissingSays(Calls(h), AnsweredIds(kept), "history_repair", synthetic, missing);
    if MakesCalls(h) {
      at := LastAnswersStay(h, run);
    } else {
      NoCallIds(h);
      NothingStaysWithoutCalls(h, run);
      at := [];
      NoneIsLast(h, run);
    }
  }

  lemma NoneIsLast(h: Item, run: seq<Item>)
    requires AllResults(run) && CallIds(h) == {}
    ensures StaysAt(h, run, [], [])
  {
  }

  lemma Grouped(a: seq<Item>, b: seq<Item>, c: seq<Item>, d: seq<Item>)
    ensures a + (b + c) + d == a + b + c + d
  {
  }

  // ----- the first pass on its own

  /** `at` are the results behind which no other answers the same call. */
  ghost predicate LastsAt(run: seq<Item>, kept: seq<Item>, at: seq<nat>)
    requires AllResults(run)
  {
    && Increasing(at, |run|) && |kept| == |at|
    && (forall k: nat :: k < |run| ==> (k in at <==> forall j :: k < j < |run| ==> run[j].callId != run[k].callId))
    && forall i :: 0 <= i < |at| ==> kept[i] == run[at[i]]
  }

  /** A turn that declares every id, with which the last results of a run are all kept. */
  lemma LastsAreStays(h: Item, run: seq<Item>, kept: seq<Item>, at: seq<nat>)
    requires AllResults(run) && forall k :: 0 <= k < |run| ==> run[k].callId in CallIds(h)
    ensures StaysAt(h, run, kept, at) ==> LastsAt(run, kept, at)
  {
    hide CallIds, Increasing;
  }

  function CallsFor(run: seq<Item>): seq<ToolCall>
    requires AllResults(run)
  {
    if run == [] then [] else [ToolCall(run[0].callId, "", "")] + CallsFor(run[1..])
  }

  lemma {:induction false} CallsForAll(run: seq<Item>)
    requires AllResults(run)
    ensures forall k :: 0 <= k < |run| ==> run[k].callId in (set call | call in CallsFor(run) :: call.id)
  {
    if run != [] {
      CallsForAll(run[1..]);
      var first := ToolCall(run[0].callId, "", "");
      assert first in CallsFor(run);
      forall k | 0 <= k < |run| ensures run[k].callId in (set call | call in CallsFor(run) :: call.id) {
        if k > 0 { assert run[1..][k - 1] == run[k]; }
      }
    }
  }

  lemma {:induction false} OwnedAll(h: Item, run: seq<Item>)
    requires AllResults(run) && forall k :: 0 <= k < |run| ==> run[k].callId in CallIds(h)
    ensures Owned(h, run) == run
  {
    OwnedIff(h, run);
  }

  lemma {:induction false} LastOfEachWithin(run: seq<Item>, ids: set<string>)
    requires AllResults(run) && forall k :: 0 <= k < |run| ==> run[k].callId in ids
    ensures forall k :: 0 <= k < |LastOfEach(run)| ==> LastOfEach(run)[k].callId in ids
  {
    hide Answered;
    if run != [] { LastOfEachWithin(run[1..], ids); }
  }

  /** Removing duplicates keeps the last result of each call behind a turn that makes calls, and all of them elsewhere. */
  lemma DedupedBlockByPosition(h: Item, run: seq<Item>, rest: seq<Item>) returns (kept: seq<Item>, at: seq<nat>)
    requires IsBlock(h, run, rest)
    ensures Deduped([h] + run + rest) == [h] + kept + Deduped(rest)
    ensures if MakesCalls(h) then LastsAt(run, kept, at) else kept == run
  {
    hide Deduped, LastsAt, StaysAt, LastOfEach, CallIds, Owned;
    DedupBlock(h, run, rest);
    kept, at := DedupRun(h, run), [];
    if MakesCalls(h) {
      var all := Assistant("", CallsFor(run), Wrappers.None);
      DeclaresAll(all, run);
      LastOfEachWithin(run, CallIds(all));
      OwnedAll(all, LastOfEach(run));
      at := LastAnswersStay(all, run);
      LastsAreStays(all, run, kept, at);
    }
  }

  lemma DeclaresAll(all: Item, run: seq<Item>)
    requires AllResults(run) && all.Assistant? && all.toolCalls == CallsFor(run)
    ensures forall k :: 0 <= k < |run| ==> run[k].callId in CallIds(all)
  {
    CallsForAll(run);
  }
}
