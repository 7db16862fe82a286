/** What compaction does to the pairing of calls and results: for every conversation, what the validator will find. */
module CompactionPairing {
  import opened Conversation
  import opened Queries
  import opened Pairing
  import opened Compaction
  import Repair
  import RepairLaws

  // ----- condensing

  /** Condensing drops no call and no result, so it changes nothing about which results are declared earlier. */
  lemma {:induction false} CondenseReports(t: seq<Item>)
    ensures Live(Anywhere, CondenseAll(t)) == Live(Anywhere, t)
    ensures Dropped(Anywhere, CondenseAll(t)) == Dropped(Anywhere, t)
  {
    hide CallIds;
    if t != [] {
      var before, last := t[..|t| - 1], t[|t| - 1];
      CondenseReports(before);
      var c := CondenseAll(before);
      if Condense(last) == [] {
        NoCalls(last);
        assert c + [] == c;
      } else {
        var kept := Condense(last)[0];
        assert c + Condense(last) == c + [kept] && (c + [kept])[..|c|] == c;
        assert CallIds(kept) == CallIds(last) by { CondensedCalls(last); }
      }
    }
  }

  lemma CondensedCalls(item: Item)
    requires Condense(item) != []
    ensures CallIds(Condense(item)[0]) == CallIds(item)
  {
  }

  /** The nearest assistant turn before position `i`, whatever stands in between, declares `id`. */
  ghost predicate DeclaredByNearestTurn(items: seq<Item>, i: nat, id: string)
    requires i <= |items|
  {
    exists j :: 0 <= j < i && id in CallIds(items[j]) && forall k :: j < k < i ==> !items[k].Assistant?
  }

  /** Every result answers the nearest assistant turn before it. */
  ghost predicate AnswersNearestTurns(items: seq<Item>) {
    forall i :: 0 <= i < |items| && items[i].ToolResult? ==> DeclaredByNearestTurn(items, i, items[i].callId)
  }

  function NearestTurnIds(items: seq<Item>): set<string> {
    if items == [] then {}
    else if items[|items| - 1].Assistant? then CallIds(items[|items| - 1])
    else NearestTurnIds(items[..|items| - 1])
  }

  lemma {:induction false} NearestTurnMeaning(items: seq<Item>, i: nat, id: string)
    requires i <= |items|
    ensures id in NearestTurnIds(items[..i]) <==> DeclaredByNearestTurn(items, i, id)
  {
    hide CallIds;
    if i > 0 {
      NearestTurnMeaning(items, i - 1, id);
      assert items[..i][..i - 1] == items[..i - 1] && items[..i][i - 1] == items[i - 1];
      NearestTurnStep(items, i - 1, id);
    }
  }

  lemma NearestTurnStep(items: seq<Item>, n: nat, id: string)
    requires n < |items|
    ensures DeclaredByNearestTurn(items, n + 1, id)
       <==> if items[n].Assistant? then id in CallIds(items[n]) else DeclaredByNearestTurn(items, n, id)
  {
    if !items[n].Assistant? { NoCalls(items[n]); }
  }

  lemma {:induction false} CondensedLive(t: seq<Item>)
    ensures Live(OwnRun, CondenseAll(t)) == NearestTurnIds(t)
  {
    hide CallIds;
    if t != [] {
      var before, last := t[..|t| - 1], t[|t| - 1];
      CondensedLive(before);
      var c := CondenseAll(before);
      if Condense(last) == [] {
        assert c + [] == c;
      } else {
        var kept := Condense(last)[0];
        assert c + Condense(last) == c + [kept] && (c + [kept])[..|c|] == c;
      }
    }
  }

  ghost predicate AllNear(t: seq<Item>) {
    forall i :: 0 <= i < |t| && t[i].ToolResult? ==> t[i].callId in NearestTurnIds(t[..i])
  }

  lemma AllNearStep(before: seq<Item>, last: Item)
    ensures AllNear(before + [last]) <==> AllNear(before) && (last.ToolResult? ==> last.callId in NearestTurnIds(before))
  {
    hide NearestTurnIds;
    var t, n := before + [last], |before|;
    assert t[..n] == before && t[n] == last;
    assert forall i :: 0 <= i < n ==> t[..i] == before[..i] && t[i] == before[i];
  }

  lemma DroppedStep(c: seq<Item>, last: Item)
    ensures Dropped(OwnRun, c + Condense(last)) == [] <==>
            Dropped(OwnRun, c) == [] && (last.ToolResult? ==> last.callId in Live(OwnRun, c))
  {
    hide Live;
    if Condense(last) == [] {
      assert c + [] == c;
    } else {
      var kept := Condense(last)[0];
      assert c + Condense(last) == c + [kept] && (c + [kept])[..|c|] == c;
    }
  }

  lemma {:induction false} CondensedDropsNoneIff(t: seq<Item>)
    ensures Dropped(OwnRun, CondenseAll(t)) == [] <==> AllNear(t)
  {
    hide NearestTurnIds, Live, AllNear, Dropped, Condense;
    if t == [] {
      NothingDropsNothing();
    } else {
      var before, last := t[..|t| - 1], t[|t| - 1];
      CondensedDropsNoneIff(before);
      CondensedLive(before);
      DroppedStep(CondenseAll(before), last);
      AllNearStep(before, last);
      assert before + [last] == t;
    }
  }

  lemma NothingDropsNothing()
    ensures Dropped(OwnRun, []) == [] && AllNear([])
  {
  }

  /** The condensed tail is contiguous exactly when every result answers the nearest turn before it. */
  lemma CondensedIsContigIff(t: seq<Item>)
    ensures Contig(CondenseAll(t)) <==> AnswersNearestTurns(t)
  {
    hide CallIds, Obeys, Contig, NearestTurnIds, DeclaredByNearestTurn;
    ObeysMeaning(CondenseAll(t));
    FiltersNothingIff(OwnRun, CondenseAll(t));
    CondensedDropsNoneIff(t);
    forall i | 0 <= i < |t| && t[i].ToolResult?
      ensures t[i].callId in NearestTurnIds(t[..i]) <==> DeclaredByNearestTurn(t, i, t[i].callId)
    {
      NearestTurnMeaning(t, i, t[i].callId);
    }
  }

  // ----- the items around the tail

  /** Neither calls nor results. */
  ghost predicate Plain(items: seq<Item>) {
    forall i :: 0 <= i < |items| ==> !items[i].Assistant? && !items[i].ToolResult?
  }

  lemma {:induction false} PlainIsSilent(rule: Rule, items: seq<Item>)
    requires Plain(items)
    ensures Live(rule, items) == {} && Dropped(rule, items) == []
  {
    hide CallIds;
    if items != [] {
      PlainIsSilent(rule, items[..|items| - 1]);
      NoCalls(items[|items| - 1]);
    }
  }

  lemma {:induction false} AfterPlain(rule: Rule, o: seq<Item>, t: seq<Item>)
    requires Plain(o)
    ensures Live(rule, o + t) == Live(rule, t) && Dropped(rule, o + t) == Dropped(rule, t)
  {
    hide CallIds, Plain;
    if t == [] {
      PlainIsSilent(rule, o);
      assert o + t == o;
    } else {
      var s, n := o + t, |t| - 1;
      assert s[..|s| - 1] == o + t[..n] && s[|s| - 1] == t[n];
      AfterPlain(rule, o, t[..n]);
    }
  }

  lemma {:induction false} BeforePlain(rule: Rule, t: seq<Item>, c: seq<Item>)
    requires Plain(c)
    ensures Dropped(rule, t + c) == Dropped(rule, t)
  {
    if c == [] {
      assert t + c == t;
    } else {
      var s, n := t + c, |c| - 1;
      assert s[..|s| - 1] == t + c[..n] && s[|s| - 1] == c[n];
      BeforePlain(rule, t, c[..n]);
    }
  }

  lemma InertIsPlain(items: seq<Item>)
    requires Inert(items)
    ensures Plain(items)
  {
  }

  lemma QueryTurnIsPlain(o: seq<Item>, query: Wrappers.Option<string>)
    requires Plain(o)
    ensures Plain(o + QueryTurn(query))
  {
    hide WrapUserQuery;
  }

  /** Around the recent messages compaction adds nothing that a rule could object to. */
  lemma HistoryDrops(rule: Rule, input: HistoryInput)
    requires input.systemMessage.System?
    ensures Dropped(rule, CompactedHistory(input)) == Dropped(rule, input.context.recentMessages)
  {
    hide Preface, Closing, QueryTurn, Plain, Inert, Dropped;
    var o := Preface(input) + QueryTurn(input.context.lastUserQuery);
    var recent := input.context.recentMessages;
    AddedItemsAreInert(input);
    InertIsPlain(Preface(input));
    InertIsPlain(Closing(input));
    QueryTurnIsPlain(Preface(input), input.context.lastUserQuery);
    AfterPlain(rule, o, recent);
    BeforePlain(rule, o + recent, Closing(input));
  }

  // ----- the main results

  /** The messages since the last real user turn. */
  function Tail(conversation: seq<Item>): seq<Item> {
    conversation[TailStart(conversation)..]
  }

  /**
   For every conversation: the validator reports of a compacted history exactly the
   results that no turn since the last real user turn declares, in order, and finds
   nothing exactly when every result since then is declared since then.
   */
  lemma CompactionReportsExactly(conversation: seq<Item>, input: HistoryInput)
    requires input.context == ContextOf(conversation) && input.systemMessage.System?
    ensures Dropped(Anywhere, CompactedHistory(input)) == Dropped(Anywhere, Tail(conversation))
    ensures Valid(CompactedHistory(input)) <==> Valid(Tail(conversation))
  {
    hide CompactedHistory, CondenseAll, TailStart, ExtractLastRealUserQuery, Dropped, Valid, Obeys, Live;
    var h, t := CompactedHistory(input), Tail(conversation);
    HistoryDrops(Anywhere, input);
    CondenseReports(t);
    FiltersNothingIff(Anywhere, h);
    FiltersNothingIff(Anywhere, t);
    ObeysMeaning(h);
    ObeysMeaning(t);
  }

  /** A compacted history is contiguous exactly when every result kept answers the nearest turn before it. */
  lemma CompactedIsContigIff(conversation: seq<Item>, input: HistoryInput)
    requires input.context == ContextOf(conversation) && input.systemMessage.System?
    ensures Contig(CompactedHistory(input)) <==> AnswersNearestTurns(Tail(conversation))
  {
    hide CompactedHistory, CondenseAll, TailStart, ExtractLastRealUserQuery, Dropped, Contig, Obeys, AnswersNearestTurns;
    var h, t := CompactedHistory(input), Tail(conversation);
    HistoryDrops(OwnRun, input);
    FiltersNothingIff(OwnRun, h);
    FiltersNothingIff(OwnRun, CondenseAll(t));
    ObeysMeaning(h);
    ObeysMeaning(CondenseAll(t));
    CondensedIsContigIff(t);
  }

  /** Behind a user turn, the owner of a run is the nearest turn, and stands behind that user turn too. */
  lemma OwnerIsNearest(c: seq<Item>, start: nat, i: nat, id: string)
    requires start + i <= |c| && (start > 0 ==> c[start - 1].User?) && DeclaredByRunOwner(c, start + i, id)
    ensures DeclaredByNearestTurn(c[start..], i, id)
  {
    hide CallIds;
    var t := c[start..];
    var j :| 0 <= j < start + i && id in CallIds(c[j]) && forall k :: j < k < start + i ==> c[k].ToolResult?;
    if j < start {
      NoCalls(c[start - 1]);
      assert false;
    }
    assert t[j - start] == c[j];
    assert forall k :: j - start < k < i ==> t[k] == c[start + k];
  }

  lemma ContigAnswersNearest(conversation: seq<Item>)
    requires Contig(conversation)
    ensures AnswersNearestTurns(Tail(conversation))
  {
    hide IsRealUserTurn, CallIds, LastRealUser, DeclaredByNearestTurn, DeclaredByRunOwner;
    var start, t := TailStart(conversation), Tail(conversation);
    LastRealUserIsLast(conversation);
    if start > 0 { RealTurnIsUser(conversation[start - 1]); }
    forall i | 0 <= i < |t| && t[i].ToolResult? ensures DeclaredByNearestTurn(t, i, t[i].callId) {
      assert t[i] == conversation[start + i];
      OwnerIsNearest(conversation, start, i, t[i].callId);
    }
  }

  lemma RealTurnIsUser(item: Item)
    requires IsRealUserTurn(item)
    ensures item.User?
  {
  }

  /**
   Compacting a history whose results stand next to their calls gives another one, so
   the validator finds nothing and the sanitizer has nothing to strip.
   */
  lemma CompactedHistoryIsContig(conversation: seq<Item>, input: HistoryInput)
    requires Contig(conversation)
    requires input.context == ContextOf(conversation) && input.systemMessage.System?
    ensures Contig(CompactedHistory(input)) && Contig(ExtractMessagesSinceLastRealUser(conversation))
    ensures Dropped(Anywhere, CompactedHistory(input)) == []
    ensures Kept(Anywhere, CompactedHistory(input)) == CompactedHistory(input)
  {
    hide CompactedHistory, CondenseAll, TailStart, ExtractLastRealUserQuery, Contig, AnswersNearestTurns, Kept, Dropped;
    ContigAnswersNearest(conversation);
    CompactedIsContigIff(conversation, input);
    CondensedIsContigIff(Tail(conversation));
    var h := CompactedHistory(input);
    ContigIsValid(h);
    ObeysMeaning(h);
    FiltersNothingIff(Anywhere, h);
  }

  /** A call and its result on either side of an injected turn: displaced before compaction, contiguous after. */
  lemma SpanningPairIsKept(question: Item, turn: Item, injected: Item, result: Item, input: HistoryInput)
    requires IsRealUserTurn(question) && turn.Assistant? && result.ToolResult? && result.callId in CallIds(turn)
    requires injected.User? && injected.reason.Some?
    requires input.context == ContextOf([question, turn, injected, result]) && input.systemMessage.System?
    ensures !Contig([question, turn, injected, result])
    ensures Contig(CompactedHistory(input)) && Dropped(Anywhere, CompactedHistory(input)) == []
  {
    hide CompactedHistory, ContextOf, Contig, Dropped;
    var c := [question, turn, injected, result];
    SpanningTail(question, turn, injected, result);
    CompactedIsContigIff(c, input);
    CompactionReportsExactly(c, input);
    var h := CompactedHistory(input);
    ContigIsValid(h);
    ObeysMeaning(h);
    FiltersNothingIff(Anywhere, h);
    InjectedTurnDisplaces(c);
  }

  lemma InjectedTurnDisplaces(c: seq<Item>)
    requires |c| == 4 && c[3].ToolResult? && c[2].User?
    ensures !Contig(c)
  {
    NoCalls(c[2]);
    assert !DeclaredByRunOwner(c, 3, c[3].callId);
  }

  lemma FirstIsBoundary(c: seq<Item>)
    requires |c| == 4 && IsRealUserTurn(c[0]) && forall i :: 1 <= i < 4 ==> !IsRealUserTurn(c[i])
    ensures Tail(c) == c[1..]
  {
    hide IsRealUserTurn, LastRealUser;
    LastRealUserIsLast(c);
  }

  lemma OthersAreNotReal(turn: Item, injected: Item, result: Item)
    requires turn.Assistant? && result.ToolResult? && injected.User? && injected.reason.Some?
    ensures !IsRealUserTurn(turn) && !IsRealUserTurn(injected) && !IsRealUserTurn(result)
  {
    hide HasImages, IsSyntheticExtractedQuery, ExtractUserQuery, TextContent;
  }

  lemma NearestOfThree(t: seq<Item>)
    requires |t| == 3 && t[0].Assistant? && t[1].User? && t[2].ToolResult? && t[2].callId in CallIds(t[0])
    ensures AnswersNearestTurns(t)
  {
    hide CallIds;
    assert DeclaredByNearestTurn(t, 2, t[2].callId);
  }

  lemma SpanningTail(question: Item, turn: Item, injected: Item, result: Item)
    requires IsRealUserTurn(question) && turn.Assistant? && result.ToolResult? && result.callId in CallIds(turn)
    requires injected.User? && injected.reason.Some?
    ensures AnswersNearestTurns(Tail([question, turn, injected, result]))
  {
    hide IsRealUserTurn, CallIds, LastRealUser, Tail, AnswersNearestTurns;
    var c := [question, turn, injected, result];
    OthersAreNotReal(turn, injected, result);
    FirstIsBoundary(c);
    NearestOfThree(c[1..]);
  }

  /** From any history at all: repairing it first makes its compaction acceptable. */
  lemma RepairThenCompact(conversation: seq<Item>, input: HistoryInput)
    requires input.context == ContextOf(Repair.Repaired(conversation)) && input.systemMessage.System?
    ensures Contig(CompactedHistory(input)) && Dropped(Anywhere, CompactedHistory(input)) == []
  {
    hide Repair.Repaired, Contig, Dropped, CompactedHistory, ContextOf;
    RepairLaws.RepairAnswersEveryCall(conversation);
    CompactedHistoryIsContig(Repair.Repaired(conversation), input);
  }
}
