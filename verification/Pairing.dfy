/**
 The tool-pairing invariants providers insist on, the check for the lenient one
 and the two filters that enforce them.
 */
module Pairing {
  import opened Conversation
  import opened Positions

  // ----- the two invariants

  /** Some assistant turn before position `i` declares `id`. */
  ghost predicate DeclaredBefore(items: seq<Item>, i: nat, id: string)
    requires i <= |items|
  {
    exists j :: 0 <= j < i && id in CallIds(items[j])
  }

  /** The nearest item before position `i` that is no tool result declares `id`. */
  ghost predicate DeclaredByRunOwner(items: seq<Item>, i: nat, id: string)
    requires i <= |items|
  {
    exists j :: 0 <= j < i && id in CallIds(items[j]) && forall k :: j < k < i ==> items[k].ToolResult?
  }

  /** Every result answers a call declared somewhere earlier. */
  ghost predicate Valid(items: seq<Item>) {
    forall i :: 0 <= i < |items| && items[i].ToolResult? ==> DeclaredBefore(items, i, items[i].callId)
  }

  /** Every result stands in the run directly after the turn that declares its call. */
  ghost predicate Contig(items: seq<Item>) {
    forall i :: 0 <= i < |items| && items[i].ToolResult? ==> DeclaredByRunOwner(items, i, items[i].callId)
  }

  // ----- both invariants as one left-to-right rule

  datatype Rule = Anywhere | OwnRun

  /** The ids that a result following `items` may answer. */
  function Live(rule: Rule, items: seq<Item>): set<string> {
    if items == [] then {}
    else
      var before := Live(rule, items[..|items| - 1]);
      var last := items[|items| - 1];
      if last.ToolResult? then before
      else if rule.Anywhere? then before + CallIds(last)
      else CallIds(last)
  }

  predicate Accepts(rule: Rule, before: seq<Item>, item: Item) {
    item.ToolResult? ==> item.callId in Live(rule, before)
  }

  /** The items the rule accepts, in order. */
  function Kept(rule: Rule, items: seq<Item>): seq<Item> {
    if items == [] then []
    else
      var before, last := items[..|items| - 1], items[|items| - 1];
      Kept(rule, before) + if Accepts(rule, before, last) then [last] else []
  }

  /** The call ids of the results the rule rejects, in order. */
  function Dropped(rule: Rule, items: seq<Item>): seq<string> {
    if items == [] then []
    else
      var before, last := items[..|items| - 1], items[|items| - 1];
      Dropped(rule, before) + if Accepts(rule, before, last) then [] else [last.callId]
  }

  ghost predicate Obeys(rule: Rule, items: seq<Item>) {
    forall i :: 0 <= i < |items| ==> Accepts(rule, items[..i], items[i])
  }

  lemma {:induction false} LiveAnywhere(items: seq<Item>, id: string)
    ensures id in Live(Anywhere, items) <==> DeclaredBefore(items, |items|, id)
  {
    hide CallIds;
    if items != [] {
      var n := |items| - 1;
      var before := items[..n];
      LiveAnywhere(before, id);
      if items[n].ToolResult? { NoCalls(items[n]); }
      if DeclaredBefore(before, n, id) {
        var j :| 0 <= j < n && id in CallIds(before[j]);
        assert id in CallIds(items[j]);
      }
      if DeclaredBefore(items, n + 1, id) {
        var j :| 0 <= j < n + 1 && id in CallIds(items[j]);
        if j < n { assert id in CallIds(before[j]); }
      }
    }
  }

  lemma {:induction false} LiveOwnRun(items: seq<Item>, id: string)
    ensures id in Live(OwnRun, items) <==> DeclaredByRunOwner(items, |items|, id)
  {
    hide CallIds;
    if items != [] {
      var n := |items| - 1;
      LiveOwnRun(items[..n], id);
      PrefixAgrees(items, n, id);
      RunOwnerStep(items, n, id);
    }
  }

  lemma RunOwnerStep(items: seq<Item>, n: nat, id: string)
    requires n < |items|
    ensures DeclaredByRunOwner(items, n + 1, id)
       <==> if items[n].ToolResult? then DeclaredByRunOwner(items, n, id) else id in CallIds(items[n])
  {
  }

  lemma NoCalls(item: Item)
    requires !item.Assistant?
    ensures CallIds(item) == {}
  {
  }

  /** At each position the rules accept exactly the results that meet the two invariants. */
  lemma AcceptsMeaning(items: seq<Item>, i: nat)
    requires i < |items| && items[i].ToolResult?
    ensures Accepts(Anywhere, items[..i], items[i]) <==> DeclaredBefore(items, i, items[i].callId)
    ensures Accepts(OwnRun, items[..i], items[i]) <==> DeclaredByRunOwner(items, i, items[i].callId)
  {
    var id := items[i].callId;
    LiveAnywhere(items[..i], id);
    LiveOwnRun(items[..i], id);
    PrefixAgrees(items, i, id);
  }

  lemma ObeysMeaning(items: seq<Item>)
    ensures Obeys(Anywhere, items) <==> Valid(items)
    ensures Obeys(OwnRun, items) <==> Contig(items)
  {
    forall i | 0 <= i < |items| && items[i].ToolResult?
      ensures Accepts(Anywhere, items[..i], items[i]) <==> DeclaredBefore(items, i, items[i].callId)
      ensures Accepts(OwnRun, items[..i], items[i]) <==> DeclaredByRunOwner(items, i, items[i].callId)
    {
      AcceptsMeaning(items, i);
    }
  }

  lemma PrefixAgrees(items: seq<Item>, i: nat, id: string)
    requires i <= |items|
    ensures DeclaredBefore(items[..i], i, id) <==> DeclaredBefore(items, i, id)
    ensures DeclaredByRunOwner(items[..i], i, id) <==> DeclaredByRunOwner(items, i, id)
  {
    hide CallIds;
    var front := items[..i];
    assert forall k :: 0 <= k < i ==> front[k] == items[k];
    if DeclaredBefore(items, i, id) {
      var j :| 0 <= j < i && id in CallIds(items[j]);
      assert id in CallIds(front[j]);
    }
    if DeclaredBefore(front, i, id) {
      var j :| 0 <= j < i && id in CallIds(front[j]);
      assert id in CallIds(items[j]);
    }
    if DeclaredByRunOwner(items, i, id) {
      var j :| 0 <= j < i && id in CallIds(items[j]) && forall k :: j < k < i ==> items[k].ToolResult?;
      assert id in CallIds(front[j]);
    }
    if DeclaredByRunOwner(front, i, id) {
      var j :| 0 <= j < i && id in CallIds(front[j]) && forall k :: j < k < i ==> front[k].ToolResult?;
      assert id in CallIds(items[j]);
      assert forall k :: j < k < i ==> items[k] == front[k];
    }
  }

  // ----- the source's three passes

  method ValidateCompactedHistory(items: seq<Item>) returns (invalidIds: seq<string>)
    ensures invalidIds == Dropped(Anywhere, items)
    ensures invalidIds == [] <==> Valid(items)
  {
    var seenIds: set<string> := {};
    invalidIds := [];
    for i := 0 to |items|
      invariant seenIds == Live(Anywhere, items[..i])
      invariant invalidIds == Dropped(Anywhere, items[..i])
    {
      assert items[..i + 1][..i] == items[..i];
      match items[i]
      case Assistant(_, toolCalls, _) =>
        seenIds := seenIds + set call | call in toolCalls :: call.id;
      case ToolResult(callId, _, _) =>
        if callId !in seenIds {
          invalidIds := invalidIds + [callId];
        }
      case _ =>
    }
    assert items[..|items|] == items;
    FiltersNothingIff(Anywhere, items);
    ObeysMeaning(items);
  }

  method SanitizeCompactedHistory(items: seq<Item>) returns (sanitized: seq<Item>, strippedIds: seq<string>)
    ensures sanitized == Kept(Anywhere, items) && strippedIds == Dropped(Anywhere, items)
    ensures Valid(sanitized)
  {
    var seenIds: set<string> := {};
    sanitized, strippedIds := [], [];
    for i := 0 to |items|
      invariant seenIds == Live(Anywhere, items[..i])
      invariant sanitized == Kept(Anywhere, items[..i]) && strippedIds == Dropped(Anywhere, items[..i])
    {
      assert items[..i + 1][..i] == items[..i];
      match items[i]
      case Assistant(_, toolCalls, _) =>
        seenIds := seenIds + set call | call in toolCalls :: call.id;
        sanitized := sanitized + [items[i]];
      case ToolResult(callId, _, _) =>
        if callId in seenIds {
          sanitized := sanitized + [items[i]];
        } else {
          strippedIds := strippedIds + [callId];
        }
      case _ =>
        sanitized := sanitized + [items[i]];
    }
    assert items[..|items|] == items;
    KeptObeys(Anywhere, items);
    ObeysMeaning(sanitized);
  }

  method StripDisplacedToolResults(items: seq<Item>) returns (kept: seq<Item>, strippedIds: seq<string>)
    ensures kept == Kept(OwnRun, items) && strippedIds == Dropped(OwnRun, items)
    ensures Contig(kept)
    ensures kept == items <==> Contig(items)
  {
    var runIds: set<string> := {};
    kept, strippedIds := [], [];
    for i := 0 to |items|
      invariant runIds == Live(OwnRun, items[..i])
      invariant kept == Kept(OwnRun, items[..i]) && strippedIds == Dropped(OwnRun, items[..i])
    {
      assert items[..i + 1][..i] == items[..i];
      match items[i]
      case Assistant(_, toolCalls, _) =>
        runIds := set call | call in toolCalls :: call.id;
        kept := kept + [items[i]];
      case ToolResult(callId, _, _) =>
        if callId in runIds {
          kept := kept + [items[i]];
        } else {
          strippedIds := strippedIds + [callId];
        }
      case _ =>
        runIds := {};
        kept := kept + [items[i]];
    }
    assert items[..|items|] == items;
    KeptObeys(OwnRun, items);
    FiltersNothingIff(OwnRun, items);
    ObeysMeaning(kept);
    ObeysMeaning(items);
  }

  // ----- laws of the filters

  /** Filtering by one rule leaves what either rule lets a later result answer as it was. */
  lemma {:induction false} KeptLive(filter: Rule, rule: Rule, items: seq<Item>)
    ensures Live(rule, Kept(filter, items)) == Live(rule, items)
  {
    if items != [] {
      var before, last := items[..|items| - 1], items[|items| - 1];
      KeptLive(filter, rule, before);
      var k := Kept(filter, before);
      if Accepts(filter, before, last) {
        assert (k + [last])[..|k|] == k;
      } else {
        assert k + [] == k;
      }
    }
  }

  lemma {:induction false} KeptObeys(rule: Rule, items: seq<Item>)
    ensures Obeys(rule, Kept(rule, items))
  {
    if items != [] {
      var before, last := items[..|items| - 1], items[|items| - 1];
      KeptObeys(rule, before);
      KeptLive(rule, rule, before);
      var k := Kept(rule, before);
      var all := Kept(rule, items);
      forall i | 0 <= i < |all| ensures Accepts(rule, all[..i], all[i]) {
        if i < |k| {
          assert all[..i] == k[..i] && all[i] == k[i];
        } else {
          assert all[..i] == k;
        }
      }
    }
  }

  lemma {:induction false} KeptAndDropped(rule: Rule, items: seq<Item>)
    ensures |Kept(rule, items)| + |Dropped(rule, items)| == |items|
  {
    if items != [] {
      KeptAndDropped(rule, items[..|items| - 1]);
    }
  }

  lemma {:induction false} ObedientIsKept(rule: Rule, items: seq<Item>)
    requires Obeys(rule, items)
    ensures Kept(rule, items) == items
  {
    if items != [] {
      var n := |items| - 1;
      var before := items[..n];
      forall i | 0 <= i < n ensures Accepts(rule, before[..i], before[i]) {
        assert before[..i] == items[..i];
      }
      ObedientIsKept(rule, before);
      assert items == before + [items[n]];
    }
  }

  lemma {:induction false} NothingDropped(rule: Rule, items: seq<Item>)
    requires Dropped(rule, items) == []
    ensures Obeys(rule, items)
  {
    if items != [] {
      var n := |items| - 1;
      var before := items[..n];
      NothingDropped(rule, before);
      forall i | 0 <= i < |items| ensures Accepts(rule, items[..i], items[i]) {
        if i < n { assert items[..i] == before[..i] && items[i] == before[i]; }
      }
    }
  }

  /** A rule drops something exactly when it is broken. */
  lemma FiltersNothingIff(rule: Rule, items: seq<Item>)
    ensures Obeys(rule, items) <==> Kept(rule, items) == items
    ensures Obeys(rule, items) <==> Dropped(rule, items) == []
  {
    KeptAndDropped(rule, items);
    if Obeys(rule, items) { ObedientIsKept(rule, items); }
    if Dropped(rule, items) == [] { NothingDropped(rule, items); }
  }

  lemma {:induction false} OwnRunIsStricter(items: seq<Item>)
    ensures Live(OwnRun, items) <= Live(Anywhere, items)
  {
    if items != [] {
      OwnRunIsStricter(items[..|items| - 1]);
    }
  }

  /**
   Every result that stripping keeps, sanitizing keeps too: sanitizing first changes
   nothing about what stripping leaves, and sanitizing afterwards finds nothing to do.
   */
  lemma {:induction false} StripAbsorbsSanitize(items: seq<Item>)
    ensures Kept(OwnRun, Kept(Anywhere, items)) == Kept(OwnRun, items)
    ensures Kept(Anywhere, Kept(OwnRun, items)) == Kept(OwnRun, items)
  {
    if items != [] {
      var before, last := items[..|items| - 1], items[|items| - 1];
      StripAbsorbsSanitize(before);
      OwnRunIsStricter(before);
      KeptLive(Anywhere, OwnRun, before);
      KeptLive(OwnRun, Anywhere, before);
      var a, o := Kept(Anywhere, before), Kept(OwnRun, before);
      assert (a + [last])[..|a|] == a && (o + [last])[..|o|] == o;
      assert a + [] == a && o + [] == o;
    }
  }

  /** A filtered history is a fixpoint of its own filter. */
  lemma FiltersAreIdempotent(rule: Rule, items: seq<Item>)
    ensures Kept(rule, Kept(rule, items)) == Kept(rule, items) && Dropped(rule, Kept(rule, items)) == []
  {
    KeptObeys(rule, items);
    FiltersNothingIff(rule, Kept(rule, items));
  }

  // ----- which items the filters keep, by position

  /** The result at `k`, if it is one, answers a call where the rule wants it declared. */
  ghost predicate Fitting(rule: Rule, items: seq<Item>, k: nat)
    requires k < |items|
  {
    items[k].ToolResult? ==>
      if rule.Anywhere? then DeclaredBefore(items, k, items[k].callId) else DeclaredByRunOwner(items, k, items[k].callId)
  }

  /** `kept` are the fitting items and `ids` the ids of the others, both in order. */
  ghost predicate SplitsAt(rule: Rule, items: seq<Item>, kept: seq<Item>, ids: seq<string>, at: seq<nat>, off: seq<nat>) {
    && Increasing(at, |items|) && Increasing(off, |items|) && |kept| == |at| && |ids| == |off|
    && (forall i :: 0 <= i < |at| ==> kept[i] == items[at[i]])
    && (forall i :: 0 <= i < |off| ==> items[off[i]].ToolResult? && ids[i] == items[off[i]].callId)
    && forall k: nat :: k < |items| ==> (k in at <==> Fitting(rule, items, k)) && (k in off <==> !Fitting(rule, items, k))
  }

  lemma FittingInFront(rule: Rule, items: seq<Item>, last: Item, k: nat)
    requires k < |items|
    ensures Fitting(rule, items + [last], k) <==> Fitting(rule, items, k)
  {
    hide DeclaredBefore, DeclaredByRunOwner;
    var all := items + [last];
    if items[k].ToolResult? {
      PrefixAgrees(all, k, items[k].callId);
      PrefixAgrees(items, k, items[k].callId);
      assert all[..k] == items[..k];
    }
  }

  lemma FittingLast(rule: Rule, items: seq<Item>, last: Item)
    ensures Fitting(rule, items + [last], |items|) <==> Accepts(rule, items, last)
  {
    hide DeclaredBefore, DeclaredByRunOwner, Live;
    var all := items + [last];
    assert all[..|items|] == items && all[|items|] == last;
    if last.ToolResult? { AcceptsMeaning(all, |items|); }
  }

  lemma SplitsStep(rule: Rule, items: seq<Item>, last: Item, kept: seq<Item>, ids: seq<string>, at: seq<nat>, off: seq<nat>)
    requires SplitsAt(rule, items, kept, ids, at, off)
    ensures if Accepts(rule, items, last) then SplitsAt(rule, items + [last], kept + [last], ids, at + [|items|], off)
            else last.ToolResult? && SplitsAt(rule, items + [last], kept, ids + [last.callId], at, off + [|items|])
  {
    hide Fitting, Live;
    var all, n := items + [last], |items|;
    Appended(at, n);
    Appended(off, n);
    FittingLast(rule, items, last);
    forall k: nat | k < n ensures Fitting(rule, all, k) <==> Fitting(rule, items, k) { FittingInFront(rule, items, last, k); }
    assert all[n] == last && forall k :: 0 <= k < n ==> all[k] == items[k];
  }

  /** Each filter keeps exactly the items that fit its rule and reports the ids of the others, in order. */
  lemma {:induction false} FiltersByPosition(rule: Rule, items: seq<Item>) returns (at: seq<nat>, off: seq<nat>)
    ensures SplitsAt(rule, items, Kept(rule, items), Dropped(rule, items), at, off)
  {
    hide SplitsAt, Accepts;
    if items == [] {
      at, off := [], [];
      NothingSplits(rule);
    } else {
      var n := |items| - 1;
      var before, last := items[..n], items[n];
      at, off := FiltersByPosition(rule, before);
      SplitsStep(rule, before, last, Kept(rule, before), Dropped(rule, before), at, off);
      assert before + [last] == items;
      if Accepts(rule, before, last) {
        at := at + [n];
        assert Dropped(rule, before) + [] == Dropped(rule, before);
      } else {
        off := off + [n];
        assert Kept(rule, before) + [] == Kept(rule, before);
      }
    }
  }

  lemma NothingSplits(rule: Rule)
    ensures SplitsAt(rule, [], [], [], [], [])
  {
  }

  // ----- joining and cutting histories

  /** Once nothing is live, what comes before no longer matters. */
  lemma {:induction false} LiveAfterNone(a: seq<Item>, b: seq<Item>)
    requires Live(OwnRun, a) == {}
    ensures Live(OwnRun, a + b) == Live(OwnRun, b)
  {
    hide CallIds;
    if b == [] {
      assert a + b == a;
    } else {
      var s, n := a + b, |b| - 1;
      assert s[..|s| - 1] == a + b[..n] && s[|s| - 1] == b[n];
      LiveAfterNone(a, b[..n]);
    }
  }

  lemma ObeysSuffix(a: seq<Item>, b: seq<Item>)
    requires Live(OwnRun, a) == {} && Obeys(OwnRun, a + b)
    ensures Obeys(OwnRun, b)
  {
    forall i | 0 <= i < |b| ensures Accepts(OwnRun, b[..i], b[i]) {
      assert (a + b)[..|a| + i] == a + b[..i] && (a + b)[|a| + i] == b[i];
      LiveAfterNone(a, b[..i]);
    }
  }

  lemma ObeysConcat(a: seq<Item>, b: seq<Item>)
    requires Obeys(OwnRun, a) && Obeys(OwnRun, b)
    requires Live(OwnRun, a) == {} || forall i :: 0 <= i < |b| ==> !b[i].ToolResult?
    ensures Obeys(OwnRun, a + b)
  {
    var s := a + b;
    forall i | 0 <= i < |s| ensures Accepts(OwnRun, s[..i], s[i]) {
      if i < |a| {
        assert s[..i] == a[..i] && s[i] == a[i];
      } else {
        assert s[..i] == a + b[..i - |a|] && s[i] == b[i - |a|];
        if Live(OwnRun, a) == {} { LiveAfterNone(a, b[..i - |a|]); }
      }
    }
  }

  lemma ContigIsValid(items: seq<Item>)
    requires Contig(items)
    ensures Valid(items)
  {
  }
}
