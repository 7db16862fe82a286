/**
 Scratchpads in front of a wrapped summary: what is left of them, and when one that is
 never closed swallows the summary behind it.
 */
module SummaryScratch {
  import opened Wrappers
  import opened Text
  import opened Summary
  import opened SummaryKept

  // ----- the text in front of the wrapper

  /** What is left of the text in front: closed scratchpads are cut out, an open one reaches up to the wrapper. */
  function Front(pre: string): string
    decreases |pre|
  {
    match Find(pre, ANALYSIS_OPEN)
    case None => pre
    case Some(p) =>
      match Find(pre[p..], ANALYSIS_CLOSE)
      case None => pre[..p]
      case Some(q) => Front(pre[..p] + pre[p + q + |ANALYSIS_CLOSE|..])
  }

  /** A scratchpad is still open where the text in front ends. */
  predicate LeftOpen(pre: string)
    decreases |pre|
  {
    match Find(pre, ANALYSIS_OPEN)
    case None => false
    case Some(p) =>
      match Find(pre[p..], ANALYSIS_CLOSE)
      case None => true
      case Some(q) => LeftOpen(pre[..p] + pre[p + q + |ANALYSIS_CLOSE|..])
  }

  /** Outside closed scratchpads, which may quote what they like, the text in front opens no summary. */
  predicate OpensNoSummary(pre: string)
    decreases |pre|
  {
    match Find(pre, ANALYSIS_OPEN)
    case None => !Contains(pre, SUMMARY_OPEN)
    case Some(p) =>
      && !Contains(pre[..p], SUMMARY_OPEN)
      && match Find(pre[p..], ANALYSIS_CLOSE)
         case None => !Contains(pre, SUMMARY_OPEN)
         case Some(q) => OpensNoSummary(pre[..p] + pre[p + q + |ANALYSIS_CLOSE|..])
  }

  // ----- searching across the seam

  lemma FindInFront(a: string, b: string, t: string)
    requires Contains(a, t)
    ensures Find(a + b, t) == Find(a, t)
  {
    var s, k := a + b, Find(a, t).value;
    assert s[k..k + |t|] == a[k..k + |t|];
    forall j: nat | j < k ensures !At(s, t, j) {
      assert s[j..j + |t|] == a[j..j + |t|];
      assert !At(a, t, j);
    }
    FindIs(s, t, k);
  }

  /** No token reaches across another one at the seam. */
  lemma NotBeforeSeam(s: string, a: string, u: string, t: string, j: nat)
    requires IsToken(t) && IsToken(u) && t[1] != u[1] && !Contains(a, t)
    requires a <= s && At(s, u, |a|) && j < |a| + |u|
    ensures !At(s, t, j)
  {
    AtChar(s, u, |a|, 1);
    if At(s, t, j) {
      if j < |a| {
        TokensDisjoint(s, t, u, j, |a|);
        assert a[j..j + |t|] == s[j..j + |t|];
        ContainsAt(a, t, j);
      } else if j == |a| {
        AtChar(s, t, j, 1);
      } else {
        TokensDisjoint(s, u, t, |a|, j);
      }
      assert false;
    }
  }

  /** With nothing in front, the search goes on in the rest. */
  lemma FindShift(s: string, n: nat, t: string)
    requires n <= |s| && forall j: nat :: j < n ==> !At(s, t, j)
    ensures Find(s, t) == match Find(s[n..], t) case Some(k) => Some(n + k) case None => None
  {
    hide At;
    var rest := s[n..];
    forall j: nat | n <= j ensures At(s, t, j) <==> At(rest, t, j - n) { AtShift(s, t, n, j - n); }
    match Find(rest, t)
    case Some(k) =>
      assert At(s, t, n + k);
      forall j: nat | j < n + k ensures !At(s, t, j) {
        if n <= j { assert !At(rest, t, j - n); }
      }
      FindIs(s, t, n + k);
    case None =>
      forall j: nat ensures !At(s, t, j) {
        if n <= j { assert !At(rest, t, j - n); }
      }
  }

  /** Behind text without the token and another token at the seam, the search goes on in the rest. */
  lemma FindInRest(a: string, u: string, rest: string, t: string)
    requires IsToken(t) && IsToken(u) && t[1] != u[1] && !Contains(a, t)
    ensures Find(a + (u + rest), t)
         == match Find(rest, t) case Some(k) => Some(|a| + |u| + k) case None => None
  {
    hide IsToken, Contains, Find;
    var s, n := a + (u + rest), |a| + |u|;
    assert s[|a|..n] == u && s[n..] == rest;
    assert At(s, u, |a|);
    hide At;
    forall j: nat | j < n ensures !At(s, t, j) { NotBeforeSeam(s, a, u, t, j); }
    FindShift(s, n, t);
  }

  /** A summary tag that is not in front of the first scratchpad comes after it. */
  lemma SummaryAfter(s: string, p: nat, sp: nat)
    requires At(s, ANALYSIS_OPEN, p) && At(s, SUMMARY_OPEN, sp) && !Contains(s[..p], SUMMARY_OPEN)
    ensures p < sp
  {
    hide Contains;
    if sp < p {
      TokensDisjoint(s, SUMMARY_OPEN, ANALYSIS_OPEN, sp, p);
      assert s[..p][sp..sp + |SUMMARY_OPEN|] == s[sp..sp + |SUMMARY_OPEN|];
      ContainsAt(s[..p], SUMMARY_OPEN, sp);
    } else if sp == p {
      AtChar(s, SUMMARY_OPEN, p, 1);
      AtChar(s, ANALYSIS_OPEN, p, 1);
    }
  }

  /** So the scratchpad is leading. */
  lemma SummaryLater(s: string, p: nat)
    requires At(s, ANALYSIS_OPEN, p) && !Contains(s[..p], SUMMARY_OPEN) && Find(s, SUMMARY_OPEN).Some?
    ensures IsLeading(s, p)
  {
    hide Contains, At, Trim;
    SummaryAfter(s, p, Find(s, SUMMARY_OPEN).value);
  }

  // ----- one round of the loop

  /** The wrapped body and what follows, seen from the wrapper. */
  function Behind(b: string, post: string): string { b + (SUMMARY_CLOSE + post) }

  lemma OutputIs(pre: string, b: string, post: string)
    ensures Output(pre, b, post) == pre + (SUMMARY_OPEN + Behind(b, post))
  {
  }

  lemma FirstScratchpad(pre: string, w: string, p: nat)
    requires Find(pre, ANALYSIS_OPEN) == Some(p) && !Contains(pre[..p], SUMMARY_OPEN)
    requires Contains(pre + w, SUMMARY_OPEN)
    ensures Find(pre + w, ANALYSIS_OPEN) == Some(p) && IsLeading(pre + w, p)
  {
    hide Contains;
    ContainsAt(pre, ANALYSIS_OPEN, p);
    FindInFront(pre, w, ANALYSIS_OPEN);
    assert (pre + w)[..p] == pre[..p];
    SummaryLater(pre + w, p);
  }

  /** A scratchpad closed in front of the wrapper is cut out of the text in front. */
  lemma ClosedRound(pre: string, w: string, p: nat, q: nat)
    requires Find(pre, ANALYSIS_OPEN) == Some(p) && Find(pre[p..], ANALYSIS_CLOSE) == Some(q)
    requires !Contains(pre[..p], SUMMARY_OPEN) && Contains(pre + w, SUMMARY_OPEN)
    ensures p + q + |ANALYSIS_CLOSE| <= |pre|
    ensures StripRound(pre + w) == Cut(pre[..p] + pre[p + q + |ANALYSIS_CLOSE|..] + w)
  {
    hide Contains, Find, IsLeading, At;
    var s, end := pre + w, p + q + |ANALYSIS_CLOSE|;
    FoundInside(pre, ANALYSIS_OPEN);
    ClosesWithin(pre[p..], q);
    FirstScratchpad(pre, w, p);
    assert s[p..] == pre[p..] + w;
    FindInFront(pre[p..], w, ANALYSIS_CLOSE);
    assert s[..p] == pre[..p] && s[end..] == pre[end..] + w;
    assert pre[..p] + (pre[end..] + w) == pre[..p] + pre[end..] + w;
  }

  lemma ClosesWithin(s: string, q: nat)
    requires Find(s, ANALYSIS_CLOSE) == Some(q)
    ensures q + |ANALYSIS_CLOSE| <= |s| && Contains(s, ANALYSIS_CLOSE)
  {
  }

  /** An open scratchpad ends at the wrapper, or at a closing tag quoted behind it. */
  lemma OpenRound(pre: string, b: string, post: string, p: nat)
    requires Find(pre, ANALYSIS_OPEN) == Some(p) && Find(pre[p..], ANALYSIS_CLOSE).None?
    requires !Contains(pre, SUMMARY_OPEN)
    ensures StripRound(Output(pre, b, post)) ==
            match Find(Behind(b, post), ANALYSIS_CLOSE)
            case None => CutAndStop(Output(pre[..p], b, post))
            case Some(k) => Cut(pre[..p] + Behind(b, post)[k + |ANALYSIS_CLOSE|..])
  {
    hide Contains, IsLeading, At, Find, Output, Behind, DropTo;
    var tail := Behind(b, post);
    var s, w := Output(pre, b, post), SUMMARY_OPEN + tail;
    OpenerInside(pre, p);
    OutputIs(pre, b, post);
    OutputIs(pre[..p], b, post);
    FindFirst(pre, SUMMARY_OPEN, tail);
    ClosesNone(pre[p..]);
    SummaryFound(s);
    FirstScratchpad(pre, w, p);
    WrapperEndsIt(pre, tail, p);
  }

  lemma SummaryFound(s: string)
    ensures Find(s, SUMMARY_OPEN).Some? ==> Contains(s, SUMMARY_OPEN)
  {
  }

  lemma ClosesNone(s: string)
    requires Find(s, ANALYSIS_CLOSE).None?
    ensures !Contains(s, ANALYSIS_CLOSE)
  {
  }

  lemma WrapperEndsIt(pre: string, tail: string, p: nat)
    requires p <= |pre| && !Contains(pre[p..], ANALYSIS_CLOSE) && !Contains(pre[p..], SUMMARY_OPEN)
    ensures var s := pre + (SUMMARY_OPEN + tail);
            match Find(tail, ANALYSIS_CLOSE)
            case None =>
              Find(s[p..], ANALYSIS_CLOSE).None? && DropTo(s, p) == |pre| && s[..p] + s[|pre|..] == pre[..p] + (SUMMARY_OPEN + tail)
            case Some(k) =>
              && k + |ANALYSIS_CLOSE| <= |tail| && Find(s[p..], ANALYSIS_CLOSE) == Some(|pre| - p + |SUMMARY_OPEN| + k)
              && s[..p] + s[|pre| + |SUMMARY_OPEN| + k + |ANALYSIS_CLOSE|..] == pre[..p] + tail[k + |ANALYSIS_CLOSE|..]
  {
    hide Contains, At, Find, IsToken;
    var w := SUMMARY_OPEN + tail;
    var s := pre + w;
    assert s[p..] == pre[p..] + w && s[..p] == pre[..p] && s[|pre|..] == w;
    TagsAreTokens();
    FindInRest(pre[p..], SUMMARY_OPEN, tail, ANALYSIS_CLOSE);
    FindFirst(pre[p..], SUMMARY_OPEN, tail);
    match Find(tail, ANALYSIS_CLOSE)
    case None =>
    case Some(k) =>
      ClosesWithin(tail, k);
      assert s[|pre| + |SUMMARY_OPEN| + k + |ANALYSIS_CLOSE|..] == tail[k + |ANALYSIS_CLOSE|..];
  }

  lemma TagsAreTokens()
    ensures IsToken(SUMMARY_OPEN) && IsToken(ANALYSIS_CLOSE)
  {
  }

  lemma OpenerInside(pre: string, p: nat)
    requires Find(pre, ANALYSIS_OPEN) == Some(p) && !Contains(pre, SUMMARY_OPEN)
    ensures p <= |pre| && !Contains(pre[..p], SUMMARY_OPEN) && !Contains(pre[p..], SUMMARY_OPEN)
  {
    hide Contains;
    if Contains(pre[..p], SUMMARY_OPEN) { assert pre[..p] == pre[0..p]; ContainsSlice(pre, SUMMARY_OPEN, 0, p); }
    if Contains(pre[p..], SUMMARY_OPEN) { assert pre[p..] == pre[p..|pre|]; ContainsSlice(pre, SUMMARY_OPEN, p, |pre|); }
  }

  // ----- all rounds

  /** A body that is left whole, and behind it text that closes no summary. */
  ghost predicate IsWhole(b: string, post: string) {
    Whole(b) && !Contains(post, SUMMARY_CLOSE)
  }

  /** No scratchpad left open in front finds a closing tag behind the wrapper. */
  predicate Safe(pre: string, b: string, post: string) {
    LeftOpen(pre) ==> !Contains(Behind(b, post), ANALYSIS_CLOSE)
  }

  /** What the loop has left when an open scratchpad was closed by a tag quoted behind the wrapper. */
  function Swallowed(pre: string, b: string, post: string): string
    requires !Safe(pre, b, post)
  {
    Front(pre) + Behind(b, post)[Find(Behind(b, post), ANALYSIS_CLOSE).value + |ANALYSIS_CLOSE|..]
  }

  lemma UnwrapBare(pre: string, b: string, post: string)
    requires !Contains(pre, SUMMARY_OPEN) && IsWhole(b, post)
    ensures UnwrapSummary(Output(pre, b, post)) == pre + HEADING + b + post
  {
    hide Output, At, Contains, PeelScratchpad, Find, RFind, Trim, UnwrapSummary, Whole;
    OutputParts(pre, b, post);
    OutputFinds(pre, b, post);
    UnwrapAt(Output(pre, b, post), |pre|, |pre| + |SUMMARY_OPEN| + |b|);
    PeelKeepsWhole(b);
  }

  lemma StripOutput(pre: string, b: string, post: string)
    requires OpensNoSummary(pre) && IsWhole(b, post)
    ensures if Safe(pre, b, post) then UnwrapSummary(StripAnalysis(Output(pre, b, post))) == Front(pre) + HEADING + b + post
            else StripAnalysis(Output(pre, b, post)) == StripAnalysis(Swallowed(pre, b, post))
    decreases |pre|
  {
    hide Output, At, Contains, UnwrapSummary, StripRound, IsWhole, Behind;
    FoundInside(pre, ANALYSIS_OPEN);
    match Find(pre, ANALYSIS_OPEN)
    case None => NoScratchpad(pre, b, post);
    case Some(p) =>
      match Find(pre[p..], ANALYSIS_CLOSE)
      case None =>
        OpenRound(pre, b, post, p);
        OpenerInside(pre, p);
        UnwrapBare(pre[..p], b, post);
      case Some(q) =>
        ClosesWithin(pre[p..], q);
        var cut := pre[..p] + pre[p + q + |ANALYSIS_CLOSE|..];
        WrapperOpens(pre, b, post);
        ClosedRound(pre, Wrapped(b) + post, p, q);
        OutputOf(pre, b, post);
        OutputOf(cut, b, post);
        StripOutput(cut, b, post);
  }

  lemma OutputOf(pre: string, b: string, post: string)
    ensures Output(pre, b, post) == pre + (Wrapped(b) + post)
  {
  }

  lemma WrapperOpens(pre: string, b: string, post: string)
    ensures Contains(pre + (Wrapped(b) + post), SUMMARY_OPEN)
  {
    var s := pre + (Wrapped(b) + post);
    assert s[|pre|..|pre| + |SUMMARY_OPEN|] == SUMMARY_OPEN;
    ContainsAt(s, SUMMARY_OPEN, |pre|);
  }

  lemma NoScratchpad(pre: string, b: string, post: string)
    requires Find(pre, ANALYSIS_OPEN).None? && OpensNoSummary(pre) && IsWhole(b, post)
    ensures Safe(pre, b, post) && Front(pre) == pre
    ensures UnwrapSummary(StripAnalysis(Output(pre, b, post))) == pre + HEADING + b + post
  {
    hide UnwrapSummary, StripAnalysis, Output, Whole;
    UnwrapWhole(pre, b, post);
  }

  // ----- cleaning adds no ink

  /** The characters that are neither whitespace nor the zero-width space. */
  function Ink(s: string): nat {
    if s == [] then 0 else (if IsSpace(s[0]) || s[0] == ZERO_WIDTH_SPACE then 0 else 1) + Ink(s[1..])
  }

  lemma {:induction false} InkConcat(a: string, b: string)
    ensures Ink(a + b) == Ink(a) + Ink(b)
  {
    hide IsSpace;
    if a == [] {
      assert a + b == b;
    } else {
      assert (a + b)[0] == a[0] && (a + b)[1..] == a[1..] + b;
      InkConcat(a[1..], b);
    }
  }

  lemma InkOfParts(s: string, i: nat, j: nat)
    requires i <= j <= |s|
    ensures Ink(s) == Ink(s[..i]) + Ink(s[i..j]) + Ink(s[j..])
  {
    hide Ink;
    assert s == s[..i] + (s[i..j] + s[j..]);
    InkConcat(s[..i], s[i..j] + s[j..]);
    InkConcat(s[i..j], s[j..]);
  }

  lemma InkOfCut(s: string, i: nat, j: nat)
    requires i <= j <= |s|
    ensures Ink(s[..i] + s[j..]) <= Ink(s)
  {
    hide Ink;
    InkOfParts(s, i, j);
    InkConcat(s[..i], s[j..]);
  }

  lemma InkOfSlice(s: string, i: nat, j: nat)
    requires i <= j <= |s|
    ensures Ink(s[i..j]) <= Ink(s)
  {
    hide Ink;
    InkOfParts(s, i, j);
  }

  lemma RoundAddsNoInk(s: string)
    ensures match StripRound(s) case Stop => true case Cut(rest) => Ink(rest) <= Ink(s) case CutAndStop(rest) => Ink(rest) <= Ink(s)
  {
    hide Ink, IsLeading, Contains, DropTo;
    var found := Find(s, ANALYSIS_OPEN);
    FoundInside(s, ANALYSIS_OPEN);
    if found.Some? {
      var start := found.value;
      CutAddsNoInk(s, start);
    }
  }

  lemma CutAddsNoInk(s: string, start: nat)
    requires start <= |s|
    ensures match Find(s[start..], ANALYSIS_CLOSE)
            case Some(rel) =>
              start + rel + |ANALYSIS_CLOSE| <= |s| && Ink(s[..start] + s[start + rel + |ANALYSIS_CLOSE|..]) <= Ink(s)
            case None => Ink(s[..start] + s[DropTo(s, start)..]) <= Ink(s)
  {
    hide Ink, Contains, Find, DropTo, At;
    match Find(s[start..], ANALYSIS_CLOSE)
    case Some(rel) =>
      ClosesWithin(s[start..], rel);
      InkOfCut(s, start, start + rel + |ANALYSIS_CLOSE|);
    case None => InkOfCut(s, start, DropTo(s, start));
  }

  lemma {:induction false} StripAddsNoInk(s: string)
    ensures Ink(StripAnalysis(s)) <= Ink(s)
    decreases |s|
  {
    hide Ink, StripRound;
    RoundAddsNoInk(s);
    match StripRound(s)
    case Cut(rest) => StripAddsNoInk(rest);
    case _ =>
  }

  lemma TrimAddsNoInk(s: string)
    ensures Ink(Trim(s)) <= Ink(s) && Ink(TrimStart(s)) <= Ink(s)
  {
    hide Ink, TrimStart, TrimEnd, IsSpace;
    var i, j := TrimIsSlice(s);
    InkOfSlice(s, i, j);
    var k := |s| - |TrimStart(s)|;
    assert s[k..] == s[k..|s|];
    InkOfSlice(s, k, |s|);
  }

  lemma PeelAddsNoInk(inner: string)
    ensures Ink(PeelScratchpad(inner)) <= Ink(inner)
  {
    hide Ink, Trim, TrimStart, Numbered, Contains, RFind;
    var s := Trim(inner);
    TrimAddsNoInk(inner);
    var found := RFind(s, ANALYSIS_CLOSE);
    var t := if found.Some? && !Numbered(s) then TrimStart(s[found.value + |ANALYSIS_CLOSE|..]) else s;
    if found.Some? && !Numbered(s) { SuffixAddsNoInk(s, found.value + |ANALYSIS_CLOSE|); }
    if SUMMARY_OPEN <= t { SuffixAddsNoInk(t, |SUMMARY_OPEN|); }
  }

  lemma SuffixAddsNoInk(s: string, n: nat)
    requires n <= |s|
    ensures Ink(TrimStart(s[n..])) <= Ink(s)
  {
    hide Ink, TrimStart;
    assert s[n..] == s[n..|s|];
    InkOfSlice(s, n, |s|);
    TrimAddsNoInk(s[n..]);
  }

  lemma UnwrapAddsNoInk(s: string)
    ensures Ink(UnwrapSummary(s)) <= Ink(s)
  {
    hide Ink, PeelScratchpad, Trim, Contains;
    var open, close := Find(s, SUMMARY_OPEN), RFind(s, SUMMARY_CLOSE);
    if open.Some? && close.Some? && close.value > open.value {
      TokensDisjoint(s, SUMMARY_OPEN, SUMMARY_CLOSE, open.value, close.value);
      UnwrapAt(s, open.value, close.value);
      UnwrapKeepsInk(s, open.value, close.value);
    }
  }

  /** Putting in what weighs no more leaves the whole no heavier. */
  lemma InkOfSwap(x: string, o: string, mid: string, c: string, after: string, h: string, peeled: string)
    requires Ink(h) <= Ink(o) && Ink(peeled) <= Ink(mid)
    ensures Ink(x + h + peeled + after) <= Ink(x + o + mid + c + after)
  {
    hide Ink;
    InkConcat(x + h + peeled, after);
    InkConcat(x + h, peeled);
    InkConcat(x, h);
    InkConcat(x + o + mid + c, after);
    InkConcat(x + o + mid, c);
    InkConcat(x + o, mid);
    InkConcat(x, o);
  }

  lemma UnwrapKeepsInk(s: string, start: nat, end: nat)
    requires At(s, SUMMARY_OPEN, start) && start + |SUMMARY_OPEN| <= end && At(s, SUMMARY_CLOSE, end)
    ensures Ink(s[..start] + HEADING + PeelScratchpad(Trim(s[start + |SUMMARY_OPEN|..end])) + s[end + |SUMMARY_CLOSE|..]) <= Ink(s)
  {
    hide Ink, PeelScratchpad, Trim;
    var k, n := start + |SUMMARY_OPEN|, end + |SUMMARY_CLOSE|;
    var mid := s[k..end];
    PeelAddsNoInk(Trim(mid));
    TrimAddsNoInk(mid);
    InkOfHeading();
    InkOfOpener();
    InkOfSwap(s[..start], SUMMARY_OPEN, mid, SUMMARY_CLOSE, s[n..], HEADING, PeelScratchpad(Trim(mid)));
    Reassemble(s, start, k, end, n);
  }

  lemma Reassemble(s: string, start: nat, k: nat, end: nat, n: nat)
    requires start <= k <= end <= n <= |s|
    ensures s[..start] + s[start..k] + s[k..end] + s[end..n] + s[n..] == s
  {
  }

  lemma InkOfHeading()
    ensures Ink(HEADING) == 8
  {
    hide Ink, IsSpace;
    var word := HEADING[..8];
    InkOfPlain(word);
    assert HEADING == word + "\n";
    InkConcat(word, "\n");
    NewlineIsBlank();
    BlankHasNoInk("\n");
  }

  lemma NewlineIsBlank()
    ensures Blank("\n")
  {
  }

  lemma InkOfOpener()
    ensures Ink(SUMMARY_OPEN) == 9
  {
    hide Ink;
    InkOfPlain(SUMMARY_OPEN);
  }

  lemma InkOfClosers()
    ensures Ink(SUMMARY_CLOSE) == 10 && Ink(ANALYSIS_CLOSE) == 11
  {
    hide Ink;
    InkOfPlain(SUMMARY_CLOSE);
    InkOfPlain(ANALYSIS_CLOSE);
  }

  lemma {:induction false} BlankHasNoInk(s: string)
    requires Blank(s)
    ensures Ink(s) == 0
  {
    hide IsSpace;
    if s != [] { BlankHasNoInk(s[1..]); }
  }

  lemma {:induction false} InkOfPlain(s: string)
    requires forall i :: 0 <= i < |s| ==> '!' <= s[i] <= '~'
    ensures Ink(s) == |s|
  {
    if s != [] { InkOfPlain(s[1..]); }
  }

  lemma {:induction false} ReplaceKeepsInk(s: string, pat: string, rep: string)
    requires pat != [] && Ink(pat) == Ink(rep)
    ensures Ink(Replace(s, pat, rep)) == Ink(s)
  {
    hide IsSpace;
    if s != [] {
      if pat <= s {
        ReplaceKeepsInk(s[|pat|..], pat, rep);
        InkConcat(rep, Replace(s[|pat|..], pat, rep));
        InkConcat(pat, s[|pat|..]);
        assert s == pat + s[|pat|..];
      } else {
        ReplaceKeepsInk(s[1..], pat, rep);
        var r := [s[0]] + Replace(s[1..], pat, rep);
        assert r[1..] == Replace(s[1..], pat, rep);
      }
    }
  }

  lemma DefuseKeepsInk(t: string)
    requires IsToken(t)
    ensures Ink(Defuse(t)) == Ink(t)
  {
    hide IsSpace;
    var d := Defuse(t);
    assert d[1] == ZERO_WIDTH_SPACE && d[1..][1..] == t[1..] && d[0] == t[0];
  }

  lemma {:induction false} NeutralizeKeepsInk(s: string, tokens: seq<string>)
    requires forall t | t in tokens :: IsToken(t)
    ensures Ink(Neutralize(s, tokens)) == Ink(s)
    decreases |tokens|
  {
    hide Ink;
    if tokens != [] {
      DefuseKeepsInk(tokens[0]);
      ReplaceKeepsInk(s, tokens[0], Defuse(tokens[0]));
      NeutralizeKeepsInk(Replace(s, tokens[0], Defuse(tokens[0])), tokens[1..]);
    }
  }

  lemma {:induction false} SqueezeKeepsInk(run: nat, s: string)
    requires run <= 2
    ensures Ink(Squeeze(run, s)) == Ink(s)
    decreases |s|
  {
    if s != [] {
      var next := if s[0] != '\n' then 0 else if run == 2 then 2 else run + 1;
      SqueezeKeepsInk(next, s[1..]);
      InkConcat([s[0]], Squeeze(next, s[1..]));
      InkConcat([s[0]], s[1..]);
      assert s == [s[0]] + s[1..];
      NotSpace();
    }
  }

  /** Whatever the input, cleaning adds nothing visible. */
  lemma CleanAddsNoInk(s: string)
    ensures Ink(Clean(s)) <= Ink(s)
  {
    hide Ink, Trim, CollapseNewlines, Neutralize, UnwrapSummary, StripAnalysis, Squeeze;
    ControlTokensAreTokens();
    StripAddsNoInk(s);
    UnwrapAddsNoInk(StripAnalysis(s));
    var body := UnwrapSummary(StripAnalysis(s));
    NeutralizeKeepsInk(body, CONTROL_TOKENS);
    var n := Neutralize(body, CONTROL_TOKENS);
    CollapseIsSqueeze(n);
    SqueezeKeepsInk(0, n);
    TrimAddsNoInk(CollapseNewlines(n));
  }

  lemma {:induction false} WithinInk(a: string, b: string)
    requires Within(a, b)
    ensures Ink(a) <= Ink(b)
    decreases |b|
  {
    hide IsSpace;
    if a != [] {
      if a[0] == b[0] && Within(a[1..], b[1..]) {
        WithinInk(a[1..], b[1..]);
      } else {
        WithinInk(a, b[1..]);
      }
    }
  }

  lemma {:induction false} SolidKeepsInk(s: string)
    ensures Ink(Solid(s)) == Ink(s)
  {
    if s != [] {
      SolidKeepsInk(s[1..]);
      NotSpace();
      InkConcat(if s[0] == '\n' then [] else [s[0]], Solid(s[1..]));
    }
  }

  // ----- when a numbered summary is kept

  /** What is swallowed weighs more than the heading makes up for. */
  lemma SwallowedLosesInk(pre: string, b: string, post: string)
    requires !Safe(pre, b, post)
    ensures Ink(Swallowed(pre, b, post)) < Ink(Front(pre) + HEADING + b + post)
  {
    hide Ink, Front, LeftOpen, Contains;
    var tail := Behind(b, post);
    var k := Find(tail, ANALYSIS_CLOSE).value;
    var n := k + |ANALYSIS_CLOSE|;
    ClosesWithin(tail, k);
    InkOfParts(tail, k, n);
    InkConcat(Front(pre), tail[n..]);
    InkConcat(b, SUMMARY_CLOSE + post);
    InkConcat(SUMMARY_CLOSE, post);
    InkConcat(Front(pre) + HEADING + b, post);
    InkConcat(Front(pre) + HEADING, b);
    InkConcat(Front(pre), HEADING);
    InkOfHeading();
    InkOfClosers();
  }

  /**
   Such a body, and a numbered one whatever tags it quotes, is unwrapped whole exactly
   unless a scratchpad left open in front of the wrapper finds a closing tag behind it.
   */
  lemma BodyIsKeptIff(pre: string, b: string, post: string)
    requires OpensNoSummary(pre) && IsWhole(b, post)
    ensures UnwrapSummary(StripAnalysis(Output(pre, b, post))) == Front(pre) + HEADING + b + post <==> Safe(pre, b, post)
  {
    hide Ink, Output, UnwrapSummary, StripAnalysis, Front, Safe, OpensNoSummary, IsWhole, Swallowed;
    StripOutput(pre, b, post);
    if !Safe(pre, b, post) {
      var rest := Swallowed(pre, b, post);
      SwallowedLosesInk(pre, b, post);
      StripAddsNoInk(rest);
      UnwrapAddsNoInk(StripAnalysis(rest));
    }
  }

  lemma {:induction false} WithinDropsLast(a: string, b: string, c: char)
    requires Within(a, b + [c]) && a != [] && a[|a| - 1] != c
    ensures Within(a, b)
    decreases |b|
  {
    var s := b + [c];
    if b == [] {
      assert false;
    } else {
      assert s[0] == b[0] && s[1..] == b[1..] + [c];
      if a[0] == s[0] && Within(a[1..], s[1..]) {
        if |a| > 1 { WithinDropsLast(a[1..], b[1..], c); }
      } else {
        WithinDropsLast(a, b[1..], c);
      }
    }
  }

  lemma {:induction false} WithinTrimmedEnd(a: string, s: string)
    requires Within(a, Solid(s)) && a != [] && !IsSpace(a[|a| - 1])
    ensures Within(a, Solid(TrimEnd(s)))
  {
    hide Within, IsSpace, Solid;
    if s != [] && IsSpace(s[|s| - 1]) {
      var front, last := s[..|s| - 1], s[|s| - 1];
      assert s == front + [last];
      SolidConcat(front, [last]);
      SolidOne(last);
      if last == '\n' {
        assert Solid(front) + [] == Solid(front);
      } else {
        WithinDropsLast(a, Solid(front), last);
      }
      WithinTrimmedEnd(a, front);
    }
  }

  lemma SolidOne(c: char)
    ensures Solid([c]) == if c == '\n' then [] else [c]
  {
    assert [c][1..] == [];
  }

  lemma {:induction false} WithinTrimmedStart(a: string, s: string)
    requires Within(a, Solid(s)) && a != [] && !IsSpace(a[0])
    ensures Within(a, Solid(TrimStart(s)))
  {
    hide IsSpace;
    if s != [] && IsSpace(s[0]) {
      if s[0] == '\n' {
        assert Solid(s) == [] + Solid(s[1..]) == Solid(s[1..]);
      } else {
        assert Solid(s)[0] == s[0] && Solid(s)[1..] == Solid(s[1..]);
      }
      WithinTrimmedStart(a, s[1..]);
    }
  }

  /** What stands whole in the text before the last clean-up stands whole after it. */
  lemma FinishKeepsAll(a: string, x: string, c: string, tokens: seq<string>)
    requires forall t | t in tokens :: IsToken(t)
    requires Solid(a) != [] && !IsSpace(Solid(a)[0]) && !IsSpace(Solid(a)[|Solid(a)| - 1])
    ensures Within(Solid(a), Solid(Trim(CollapseNewlines(Neutralize(x + a + c, tokens)))))
  {
    hide Within, Solid, IsSpace, Neutralize, CollapseNewlines, Squeeze, TrimStart, TrimEnd, Contains;
    var s := x + a + c;
    var n := Neutralize(s, tokens);
    var flat := CollapseNewlines(n);
    MiddleStays(x, a, c);
    NeutralizedKeepsAll(s, tokens);
    WithinTransitive(Solid(a), Solid(s), Solid(n));
    CollapseIsSqueeze(n);
    SolidSqueezed(0, n);
    WithinTrimmedStart(Solid(a), flat);
    WithinTrimmedEnd(Solid(a), TrimStart(flat));
  }

  lemma MiddleStays(x: string, a: string, c: string)
    ensures Within(Solid(a), Solid(x + a + c))
  {
    hide Within, Solid;
    SolidConcat(x + a, c);
    SolidConcat(x, a);
    WithinItself(Solid(a));
    WithinAfter(Solid(a), Solid(x), Solid(a));
    NothingWithin(Solid(c));
    WithinConcat(Solid(a), Solid(x) + Solid(a), [], Solid(c));
    assert Solid(a) + [] == Solid(a);
  }

  lemma NothingWithin(s: string)
    ensures Within([], s)
  {
  }

  lemma HeadedEnds(b: string)
    requires Trimmed(b) && b != []
    ensures var s := Solid(HEADING + b); s != [] && !IsSpace(s[0]) && !IsSpace(s[|s| - 1])
  {
    hide IsSpace, Trimmed;
    var front, last := b[..|b| - 1], b[|b| - 1];
    assert HEADING + b == ['S'] + (HEADING[1..] + b) && HEADING + b == HEADING + front + [last];
    SolidConcat(['S'], HEADING[1..] + b);
    SolidConcat(HEADING + front, [last]);
    SolidOne('S');
    SolidOne(last);
    NotSpace();
    LastOfTrimmed(b);
  }

  lemma LastOfTrimmed(b: string)
    requires Trimmed(b) && b != []
    ensures !IsSpace(b[|b| - 1])
  {
  }

  /**
   Heading and body survive cleaning, every character but newlines in order, whenever no
   open scratchpad finds a closing tag behind the wrapper; and with nothing else around,
   only then.
   */
  lemma BodySurvivesIff(pre: string, b: string, post: string)
    requires OpensNoSummary(pre) && IsWhole(b, post)
    ensures Safe(pre, b, post) ==> Within(Solid(HEADING + b), Solid(Clean(Output(pre, b, post))))
    ensures Blank(Front(pre)) && Blank(post) ==>
              (Within(Solid(HEADING + b), Solid(Clean(Output(pre, b, post)))) <==> Safe(pre, b, post))
  {
    hide Ink, Output, UnwrapSummary, StripAnalysis, Front, Safe, OpensNoSummary, Swallowed, Within, Solid,
         CollapseNewlines, Neutralize, Trim, Blank, Numbered, Trimmed, IsSpace;
    ControlTokensAreTokens();
    StripOutput(pre, b, post);
    if Safe(pre, b, post) {
      HeadedEnds(b);
      assert Front(pre) + HEADING + b + post == Front(pre) + (HEADING + b) + post;
      FinishKeepsAll(HEADING + b, Front(pre), post, CONTROL_TOKENS);
    } else if Blank(Front(pre)) && Blank(post) {
      NotWithin(pre, b, post);
    }
  }

  lemma NotWithin(pre: string, b: string, post: string)
    requires !Safe(pre, b, post) && Blank(Front(pre)) && Blank(post)
    requires StripAnalysis(Output(pre, b, post)) == StripAnalysis(Swallowed(pre, b, post))
    ensures !Within(Solid(HEADING + b), Solid(Clean(Output(pre, b, post))))
  {
    hide Ink, Output, UnwrapSummary, StripAnalysis, Front, Safe, Swallowed, Within, Solid,
         CollapseNewlines, NeutralizeControlTokens, Trim, Blank;
    var rest := Swallowed(pre, b, post);
    assert Clean(Output(pre, b, post)) == Clean(rest);
    CleanAddsNoInk(rest);
    SwallowedLosesInk(pre, b, post);
    BlankHasNoInk(Front(pre));
    BlankHasNoInk(post);
    InkConcat(Front(pre) + HEADING + b, post);
    InkConcat(Front(pre) + HEADING, b);
    InkConcat(Front(pre), HEADING);
    InkConcat(HEADING, b);
    SolidKeepsInk(HEADING + b);
    SolidKeepsInk(Clean(rest));
    if Within(Solid(HEADING + b), Solid(Clean(rest))) { WithinInk(Solid(HEADING + b), Solid(Clean(rest))); }
  }

  // ----- one scratchpad that is never closed

  lemma OneOpen(a: string)
    requires !Contains(a, ANALYSIS_CLOSE) && !Contains(a, SUMMARY_OPEN)
    ensures var pre := ANALYSIS_OPEN + a; OpensNoSummary(pre) && LeftOpen(pre) && Front(pre) == []
  {
    hide Contains;
    var pre := ANALYSIS_OPEN + a;
    assert pre[..|ANALYSIS_OPEN|] == ANALYSIS_OPEN && At(pre, ANALYSIS_OPEN, 0);
    assert Find(pre, ANALYSIS_OPEN) == Some(0);
    assert pre[0..] == pre && pre[..0] == [];
    OpenerClosesNothing(a);
    NothingContains(SUMMARY_OPEN);
    if Contains(pre, SUMMARY_OPEN) { OpenerOpensNothing(a); }
  }

  lemma OpenerOpensNothing(a: string)
    requires !Contains(a, SUMMARY_OPEN)
    ensures !Contains(ANALYSIS_OPEN + a, SUMMARY_OPEN)
  {
    hide Contains;
    var s := ANALYSIS_OPEN + a;
    assert s[1] == 'a' && s[1..] == ANALYSIS_OPEN[1..] + a;
    ContainsStep(s, SUMMARY_OPEN);
    if Contains(s[1..], SUMMARY_OPEN) { ContainsAfter(ANALYSIS_OPEN[1..], a, SUMMARY_OPEN); }
  }

  /** Behind a scratchpad that is never closed, a summary survives exactly when it quotes no closing tag. */
  lemma UnclosedScratchpadIff(a: string, b: string)
    requires !Contains(a, ANALYSIS_CLOSE) && !Contains(a, SUMMARY_OPEN) && Whole(b)
    ensures Within(Solid(HEADING + b), Solid(Clean(ANALYSIS_OPEN + a + Wrapped(b)))) <==> !Contains(b, ANALYSIS_CLOSE)
  {
    hide Contains, Within, Solid, Clean, OpensNoSummary, LeftOpen, Front, Whole;
    OneOpen(a);
    NothingContains(SUMMARY_CLOSE);
    assert ANALYSIS_OPEN + a + Wrapped(b) == Output(ANALYSIS_OPEN + a, b, []);
    BodySurvivesIff(ANALYSIS_OPEN + a, b, []);
    CloserAddsNone(b);
  }

  lemma CloserAddsNone(b: string)
    ensures Contains(Behind(b, []), ANALYSIS_CLOSE) <==> Contains(b, ANALYSIS_CLOSE)
  {
    hide Contains;
    var s := Behind(b, []);
    if Contains(b, ANALYSIS_CLOSE) {
      FindInFront(b, SUMMARY_CLOSE + [], ANALYSIS_CLOSE);
    } else {
      SecondCharacter(b);
    }
  }

  lemma SecondCharacter(b: string)
    requires !Contains(b, ANALYSIS_CLOSE)
    ensures !Contains(Behind(b, []), ANALYSIS_CLOSE)
  {
    var s, n := Behind(b, []), |b|;
    assert s[n..n + |SUMMARY_CLOSE|] == SUMMARY_CLOSE;
    assert At(s, SUMMARY_CLOSE, n);
    forall j: nat ensures !At(s, ANALYSIS_CLOSE, j) {
      if At(s, ANALYSIS_CLOSE, j) {
        if j < n {
          TokensDisjoint(s, ANALYSIS_CLOSE, SUMMARY_CLOSE, j, n);
          assert b[j..j + |ANALYSIS_CLOSE|] == s[j..j + |ANALYSIS_CLOSE|];
          ContainsAt(b, ANALYSIS_CLOSE, j);
        }
        assert false;
      }
    }
  }

  /** The quoted tag is taken for the end of the scratchpad, and what came before it in the summary is gone. */
  lemma OpenScratchpadSwallows(a: string, x: string, y: string)
    requires !Contains(a + SUMMARY_OPEN + x, ANALYSIS_CLOSE)
    ensures Clean(ANALYSIS_OPEN + a + Wrapped(x + ANALYSIS_CLOSE + y)) == Clean(y + SUMMARY_CLOSE)
  {
    hide Clean, Contains;
    ScratchpadVanishes(a + SUMMARY_OPEN + x, y + SUMMARY_CLOSE);
    assert ANALYSIS_OPEN + a + Wrapped(x + ANALYSIS_CLOSE + y) ==
           ANALYSIS_OPEN + (a + SUMMARY_OPEN + x) + ANALYSIS_CLOSE + (y + SUMMARY_CLOSE);
  }

  /** A numbered summary that quotes the tag is lost up to the quote. */
  lemma NumberedSummaryIsLost()
    ensures var b := "1. Intent </analysis> b";
            && Trimmed(b) && Numbered(b)
            && Clean(ANALYSIS_OPEN + "x" + Wrapped(b)) == Clean(" b" + SUMMARY_CLOSE)
            && !Within(Solid(HEADING + b), Solid(Clean(ANALYSIS_OPEN + "x" + Wrapped(b))))
  {
    hide Clean, Within, Solid, Contains, Numbered, Trimmed, IsToken;
    var x, y := "1. Intent ", " b";
    QuotingBody();
    PlainFront();
    PlainScratchpad();
    NumberedIsWhole("1. Intent </analysis> b");
    UnclosedScratchpadIff("x", "1. Intent </analysis> b");
    OpenScratchpadSwallows("x", x, y);
  }

  lemma QuotingBody()
    ensures var b := "1. Intent </analysis> b";
            && b == "1. Intent " + ANALYSIS_CLOSE + " b" && Trimmed(b) && Numbered(b) && Contains(b, ANALYSIS_CLOSE)
  {
    hide Contains, Numbered, Trimmed;
    var x, y := "1. Intent ", " b";
    assert "1. Intent </analysis> b" == x + ANALYSIS_CLOSE + y;
    Quotes(x, y);
    LeadsWithDigit(x + ANALYSIS_CLOSE + y);
  }

  lemma Quotes(x: string, y: string)
    ensures Contains(x + ANALYSIS_CLOSE + y, ANALYSIS_CLOSE)
  {
    var b := x + ANALYSIS_CLOSE + y;
    assert b[|x|..|x| + |ANALYSIS_CLOSE|] == ANALYSIS_CLOSE;
    ContainsAt(b, ANALYSIS_CLOSE, |x|);
  }

  lemma LeadsWithDigit(b: string)
    requires b != [] && '0' <= b[0] <= '9' && 'a' <= b[|b| - 1] <= 'z'
    ensures Trimmed(b) && Numbered(b)
  {
    hide IsSpace, TrimStartMatches;
    PlainIsVisible(b[0]);
    PlainIsVisible(b[|b| - 1]);
    NothingMatches(b, {'#', '*', '-', '>', ' ', '\t'});
  }

  lemma PlainIsVisible(c: char)
    requires '!' <= c <= '~'
    ensures !IsSpace(c)
  {
  }

  lemma NothingMatches(s: string, chars: set<char>)
    requires s != [] && s[0] !in chars
    ensures TrimStartMatches(s, chars) == s
  {
  }

  lemma PlainScratchpad()
    ensures !Contains("x", ANALYSIS_CLOSE) && !Contains("x", SUMMARY_OPEN)
  {
    NoToken("x", ANALYSIS_CLOSE);
    NoToken("x", SUMMARY_OPEN);
  }

  lemma PlainFront()
    ensures !Contains("x" + SUMMARY_OPEN + "1. Intent ", ANALYSIS_CLOSE)
  {
    var s := "x" + SUMMARY_OPEN + "1. Intent ";
    assert forall j :: 0 <= j < |s| ==> s[j] != '/';
    forall j: nat ensures !At(s, ANALYSIS_CLOSE, j) {
      if At(s, ANALYSIS_CLOSE, j) { AtChar(s, ANALYSIS_CLOSE, j, 1); assert false; }
    }
  }
}
