/** The rest of what the cleaner does: scratchpads inside the wrapper or without one, and text without tags. */
module SummaryPlain {
  import opened Wrappers
  import opened Text
  import opened Summary
  import opened SummaryKept
  import opened SummaryScratch

  // ----- what counts as numbered

  predicate IsDigit(c: char) { '0' <= c <= '9' }

  /** A digit comes first behind nothing but the given marks. */
  ghost predicate DigitBehind(b: string, marks: set<char>) {
    exists n: nat :: n < |b| && IsDigit(b[n]) && forall i :: 0 <= i < n ==> b[i] in marks
  }

  lemma DigitBehindIff(b: string, marks: set<char>)
    requires forall c | c in marks :: !IsDigit(c)
    ensures var lead := TrimStartMatches(b, marks); DigitBehind(b, marks) <==> lead != [] && IsDigit(lead[0])
  {
    hide TrimStartMatches, IsDigit;
    var n := SkipsMarks(b, marks);
    if DigitBehind(b, marks) {
      var m: nat :| m < |b| && IsDigit(b[m]) && forall i :: 0 <= i < m ==> b[i] in marks;
      assert m == n;
    }
  }

  /** A body is numbered exactly if a digit comes first behind nothing but the marks of a heading, list or quote. */
  lemma NumberedIff(b: string)
    ensures Numbered(b) <==> DigitBehind(b, {'#', '*', '-', '>', ' ', '\t'})
  {
    hide TrimStartMatches, DigitBehind;
    DigitBehindIff(b, {'#', '*', '-', '>', ' ', '\t'});
  }

  lemma {:induction false} SkipsMarks(s: string, marks: set<char>) returns (n: nat)
    ensures n <= |s| && TrimStartMatches(s, marks) == s[n..] && (n < |s| ==> s[n] !in marks)
    ensures forall i :: 0 <= i < n ==> s[i] in marks
  {
    if s != [] && s[0] in marks {
      var m := SkipsMarks(s[1..], marks);
      n := m + 1;
      SkipsOneMore(s, marks, m);
    } else {
      n := 0;
    }
  }

  lemma SkipsOneMore(s: string, marks: set<char>, m: nat)
    requires s != [] && s[0] in marks && m < |s| && forall i :: 0 <= i < m ==> s[1..][i] in marks
    ensures s[1..][m..] == s[m + 1..] && forall i :: 0 <= i < m + 1 ==> s[i] in marks
  {
    forall i | 0 <= i < m + 1 ensures s[i] in marks {
      if i > 0 { assert s[1..][i - 1] == s[i]; }
    }
  }

  // ----- a scratchpad right inside the wrapper

  lemma BlankTrims(gap: string)
    requires Blank(gap)
    ensures Trim(gap) == []
  {
    hide IsSpace;
    TrimPadded(gap, [], []);
    assert gap + [] + [] == gap;
  }

  lemma BlankOpensNothing(gap: string)
    requires Blank(gap)
    ensures '<' !in gap
  {
    NotSpace();
  }

  /** A closed scratchpad at the front of some text. */
  function Scratch(a: string): string { ANALYSIS_OPEN + a + ANALYSIS_CLOSE }

  /** Where the first scratchpad stands and ends, behind text that opens none. */
  lemma ScratchFinds(front: string, a: string, rest: string)
    requires !Contains(front, ANALYSIS_OPEN) && !Contains(a, ANALYSIS_CLOSE)
    ensures var s := front + (Scratch(a) + rest);
            && Find(s, ANALYSIS_OPEN) == Some(|front|)
            && Find(s[|front|..], ANALYSIS_CLOSE) == Some(|ANALYSIS_OPEN + a|)
            && s[..|front|] == front && s[|front| + |Scratch(a)|..] == rest
  {
    hide Contains, Find, At;
    var s := front + (Scratch(a) + rest);
    var behind := a + ANALYSIS_CLOSE + rest;
    assert Scratch(a) + rest == ANALYSIS_OPEN + behind;
    FindFirst(front, ANALYSIS_OPEN, behind);
    OpenerClosesNothing(a);
    assert s[|front|..] == (ANALYSIS_OPEN + a) + (ANALYSIS_CLOSE + rest);
    FindFirst(ANALYSIS_OPEN + a, ANALYSIS_CLOSE, rest);
    assert s == (front + Scratch(a)) + rest;
  }

  lemma CutsOut(front: string, a: string, rest: string)
    requires !Contains(front, ANALYSIS_OPEN) && !Contains(a, ANALYSIS_CLOSE)
    requires var s := front + (Scratch(a) + rest);
             Find(s, ANALYSIS_OPEN) == Some(|front|) && IsLeading(s, |front|)
    ensures StripAnalysis(front + (Scratch(a) + rest)) == StripAnalysis(front + rest)
  {
    hide Contains, Find, At, IsLeading;
    ScratchFinds(front, a, rest);
    var s := front + (Scratch(a) + rest);
    assert |front| + |ANALYSIS_OPEN + a| + |ANALYSIS_CLOSE| == |front| + |Scratch(a)|;
    assert StripRound(s) == Cut(front + rest);
  }

  /** A scratchpad that opens the body, blanks aside, goes before the wrapper is looked at. */
  lemma InnerScratchpadGoes(pre: string, gap: string, a: string, rest: string, post: string)
    requires IsOutput(pre, post) && Blank(gap) && !Contains(a, ANALYSIS_CLOSE)
    ensures StripAnalysis(Output(pre, gap + (Scratch(a) + rest), post)) == StripAnalysis(Output(pre, gap + rest, post))
    ensures Clean(Output(pre, gap + (Scratch(a) + rest), post)) == Clean(Output(pre, gap + rest, post))
  {
    hide Contains, Find, At, IsLeading, StripAnalysis, UnwrapSummary, CollapseNewlines, NeutralizeControlTokens, Trim, Blank;
    var front, tail := pre + SUMMARY_OPEN + gap, rest + (SUMMARY_CLOSE + post);
    var s := front + (Scratch(a) + tail);
    OutputFrom(pre, gap, Scratch(a) + rest, post);
    OutputFrom(pre, gap, rest, post);
    assert Scratch(a) + rest + (SUMMARY_CLOSE + post) == Scratch(a) + tail;
    hide Output, Scratch;
    BlankOpensNothing(gap);
    WrapperOpensNone(pre, gap);
    ScratchFinds(front, a, tail);
    FirstWrapper(pre, gap, Scratch(a) + tail);
    LeadsInside(s, pre, gap);
    CutsOut(front, a, tail);
  }

  lemma OutputFrom(pre: string, gap: string, rest: string, post: string)
    ensures Output(pre, gap + rest, post) == pre + SUMMARY_OPEN + gap + (rest + (SUMMARY_CLOSE + post))
  {
  }

  lemma WrapperOpensNone(pre: string, gap: string)
    requires !Contains(pre, ANALYSIS_OPEN) && '<' !in gap
    ensures !Contains(pre + SUMMARY_OPEN + gap, ANALYSIS_OPEN)
  {
    hide Contains, Find;
    TagTokens();
    FindInRest(pre, SUMMARY_OPEN, gap, ANALYSIS_OPEN);
    NoToken(gap, ANALYSIS_OPEN);
    assert pre + SUMMARY_OPEN + gap == pre + (SUMMARY_OPEN + gap);
    NotFound(gap);
    NotFound(pre + SUMMARY_OPEN + gap);
  }

  lemma TagTokens()
    ensures IsToken(SUMMARY_OPEN) && IsToken(ANALYSIS_OPEN)
  {
  }

  lemma NotFound(s: string)
    ensures Find(s, ANALYSIS_OPEN).None? <==> !Contains(s, ANALYSIS_OPEN)
  {
  }

  lemma FirstWrapper(pre: string, gap: string, rest: string)
    requires !Contains(pre, SUMMARY_OPEN)
    ensures Find(pre + SUMMARY_OPEN + gap + rest, SUMMARY_OPEN) == Some(|pre|)
  {
    hide Contains, Find;
    assert pre + SUMMARY_OPEN + gap + rest == pre + (SUMMARY_OPEN + (gap + rest));
    FindFirst(pre, SUMMARY_OPEN, gap + rest);
  }

  lemma LeadsInside(s: string, pre: string, gap: string)
    requires pre + SUMMARY_OPEN + gap <= s && Find(s, SUMMARY_OPEN) == Some(|pre|) && Blank(gap)
    requires At(s, ANALYSIS_OPEN, |pre + SUMMARY_OPEN + gap|)
    ensures IsLeading(s, |pre + SUMMARY_OPEN + gap|)
  {
    hide Trim, Blank, Find, At;
    var k := |pre| + |SUMMARY_OPEN|;
    assert s[k..k + |gap|] == (pre + SUMMARY_OPEN + gap)[k..] == gap;
    BlankTrims(gap);
  }

  // ----- a scratchpad with nothing but blanks in front

  lemma LeadsAlone(gap: string, rest: string)
    requires Blank(gap) && At(gap + rest, ANALYSIS_OPEN, |gap|)
    ensures IsLeading(gap + rest, |gap|)
  {
    hide Trim, Contains;
    var s := gap + rest;
    BlankTrims(gap);
    BlankOpensNothing(gap);
    assert s[..|gap|] == gap;
    NoToken(gap, SUMMARY_OPEN);
    if Find(s, SUMMARY_OPEN).Some? { SummaryLater(s, |gap|); }
  }

  /** A closed scratchpad behind blanks leaves no trace, whatever follows. */
  lemma BlankScratchpadGoes(gap: string, a: string, rest: string)
    requires Blank(gap) && !Contains(a, ANALYSIS_CLOSE)
    ensures Clean(gap + (Scratch(a) + rest)) == Clean(gap + rest)
  {
    hide Contains, Find, IsLeading, StripAnalysis, UnwrapSummary, CollapseNewlines, NeutralizeControlTokens, Trim, Blank;
    BlankOpensNothing(gap);
    NoToken(gap, ANALYSIS_OPEN);
    ScratchFinds(gap, a, rest);
    LeadsAlone(gap, Scratch(a) + rest);
    CutsOut(gap, a, rest);
  }

  /** One that is never closed, with no summary behind it, takes everything with it. */
  lemma OpenScratchpadTakesAll(gap: string, a: string)
    requires Blank(gap) && !Contains(a, ANALYSIS_CLOSE) && !Contains(a, SUMMARY_OPEN)
    ensures Clean(gap + (ANALYSIS_OPEN + a)) == []
  {
    hide Contains, IsLeading, UnwrapSummary, CollapseNewlines, NeutralizeControlTokens, Trim, Blank, At;
    var s := gap + (ANALYSIS_OPEN + a);
    BlankOpensNothing(gap);
    NoToken(gap, ANALYSIS_OPEN);
    FindFirst(gap, ANALYSIS_OPEN, a);
    LeadsAlone(gap, ANALYSIS_OPEN + a);
    assert s[|gap|..] == ANALYSIS_OPEN + a && s[..|gap|] == gap && s[|s|..] == [] && gap + [] == gap;
    OpenerClosesNothing(a);
    OpenerOpensNothing(a);
    assert StripRound(s) == CutAndStop(gap);
    BlankCleansAway(gap);
  }

  lemma BlankCleansAway(gap: string)
    requires Blank(gap)
    ensures Trim(CollapseNewlines(NeutralizeControlTokens(UnwrapSummary(gap)))) == []
  {
    hide Contains, Trim, Blank, Squeeze, Neutralize, CollapseNewlines;
    BlankOpensNothing(gap);
    NoToken(gap, SUMMARY_OPEN);
    assert UnwrapSummary(gap) == gap;
    ControlTokensAreTokens();
    assert gap + [] == gap;
    NeutralizeSkips(gap, [], CONTROL_TOKENS);
    NothingNeutralized(CONTROL_TOKENS);
    CollapseIsSqueeze(gap);
    BlankSqueezes(0, gap);
    BlankTrims(Squeeze(0, gap));
  }

  lemma {:induction false} NothingNeutralized(tokens: seq<string>)
    requires forall t | t in tokens :: IsToken(t)
    ensures Neutralize([], tokens) == []
    decreases |tokens|
  {
    if tokens != [] { NothingNeutralized(tokens[1..]); }
  }

  lemma {:induction false} BlankSqueezes(run: nat, s: string)
    requires run <= 2 && Blank(s)
    ensures Blank(Squeeze(run, s))
    decreases |s|
  {
    hide IsSpace;
    if s != [] { BlankSqueezes(if s[0] != '\n' then 0 else if run == 2 then 2 else run + 1, s[1..]); }
  }

  // ----- text that is left alone

  /** Text in front of the first scratchpad and no summary at all: nothing is stripped. */
  lemma VisibleTextStops(x: string, i: nat, rest: string)
    requires i < |x| && !IsSpace(x[i]) && !Contains(x, ANALYSIS_OPEN)
    requires !Contains(x + (ANALYSIS_OPEN + rest), SUMMARY_OPEN)
    ensures StripAnalysis(x + (ANALYSIS_OPEN + rest)) == x + (ANALYSIS_OPEN + rest)
  {
    hide Contains, IsSpace, Trim;
    var s := x + (ANALYSIS_OPEN + rest);
    FindFirst(x, ANALYSIS_OPEN, rest);
    assert s[..|x|] == x;
    TrimKeepsVisible(x, i);
  }

  /** A summary tag that is never closed, or none, is no wrapper. */
  lemma NoWrapperStays(s: string)
    requires forall i: nat, j: nat :: i < j && At(s, SUMMARY_OPEN, i) ==> !At(s, SUMMARY_CLOSE, j)
    ensures UnwrapSummary(s) == s
  {
  }

  /** Text that opens neither a scratchpad nor a summary keeps every character but newlines, in order. */
  lemma PlainTextSurvives(s: string)
    requires !Contains(s, ANALYSIS_OPEN) && !Contains(s, SUMMARY_OPEN)
    ensures Within(Solid(Trim(s)), Solid(Clean(s)))
  {
    hide Contains, Within, Solid, Trim, CollapseNewlines, Neutralize, UnwrapSummary, StripAnalysis;
    ControlTokensAreTokens();
    NothingToUnwrap(s);
    var i, j := TrimIsSlice(s);
    var t := Trim(s);
    assert s == s[..i] + t + s[j..];
    if Solid(t) == [] {
      NothingWithin(Solid(Clean(s)));
    } else {
      TrimmedEnds(t);
      FinishKeepsAll(t, s[..i], s[j..], CONTROL_TOKENS);
    }
  }

  lemma TrimmedEnds(t: string)
    requires Trimmed(t) && Solid(t) != []
    ensures !IsSpace(Solid(t)[0]) && !IsSpace(Solid(t)[|Solid(t)| - 1])
  {
    hide IsSpace;
    NotSpace();
    var n := |t| - 1;
    assert t == [t[0]] + t[1..] && t == t[..n] + [t[n]];
    SolidConcat([t[0]], t[1..]);
    SolidConcat(t[..n], [t[n]]);
    SolidOne(t[0]);
    SolidOne(t[n]);
  }

  // ----- the tags by name

  /** The six tags that could prime the next turn never survive. */
  lemma CleanHoldsNoTag(s: string)
    ensures !Contains(Clean(s), "<analysis>") && !Contains(Clean(s), "</analysis>")
    ensures !Contains(Clean(s), "<summary>") && !Contains(Clean(s), "</summary>")
    ensures !Contains(Clean(s), "<summary_request>") && !Contains(Clean(s), "</summary_request>")
  {
    hide Contains, Clean;
    CleanIsInert(s);
    var tokens := CONTROL_TOKENS;
    assert tokens[0] == "</summary>" && tokens[1] == "<summary>" && tokens[2] == "</analysis>";
    assert tokens[3] == "<analysis>" && tokens[4] == "</summary_request>" && tokens[5] == "<summary_request>";
  }
}
