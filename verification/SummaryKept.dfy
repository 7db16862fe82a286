/**
 What cleaning keeps: with no scratchpad left open in front, a summary that leads with
 a numbered section comes through whole whatever tags it quotes, and a closed
 scratchpad before it leaves no trace.
 */
module SummaryKept {
  import opened Wrappers
  import opened Text
  import opened Summary

  function Wrapped(body: string): string {
    SUMMARY_OPEN + body + SUMMARY_CLOSE
  }

  // ----- a wrapped body between other text

  /** The model's output: text that opens neither a summary nor a scratchpad, the wrapped body, text that closes no summary. */
  ghost predicate IsOutput(pre: string, post: string) {
    !Contains(pre, SUMMARY_OPEN) && !Contains(pre, ANALYSIS_OPEN) && !Contains(post, SUMMARY_CLOSE)
  }

  function Output(pre: string, b: string, post: string): string {
    pre + (Wrapped(b) + post)
  }

  lemma OutputParts(pre: string, b: string, post: string)
    ensures var s, k := Output(pre, b, post), |pre| + |SUMMARY_OPEN|;
            && |s| == k + |b| + |SUMMARY_CLOSE| + |post|
            && s[..|pre|] == pre && s[|pre|..k] == SUMMARY_OPEN && s[k..k + |b|] == b
            && s[k + |b|..k + |b| + |SUMMARY_CLOSE|] == SUMMARY_CLOSE && s[k + |b| + |SUMMARY_CLOSE|..] == post
            && s[k..] == b + (SUMMARY_CLOSE + post)
  {
    assert Output(pre, b, post) == pre + (SUMMARY_OPEN + b + SUMMARY_CLOSE + post);
    Pieces(pre, SUMMARY_OPEN, b, SUMMARY_CLOSE, post);
  }

  lemma Pieces(pre: string, o: string, b: string, c: string, post: string)
    ensures var s, k := pre + (o + b + c + post), |pre| + |o|;
            && |s| == k + |b| + |c| + |post|
            && s[..|pre|] == pre && s[|pre|..k] == o && s[k..k + |b|] == b
            && s[k + |b|..k + |b| + |c|] == c && s[k + |b| + |c|..] == post
            && s[k..] == b + (c + post)
  {
  }

  lemma OutputFinds(pre: string, b: string, post: string)
    requires !Contains(pre, SUMMARY_OPEN) && !Contains(post, SUMMARY_CLOSE)
    ensures Find(Output(pre, b, post), SUMMARY_OPEN) == Some(|pre|)
    ensures RFind(Output(pre, b, post), SUMMARY_CLOSE) == Some(|pre| + |SUMMARY_OPEN| + |b|)
  {
    hide Find, RFind, Contains;
    var before := pre + SUMMARY_OPEN + b;
    assert Output(pre, b, post) == pre + (SUMMARY_OPEN + (b + SUMMARY_CLOSE + post));
    FindFirst(pre, SUMMARY_OPEN, b + SUMMARY_CLOSE + post);
    assert Output(pre, b, post) == before + (SUMMARY_CLOSE + post);
    FindLast(before, SUMMARY_CLOSE, post);
  }

  /** The body shows something before it first opens a scratchpad. */
  ghost predicate ShowsFirst(b: string, post: string, i: nat) {
    && i < |b| && !IsSpace(b[i])
    && forall j: nat :: j <= i ==> !At(b + (SUMMARY_CLOSE + post), ANALYSIS_OPEN, j)
  }

  /** Then nothing in it counts as leading scratchpad, and the loop leaves the text alone. */
  lemma StripStays(pre: string, b: string, post: string, i: nat)
    requires IsOutput(pre, post) && ShowsFirst(b, post, i)
    ensures StripAnalysis(Output(pre, b, post)) == Output(pre, b, post)
  {
    var s, k := Output(pre, b, post), |pre| + |SUMMARY_OPEN|;
    OutputParts(pre, b, post);
    OutputFinds(pre, b, post);
    hide Output, IsSpace, IsLeading, Trim, Contains;
    var found := Find(s, ANALYSIS_OPEN);
    if found.Some? {
      var start := found.value;
      AnalysisAfterBody(s, pre, start);
      AtShift(s, ANALYSIS_OPEN, k, start - k);
      assert start - k > i;
      assert s[k..start][i] == s[k..k + |b|][i];
      TrimKeepsVisible(s[k..start], i);
      NotLeading(s, |pre|, start);
    }
  }

  lemma NotLeading(s: string, sp: nat, start: nat)
    requires At(s, ANALYSIS_OPEN, start) && Find(s, SUMMARY_OPEN) == Some(sp) && sp + |SUMMARY_OPEN| <= start
    requires Trim(s[sp + |SUMMARY_OPEN|..start]) != []
    ensures !IsLeading(s, start)
  {
    hide Trim, At, Find;
  }

  lemma AnalysisAfterBody(s: string, pre: string, start: nat)
    requires !Contains(pre, ANALYSIS_OPEN) && pre <= s && At(s, SUMMARY_OPEN, |pre|) && At(s, ANALYSIS_OPEN, start)
    ensures |pre| + |SUMMARY_OPEN| <= start
  {
    if start < |pre| {
      TokensDisjoint(s, ANALYSIS_OPEN, SUMMARY_OPEN, start, |pre|);
      assert pre[start..start + |ANALYSIS_OPEN|] == s[start..start + |ANALYSIS_OPEN|];
      ContainsAt(pre, ANALYSIS_OPEN, start);
    } else {
      SummaryBeforeAnalysis(s, |pre|, start);
    }
  }

  lemma UnwrapOutput(pre: string, b: string, post: string, i: nat)
    requires IsOutput(pre, post) && ShowsFirst(b, post, i)
    ensures UnwrapSummary(StripAnalysis(Output(pre, b, post))) == pre + HEADING + PeelScratchpad(Trim(b)) + post
  {
    hide Output, IsSpace, At, Contains, PeelScratchpad, Find, RFind, Trim, StripAnalysis, ShowsFirst, UnwrapSummary;
    StripStays(pre, b, post, i);
    OutputParts(pre, b, post);
    OutputFinds(pre, b, post);
    UnwrapAt(Output(pre, b, post), |pre|, |pre| + |SUMMARY_OPEN| + |b|);
  }

  lemma UnwrapAt(s: string, start: nat, end: nat)
    requires Find(s, SUMMARY_OPEN) == Some(start) && RFind(s, SUMMARY_CLOSE) == Some(end) && start + |SUMMARY_OPEN| <= end
    ensures UnwrapSummary(s)
         == s[..start] + HEADING + PeelScratchpad(Trim(s[start + |SUMMARY_OPEN|..end])) + s[end + |SUMMARY_CLOSE|..]
  {
    hide At, Contains, PeelScratchpad, Trim;
  }

  // ----- a numbered body

  /** The first character of a numbered body is visible and opens no tag. */
  lemma NumberedFront(b: string)
    requires Trimmed(b) && Numbered(b)
    ensures b != [] && !IsSpace(b[0]) && b[0] != '<'
  {
  }

  /**
   A body that is left whole: it shows something at once, and it is numbered, or closes no
   scratchpad and opens no second wrapper.
   */
  ghost predicate Whole(b: string) {
    && Trimmed(b) && b != [] && !(ANALYSIS_OPEN <= b)
    && (Numbered(b) || (!Contains(b, ANALYSIS_CLOSE) && !(SUMMARY_OPEN <= b)))
  }

  lemma NumberedIsWhole(b: string)
    requires Trimmed(b) && Numbered(b)
    ensures Whole(b)
  {
    hide IsSpace, Numbered;
    NumberedFront(b);
  }

  lemma PeelKeepsWhole(b: string)
    requires Whole(b)
    ensures PeelScratchpad(Trim(b)) == b
  {
    if Numbered(b) { NumberedFront(b); }
    TrimOfTrimmed(b);
  }

  /** A trimmed body that opens no scratchpad shows its first character before any. */
  lemma ShowsAtOnce(b: string, post: string)
    requires Trimmed(b) && b != [] && !(ANALYSIS_OPEN <= b)
    ensures ShowsFirst(b, post, 0)
  {
    hide IsSpace;
    var rest := b + (SUMMARY_CLOSE + post);
    assert |b| >= |ANALYSIS_OPEN| ==> rest[..|ANALYSIS_OPEN|] == b[..|ANALYSIS_OPEN|];
    assert rest[|b|] == '<';
    if At(rest, ANALYSIS_OPEN, 0) {
      if |b| < |ANALYSIS_OPEN| { AtChar(rest, ANALYSIS_OPEN, 0, |b|); }
      assert false;
    }
  }

  /** With no scratchpad in front, unwrapping such a body changes the wrapper and nothing else. */
  lemma UnwrapWhole(pre: string, b: string, post: string)
    requires IsOutput(pre, post) && Whole(b)
    ensures UnwrapSummary(StripAnalysis(Output(pre, b, post))) == pre + HEADING + b + post
  {
    hide IsSpace, Contains, PeelScratchpad, StripAnalysis, Output, Numbered, Trim, UnwrapSummary, ShowsFirst;
    ShowsAtOnce(b, post);
    UnwrapOutput(pre, b, post, 0);
    PeelKeepsWhole(b);
  }

  /** A second wrapper right inside the first goes with it, where nothing else is peeled. */
  lemma InnerWrapperGoes(pre: string, c: string, post: string)
    requires IsOutput(pre, post) && Trimmed(SUMMARY_OPEN + c) && !Contains(c, ANALYSIS_CLOSE)
    ensures UnwrapSummary(StripAnalysis(Output(pre, SUMMARY_OPEN + c, post))) == pre + HEADING + TrimStart(c) + post
  {
    hide IsSpace, PeelScratchpad, StripAnalysis, Output, Numbered, Trim, UnwrapSummary, ShowsFirst, Contains;
    var b := SUMMARY_OPEN + c;
    assert b[1] == 's';
    ShowsAtOnce(b, post);
    UnwrapOutput(pre, b, post, 0);
    TrimOfTrimmed(b);
    OpenerQuotesNothing(c);
    PeelInner(b, c);
  }

  lemma OpenerQuotesNothing(c: string)
    requires !Contains(c, ANALYSIS_CLOSE)
    ensures !Contains(SUMMARY_OPEN + c, ANALYSIS_CLOSE)
  {
    hide Contains;
    var s := SUMMARY_OPEN + c;
    assert s[1] == 's' && s[1..] == SUMMARY_OPEN[1..] + c;
    ContainsStep(s, ANALYSIS_CLOSE);
    if Contains(s[1..], ANALYSIS_CLOSE) { ContainsAfter(SUMMARY_OPEN[1..], c, ANALYSIS_CLOSE); }
  }

  lemma PeelInner(b: string, c: string)
    requires b == SUMMARY_OPEN + c && Trim(b) == b && !Contains(b, ANALYSIS_CLOSE)
    ensures PeelScratchpad(b) == TrimStart(c)
  {
    hide Numbered, TrimStart, TrimEnd, Trim;
    assert b[|SUMMARY_OPEN|..] == c && SUMMARY_OPEN <= b;
    if RFind(b, ANALYSIS_CLOSE).Some? { ContainsAt(b, ANALYSIS_CLOSE, RFind(b, ANALYSIS_CLOSE).value); }
  }

  // ----- an untagged scratchpad inside the wrapper

  /** An extra wrapper right behind the scratchpad goes with it. */
  function DropOpener(s: string): string {
    if SUMMARY_OPEN <= s then TrimStart(s[|SUMMARY_OPEN|..]) else s
  }

  /**
   Drafting text that a body opens with, up to its last `</analysis>`, is dropped whole
   unless the body is numbered, even if the draft itself quotes `</analysis>` before.
   */
  lemma ScratchpadIsPeeled(pre: string, b: string, post: string, a: string, c: string)
    requires IsOutput(pre, post) && Trimmed(b) && !Numbered(b)
    requires b == a + (ANALYSIS_CLOSE + c) && !(ANALYSIS_OPEN <= b) && !Contains(c, ANALYSIS_CLOSE)
    ensures UnwrapSummary(StripAnalysis(Output(pre, b, post))) == pre + HEADING + DropOpener(TrimStart(c)) + post
  {
    hide Contains, StripAnalysis, Output, Numbered, At, RFind, UnwrapSummary, ShowsFirst, PeelScratchpad, DropOpener,
         Trimmed, TrimStart, TrimEnd, Trim;
    ShowsAtOnce(b, post);
    UnwrapOutput(pre, b, post, 0);
    TrimOfTrimmed(b);
    FindLast(a, ANALYSIS_CLOSE, c);
    PeelAt(b, a, c);
  }

  lemma PeelAt(b: string, a: string, c: string)
    requires b == a + (ANALYSIS_CLOSE + c) && RFind(b, ANALYSIS_CLOSE) == Some(|a|)
    requires Trim(b) == b && !Numbered(b)
    ensures PeelScratchpad(b) == DropOpener(TrimStart(c))
  {
    hide Contains, Numbered, TrimStart, TrimEnd, Trim, At, RFind;
    assert b[|a| + |ANALYSIS_CLOSE|..] == c;
  }

  // ----- neutralizing and squeezing, piece by piece

  lemma {:induction false} NeutralizeSkips(a: string, x: string, tokens: seq<string>)
    requires forall t | t in tokens :: IsToken(t)
    requires '<' !in a
    ensures Neutralize(a + x, tokens) == a + Neutralize(x, tokens)
    decreases |tokens|
  {
    if tokens != [] {
      ReplaceSkips(a, x, tokens[0], Defuse(tokens[0]));
      NeutralizeSkips(a, Replace(x, tokens[0], Defuse(tokens[0])), tokens[1..]);
    }
  }

  lemma {:induction false} ReplaceKeepsLast(s: string, pat: string, rep: string)
    requires pat != [] && rep != [] && pat[|pat| - 1] == rep[|rep| - 1] && s != []
    ensures var r := Replace(s, pat, rep); r != [] && r[|r| - 1] == s[|s| - 1]
  {
    var rest := if pat <= s then s[|pat|..] else s[1..];
    var front := if pat <= s then rep else [s[0]];
    assert Replace(s, pat, rep) == front + Replace(rest, pat, rep);
    if rest == [] {
      assert pat <= s ==> s == pat;
      assert Replace(s, pat, rep) == front;
    } else {
      ReplaceKeepsLast(rest, pat, rep);
      assert rest[|rest| - 1] == s[|s| - 1];
    }
  }

  lemma {:induction false} NeutralizeKeepsLast(s: string, tokens: seq<string>)
    requires forall t | t in tokens :: IsToken(t)
    requires s != []
    ensures var r := Neutralize(s, tokens); r != [] && r[|r| - 1] == s[|s| - 1]
    decreases |tokens|
  {
    if tokens != [] {
      var t := tokens[0];
      assert IsToken(t) && Defuse(t)[|t|] == t[|t| - 1];
      ReplaceKeepsLast(s, t, Defuse(t));
      NeutralizeKeepsLast(Replace(s, t, Defuse(t)), tokens[1..]);
    }
  }

  lemma {:induction false} SqueezeKeepsLast(run: nat, s: string)
    requires run <= 2 && s != [] && s[|s| - 1] != '\n'
    ensures var r := Squeeze(run, s); r != [] && r[|r| - 1] == s[|s| - 1]
    decreases |s|
  {
    if |s| > 1 {
      SqueezeKeepsLast(if s[0] != '\n' then 0 else if run == 2 then 2 else run + 1, s[1..]);
    }
  }

  lemma {:induction false} SqueezeGap(run: nat, gap: string, x: string) returns (squeezed: string)
    requires run <= 2 && Blank(gap) && x != [] && x[0] != '\n'
    ensures Blank(squeezed) && Squeeze(run, gap + x) == squeezed + Squeeze(0, x)
    decreases |gap|
  {
    hide IsSpace;
    if gap == [] {
      assert gap + x == x;
      squeezed := [];
    } else {
      assert (gap + x)[0] == gap[0] && (gap + x)[1..] == gap[1..] + x;
      var tail := SqueezeGap(if gap[0] != '\n' then 0 else if run == 2 then 2 else run + 1, gap[1..], x);
      squeezed := if gap[0] == '\n' && run == 2 then tail else [gap[0]] + tail;
      assert Squeeze(run, gap + x) == squeezed + Squeeze(0, x);
    }
  }

  // ----- the main results

  /**
   A numbered summary is never truncated: cleaning its wrapped form only puts the
   heading in front, defuses the tokens it quotes and squeezes its blank lines.
   */
  lemma NumberedSummaryIsKept(gap: string, b: string)
    requires Blank(gap) && Trimmed(b) && Numbered(b)
    ensures Clean(gap + Wrapped(b)) == CollapseNewlines(NeutralizeControlTokens(HEADING + b))
  {
    hide IsSpace, Squeeze, UnwrapSummary, StripAnalysis, Wrapped, Numbered, CollapseNewlines, Neutralize;
    ControlTokensAreTokens();
    NumberedFront(b);
    NotSpace();
    assert '<' !in gap;
    NothingContains(SUMMARY_CLOSE);
    NoToken(gap, SUMMARY_OPEN);
    NoToken(gap, ANALYSIS_OPEN);
    NumberedIsWhole(b);
    UnwrapWhole(gap, b, []);
    assert Output(gap, b, []) == gap + Wrapped(b);
    assert gap + HEADING + b + [] == gap + (HEADING + b);
    NeutralizeSkips(gap, HEADING + b, CONTROL_TOKENS);
    NeutralizeSkips(HEADING, b, CONTROL_TOKENS);
    var x := HEADING + Neutralize(b, CONTROL_TOKENS);
    NeutralizeKeepsLast(b, CONTROL_TOKENS);
    assert x[|x| - 1] == b[|b| - 1];
    NotSpace();
    var g := SqueezeGap(0, gap, x);
    SqueezeKeepsLast(0, x);
    SqueezeFront(x);
    CollapseIsSqueeze(gap + x);
    CollapseIsSqueeze(x);
    var r := Squeeze(0, x);
    TrimPadded(g, r, []);
    assert g + r + [] == g + r;
  }

  lemma NothingContains(pat: string)
    requires pat != []
    ensures !Contains([], pat)
  {
  }

  lemma NotSpace()
    ensures !IsSpace('<') && !IsSpace('S') && IsSpace('\n')
  {
  }

  lemma SqueezeFront(x: string)
    requires x != [] && x[0] != '\n'
    ensures Squeeze(0, x) != [] && Squeeze(0, x)[0] == x[0]
  {
  }

  /** A closed scratchpad in front of anything vanishes, whatever else it quotes. */
  lemma ScratchpadVanishes(a: string, rest: string)
    requires !Contains(a, ANALYSIS_CLOSE)
    ensures Clean(ANALYSIS_OPEN + a + ANALYSIS_CLOSE + rest) == Clean(rest)
  {
    var s := ANALYSIS_OPEN + a + ANALYSIS_CLOSE + rest;
    var before := ANALYSIS_OPEN + a;
    assert s == before + (ANALYSIS_CLOSE + rest) && s[|before| + |ANALYSIS_CLOSE|..] == rest;
    OpenerClosesNothing(a);
    FindFirst(before, ANALYSIS_CLOSE, rest);
    assert s[..|ANALYSIS_OPEN|] == ANALYSIS_OPEN && At(s, ANALYSIS_OPEN, 0);
    hide Find, At, Contains, UnwrapSummary, CollapseNewlines, NeutralizeControlTokens, Trim;
    RoundCuts(s, |before|, rest);
  }

  lemma OpenerClosesNothing(a: string)
    requires !Contains(a, ANALYSIS_CLOSE)
    ensures !Contains(ANALYSIS_OPEN + a, ANALYSIS_CLOSE)
  {
    hide Contains;
    var s := ANALYSIS_OPEN + a;
    assert s[1] == 'a' && s[1..] == ANALYSIS_OPEN[1..] + a;
    ContainsStep(s, ANALYSIS_CLOSE);
    if Contains(s[1..], ANALYSIS_CLOSE) {
      ContainsAfter(ANALYSIS_OPEN[1..], a, ANALYSIS_CLOSE);
    }
  }

  lemma RoundCuts(s: string, k: nat, rest: string)
    requires At(s, ANALYSIS_OPEN, 0) && Find(s, ANALYSIS_CLOSE) == Some(k)
    requires rest == s[k + |ANALYSIS_CLOSE|..]
    ensures StripRound(s) == Cut(rest)
  {
    hide Contains, IsSpace;
    assert s[0..] == s && s[..0] == [] && [] + rest == rest;
    TrimOfTrimmed([]);
    AtChar(s, ANALYSIS_OPEN, 0, 1);
    assert Find(s, ANALYSIS_OPEN) == Some(0);
    assert !At(s, SUMMARY_OPEN, 0) by {
      if At(s, SUMMARY_OPEN, 0) { AtChar(s, SUMMARY_OPEN, 0, 1); assert false; }
    }
    assert IsLeading(s, 0);
  }

  // ----- characters survive in order

  /** The text without newlines and zero-width spaces. */
  function Visible(s: string): string {
    if s == [] then []
    else (if s[0] == '\n' || s[0] == ZERO_WIDTH_SPACE then [] else [s[0]]) + Visible(s[1..])
  }

  lemma {:induction false} VisibleConcat(a: string, b: string)
    ensures Visible(a + b) == Visible(a) + Visible(b)
  {
    if a == [] {
      assert a + b == b;
    } else {
      assert (a + b)[0] == a[0] && (a + b)[1..] == a[1..] + b;
      VisibleConcat(a[1..], b);
    }
  }

  lemma {:induction false} VisibleReplaced(s: string, pat: string, rep: string)
    requires pat != [] && Visible(pat) == Visible(rep)
    ensures Visible(Replace(s, pat, rep)) == Visible(s)
  {
    if s != [] {
      if pat <= s {
        VisibleReplaced(s[|pat|..], pat, rep);
        VisibleConcat(rep, Replace(s[|pat|..], pat, rep));
        VisibleConcat(pat, s[|pat|..]);
        assert s == pat + s[|pat|..];
      } else {
        VisibleReplaced(s[1..], pat, rep);
        VisibleConcat([s[0]], Replace(s[1..], pat, rep));
      }
    }
  }

  lemma {:induction false} VisibleNeutralized(s: string, tokens: seq<string>)
    requires forall t | t in tokens :: IsToken(t)
    ensures Visible(Neutralize(s, tokens)) == Visible(s)
    decreases |tokens|
  {
    if tokens != [] {
      var t := tokens[0];
      assert IsToken(t);
      VisibleConcat(['<', ZERO_WIDTH_SPACE], t[1..]);
      assert t == ['<'] + t[1..];
      VisibleConcat(['<'], t[1..]);
      assert Visible(['<', ZERO_WIDTH_SPACE]) == Visible(['<']) by {
        assert ['<', ZERO_WIDTH_SPACE][1..] == [ZERO_WIDTH_SPACE];
      }
      VisibleReplaced(s, t, Defuse(t));
      VisibleNeutralized(Replace(s, t, Defuse(t)), tokens[1..]);
    }
  }

  lemma {:induction false} VisibleSqueezed(run: nat, s: string)
    requires run <= 2
    ensures Visible(Squeeze(run, s)) == Visible(s)
    decreases |s|
  {
    if s != [] {
      var next := if s[0] != '\n' then 0 else if run == 2 then 2 else run + 1;
      VisibleSqueezed(next, s[1..]);
      VisibleConcat([s[0]], Squeeze(next, s[1..]));
    }
  }

  // ----- every character survives

  /** `a` can be read off `b` from left to right by skipping characters. */
  predicate Within(a: string, b: string) {
    a == [] || (b != [] && ((a[0] == b[0] && Within(a[1..], b[1..])) || Within(a, b[1..])))
  }

  lemma {:induction false} WithinItself(a: string)
    ensures Within(a, a)
  {
    if a != [] { WithinItself(a[1..]); }
  }

  lemma {:induction false} WithinAfter(a: string, x: string, b: string)
    requires Within(a, b)
    ensures Within(a, x + b)
  {
    if x == [] {
      assert x + b == b;
    } else {
      assert (x + b)[1..] == x[1..] + b;
      WithinAfter(a, x[1..], b);
    }
  }

  lemma {:induction false} WithinConcat(a: string, b: string, c: string, d: string)
    requires Within(a, b) && Within(c, d)
    ensures Within(a + c, b + d)
    decreases |b|
  {
    if a == [] {
      assert a + c == c;
      WithinAfter(c, b, d);
    } else {
      var s := b + d;
      assert s[0] == b[0] && s[1..] == b[1..] + d && (a + c)[0] == a[0] && (a + c)[1..] == a[1..] + c;
      if a[0] == b[0] && Within(a[1..], b[1..]) {
        WithinConcat(a[1..], b[1..], c, d);
      } else {
        WithinConcat(a, b[1..], c, d);
      }
    }
  }

  lemma {:induction false} WithinTransitive(a: string, b: string, c: string)
    requires Within(a, b) && Within(b, c)
    ensures Within(a, c)
    decreases |c|
  {
    if a != [] {
      if b[0] == c[0] && Within(b[1..], c[1..]) {
        if a[0] == b[0] && Within(a[1..], b[1..]) {
          WithinTransitive(a[1..], b[1..], c[1..]);
        } else {
          WithinTransitive(a, b[1..], c[1..]);
        }
      } else {
        WithinTransitive(a, b, c[1..]);
      }
    }
  }

  /** The text without its newlines. */
  function Solid(s: string): string {
    if s == [] then [] else (if s[0] == '\n' then [] else [s[0]]) + Solid(s[1..])
  }

  lemma {:induction false} SolidConcat(a: string, b: string)
    ensures Solid(a + b) == Solid(a) + Solid(b)
  {
    if a == [] {
      assert a + b == b;
    } else {
      assert (a + b)[0] == a[0] && (a + b)[1..] == a[1..] + b;
      SolidConcat(a[1..], b);
    }
  }

  lemma {:induction false} SolidSqueezed(run: nat, s: string)
    requires run <= 2
    ensures Solid(Squeeze(run, s)) == Solid(s)
    decreases |s|
  {
    if s != [] {
      var next := if s[0] != '\n' then 0 else if run == 2 then 2 else run + 1;
      SolidSqueezed(next, s[1..]);
      SolidConcat([s[0]], Squeeze(next, s[1..]));
    }
  }

  lemma {:induction false} ReplacedKeepsAll(s: string, pat: string, rep: string)
    requires pat != [] && Within(Solid(pat), Solid(rep))
    ensures Within(Solid(s), Solid(Replace(s, pat, rep)))
  {
    hide Within;
    if s == [] {
      WithinItself([]);
    } else if pat <= s {
      var rest := s[|pat|..];
      assert s == pat + rest;
      ReplacedKeepsAll(rest, pat, rep);
      SolidConcat(pat, rest);
      SolidConcat(rep, Replace(rest, pat, rep));
      WithinConcat(Solid(pat), Solid(rep), Solid(rest), Solid(Replace(rest, pat, rep)));
    } else {
      var first, rest := [s[0]], s[1..];
      assert s == first + rest;
      ReplacedKeepsAll(rest, pat, rep);
      SolidConcat(first, rest);
      SolidConcat(first, Replace(rest, pat, rep));
      WithinItself(Solid(first));
      WithinConcat(Solid(first), Solid(first), Solid(rest), Solid(Replace(rest, pat, rep)));
    }
  }

  lemma DefusedKeepsAll(t: string)
    requires IsToken(t)
    ensures Within(Solid(t), Solid(Defuse(t)))
  {
    hide Within;
    var first, zero, rest := [t[0]], [ZERO_WIDTH_SPACE], t[1..];
    assert t == first + rest && Defuse(t) == first + (zero + rest);
    SolidConcat(first, rest);
    SolidConcat(first, zero + rest);
    SolidConcat(zero, rest);
    WithinItself(Solid(rest));
    WithinAfter(Solid(rest), Solid(zero), Solid(rest));
    WithinItself(Solid(first));
    WithinConcat(Solid(first), Solid(first), Solid(rest), Solid(zero) + Solid(rest));
  }

  lemma {:induction false} NeutralizedKeepsAll(s: string, tokens: seq<string>)
    requires forall t | t in tokens :: IsToken(t)
    ensures Within(Solid(s), Solid(Neutralize(s, tokens)))
    decreases |tokens|
  {
    hide Within, Solid;
    if tokens == [] {
      WithinItself(Solid(s));
    } else {
      var t := tokens[0];
      var next := Replace(s, t, Defuse(t));
      DefusedKeepsAll(t);
      ReplacedKeepsAll(s, t, Defuse(t));
      NeutralizedKeepsAll(next, tokens[1..]);
      WithinTransitive(Solid(s), Solid(next), Solid(Neutralize(s, tokens)));
    }
  }

  /**
   Every character of a numbered summary but its newlines survives cleaning, in order,
   after the heading, and all that comes in between is zero-width spaces.
   */
  lemma NumberedSummarySurvives(gap: string, b: string)
    requires Blank(gap) && Trimmed(b) && Numbered(b)
    ensures Within(Solid(HEADING + b), Solid(Clean(gap + Wrapped(b))))
    ensures Visible(Clean(gap + Wrapped(b))) == Visible(HEADING) + Visible(b)
  {
    hide Within, Solid, Visible;
    ControlTokensAreTokens();
    NumberedSummaryIsKept(gap, b);
    var n := Neutralize(HEADING + b, CONTROL_TOKENS);
    CollapseIsSqueeze(n);
    SolidSqueezed(0, n);
    NeutralizedKeepsAll(HEADING + b, CONTROL_TOKENS);
    VisibleSqueezed(0, n);
    VisibleNeutralized(HEADING + b, CONTROL_TOKENS);
    VisibleConcat(HEADING, b);
  }
}
