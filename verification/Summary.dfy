/**
 Cleaning of the compaction model's raw output into the `Summary:` block that
 seeds the next turn: drafting scratchpad is dropped, the `<summary>` wrapper is
 removed, and every control token left in the body is defused.
 */
module Summary {
  import opened Text

  const ANALYSIS_OPEN := "<analysis>"
  const ANALYSIS_CLOSE := "</analysis>"
  const SUMMARY_OPEN := "<summary>"
  const SUMMARY_CLOSE := "</summary>"
  const HEADING := "Summary:\n"
  const THREE_NEWLINES := "\n\n\n"
  const TWO_NEWLINES := "\n\n"
  const ZERO_WIDTH_SPACE := '\U{200b}'

  /** The tokens to defuse, in the order the source replaces them. */
  const CONTROL_TOKENS: seq<string> := [
    "</summary>", "<summary>", "</analysis>", "<analysis>", "</summary_request>", "<summary_request>"
  ]

  // ----- the cleaner as a function

  /** A scratchpad block counts as leading when only whitespace separates it from the summary tag or the start. */
  predicate IsLeading(s: string, start: nat)
    requires At(s, ANALYSIS_OPEN, start)
  {
    match Find(s, SUMMARY_OPEN)
    case Some(sp) =>
      start < sp || (SummaryBeforeAnalysis(s, sp, start); Trim(s[sp + |SUMMARY_OPEN|..start]) == [])
    case None => Trim(s[..start]) == []
  }

  lemma SummaryBeforeAnalysis(s: string, sp: nat, start: nat)
    requires At(s, SUMMARY_OPEN, sp) && At(s, ANALYSIS_OPEN, start) && sp <= start
    ensures sp + |SUMMARY_OPEN| <= start
  {
    assert s[sp + 1] == s[sp..sp + |SUMMARY_OPEN|][1] == 's';
    assert s[start + 1] == s[start..start + |ANALYSIS_OPEN|][1] == 'a';
    TokensDisjoint(s, SUMMARY_OPEN, ANALYSIS_OPEN, sp, start);
  }

  /** Where an unclosed scratchpad at `start` ends: at the next summary tag, or at the end of the text. */
  function DropTo(s: string, start: nat): (end: nat)
    requires start <= |s|
    ensures start <= end <= |s|
  {
    match Find(s[start..], SUMMARY_OPEN)
    case Some(rel) => start + rel
    case None => |s|
  }

  /** What one round of the scratchpad loop does to the text. */
  datatype Round = Stop | Cut(rest: string) | CutAndStop(rest: string)

  function StripRound(s: string): (r: Round)
    ensures r.Cut? ==> |r.rest| < |s|
  {
    match Find(s, ANALYSIS_OPEN)
    case None => Stop
    case Some(start) =>
      if !IsLeading(s, start) then Stop
      else match Find(s[start..], ANALYSIS_CLOSE)
        case Some(rel) => Cut(s[..start] + s[start + rel + |ANALYSIS_CLOSE|..])
        case None => CutAndStop(s[..start] + s[DropTo(s, start)..])
  }

  function StripAnalysis(s: string): string
    decreases |s|
  {
    match StripRound(s)
    case Stop => s
    case Cut(rest) => StripAnalysis(rest)
    case CutAndStop(rest) => rest
  }

  /** The body leads with a numbered section, markdown decoration aside. */
  predicate Numbered(body: string) {
    var lead := TrimStartMatches(body, {'#', '*', '-', '>', ' ', '\t'});
    lead != [] && '0' <= lead[0] <= '9'
  }

  function PeelScratchpad(inner: string): string {
    var s := Trim(inner);
    var t := match RFind(s, ANALYSIS_CLOSE)
             case Some(pos) => if Numbered(s) then s else TrimStart(s[pos + |ANALYSIS_CLOSE|..])
             case None => s;
    if SUMMARY_OPEN <= t then TrimStart(t[|SUMMARY_OPEN|..]) else t
  }

  function UnwrapSummary(s: string): string {
    match (Find(s, SUMMARY_OPEN), RFind(s, SUMMARY_CLOSE))
    case (Some(start), Some(end)) =>
      if end > start then
        TokensDisjoint(s, SUMMARY_OPEN, SUMMARY_CLOSE, start, end);
        s[..start] + HEADING + PeelScratchpad(Trim(s[start + |SUMMARY_OPEN|..end])) + s[end + |SUMMARY_CLOSE|..]
      else s
    case _ => s
  }

  /** A zero-width space after `<` keeps the token readable but no longer live. */
  function Defuse(token: string): string
    requires IsToken(token)
  {
    ['<', ZERO_WIDTH_SPACE] + token[1..]
  }

  function Neutralize(s: string, tokens: seq<string>): string
    requires forall t | t in tokens :: IsToken(t)
    decreases |tokens|
  {
    if tokens == [] then s
    else Neutralize(Replace(s, tokens[0], Defuse(tokens[0])), tokens[1..])
  }

  function CollapseNewlines(s: string): string
    decreases |s|
  {
    if Contains(s, THREE_NEWLINES) then
      CollapseShrinks(s);
      CollapseNewlines(Replace(s, THREE_NEWLINES, TWO_NEWLINES))
    else s
  }

  lemma {:induction false} CollapseShrinks(s: string)
    ensures |Replace(s, THREE_NEWLINES, TWO_NEWLINES)| <= |s|
    ensures Contains(s, THREE_NEWLINES) ==> |Replace(s, THREE_NEWLINES, TWO_NEWLINES)| < |s|
  {
    if s != [] {
      ContainsStep(s, THREE_NEWLINES);
      if THREE_NEWLINES <= s {
        CollapseShrinks(s[3..]);
      } else {
        CollapseShrinks(s[1..]);
      }
    }
  }

  /** What defusing relies on: a token, no newline in it, and not defused already. */
  predicate IsControlToken(t: string) {
    IsToken(t) && t[1] != ZERO_WIDTH_SPACE && '\n' !in t
  }

  lemma ClosersAreTokens()
    ensures IsControlToken("</summary>") && IsControlToken("</analysis>") && IsControlToken("</summary_request>")
  {
  }

  lemma OpenersAreTokens()
    ensures IsControlToken("<summary>") && IsControlToken("<analysis>") && IsControlToken("<summary_request>")
  {
  }

  lemma ControlTokensAreTokens()
    ensures forall t | t in CONTROL_TOKENS :: IsControlToken(t)
  {
    hide IsControlToken;
    ClosersAreTokens();
    OpenersAreTokens();
    forall i | 0 <= i < |CONTROL_TOKENS| ensures IsControlToken(CONTROL_TOKENS[i]) {
    }
  }

  function NeutralizeControlTokens(text: string): string {
    ControlTokensAreTokens();
    Neutralize(text, CONTROL_TOKENS)
  }

  function Clean(summary: string): string {
    Trim(CollapseNewlines(NeutralizeControlTokens(UnwrapSummary(StripAnalysis(summary)))))
  }

  // ----- the cleaner as the source runs it

  method DropLeadingAnalysis(summary: string) returns (result: string)
    ensures result == StripAnalysis(summary)
  {
    hide StripRound;
    result := summary;
    while true
      invariant StripAnalysis(result) == StripAnalysis(summary)
      decreases |result|
    {
      match StripRound(result)
      case Stop => return;
      case Cut(rest) => result := rest;
      case CutAndStop(rest) => return rest;
    }
  }

  method CollapseBlankLines(s: string) returns (result: string)
    ensures result == CollapseNewlines(s)
  {
    result := s;
    while Contains(result, THREE_NEWLINES)
      invariant CollapseNewlines(result) == CollapseNewlines(s)
      decreases |result|
    {
      CollapseShrinks(result);
      result := Replace(result, THREE_NEWLINES, TWO_NEWLINES);
    }
  }

  method FormatCompactSummary(summary: string) returns (r: string)
    ensures r == Clean(summary)
    ensures forall t | t in CONTROL_TOKENS :: !Contains(r, t)
    ensures !Contains(r, THREE_NEWLINES)
    ensures Clean(r) == r
  {
    var result := DropLeadingAnalysis(summary);
    result := UnwrapSummary(result);
    result := NeutralizeControlTokens(result);
    result := CollapseBlankLines(result);
    r := Trim(result);
    CleanIsInert(summary);
    CleanIsIdempotent(summary);
  }

  // ----- nothing live survives

  /** An occurrence in text that opens with a defused token lies behind it. */
  lemma PastDefused(t: string, rest: string, u: string)
    requires IsToken(t) && IsToken(u) && u[1] != ZERO_WIDTH_SPACE
    ensures Contains(Defuse(t) + rest, u) ==> Contains(rest, u)
  {
    hide Contains;
    var r := Defuse(t) + rest;
    ContainsStep(r, u);
    var tail := [ZERO_WIDTH_SPACE] + t[1..];
    assert r[1] == ZERO_WIDTH_SPACE && r[1..] == tail + rest;
    if Contains(r[1..], u) { ContainsAfter(tail, rest, u); }
  }

  /** An occurrence at the front of replaced text that was no match was there before. */
  lemma FrontBeforeDefusing(s: string, t: string, u: string)
    requires s != [] && !(t <= s) && IsToken(t) && IsToken(u)
    ensures u <= [s[0]] + Replace(s[1..], t, Defuse(t)) ==> u != t && u <= s
  {
    var rest := Replace(s[1..], t, Defuse(t));
    if u <= [s[0]] + rest {
      assert u[1..] <= rest;
      PrefixBack(s[1..], t, Defuse(t), u[1..]);
      assert u == [s[0]] + u[1..];
    }
  }

  /** Defusing `t` removes it and brings no other token into being. */
  lemma {:induction false} DefuseRemoves(s: string, t: string, u: string)
    requires IsToken(t) && IsToken(u) && u[1] != ZERO_WIDTH_SPACE
    ensures Contains(Replace(s, t, Defuse(t)), u) ==> u != t && Contains(s, u)
  {
    if s == [] {
      assert Replace(s, t, Defuse(t)) == [];
    } else {
      hide Contains, Defuse;
      ContainsStep(s, u);
      if t <= s {
        DefuseRemoves(s[|t|..], t, u);
        PastDefused(t, Replace(s[|t|..], t, Defuse(t)), u);
        assert s[|t|..] == s[|t|..|s|];
        if Contains(s[|t|..], u) { ContainsSlice(s, u, |t|, |s|); }
      } else {
        var rest := Replace(s[1..], t, Defuse(t));
        DefuseRemoves(s[1..], t, u);
        FrontBeforeDefusing(s, t, u);
        ContainsStep([s[0]] + rest, u);
        assert ([s[0]] + rest)[1..] == rest;
      }
    }
  }

  lemma {:induction false} NeutralizeRemoves(s: string, tokens: seq<string>, u: string)
    requires forall t | t in tokens :: IsToken(t)
    requires IsToken(u) && u[1] != ZERO_WIDTH_SPACE
    ensures Contains(Neutralize(s, tokens), u) ==> u !in tokens && Contains(s, u)
    decreases |tokens|
  {
    if tokens != [] {
      NeutralizeRemoves(Replace(s, tokens[0], Defuse(tokens[0])), tokens[1..], u);
      DefuseRemoves(s, tokens[0], u);
    }
  }

  lemma {:induction false} NeutralizeAbsent(s: string, tokens: seq<string>)
    requires forall t | t in tokens :: IsToken(t) && !Contains(s, t)
    ensures Neutralize(s, tokens) == s
  {
    if tokens != [] {
      ReplaceAbsent(s, tokens[0], Defuse(tokens[0]));
      NeutralizeAbsent(s, tokens[1..]);
    }
  }

  /** Removing a newline cannot join the two halves of a token. */
  lemma {:induction false} NewlinesJoinNoToken(s: string, u: string)
    requires u != [] && '\n' !in u
    ensures Contains(Replace(s, THREE_NEWLINES, TWO_NEWLINES), u) ==> Contains(s, u)
  {
    if s != [] {
      var r := Replace(s, THREE_NEWLINES, TWO_NEWLINES);
      ContainsStep(s, u);
      if THREE_NEWLINES <= s {
        NewlinesJoinNoToken(s[3..], u);
        if Contains(r, u) {
          ContainsAfter(TWO_NEWLINES, Replace(s[3..], THREE_NEWLINES, TWO_NEWLINES), u);
          assert s[3..] == s[3..|s|];
          ContainsSlice(s, u, 3, |s|);
        }
      } else {
        NewlinesJoinNoToken(s[1..], u);
        ContainsStep(r, u);
        assert r[1..] == Replace(s[1..], THREE_NEWLINES, TWO_NEWLINES);
        if u <= r {
          PrefixBack(s, THREE_NEWLINES, TWO_NEWLINES, u);
        }
      }
    }
  }

  lemma {:induction false} CollapseJoinsNoToken(s: string, u: string)
    requires u != [] && '\n' !in u
    ensures Contains(CollapseNewlines(s), u) ==> Contains(s, u)
    ensures !Contains(CollapseNewlines(s), THREE_NEWLINES)
    decreases |s|
  {
    if Contains(s, THREE_NEWLINES) {
      CollapseShrinks(s);
      CollapseJoinsNoToken(Replace(s, THREE_NEWLINES, TWO_NEWLINES), u);
      NewlinesJoinNoToken(s, u);
    }
  }

  lemma FinishIsInert(body: string, tokens: seq<string>, u: string)
    requires forall t | t in tokens :: IsToken(t)
    requires IsToken(u) && u[1] != ZERO_WIDTH_SPACE && '\n' !in u
    ensures var r := Trim(CollapseNewlines(Neutralize(body, tokens)));
            (u in tokens ==> !Contains(r, u)) && !Contains(r, THREE_NEWLINES) && Trimmed(r)
  {
    var flat := CollapseNewlines(Neutralize(body, tokens));
    var i, j := TrimIsSlice(flat);
    NeutralizeRemoves(body, tokens, u);
    CollapseJoinsNoToken(Neutralize(body, tokens), u);
    if Contains(Trim(flat), u) { ContainsSlice(flat, u, i, j); }
    if Contains(Trim(flat), THREE_NEWLINES) { ContainsSlice(flat, THREE_NEWLINES, i, j); }
  }

  /** Whatever the model emitted, the cleaned text holds no control token and no triple newline. */
  lemma CleanIsInert(summary: string)
    ensures forall t | t in CONTROL_TOKENS :: !Contains(Clean(summary), t)
    ensures !Contains(Clean(summary), THREE_NEWLINES)
    ensures Trimmed(Clean(summary))
  {
    hide Contains, UnwrapSummary, StripAnalysis, CollapseNewlines, Neutralize, Trim, Trimmed;
    ControlTokensAreTokens();
    var body := UnwrapSummary(StripAnalysis(summary));
    FinishIsInert(body, CONTROL_TOKENS, CONTROL_TOKENS[0]);
    forall t | t in CONTROL_TOKENS ensures !Contains(Clean(summary), t) {
      FinishIsInert(body, CONTROL_TOKENS, t);
    }
  }

  lemma NothingToUnwrap(s: string)
    requires !Contains(s, ANALYSIS_OPEN) && !Contains(s, SUMMARY_OPEN)
    ensures UnwrapSummary(StripAnalysis(s)) == s
  {
  }

  lemma CleanIsIdempotent(summary: string)
    ensures Clean(Clean(summary)) == Clean(summary)
  {
    hide Contains, UnwrapSummary, StripAnalysis, Neutralize, Trim, Trimmed;
    var r := Clean(summary);
    CleanIsInert(summary);
    ControlTokensAreTokens();
    assert CONTROL_TOKENS[3] == ANALYSIS_OPEN && CONTROL_TOKENS[1] == SUMMARY_OPEN;
    NothingToUnwrap(r);
    NeutralizeAbsent(r, CONTROL_TOKENS);
    TrimOfTrimmed(r);
  }

  // ----- blank lines, in one pass

  /**
   Squeezes every run of newlines to at most two in a single pass, `run` newlines
   having just been emitted. The reference for the source's repeated replacement.
   */
  function Squeeze(run: nat, s: string): string
    requires run <= 2
    decreases |s|
  {
    if s == [] then []
    else if s[0] != '\n' then [s[0]] + Squeeze(0, s[1..])
    else if run == 2 then Squeeze(2, s[1..])
    else ['\n'] + Squeeze(run + 1, s[1..])
  }

  lemma {:induction false} SqueezeReplaced(run: nat, s: string)
    requires run <= 2
    ensures Squeeze(run, Replace(s, THREE_NEWLINES, TWO_NEWLINES)) == Squeeze(run, s)
    decreases |s|
  {
    if s != [] {
      if THREE_NEWLINES <= s {
        SqueezeReplaced(2, s[3..]);
        SqueezePair(run, Replace(s[3..], THREE_NEWLINES, TWO_NEWLINES));
        assert s == TWO_NEWLINES + s[2..];
        SqueezePair(run, s[2..]);
        assert s[2..][1..] == s[3..];
      } else {
        SqueezeReplaced(0, s[1..]);
        SqueezeReplaced(if run == 2 then 2 else run + 1, s[1..]);
        var r := Replace(s, THREE_NEWLINES, TWO_NEWLINES);
        assert r[1..] == Replace(s[1..], THREE_NEWLINES, TWO_NEWLINES) && r[0] == s[0];
      }
    }
  }

  /** Two newlines saturate the count. */
  lemma SqueezePair(run: nat, s: string)
    requires run <= 2
    ensures Squeeze(run, TWO_NEWLINES + s) == TWO_NEWLINES[run..] + Squeeze(2, s)
  {
    var t := TWO_NEWLINES + s;
    var u := t[1..];
    assert t[0] == '\n' && u[0] == '\n' && u[1..] == s;
    var r := Squeeze(2, s);
    assert Squeeze(2, u) == r && Squeeze(1, u) == ['\n'] + r;
    assert TWO_NEWLINES[2..] == [] && TWO_NEWLINES[1..] == ['\n'] && TWO_NEWLINES[0..] == ['\n'] + ['\n'];
    assert ['\n'] + (['\n'] + r) == ['\n'] + ['\n'] + r;
  }

  lemma {:induction false} SqueezeFixed(run: nat, prefix: string, s: string)
    requires run <= 2 && prefix == TWO_NEWLINES[..run] && !Contains(prefix + s, THREE_NEWLINES)
    ensures Squeeze(run, s) == s
    decreases |s|
  {
    if s != [] {
      var t := prefix + s;
      ContainsStep(t, THREE_NEWLINES);
      if s[0] != '\n' {
        var next := [] + s[1..];
        assert next == t[run + 1..|t|];
        if Contains(next, THREE_NEWLINES) { ContainsSlice(t, THREE_NEWLINES, run + 1, |t|); }
        SqueezeFixed(0, [], s[1..]);
      } else if run < 2 {
        assert prefix + ['\n'] == TWO_NEWLINES[..run + 1];
        assert t == (prefix + ['\n']) + s[1..];
        SqueezeFixed(run + 1, prefix + ['\n'], s[1..]);
      } else {
        assert false;
      }
    }
  }

  /** Replacing triples until none is left is the same as squeezing once. */
  lemma {:induction false} CollapseIsSqueeze(s: string)
    ensures CollapseNewlines(s) == Squeeze(0, s)
    decreases |s|
  {
    if Contains(s, THREE_NEWLINES) {
      CollapseShrinks(s);
      CollapseIsSqueeze(Replace(s, THREE_NEWLINES, TWO_NEWLINES));
      SqueezeReplaced(0, s);
    } else {
      assert [] + s == s;
      SqueezeFixed(0, [], s);
    }
  }
}
