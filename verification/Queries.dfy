/** Recovering what the user typed from a message that carries runtime metadata tags. */
module Queries {
  import opened Text

  const SYSTEM_TAGS: seq<string> := [
    "user_info", "project_layout", "git_status", "fork-context", "system-reminder", "agent-memory",
    "system_reminder", "background_context", "command-name", "command-message", "command-args"
  ]

  const QUERY_OPEN := "<user_query>"
  const QUERY_CLOSE := "</user_query>"
  const AUTO_CONTINUE_ID := "__auto_continue__"
  const AUTO_CONTINUE_PROMPT := "Continue the conversation from where it left off without asking the user any further questions. Resume directly - do not acknowledge the summary, do not recap what was happening, do not preface with \"I'll continue\" or similar.\nPick up the last task as if the break never happened."

  function OpenTag(tag: string): string { "<" + tag + ">" }

  function CloseTag(tag: string): string { "</" + tag + ">" }

  /** Removes every `open … close` block, outermost first; an unclosed tag stays. */
  function StripTag(s: string, open: string, close: string): (r: string)
    requires close != []
    ensures |r| <= |s|
    decreases |s|
  {
    match Find(s, open)
    case None => s
    case Some(start) =>
      match Find(s[start..], close)
      case None => s
      case Some(rel) => StripTag(s[..start] + s[start + rel + |close|..], open, close)
  }

  function StripTags(s: string, tags: seq<string>): (r: string)
    ensures |r| <= |s|
    decreases |tags|
  {
    if tags == [] then s
    else StripTags(StripTag(s, OpenTag(tags[0]), CloseTag(tags[0])), tags[1..])
  }

  function StripSystemTags(text: string): string {
    Trim(StripTags(text, SYSTEM_TAGS))
  }

  method RemoveBlocks(s: string, open: string, close: string) returns (result: string)
    requires close != []
    ensures result == StripTag(s, open, close)
  {
    result := s;
    while true
      invariant StripTag(result, open, close) == StripTag(s, open, close)
      decreases |result|
    {
      var start := Find(result, open);
      if start.None? { return; }
      var rel := Find(result[start.value..], close);
      if rel.None? { return; }
      result := result[..start.value] + result[start.value + rel.value + |close|..];
    }
  }

  method RemoveSystemTags(text: string, tags: seq<string>) returns (r: string)
    ensures r == Trim(StripTags(text, tags))
    ensures tags == SYSTEM_TAGS ==> r == StripSystemTags(text)
  {
    hide StripTag, OpenTag, Trim;
    var result := text;
    assert tags[0..] == tags;
    for i := 0 to |tags|
      invariant StripTags(result, tags[i..]) == StripTags(text, tags)
    {
      assert tags[i..][0] == tags[i] && tags[i..][1..] == tags[i + 1..];
      result := RemoveBlocks(result, OpenTag(tags[i]), CloseTag(tags[i]));
    }
    r := Trim(result);
  }

  function ExtractUserQuery(text: string): string {
    match Find(text, QUERY_OPEN)
    case None => StripSystemTags(text)
    case Some(start) =>
      var content := text[start + |QUERY_OPEN|..];
      match Find(content, QUERY_CLOSE)
      case Some(end) => StripSystemTags(Trim(content[..end]))
      case None => StripSystemTags(text)
  }

  function WrapUserQuery(text: string): string {
    QUERY_OPEN + "\n" + text + "\n" + QUERY_CLOSE
  }

  predicate IsSyntheticExtractedQuery(text: string) {
    text == [] || text == AUTO_CONTINUE_ID || text == AUTO_CONTINUE_PROMPT
  }

  // ----- when a query survives wrapping and extraction

  /** `s` holds an opening tag with a closing tag at or after it. */
  ghost predicate HasBlock(s: string, open: string, close: string) {
    exists i: nat, j: nat :: i <= j && At(s, open, i) && At(s, close, j)
  }

  lemma HasBlockIff(s: string, open: string, close: string)
    ensures HasBlock(s, open, close) <==> Find(s, open).Some? && Find(s[Find(s, open).value..], close).Some?
  {
    var start := Find(s, open);
    if start.Some? {
      var rel := Find(s[start.value..], close);
      if rel.Some? {
        AtShift(s, close, start.value, rel.value);
      }
      if HasBlock(s, open, close) {
        var i: nat, j: nat :| i <= j && At(s, open, i) && At(s, close, j);
        AtShift(s, close, start.value, j - start.value);
      }
    }
  }

  lemma StripTagFixed(s: string, open: string, close: string)
    requires close != []
    ensures StripTag(s, open, close) == s <==> !HasBlock(s, open, close)
    ensures HasBlock(s, open, close) ==> |StripTag(s, open, close)| < |s|
  {
    HasBlockIff(s, open, close);
  }

  lemma {:induction false} StripTagsFixed(s: string, tags: seq<string>)
    ensures StripTags(s, tags) == s <==> forall tag | tag in tags :: !HasBlock(s, OpenTag(tag), CloseTag(tag))
    decreases |tags|
  {
    hide HasBlock, OpenTag, StripTag;
    if tags != [] {
      StripTagFixed(s, OpenTag(tags[0]), CloseTag(tags[0]));
      StripTagsFixed(s, tags[1..]);
      assert tags[0] in tags;
      assert forall tag :: tag in tags <==> tag == tags[0] || tag in tags[1..];
    }
  }

  lemma StripSystemTagsFixed(s: string)
    ensures StripSystemTags(s) == s
       <==> Trimmed(s) && forall tag | tag in SYSTEM_TAGS :: !HasBlock(s, OpenTag(tag), CloseTag(tag))
  {
    hide StripTags, Trim, HasBlock, IsSpace, OpenTag, CloseTag;
    var t := StripTags(s, SYSTEM_TAGS);
    StripTagsFixed(s, SYSTEM_TAGS);
    var i, j := TrimIsSlice(t);
    if Trimmed(s) && t == s { TrimOfTrimmed(s); }
    if Trim(t) == s { assert t[i..j] == t; }
  }

  /** The query reads back unchanged: it is trimmed, never closes the wrapper and holds no metadata block. */
  ghost predicate Stable(q: string) {
    && Trimmed(q)
    && !Contains(q, QUERY_CLOSE)
    && forall tag | tag in SYSTEM_TAGS :: !HasBlock(q, OpenTag(tag), CloseTag(tag))
  }

  lemma ExtractIsShort(s: string)
    ensures |StripSystemTags(Trim(s))| <= |s| && Trimmed(StripSystemTags(s))
  {
    hide StripTags, Trim, IsSpace;
    var _, _ := TrimIsSlice(s);
    var _, _ := TrimIsSlice(StripTags(Trim(s), SYSTEM_TAGS));
    var _, _ := TrimIsSlice(StripTags(s, SYSTEM_TAGS));
  }

  /** The wrapper's own closing tag is the first one unless the query closes it early. */
  lemma FirstClose(q: string)
    ensures var content := "\n" + q + "\n" + QUERY_CLOSE;
            var end := Find(content, QUERY_CLOSE);
            && end.Some?
            && (Contains(q, QUERY_CLOSE) ==> end.value < |q|)
            && (!Contains(q, QUERY_CLOSE) ==> end.value == |q| + 2)
  {
    var inner := "\n" + q + "\n";
    var content := inner + QUERY_CLOSE;
    if Contains(q, QUERY_CLOSE) {
      var k: nat :| k <= |q| && At(q, QUERY_CLOSE, k);
      assert content[1 + k..1 + k + |QUERY_CLOSE|] == q[k..k + |QUERY_CLOSE|];
      assert At(content, QUERY_CLOSE, 1 + k);
    } else {
      PaddingClosesNothing(q);
      FindFirst(inner, QUERY_CLOSE, []);
      assert inner + (QUERY_CLOSE + []) == content;
    }
  }

  lemma PaddingClosesNothing(q: string)
    requires !Contains(q, QUERY_CLOSE)
    ensures !Contains("\n" + q + "\n", QUERY_CLOSE)
  {
    var s := "\n" + q + "\n";
    forall j: nat ensures !At(s, QUERY_CLOSE, j) {
      if At(s, QUERY_CLOSE, j) {
        AtChar(s, QUERY_CLOSE, j, 0);
        AtChar(s, QUERY_CLOSE, j, |QUERY_CLOSE| - 1);
        assert 1 <= j && j + |QUERY_CLOSE| <= 1 + |q|;
        assert q[j - 1..j - 1 + |QUERY_CLOSE|] == s[j..j + |QUERY_CLOSE|];
        ContainsAt(q, QUERY_CLOSE, j - 1);
        assert false;
      }
    }
  }

  /** What the extractor sees of a wrapped query. */
  lemma WrappedContent(q: string) returns (inner: string)
    ensures ExtractUserQuery(WrapUserQuery(q)) == StripSystemTags(Trim(inner))
    ensures if Contains(q, QUERY_CLOSE) then |inner| < |q| else inner == "\n" + q + "\n"
  {
    hide StripSystemTags, Trim;
    var text := WrapUserQuery(q);
    var content := "\n" + q + "\n" + QUERY_CLOSE;
    assert text == QUERY_OPEN + content;
    assert At(text, QUERY_OPEN, 0);
    assert text[|QUERY_OPEN|..] == content;
    FirstClose(q);
    var end := Find(content, QUERY_CLOSE).value;
    inner := content[..end];
  }

  /** A query comes back from its wrapper exactly when it is stable. */
  lemma ExtractOfWrap(q: string)
    ensures ExtractUserQuery(WrapUserQuery(q)) == q <==> Stable(q)
  {
    hide StripSystemTags, Trim, IsSpace, HasBlock, OpenTag, CloseTag, Contains, ExtractUserQuery;
    var inner := WrappedContent(q);
    ExtractIsShort(inner);
    if !Contains(q, QUERY_CLOSE) {
      ExtractIsShort(Trim(inner));
      StripSystemTagsFixed(q);
      if Trimmed(q) {
        NewlineIsBlank();
        TrimPadded("\n", q, "\n");
      }
    }
  }

  lemma {:induction false} StripTagsShrinks(s: string, tags: seq<string>)
    ensures StripTags(s, tags) == s || |StripTags(s, tags)| < |s|
    decreases |tags|
  {
    hide OpenTag, StripTag, HasBlock;
    if tags != [] {
      StripTagFixed(s, OpenTag(tags[0]), CloseTag(tags[0]));
      StripTagsShrinks(StripTag(s, OpenTag(tags[0]), CloseTag(tags[0])), tags[1..]);
    }
  }

  lemma StripSystemTagsShrinks(s: string)
    ensures StripSystemTags(s) == s || |StripSystemTags(s)| < |s|
  {
    hide StripTags, Trim, IsSpace;
    var t := StripTags(s, SYSTEM_TAGS);
    StripTagsShrinks(s, SYSTEM_TAGS);
    var i, j := TrimIsSlice(t);
    if j - i == |t| { assert t[i..j] == t; }
  }

  lemma TrimPaddedShrinks(q: string)
    ensures var t := Trim("\n" + q + "\n"); t == q || |t| < |q|
  {
    hide Trim;
    var inner := "\n" + q + "\n";
    var i, j := TrimIsSlice(inner);
    var t := inner[i..j];
    if t != [] {
      assert t[0] == inner[i] && t[|t| - 1] == inner[j - 1];
      assert 1 <= i && j <= |q| + 1;
      assert t == q[i - 1..j - 1];
    }
  }

  /** Reading a query back from its wrapper gives it back or something strictly shorter. */
  lemma ExtractShrinks(q: string)
    ensures var r := ExtractUserQuery(WrapUserQuery(q)); r == q || |r| < |q|
  {
    hide StripSystemTags, Trim, IsSpace;
    var inner := WrappedContent(q);
    ExtractIsShort(inner);
    if !Contains(q, QUERY_CLOSE) {
      TrimPaddedShrinks(q);
      StripSystemTagsShrinks(Trim(inner));
    }
  }

  lemma NewlineIsBlank()
    ensures Blank("\n")
  {
  }

  // ----- what is extracted from other messages

  /** Without a wrapper, or with one that is never closed, the whole message is stripped. */
  lemma ExtractWithoutWrapper(text: string)
    requires !HasBlock(text, QUERY_OPEN, QUERY_CLOSE)
    ensures ExtractUserQuery(text) == StripSystemTags(text)
  {
    hide StripSystemTags, Trim;
    var start := Find(text, QUERY_OPEN);
    if start.Some? {
      var content := text[start.value + |QUERY_OPEN|..];
      var end := Find(content, QUERY_CLOSE);
      if end.Some? {
        AtShift(text, QUERY_CLOSE, start.value + |QUERY_OPEN|, end.value);
        assert false;
      }
    }
  }

  /** With a wrapper, only what the first one holds, whatever stands around it. */
  lemma ExtractFromWrapper(before: string, q: string, after: string)
    requires !Contains(before, QUERY_OPEN) && !Contains(q, QUERY_CLOSE)
    ensures ExtractUserQuery(before + (QUERY_OPEN + (q + (QUERY_CLOSE + after)))) == StripSystemTags(Trim(q))
  {
    hide StripSystemTags, Trim, Contains, At, Find;
    var content := q + (QUERY_CLOSE + after);
    var text := before + (QUERY_OPEN + content);
    FindFirst(before, QUERY_OPEN, content);
    FindFirst(q, QUERY_CLOSE, after);
    assert text[|before| + |QUERY_OPEN|..] == content && content[..|q|] == q;
  }

  /** A block goes and nothing else: what stands before the first one and behind it is joined and stripped on. */
  lemma StripTagCuts(before: string, x: string, after: string, open: string, close: string)
    requires IsToken(open) && IsToken(close) && open != close
    requires !Contains(before, open) && !Contains(open + x, close)
    ensures StripTag(before + (open + (x + (close + after))), open, close) == StripTag(before + after, open, close)
  {
    hide Contains, At, Find, IsToken;
    var s := before + (open + (x + (close + after)));
    FindFirst(before, open, x + (close + after));
    assert s[|before|..] == (open + x) + (close + after);
    FindFirst(open + x, close, after);
    TokenNotEmpty(close);
    assert s[..|before|] == before && s[|before| + |open + x| + |close|..] == after;
  }

  lemma TokenNotEmpty(t: string)
    requires IsToken(t)
    ensures t != []
  {
  }
}
