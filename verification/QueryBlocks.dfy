/** What stripping metadata blocks leaves: no block of the tag just stripped, and of all tags where tags do not nest in angle brackets. */
module QueryBlocks {
  import opened Wrappers
  import opened Text
  import opened Queries

  /** After stripping one tag no block of it is left, whatever the text. */
  lemma {:induction false} StripTagStrips(s: string, open: string, close: string)
    requires close != []
    ensures !HasBlock(StripTag(s, open, close), open, close)
    decreases |s|
  {
    hide HasBlock, Contains, At;
    HasBlockIff(s, open, close);
    FoundInside(s, open);
    match Find(s, open)
    case None =>
    case Some(start) =>
      match Find(s[start..], close)
      case None =>
      case Some(rel) =>
        FoundInside(s[start..], close);
        StripTagStrips(s[..start] + s[start + rel + |close|..], open, close);
  }

  // ----- text in which no angle bracket opens inside another

  /** Between two `<` there is always a `>`. */
  ghost predicate Flat(s: string) {
    forall i, j :: 0 <= i < j < |s| && s[i] == '<' && s[j] == '<' ==> ClosesBetween(s, i, j)
  }

  ghost predicate ClosesBetween(s: string, i: nat, j: nat)
    requires j <= |s|
  {
    exists k :: i < k < j && s[k] == '>'
  }

  /** A tag: one `<` in front, one `>` at the end. */
  ghost predicate IsTag(u: string) {
    |u| >= 2 && u[0] == '<' && u[|u| - 1] == '>' && '>' !in u[..|u| - 1]
  }

  lemma FlatCut(s: string, a: nat, b: nat)
    requires Flat(s) && a < b <= |s| && s[a] == '<'
    ensures Flat(s[..a] + s[b..])
  {
    var t := s[..a] + s[b..];
    forall i, j | 0 <= i < j < |t| && t[i] == '<' && t[j] == '<' ensures ClosesBetween(t, i, j) {
      var i', j' := if i < a then i else i + (b - a), if j < a then j else a;
      if i < a {
        assert ClosesBetween(s, i, j');
        var k :| i < k < j' && s[k] == '>';
        assert t[k] == '>';
      } else {
        assert ClosesBetween(s, i', j + (b - a));
        var k :| i' < k < j + (b - a) && s[k] == '>';
        assert t[k - (b - a)] == '>';
      }
    }
  }

  /** Where an occurrence in the cut text was before the cut. */
  function Uncut(i: nat, a: nat, b: nat): nat
    requires a <= b
  {
    if i < a then i else i + (b - a)
  }

  lemma CutJoinsNoTag(s: string, a: nat, b: nat, u: string, i: nat)
    requires Flat(s) && a < b <= |s| && s[a] == '<' && IsTag(u) && At(s[..a] + s[b..], u, i)
    ensures At(s, u, Uncut(i, a, b))
  {
    var t := s[..a] + s[b..];
    AtChar(t, u, i, 0);
    if i + |u| <= a {
      assert s[i..i + |u|] == t[i..i + |u|];
    } else if i >= a {
      assert s[i + (b - a)..i + (b - a) + |u|] == t[i..i + |u|];
    } else {
      assert ClosesBetween(s, i, a);
      var k :| i < k < a && s[k] == '>';
      AtChar(t, u, i, k - i);
      assert false;
    }
  }

  lemma CutAddsNoBlock(s: string, a: nat, b: nat, open: string, close: string)
    requires Flat(s) && a < b <= |s| && s[a] == '<' && IsTag(open) && IsTag(close)
    requires !HasBlock(s, open, close)
    ensures !HasBlock(s[..a] + s[b..], open, close)
  {
    hide At, IsTag, Flat;
    var t := s[..a] + s[b..];
    if HasBlock(t, open, close) {
      var i: nat, j: nat :| i <= j && At(t, open, i) && At(t, close, j);
      CutJoinsNoTag(s, a, b, open, i);
      CutJoinsNoTag(s, a, b, close, j);
    }
  }

  /** On flat text, stripping one tag brings no block of another into being. */
  lemma {:induction false} StripTagAddsNoBlock(s: string, open: string, close: string, open': string, close': string)
    requires Flat(s) && IsTag(open) && IsTag(close) && IsTag(open') && IsTag(close')
    ensures Flat(StripTag(s, open, close))
    ensures !HasBlock(s, open', close') ==> !HasBlock(StripTag(s, open, close), open', close')
    decreases |s|
  {
    hide HasBlock, Flat;
    match Find(s, open)
    case None =>
    case Some(start) =>
      match Find(s[start..], close)
      case None =>
      case Some(rel) =>
        var end := start + rel + |close|;
        AtChar(s, open, start, 0);
        FoundInside(s[start..], close);
        FlatCut(s, start, end);
        if !HasBlock(s, open', close') { CutAddsNoBlock(s, start, end, open', close'); }
        StripTagAddsNoBlock(s[..start] + s[end..], open, close, open', close');
  }

  ghost predicate AreTags(tags: seq<string>) {
    forall i :: 0 <= i < |tags| ==> IsTag(OpenTag(tags[i])) && IsTag(CloseTag(tags[i]))
  }

  lemma {:induction false} StripTagsAddsNoBlock(s: string, tags: seq<string>, open: string, close: string)
    requires Flat(s) && AreTags(tags) && IsTag(open) && IsTag(close) && !HasBlock(s, open, close)
    ensures !HasBlock(StripTags(s, tags), open, close)
    decreases |tags|
  {
    hide HasBlock, Flat, IsTag, OpenTag, StripTag;
    if tags != [] {
      StripTagAddsNoBlock(s, OpenTag(tags[0]), CloseTag(tags[0]), open, close);
      StripTagsAddsNoBlock(StripTag(s, OpenTag(tags[0]), CloseTag(tags[0])), tags[1..], open, close);
    }
  }

  /** On flat text every block of every tag is removed. */
  lemma {:induction false} StripTagsStrips(s: string, tags: seq<string>, i: nat)
    requires Flat(s) && AreTags(tags) && i < |tags|
    ensures !HasBlock(StripTags(s, tags), OpenTag(tags[i]), CloseTag(tags[i]))
    decreases |tags|
  {
    hide HasBlock, Flat, IsTag, OpenTag, StripTag;
    var open, close := OpenTag(tags[0]), CloseTag(tags[0]);
    var next := StripTag(s, open, close);
    StripTagAddsNoBlock(s, open, close, open, close);
    if i == 0 {
      StripTagStrips(s, open, close);
      StripTagsAddsNoBlock(next, tags[1..], open, close);
    } else {
      StripTagsStrips(next, tags[1..], i - 1);
    }
  }

  lemma TagOf(name: string)
    requires '>' !in name
    ensures IsTag(OpenTag(name)) && IsTag(CloseTag(name))
  {
  }

  lemma SystemTagsAreTags()
    ensures AreTags(SYSTEM_TAGS)
  {
    hide IsTag, OpenTag, CloseTag;
    forall i | 0 <= i < |SYSTEM_TAGS| ensures IsTag(OpenTag(SYSTEM_TAGS[i])) && IsTag(CloseTag(SYSTEM_TAGS[i])) {
      NoBracket(i);
      TagOf(SYSTEM_TAGS[i]);
    }
  }

  lemma NoBracket(i: nat)
    requires i < |SYSTEM_TAGS|
    ensures '>' !in SYSTEM_TAGS[i]
  {
  }

  lemma AtSlice(s: string, i: nat, j: nat, pat: string, a: nat)
    requires i <= j <= |s| && At(s[i..j], pat, a)
    ensures At(s, pat, i + a)
  {
    forall m | 0 <= m < |pat| ensures s[i + a + m] == pat[m] { AtChar(s[i..j], pat, a, m); }
    assert s[i + a..i + a + |pat|] == pat;
  }

  /** A trimmed text holds no block that the untrimmed one does not. */
  lemma SliceAddsNoBlock(s: string, i: nat, j: nat, open: string, close: string)
    requires i <= j <= |s| && !HasBlock(s, open, close)
    ensures !HasBlock(s[i..j], open, close)
  {
    var t := s[i..j];
    if HasBlock(t, open, close) {
      var a: nat, b: nat :| a <= b && At(t, open, a) && At(t, close, b);
      AtSlice(s, i, j, open, a);
      AtSlice(s, i, j, close, b);
    }
  }

  /** Stripping leaves no block of any system tag, wherever no `<` opens inside another. */
  lemma StripSystemTagsStrips(s: string, i: nat)
    requires Flat(s) && i < |SYSTEM_TAGS|
    ensures !HasBlock(StripSystemTags(s), OpenTag(SYSTEM_TAGS[i]), CloseTag(SYSTEM_TAGS[i]))
  {
    hide HasBlock, Flat, OpenTag, CloseTag, StripTags, Trim;
    SystemTagsAreTags();
    StripTagsStrips(s, SYSTEM_TAGS, i);
    var a, b := TrimIsSlice(StripTags(s, SYSTEM_TAGS));
    SliceAddsNoBlock(StripTags(s, SYSTEM_TAGS), a, b, OpenTag(SYSTEM_TAGS[i]), CloseTag(SYSTEM_TAGS[i]));
  }

  // ----- a block that is joined

  const NESTED := "<user_info" + "<git_status></git_status>" + ">x</user_info>"
  const JOINED := "<user_info>x</user_info>"

  /** Without the tag's `<` and first letter next to each other, there is no opening tag. */
  lemma NoOpening(s: string, name: string)
    requires name != [] && forall i :: 0 <= i < |s| - 1 && s[i] == '<' ==> s[i + 1] != name[0]
    ensures !HasBlock(s, OpenTag(name), CloseTag(name)) && Find(s, OpenTag(name)).None?
  {
    var open := OpenTag(name);
    forall i: nat ensures !At(s, open, i) {
      if At(s, open, i) {
        AtChar(s, open, i, 0);
        AtChar(s, open, i, 1);
        assert false;
      }
    }
  }

  lemma NestedOpens(i: nat)
    requires i < |NESTED| - 1 && NESTED[i] == '<' && NESTED[i + 1] == 'u'
    ensures i == 0
  {
  }

  lemma NestedHoldsNoUserInfo()
    ensures StripTag(NESTED, OpenTag("user_info"), CloseTag("user_info")) == NESTED
  {
    var s, open := NESTED, OpenTag("user_info");
    assert open == "<user_info>" && s[10] == '<';
    hide OpenTag;
    forall i: nat ensures !At(s, open, i) {
      if At(s, open, i) {
        AtChar(s, open, i, 0);
        AtChar(s, open, i, 1);
        NestedOpens(i);
        AtChar(s, open, i, 10);
        assert false;
      }
    }
  }

  lemma NestedHoldsNoLayout()
    ensures StripTag(NESTED, OpenTag("project_layout"), CloseTag("project_layout")) == NESTED
  {
    NoOpening(NESTED, "project_layout");
  }

  /** Cutting a block out from between two texts that hold neither its tags nor their starts. */
  lemma BlockIsCut(a: string, c: string, open: string, close: string)
    requires close != [] && Find(a + (open + close) + c, open) == Some(|a|) && Find(open + close + c, close) == Some(|open|)
    requires Find(a + c, open).None?
    ensures StripTag(a + (open + close) + c, open, close) == a + c
  {
    var s := a + (open + close) + c;
    assert s[|a|..] == open + close + c;
    assert s[..|a|] == a && s[|a| + |open| + |close|..] == c;
  }

  lemma StatusTags()
    ensures OpenTag("git_status") == "<git_status>" && CloseTag("git_status") == "</git_status>"
  {
  }

  lemma NestedParts()
    ensures "<user_info" + ("<git_status>" + "</git_status>") + ">x</user_info>" == NESTED
    ensures "<user_info" + ">x</user_info>" == JOINED
  {
  }

  lemma NestedStatusIsCut()
    ensures StripTag(NESTED, OpenTag("git_status"), CloseTag("git_status")) == JOINED
  {
    hide Find, OpenTag, CloseTag, StripTag;
    StatusTags();
    NestedParts();
    FindStatus();
    FindStatusEnd();
    NoOpening(JOINED, "git_status");
    BlockIsCut("<user_info", ">x</user_info>", "<git_status>", "</git_status>");
  }

  lemma FindStatus()
    ensures Find(NESTED, "<git_status>") == Some(10)
  {
    var s, open := NESTED, "<git_status>";
    assert s[10..22] == open;
    forall i: nat | i < 10 ensures !At(s, open, i) {
      if At(s, open, i) { AtChar(s, open, i, 0); AtChar(s, open, i, 1); assert false; }
    }
    FindIs(s, open, 10);
  }

  lemma FindStatusEnd()
    ensures Find("<git_status>" + "</git_status>" + ">x</user_info>", "</git_status>") == Some(12)
  {
    var s, close := "<git_status>" + "</git_status>" + ">x</user_info>", "</git_status>";
    assert s[12..25] == close;
    forall i: nat | i < 12 ensures !At(s, close, i) {
      if At(s, close, i) { AtChar(s, close, i, 0); AtChar(s, close, i, 1); assert false; }
    }
    FindIs(s, close, 12);
  }

  lemma OthersStartOtherwise(i: nat)
    requires 3 <= i < |SYSTEM_TAGS|
    ensures SYSTEM_TAGS[i] != [] && SYSTEM_TAGS[i][0] != 'u' && SYSTEM_TAGS[i][0] != '/'
  {
  }

  lemma JoinedOpens(c: char)
    requires c != 'u' && c != '/'
    ensures forall i :: 0 <= i < |JOINED| - 1 && JOINED[i] == '<' ==> JOINED[i + 1] != c
  {
  }

  lemma JoinedHoldsNoOther()
    ensures StripTags(JOINED, SYSTEM_TAGS[3..]) == JOINED
  {
    hide StripTags, HasBlock, OpenTag, CloseTag;
    var tags := SYSTEM_TAGS[3..];
    StripTagsFixed(JOINED, tags);
    forall i | 0 <= i < |tags| ensures !HasBlock(JOINED, OpenTag(tags[i]), CloseTag(tags[i])) {
      assert tags[i] == SYSTEM_TAGS[i + 3];
      OthersStartOtherwise(i + 3);
      JoinedOpens(tags[i][0]);
      NoOpening(JOINED, tags[i]);
    }
  }

  lemma AtPiece(a: string, pat: string, c: string)
    ensures At(a + pat + c, pat, |a|)
  {
    assert (a + pat + c)[|a|..|a| + |pat|] == pat;
  }

  lemma JoinedIsTrimmed()
    ensures Trimmed(JOINED) && HasBlock(JOINED, OpenTag("user_info"), CloseTag("user_info"))
  {
    var open, close := OpenTag("user_info"), CloseTag("user_info");
    assert [] + open + ("x" + close) == JOINED && (open + "x") + close + [] == JOINED;
    AtPiece([], open, "x" + close);
    AtPiece(open + "x", close, []);
  }

  lemma StripFirst(s: string, tags: seq<string>, i: nat)
    requires i < |tags|
    ensures StripTags(s, tags[i..]) == StripTags(StripTag(s, OpenTag(tags[i]), CloseTag(tags[i])), tags[i + 1..])
  {
    hide StripTag, OpenTag;
    assert tags[i..][0] == tags[i] && tags[i..][1..] == tags[i + 1..];
  }

  /**
   Not every block is removed: cutting an inner one joins the halves of a tag that was
   passed over before, and the block it opens stays.
   */
  lemma JoinedBlockRemains()
    ensures StripSystemTags(NESTED) == JOINED && HasBlock(JOINED, OpenTag("user_info"), CloseTag("user_info"))
  {
    hide StripTags, StripTag, HasBlock, OpenTag, CloseTag, Trim, Trimmed;
    assert SYSTEM_TAGS[0..] == SYSTEM_TAGS;
    StripFirst(NESTED, SYSTEM_TAGS, 0);
    NestedHoldsNoUserInfo();
    StripFirst(NESTED, SYSTEM_TAGS, 1);
    NestedHoldsNoLayout();
    StripFirst(NESTED, SYSTEM_TAGS, 2);
    NestedStatusIsCut();
    JoinedHoldsNoOther();
    JoinedIsTrimmed();
    TrimOfTrimmed(JOINED);
  }
}
