/**
 Strings as the compaction code uses them: substring search, replacement and
 trimming. Positions count characters. The source counts bytes, but it only
 ever slices where a search has found a match, so the two agree.
 */
module Text {
  import opened Wrappers

  /** `pat` occurs in `s` at position `i`. */
  predicate At(s: string, pat: string, i: nat) {
    i + |pat| <= |s| && s[i..i + |pat|] == pat
  }

  predicate Contains(s: string, pat: string) {
    exists i :: 0 <= i <= |s| && At(s, pat, i)
  }

  /** Leftmost occurrence. */
  function Find(s: string, pat: string): (r: Option<nat>)
    ensures r.Some? ==> At(s, pat, r.value) && forall j: nat :: j < r.value ==> !At(s, pat, j)
    ensures r.None? ==> forall j: nat :: !At(s, pat, j)
    ensures r.Some? <==> Contains(s, pat)
  {
    FindFrom(s, pat, 0)
  }

  function FindFrom(s: string, pat: string, i: nat): (r: Option<nat>)
    requires i <= |s|
    ensures r.Some? ==> i <= r.value && At(s, pat, r.value) && forall j: nat :: i <= j < r.value ==> !At(s, pat, j)
    ensures r.None? ==> forall j: nat :: i <= j ==> !At(s, pat, j)
    decreases |s| - i
  {
    if At(s, pat, i) then Some(i)
    else if i == |s| then None
    else FindFrom(s, pat, i + 1)
  }

  /** Rightmost occurrence. */
  function RFind(s: string, pat: string): (r: Option<nat>)
    ensures r.Some? ==> At(s, pat, r.value) && forall j: nat :: r.value < j ==> !At(s, pat, j)
    ensures r.None? ==> forall j: nat :: !At(s, pat, j)
  {
    RFindFrom(s, pat, |s|)
  }

  function RFindFrom(s: string, pat: string, i: nat): (r: Option<nat>)
    requires i <= |s|
    ensures r.Some? ==> r.value <= i && At(s, pat, r.value) && forall j: nat :: r.value < j <= i ==> !At(s, pat, j)
    ensures r.None? ==> forall j: nat :: j <= i ==> !At(s, pat, j)
  {
    if At(s, pat, i) then Some(i)
    else if i == 0 then None
    else RFindFrom(s, pat, i - 1)
  }

  /** Every non-overlapping occurrence of `pat`, taken left to right, becomes `rep`. */
  function Replace(s: string, pat: string, rep: string): string
    requires pat != []
  {
    if s == [] then []
    else if pat <= s then rep + Replace(s[|pat|..], pat, rep)
    else [s[0]] + Replace(s[1..], pat, rep)
  }

  /** Unicode White_Space, the class that trimming removes. */
  predicate IsSpace(c: char) {
    '\U{9}' <= c <= '\U{d}' || c == ' ' || c == '\U{85}' || c == '\U{a0}' || c == '\U{1680}' ||
    '\U{2000}' <= c <= '\U{200a}' || c == '\U{2028}' || c == '\U{2029}' || c == '\U{202f}' ||
    c == '\U{205f}' || c == '\U{3000}'
  }

  /** The 25 code points of that class. */
  lemma SpacesAre(c: char)
    ensures IsSpace(c) <==>
            c as int in {0x9, 0xA, 0xB, 0xC, 0xD, 0x20, 0x85, 0xA0, 0x1680, 0x2000, 0x2001, 0x2002, 0x2003, 0x2004, 0x2005,
                         0x2006, 0x2007, 0x2008, 0x2009, 0x200A, 0x2028, 0x2029, 0x202F, 0x205F, 0x3000}
  {
  }

  function TrimStart(s: string): (r: string)
    ensures |r| <= |s| && r == s[|s| - |r|..]
    ensures r != [] ==> !IsSpace(r[0])
  {
    if s != [] && IsSpace(s[0]) then TrimStart(s[1..]) else s
  }

  function TrimEnd(s: string): (r: string)
    ensures r <= s
    ensures r != [] ==> !IsSpace(r[|r| - 1])
  {
    if s != [] && IsSpace(s[|s| - 1]) then TrimEnd(s[..|s| - 1]) else s
  }

  function Trim(s: string): string {
    TrimEnd(TrimStart(s))
  }

  predicate Trimmed(s: string) {
    s != [] ==> !IsSpace(s[0]) && !IsSpace(s[|s| - 1])
  }

  predicate Blank(s: string) {
    forall i :: 0 <= i < |s| ==> IsSpace(s[i])
  }

  function TrimStartMatches(s: string, chars: set<char>): (r: string)
    ensures |r| <= |s| && r == s[|s| - |r|..]
    ensures r != [] ==> r[0] !in chars
  {
    if s != [] && s[0] in chars then TrimStartMatches(s[1..], chars) else s
  }

  /** The pieces of `parts` with `sep` between neighbours. */
  function Join(parts: seq<string>, sep: string): string {
    if parts == [] then []
    else if |parts| == 1 then parts[0]
    else parts[0] + sep + Join(parts[1..], sep)
  }

  // ----- trimming

  /** Trimming cuts a slice out of the text and leaves nothing more to trim. */
  lemma {:induction false} TrimIsSlice(s: string) returns (i: nat, j: nat)
    ensures i <= j <= |s| && Trim(s) == s[i..j]
    ensures Trimmed(Trim(s))
  {
    hide IsSpace, TrimStart, TrimEnd;
    var t := TrimStart(s);
    var u := TrimEnd(t);
    i := |s| - |t|;
    j := i + |u|;
    assert u == t[..|u|] == s[i..j];
    if u != [] {
      assert t[0] == u[0];
    }
  }

  lemma TrimStartVisible(s: string)
    requires s != [] ==> !IsSpace(s[0])
    ensures TrimStart(s) == s
  {
  }

  lemma TrimEndVisible(s: string)
    requires s != [] ==> !IsSpace(s[|s| - 1])
    ensures TrimEnd(s) == s
  {
  }

  lemma TrimOfTrimmed(s: string)
    requires Trimmed(s)
    ensures Trim(s) == s
  {
  }

  lemma {:induction false} TrimStartPadded(a: string, s: string)
    requires Blank(a)
    ensures TrimStart(a + s) == TrimStart(s)
  {
    if a == [] {
      assert a + s == s;
    } else {
      assert (a + s)[1..] == a[1..] + s;
      TrimStartPadded(a[1..], s);
    }
  }

  lemma {:induction false} TrimEndPadded(s: string, b: string)
    requires Blank(b)
    ensures TrimEnd(s + b) == TrimEnd(s)
  {
    if b == [] {
      assert s + b == s;
    } else {
      assert (s + b)[..|s + b| - 1] == s + b[..|b| - 1];
      assert (s + b)[|s + b| - 1] == b[|b| - 1];
      TrimEndPadded(s, b[..|b| - 1]);
    }
  }

  /** Padding a trimmed text with whitespace on both sides and trimming gives it back. */
  lemma {:induction false} TrimPadded(a: string, s: string, b: string)
    requires Blank(a) && Blank(b) && Trimmed(s)
    ensures Trim(a + s + b) == s
  {
    hide IsSpace, TrimStart, TrimEnd;
    assert a + s + b == a + (s + b);
    TrimStartPadded(a, s + b);
    if s == [] {
      assert s + b == b + [];
      TrimStartPadded(b, []);
      TrimStartVisible([]);
      TrimEndVisible([]);
    } else {
      assert (s + b)[0] == s[0];
      TrimStartVisible(s + b);
      TrimEndPadded(s, b);
      TrimEndVisible(s);
    }
  }

  lemma {:induction false} TrimEndKeepsFront(s: string)
    requires s != [] && !IsSpace(s[0])
    ensures TrimEnd(s) != []
  {
    if IsSpace(s[|s| - 1]) {
      TrimEndKeepsFront(s[..|s| - 1]);
    }
  }

  lemma {:induction false} TrimKeepsVisible(s: string, i: nat)
    requires i < |s| && !IsSpace(s[i])
    ensures Trim(s) != []
  {
    if IsSpace(s[0]) {
      assert s[1..][i - 1] == s[i];
      TrimKeepsVisible(s[1..], i - 1);
    } else {
      TrimEndKeepsFront(s);
    }
  }

  // ----- occurrences

  lemma AtShift(s: string, pat: string, i: nat, j: nat)
    requires i <= |s|
    ensures At(s[i..], pat, j) <==> At(s, pat, i + j)
  {
  }

  lemma AtChar(s: string, pat: string, i: nat, k: nat)
    requires At(s, pat, i) && k < |pat|
    ensures s[i + k] == pat[k]
  {
  }

  lemma NotAt(s: string, pat: string, i: nat)
    requires pat != [] && i < |s| && s[i] != pat[0]
    ensures !At(s, pat, i)
  {
  }

  lemma ContainsAt(s: string, pat: string, i: nat)
    requires At(s, pat, i)
    ensures Contains(s, pat)
  {
  }

  lemma FindIs(s: string, pat: string, k: nat)
    requires At(s, pat, k) && forall j: nat :: j < k ==> !At(s, pat, j)
    ensures Find(s, pat) == Some(k)
  {
  }

  lemma FoundInside(s: string, pat: string)
    ensures Find(s, pat).Some? ==> Find(s, pat).value + |pat| <= |s|
  {
  }

  /** An occurrence is either at the front or further in. */
  lemma ContainsStep(s: string, pat: string)
    requires s != []
    ensures Contains(s, pat) <==> pat <= s || Contains(s[1..], pat)
  {
    if pat <= s {
      assert At(s, pat, 0);
    }
    if Contains(s[1..], pat) {
      var i: nat :| i <= |s[1..]| && At(s[1..], pat, i);
      AtShift(s, pat, 1, i);
      ContainsAt(s, pat, i + 1);
    }
    if Contains(s, pat) && !(pat <= s) {
      var i: nat :| i <= |s| && At(s, pat, i);
      assert i > 0;
      AtShift(s, pat, 1, i - 1);
      ContainsAt(s[1..], pat, i - 1);
    }
  }

  lemma ContainsSlice(s: string, pat: string, i: nat, j: nat)
    requires i <= j <= |s| && Contains(s[i..j], pat)
    ensures Contains(s, pat)
  {
    var k: nat :| k <= j - i && At(s[i..j], pat, k);
    forall m | 0 <= m < |pat| ensures s[i + k + m] == pat[m] {
      assert s[i..j][k..k + |pat|][m] == s[i..j][k + m];
    }
    assert s[i + k..i + k + |pat|] == pat;
    ContainsAt(s, pat, i + k);
  }

  /** Text without the first character of `pat` cannot start an occurrence. */
  lemma ContainsAfter(a: string, b: string, pat: string)
    requires pat != [] && pat[0] !in a && Contains(a + b, pat)
    ensures Contains(b, pat)
  {
    var s := a + b;
    var k: nat :| k <= |s| && At(s, pat, k);
    assert s[k] == s[k..k + |pat|][0] == pat[0];
    assert k >= |a|;
    AtShift(s, pat, |a|, k - |a|);
    assert s[|a|..] == b;
    ContainsAt(b, pat, k - |a|);
  }

  // ----- tokens: `<` opens them and occurs nowhere else in them

  predicate IsToken(t: string) {
    |t| >= 2 && t[0] == '<' && '<' !in t[1..]
  }

  /** Two tokens never overlap: the second one's `<` cannot lie inside the first. */
  lemma TokensDisjoint(s: string, a: string, b: string, i: nat, j: nat)
    requires IsToken(a) && IsToken(b) && At(s, a, i) && At(s, b, j) && i < j
    ensures i + |a| <= j
  {
  }

  lemma NoToken(a: string, t: string)
    requires IsToken(t) && '<' !in a
    ensures !Contains(a, t)
  {
  }

  /** The first token after text without it is found right there: no occurrence straddles the seam. */
  lemma FindFirst(a: string, t: string, c: string)
    requires IsToken(t) && !Contains(a, t)
    ensures Find(a + (t + c), t) == Some(|a|)
  {
    var s := a + (t + c);
    assert s[|a|..|a| + |t|] == t;
    assert At(s, t, |a|);
    forall j: nat | j < |a| ensures !At(s, t, j) {
      if At(s, t, j) {
        TokensDisjoint(s, t, t, j, |a|);
        assert a[j..j + |t|] == s[j..j + |t|];
        ContainsAt(a, t, j);
        assert false;
      }
    }
  }

  /** The last token before text without it is found right there. */
  lemma FindLast(a: string, t: string, c: string)
    requires IsToken(t) && !Contains(c, t)
    ensures RFind(a + (t + c), t) == Some(|a|)
  {
    var s, n := a + (t + c), |a| + |t|;
    assert s[|a|..n] == t && s[n..] == c;
    assert At(s, t, |a|);
    forall j: nat | |a| < j ensures !At(s, t, j) {
      if At(s, t, j) {
        TokensDisjoint(s, t, t, |a|, j);
        AtShift(s, t, n, j - n);
        ContainsAt(c, t, j - n);
        assert false;
      }
    }
  }

  // ----- replacement

  /**
   Replacement only touches text that starts with the pattern's first character,
   so a prefix of the result free of it was there before.
   */
  lemma {:induction false} PrefixBack(s: string, pat: string, rep: string, u: string)
    requires pat != [] && rep != [] && pat[0] == rep[0] && pat[0] !in u
    requires u <= Replace(s, pat, rep)
    ensures u <= s
  {
    if u != [] {
      assert Replace(s, pat, rep)[0] == u[0];
      assert u[0] in u;
      assert !(pat <= s);
      var r := Replace(s[1..], pat, rep);
      assert u[1..] == ([s[0]] + r)[1..|u|] == r[..|u| - 1];
      assert forall c | c in u[1..] :: c in u;
      PrefixBack(s[1..], pat, rep, u[1..]);
      assert u == [s[0]] + u[1..];
    }
  }

  lemma ReplaceStep(s: string, pat: string, rep: string)
    requires pat != [] && s != [] && !(pat <= s)
    ensures Replace(s, pat, rep) == [s[0]] + Replace(s[1..], pat, rep)
  {
  }

  lemma {:induction false} ReplaceAbsent(s: string, pat: string, rep: string)
    requires pat != [] && !Contains(s, pat)
    ensures Replace(s, pat, rep) == s
  {
    if s != [] {
      ContainsStep(s, pat);
      ReplaceAbsent(s[1..], pat, rep);
    }
  }

  /** Text without the pattern's first character passes through untouched. */
  lemma {:induction false} ReplaceSkips(a: string, x: string, pat: string, rep: string)
    requires pat != [] && pat[0] !in a
    ensures Replace(a + x, pat, rep) == a + Replace(x, pat, rep)
  {
    if a == [] {
      assert a + x == x;
    } else {
      assert (a + x)[0] == a[0] && (a + x)[1..] == a[1..] + x;
      assert a[0] in a;
      ReplaceSkips(a[1..], x, pat, rep);
      assert a == [a[0]] + a[1..];
    }
  }
}
