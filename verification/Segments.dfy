/** The segment store: file names and paths, and rendering one segment under a byte cap. */
module Segments {
  import opened Wrappers
  import opened Text
  import opened Decimal

  const COMPACTION_DIR := "compaction"
  const INDEX_FILE := "INDEX.md"
  const SEGMENT_PREFIX := "segment_"
  const SEGMENT_SUFFIX := ".md"

  // ----- names and paths

  function SegmentLabel(index: nat): string { Pad(Dec(index), 3) }

  function SegmentFilename(index: nat): string {
    SEGMENT_PREFIX + SegmentLabel(index) + SEGMENT_SUFFIX
  }

  function StripPrefix(s: string, prefix: string): Option<string> {
    if prefix <= s then Some(s[|prefix|..]) else None
  }

  predicate EndsWith(s: string, suffix: string) {
    |suffix| <= |s| && s[|s| - |suffix|..] == suffix
  }

  function StripSuffix(s: string, suffix: string): Option<string> {
    if EndsWith(s, suffix) then Some(s[..|s| - |suffix|]) else None
  }

  function ParseSegmentIndex(filename: string): Option<nat> {
    match StripPrefix(filename, SEGMENT_PREFIX)
    case None => None
    case Some(rest) =>
      match StripSuffix(rest, SEGMENT_SUFFIX)
      case None => None
      case Some(digits) => ParseU64(digits)
  }

  datatype Artifact = Segment(index: nat) | Index | Dir

  function TrimEndSlashes(s: string): (r: string)
    ensures r <= s && (r != [] ==> r[|r| - 1] != '/')
  {
    if s != [] && s[|s| - 1] == '/' then TrimEndSlashes(s[..|s| - 1]) else s
  }

  predicate IsStoreDir(path: string) {
    var trimmed := TrimEndSlashes(path);
    trimmed == COMPACTION_DIR || EndsWith(trimmed, "/" + COMPACTION_DIR)
  }

  function ClassifyCompactionPath(path: string): Option<Artifact> {
    if IsStoreDir(path) then Some(Dir)
    else
      match RFind(path, COMPACTION_DIR)
      case None => None
      case Some(k) =>
        match StripPrefix(path[k + |COMPACTION_DIR|..], "/")
        case None => None
        case Some(rest) =>
          match ParseSegmentIndex(rest)
          case Some(index) => Some(Segment(index))
          case None => if rest == INDEX_FILE then Some(Index) else None
  }

  lemma LabelShape(index: nat)
    ensures var digits := SegmentLabel(index); digits != [] && AllDigits(digits) && Value(digits) == index
  {
    ValueOfDec(index);
    ValueOfPadded(Dec(index), 3);
  }

  /** A segment's file name reads back as its index, for every 64-bit index. */
  lemma FilenameRoundTrip(index: nat)
    requires index <= U64_MAX
    ensures ParseSegmentIndex(SegmentFilename(index)) == Some(index)
  {
    hide Value, Pad, Dec;
    LabelShape(index);
    var digits, f := SegmentLabel(index), SegmentFilename(index);
    assert SEGMENT_PREFIX <= f;
    var rest := f[|SEGMENT_PREFIX|..];
    assert rest == digits + SEGMENT_SUFFIX;
    assert rest[|digits|..] == SEGMENT_SUFFIX && rest[..|digits|] == digits;
    assert EndsWith(rest, SEGMENT_SUFFIX);
    assert digits[0] != '+';
  }

  /** The last `compaction` in a store path is the directory itself, whatever comes before it. */
  lemma StoreDirIsLast(prefix: string, file: string)
    requires 'c' !in file
    ensures RFind(prefix + COMPACTION_DIR + "/" + file, COMPACTION_DIR) == Some(|prefix|)
  {
    var s := prefix + COMPACTION_DIR + "/" + file;
    var n := |prefix|;
    assert s[n..n + |COMPACTION_DIR|] == COMPACTION_DIR;
    assert At(s, COMPACTION_DIR, n);
    forall j: nat | n < j ensures !At(s, COMPACTION_DIR, j) {
      if j < |s| {
        if j == n + 5 {
          assert s[j + 1] == 't';
          if At(s, COMPACTION_DIR, j) { AtChar(s, COMPACTION_DIR, j, 1); assert false; }
        } else {
          assert s[j] != 'c' by {
            if j < n + |COMPACTION_DIR| { assert s[j] == COMPACTION_DIR[j - n]; }
            else if j > n + |COMPACTION_DIR| { assert s[j] == file[j - n - |COMPACTION_DIR| - 1]; }
          }
          NotAt(s, COMPACTION_DIR, j);
        }
      }
    }
  }

  lemma FileIsNoStoreDir(prefix: string, file: string)
    requires file != [] && file[|file| - 1] == 'd'
    ensures !IsStoreDir(prefix + COMPACTION_DIR + "/" + file)
  {
  }

  /** Store paths are recognised under every prefix, even one that itself mentions `compaction`. */
  lemma ClassifiesSegments(prefix: string, index: nat)
    requires index <= U64_MAX
    ensures ClassifyCompactionPath(prefix + COMPACTION_DIR + "/" + SegmentFilename(index)) == Some(Segment(index))
  {
    hide IsStoreDir, ParseSegmentIndex, RFind, SegmentLabel, Value;
    var file := SegmentFilename(index);
    LabelShape(index);
    assert 'c' !in file;
    StoreDirIsLast(prefix, file);
    FileIsNoStoreDir(prefix, file);
    FilenameRoundTrip(index);
    AfterStoreDir(prefix, file);
  }

  lemma AfterStoreDir(prefix: string, file: string)
    ensures var s := prefix + COMPACTION_DIR + "/" + file;
            StripPrefix(s[|prefix| + |COMPACTION_DIR|..], "/") == Some(file)
  {
  }

  lemma ClassifiesIndex(prefix: string)
    ensures ClassifyCompactionPath(prefix + COMPACTION_DIR + "/" + INDEX_FILE) == Some(Index)
  {
    hide IsStoreDir, RFind;
    assert 'c' !in INDEX_FILE;
    StoreDirIsLast(prefix, INDEX_FILE);
    FileIsNoStoreDir(prefix, INDEX_FILE);
    AfterStoreDir(prefix, INDEX_FILE);
    assert INDEX_FILE[0] != SEGMENT_PREFIX[0];
  }

  /** Distinct segments never share a file. */
  lemma FilenamesAreDistinct(i: nat, j: nat)
    requires i <= U64_MAX && j <= U64_MAX && SegmentFilename(i) == SegmentFilename(j)
    ensures i == j
  {
    FilenameRoundTrip(i);
    FilenameRoundTrip(j);
  }

  lemma {:induction false} SlashesAreTrimmed(s: string, slashes: string)
    requires s != [] && s[|s| - 1] != '/' && forall i :: 0 <= i < |slashes| ==> slashes[i] == '/'
    ensures TrimEndSlashes(s + slashes) == s
  {
    if slashes == [] {
      assert s + slashes == s;
    } else {
      var t := s + slashes;
      assert t[..|t| - 1] == s + slashes[..|slashes| - 1] && t[|t| - 1] == '/';
      SlashesAreTrimmed(s, slashes[..|slashes| - 1]);
    }
  }

  /** The store directory is recognised bare or under a parent, with any number of trailing slashes. */
  lemma ClassifiesStoreDir(parent: string, slashes: string)
    requires parent == [] || parent[|parent| - 1] == '/'
    requires forall i :: 0 <= i < |slashes| ==> slashes[i] == '/'
    ensures ClassifyCompactionPath(parent + COMPACTION_DIR + slashes) == Some(Dir)
  {
    var s := parent + COMPACTION_DIR;
    assert s[|s| - 1] == 'n';
    SlashesAreTrimmed(s, slashes);
    if parent == [] {
      assert s == COMPACTION_DIR;
    } else {
      var dir := "/" + COMPACTION_DIR;
      assert s[|s| - |dir|..] == dir;
    }
  }

  // ----- what is recognised, and nothing else

  function Zeros(n: nat): string { seq(n, i => '0') }

  lemma {:induction false} PadIs(s: string, width: nat)
    ensures Pad(s, width) == Zeros(if |s| < width then width - |s| else 0) + s
    decreases width - |s|
  {
    if |s| < width {
      PadIs("0" + s, width);
      assert Zeros(width - |s| - 1) + ("0" + s) == Zeros(width - |s|) + s;
    }
  }

  /** The index in decimal, with leading zeros up to three digits. */
  lemma FilenameIs(index: nat)
    ensures var digits := Dec(index);
            SegmentFilename(index) == "segment_" + (Zeros(if |digits| < 3 then 3 - |digits| else 0) + digits) + ".md"
  {
    hide Dec, Pad;
    PadIs(Dec(index), 3);
  }

  /** Digits with an optional plus sign that stand for a 64-bit number. */
  ghost predicate Reads(text: string, index: nat) {
    var digits := if text != [] && text[0] == '+' then text[1..] else text;
    digits != [] && AllDigits(digits) && Value(digits) == index && index <= U64_MAX
  }

  /** A file name is a segment's exactly if it is the prefix, a 64-bit number and the suffix. */
  lemma ParsesIff(filename: string, index: nat)
    ensures ParseSegmentIndex(filename) == Some(index) <==>
            exists text :: filename == "segment_" + text + ".md" && Reads(text, index)
  {
    hide Value, AllDigits;
    if text :| filename == "segment_" + text + ".md" && Reads(text, index) {
      FilenameParts(filename, text);
    }
    if ParseSegmentIndex(filename) == Some(index) {
      var rest := filename[|SEGMENT_PREFIX|..];
      var text := rest[..|rest| - |SEGMENT_SUFFIX|];
      assert rest == text + rest[|rest| - |SEGMENT_SUFFIX|..];
      assert filename == SEGMENT_PREFIX + rest;
      assert filename == "segment_" + text + ".md" && Reads(text, index);
    }
  }

  lemma FilenameParts(filename: string, text: string)
    requires filename == "segment_" + text + ".md"
    ensures SEGMENT_PREFIX <= filename && EndsWith(filename[|SEGMENT_PREFIX|..], SEGMENT_SUFFIX)
    ensures var rest := filename[|SEGMENT_PREFIX|..]; rest[..|rest| - |SEGMENT_SUFFIX|] == text
  {
    var rest := filename[|SEGMENT_PREFIX|..];
    assert rest == text + ".md";
    assert rest[|rest| - |SEGMENT_SUFFIX|..] == ".md";
  }

  lemma DigitsHaveNoC(text: string, index: nat)
    requires Reads(text, index)
    ensures 'c' !in text
  {
    hide Value;
    if text[0] == '+' { assert text == ['+'] + text[1..]; }
  }

  lemma ParsedHasNoC(filename: string)
    requires ParseSegmentIndex(filename).Some?
    ensures 'c' !in filename && filename != [] && filename[|filename| - 1] == 'd'
  {
    hide Reads;
    var index := ParseSegmentIndex(filename).value;
    ParsesIff(filename, index);
    hide ParseSegmentIndex;
    var text :| filename == "segment_" + text + ".md" && Reads(text, index);
    DigitsHaveNoC(text, index);
  }

  lemma LastMatch(path: string, k: nat)
    requires RFind(path, COMPACTION_DIR) == Some(k)
    ensures k + |COMPACTION_DIR| <= |path| && path == path[..k] + COMPACTION_DIR + path[k + |COMPACTION_DIR|..]
  {
  }

  /** A path is a segment's exactly if it is a segment's file name directly below the store directory. */
  lemma SegmentPathIff(path: string, index: nat)
    ensures ClassifyCompactionPath(path) == Some(Segment(index)) <==>
            exists p, f :: path == p + COMPACTION_DIR + "/" + f && ParseSegmentIndex(f) == Some(index)
  {
    hide IsStoreDir, ParseSegmentIndex, RFind;
    if p, f :| path == p + COMPACTION_DIR + "/" + f && ParseSegmentIndex(f) == Some(index) {
      ParsedHasNoC(f);
      StoreDirIsLast(p, f);
      FileIsNoStoreDir(p, f);
      AfterStoreDir(p, f);
    }
    if ClassifyCompactionPath(path) == Some(Segment(index)) {
      var k := RFind(path, COMPACTION_DIR).value;
      LastMatch(path, k);
      var tail := path[k + |COMPACTION_DIR|..];
      assert tail == "/" + tail[1..];
      assert path == path[..k] + COMPACTION_DIR + "/" + tail[1..];
    }
  }

  /** It is the index exactly if it is that file there. */
  lemma IndexPathIff(path: string)
    ensures ClassifyCompactionPath(path) == Some(Index) <==> exists p :: path == p + COMPACTION_DIR + "/" + INDEX_FILE
  {
    hide IsStoreDir, ParseSegmentIndex, RFind;
    if p :| path == p + COMPACTION_DIR + "/" + INDEX_FILE { ClassifiesIndex(p); }
    if ClassifyCompactionPath(path) == Some(Index) {
      var k := RFind(path, COMPACTION_DIR).value;
      LastMatch(path, k);
      var tail := path[k + |COMPACTION_DIR|..];
      assert tail == "/" + tail[1..];
      assert path == path[..k] + COMPACTION_DIR + "/" + INDEX_FILE;
    }
  }

  lemma {:induction false} SlashesBehind(s: string)
    ensures forall i :: |TrimEndSlashes(s)| <= i < |s| ==> s[i] == '/'
  {
    if s != [] && s[|s| - 1] == '/' { SlashesBehind(s[..|s| - 1]); }
  }

  ghost predicate OnlySlashes(s: string) {
    forall i :: 0 <= i < |s| ==> s[i] == '/'
  }

  /** `path` is the directory's name below `p`, with slashes behind it. */
  ghost predicate NamesStore(path: string, p: string, slashes: string) {
    path == p + COMPACTION_DIR + slashes && OnlySlashes(slashes) && (p == [] || p[|p| - 1] == '/')
  }

  lemma StoreDirSplits(path: string) returns (p: string, slashes: string)
    requires IsStoreDir(path)
    ensures NamesStore(path, p, slashes)
  {
    hide TrimEndSlashes, EndsWith;
    var t := TrimEndSlashes(path);
    SlashesBehind(path);
    StoreDirParts(t);
    p, slashes := t[..|t| - |COMPACTION_DIR|], path[|t|..];
    assert OnlySlashes(slashes) && path == t + slashes;
  }

  lemma DirIsStoreDir(path: string)
    ensures ClassifyCompactionPath(path) == Some(Dir) <==> IsStoreDir(path)
  {
    hide IsStoreDir, ParseSegmentIndex, RFind;
  }

  /** It is the store directory exactly if its last name is the directory's, trailing slashes aside. */
  lemma DirPathIff(path: string)
    ensures ClassifyCompactionPath(path) == Some(Dir) <==> exists p, slashes :: NamesStore(path, p, slashes)
  {
    hide ClassifyCompactionPath, IsStoreDir;
    DirIsStoreDir(path);
    if IsStoreDir(path) { var p, slashes := StoreDirSplits(path); }
    if p, slashes :| NamesStore(path, p, slashes) { ClassifiesStoreDir(p, slashes); }
  }

  lemma StoreDirParts(t: string)
    requires t == COMPACTION_DIR || EndsWith(t, "/" + COMPACTION_DIR)
    ensures |t| >= |COMPACTION_DIR|
    ensures var p := t[..|t| - |COMPACTION_DIR|]; t == p + COMPACTION_DIR && (p == [] || p[|p| - 1] == '/')
  {
    if t != COMPACTION_DIR {
      var dir, n := "/" + COMPACTION_DIR, |t| - |COMPACTION_DIR|;
      assert t[n - 1..] == dir;
      assert t[n..] == t[n - 1..][1..] == dir[1..];
      assert dir[1..] == COMPACTION_DIR && t[n - 1] == t[n - 1..][0];
    }
  }
}

/** Rendering the turns of a segment until the byte cap is reached. */
module SegmentRender {
  import opened Text
  import opened Decimal
  import opened Utf8

  const SEGMENT_MAX_BYTES := 512 * 1024
  const LIMIT_FIELD := "{limit}"
  const OMITTED_FIELD := "{omitted}"
  const NOTICE_HEAD := "\n\n[... TRUNCATED at "
  const NOTICE_MIDDLE := " bytes, "
  const NOTICE_TAIL := " turns omitted ...]\n"
  const TRUNCATION_NOTICE := NOTICE_HEAD + (LIMIT_FIELD + (NOTICE_MIDDLE + (OMITTED_FIELD + NOTICE_TAIL)))
  const PER_TURN_OVERHEAD_BYTES := 64

  function Notice(omitted: nat): string {
    Replace(Replace(TRUNCATION_NOTICE, LIMIT_FIELD, Dec(SEGMENT_MAX_BYTES)), OMITTED_FIELD, Dec(omitted))
  }

  function Reserved(preamble: string): nat {
    ByteLen(preamble) + |TRUNCATION_NOTICE| + PER_TURN_OVERHEAD_BYTES
  }

  function TurnBudget(preamble: string): nat {
    if SEGMENT_MAX_BYTES >= Reserved(preamble) then SEGMENT_MAX_BYTES - Reserved(preamble) else 0
  }

  /** Bytes of the rendered turns, separators not counted. */
  function TurnBytes(blocks: seq<string>): nat {
    if blocks == [] then 0 else TurnBytes(blocks[..|blocks| - 1]) + ByteLen(blocks[|blocks| - 1])
  }

  function Document(preamble: string, blocks: seq<string>, shown: nat): string
    requires shown <= |blocks|
  {
    preamble + Join(blocks[..shown], "\n") + if shown < |blocks| then Notice(|blocks| - shown) else ""
  }

  /** `shown` turns fit the budget and the next one, if any, does not. */
  ghost predicate IsCut(blocks: seq<string>, budget: nat, shown: nat) {
    && shown <= |blocks|
    && TurnBytes(blocks[..shown]) <= budget
    && (shown < |blocks| ==> TurnBytes(blocks[..shown]) + ByteLen(blocks[shown]) > budget)
  }

  /** `blocks` are the rendered turns, in order. */
  method RenderSegment(preamble: string, blocks: seq<string>) returns (doc: string, shown: nat)
    ensures IsCut(blocks, TurnBudget(preamble), shown)
    ensures doc == Document(preamble, blocks, shown)
  {
    hide Encode, Notice, Join;
    var budget := TurnBudget(preamble);
    var kept: seq<string> := [];
    var used := 0;
    shown := |blocks|;
    var i := 0;
    while i < |blocks|
      invariant 0 <= i <= |blocks| && shown == |blocks|
      invariant kept == blocks[..i] && used == TurnBytes(blocks[..i]) <= budget
    {
      assert blocks[..i + 1][..i] == blocks[..i];
      var block := blocks[i];
      if used + ByteLen(block) > budget {
        shown := i;
        break;
      }
      used := used + ByteLen(block);
      kept := kept + [block];
      i := i + 1;
    }
    var body := Join(kept, "\n");
    if shown < |blocks| {
      var omitted := |blocks| - shown;
      body := body + Notice(omitted);
      assert preamble + body == preamble + Join(kept, "\n") + Notice(omitted);
    } else {
      assert preamble + body == preamble + body + "";
    }
    doc := preamble + body;
  }

  // ----- the size of the document

  lemma {:induction false} NoBrace(s: string, pat: string)
    requires pat != [] && pat[0] !in s
    ensures !Contains(s, pat)
  {
  }

  /** Filling a field replaces its first occurrence and goes on behind it. */
  lemma FillField(before: string, field: string, after: string, value: string)
    requires field != [] && field[0] !in before
    ensures Replace(before + (field + after), field, value) == before + value + Replace(after, field, value)
  {
    ReplaceSkips(before, field + after, field, value);
    assert (field + after)[|field|..] == after;
  }

  lemma OtherFieldStays(b: string, c: string, value: string)
    requires '{' !in b && '{' !in c
    ensures Replace(b + (OMITTED_FIELD + c), LIMIT_FIELD, value) == b + (OMITTED_FIELD + c)
  {
    hide Replace;
    ReplaceSkips(b, OMITTED_FIELD + c, LIMIT_FIELD, value);
    OmittedFieldStays(c, value);
  }

  lemma OmittedFieldStays(c: string, value: string)
    requires '{' !in c
    ensures Replace(OMITTED_FIELD + c, LIMIT_FIELD, value) == OMITTED_FIELD + c
  {
    hide Replace;
    var s := OMITTED_FIELD + c;
    var rest := "omitted}" + c;
    assert s[0] == '{' && s[1] == 'o' && s[1..] == rest;
    assert !(LIMIT_FIELD <= s) by { assert LIMIT_FIELD[1] == 'l'; }
    ReplaceStep(s, LIMIT_FIELD, value);
    NoBrace(rest, LIMIT_FIELD);
    ReplaceAbsent(rest, LIMIT_FIELD, value);
  }

  /** The notice with its two fields filled in. */
  lemma NoticeText(omitted: nat)
    ensures Notice(omitted) == NOTICE_HEAD + Dec(SEGMENT_MAX_BYTES) + NOTICE_MIDDLE + Dec(omitted) + NOTICE_TAIL
  {
    hide Dec, Replace;
    var a, b, c := NOTICE_HEAD, NOTICE_MIDDLE, NOTICE_TAIL;
    var limit, count := Dec(SEGMENT_MAX_BYTES), Dec(omitted);
    FillField(a, LIMIT_FIELD, b + (OMITTED_FIELD + c), limit);
    OtherFieldStays(b, c, limit);
    assert a + limit + (b + (OMITTED_FIELD + c)) == (a + limit + b) + (OMITTED_FIELD + c);
    FillField(a + limit + b, OMITTED_FIELD, c, count);
    NoBrace(c, OMITTED_FIELD);
    ReplaceAbsent(c, OMITTED_FIELD, count);
  }

  lemma NoticeBytes(omitted: nat)
    ensures ByteLen(Notice(omitted)) == |TRUNCATION_NOTICE| - 10 + |Dec(omitted)|
  {
    hide Encode, Dec, Replace, Notice;
    var limit, count := Dec(SEGMENT_MAX_BYTES), Dec(omitted);
    NoticeText(omitted);
    LimitDigits();
    AsciiByteLen(NOTICE_HEAD + limit + NOTICE_MIDDLE + count + NOTICE_TAIL);
  }

  lemma LimitDigits()
    ensures |Dec(SEGMENT_MAX_BYTES)| == 6
  {
  }

  lemma {:induction false} TurnBytesFront(blocks: seq<string>)
    requires blocks != []
    ensures TurnBytes(blocks) == ByteLen(blocks[0]) + TurnBytes(blocks[1..])
  {
    hide Encode;
    var n := |blocks| - 1;
    if n > 0 {
      TurnBytesFront(blocks[..n]);
      assert blocks[..n][1..] == blocks[1..][..n - 1];
    } else {
      assert blocks[..0] == [] && blocks[1..] == [];
    }
  }

  lemma {:induction false} JoinedBytes(blocks: seq<string>)
    ensures ByteLen(Join(blocks, "\n")) == TurnBytes(blocks) + if blocks == [] then 0 else |blocks| - 1
  {
    hide Encode;
    if blocks == [] {
      AsciiByteLen([]);
    } else {
      TurnBytesFront(blocks);
      if |blocks| == 1 {
        assert blocks[1..] == [];
      } else {
        JoinedBytes(blocks[1..]);
        AsciiByteLen("\n");
        EncodeConcat(blocks[0] + "\n", Join(blocks[1..], "\n"));
        EncodeConcat(blocks[0], "\n");
      }
    }
  }

  function NoticeLength(blocks: seq<string>, shown: nat): nat {
    if shown < |blocks| then |TRUNCATION_NOTICE| - 10 + |Dec(|blocks| - shown)| else 0
  }

  function Separators(shown: nat): nat { if shown == 0 then 0 else shown - 1 }

  lemma DocumentLength(preamble: string, blocks: seq<string>, shown: nat)
    requires shown <= |blocks|
    ensures ByteLen(Document(preamble, blocks, shown))
         == ByteLen(preamble) + TurnBytes(blocks[..shown]) + Separators(shown) + NoticeLength(blocks, shown)
  {
    hide Encode, Notice, Dec, Join, TurnBytes;
    var body := Join(blocks[..shown], "\n");
    var notice := if shown < |blocks| then Notice(|blocks| - shown) else "";
    EncodeConcat(preamble + body, notice);
    EncodeConcat(preamble, body);
    JoinedBytes(blocks[..shown]);
    if shown < |blocks| { NoticeBytes(|blocks| - shown); } else { AsciiByteLen(""); }
  }

  /** The cap, or the bytes set aside for the preamble and the notice where those alone are more. */
  function EffectiveCap(preamble: string): nat {
    if Reserved(preamble) <= SEGMENT_MAX_BYTES then SEGMENT_MAX_BYTES else Reserved(preamble)
  }

  /**
   The separators between turns are not charged to the budget: a truncated document
   can run over the cap by its separators plus the digits of the omitted count, less
   74, and stays within it exactly when preamble and turns leave that much unused.
   */
  lemma TruncatedDocumentSize(preamble: string, blocks: seq<string>, shown: nat)
    requires IsCut(blocks, TurnBudget(preamble), shown) && shown < |blocks|
    ensures var size := ByteLen(Document(preamble, blocks, shown));
            var extra := Separators(shown) + |Dec(|blocks| - shown)|;
            && size <= EffectiveCap(preamble) + extra - 74
            && (size <= SEGMENT_MAX_BYTES <==> ByteLen(preamble) + TurnBytes(blocks[..shown]) + extra + 54 <= SEGMENT_MAX_BYTES)
            && (extra <= 74 ==> size <= EffectiveCap(preamble))
  {
    hide Encode, Document, Dec, TurnBytes;
    DocumentLength(preamble, blocks, shown);
  }

  /** A document that shows every turn stays under the cap while it has at most 129 of them. */
  lemma WholeDocumentSize(preamble: string, blocks: seq<string>)
    requires IsCut(blocks, TurnBudget(preamble), |blocks|)
    ensures var size := ByteLen(Document(preamble, blocks, |blocks|));
            && size <= EffectiveCap(preamble) + Separators(|blocks|) - 128
            && (|blocks| <= 129 ==> size <= EffectiveCap(preamble))
  {
    hide Encode, Document, Dec, TurnBytes;
    assert |TRUNCATION_NOTICE| == 64;
    DocumentLength(preamble, blocks, |blocks|);
    assert blocks[..|blocks|] == blocks;
  }

  /** Where the preamble leaves the reserve, every segment of at most 75 turns is within the cap. */
  lemma ShortSegmentFits(preamble: string, blocks: seq<string>, shown: nat)
    requires Reserved(preamble) <= SEGMENT_MAX_BYTES && |blocks| <= 75 && IsCut(blocks, TurnBudget(preamble), shown)
    ensures ByteLen(Document(preamble, blocks, shown)) <= SEGMENT_MAX_BYTES
  {
    hide Encode, Document, Dec, TurnBytes;
    if shown < |blocks| {
      TruncatedDocumentSize(preamble, blocks, shown);
      FewDigits(|blocks| - shown);
    } else {
      WholeDocumentSize(preamble, blocks);
    }
  }

  /** A preamble over the cap breaks it whatever is shown: the summary in it is never cut. */
  lemma LongPreambleExceeds(preamble: string, blocks: seq<string>, shown: nat)
    requires ByteLen(preamble) > SEGMENT_MAX_BYTES && shown <= |blocks|
    ensures ByteLen(Document(preamble, blocks, shown)) > SEGMENT_MAX_BYTES
  {
    hide Encode, Document, Dec, TurnBytes;
    DocumentLength(preamble, blocks, shown);
  }

  // ----- the bound is met

  /** One long turn, then turns of a single byte. */
  function LongThenShort(long: nat, short: nat): seq<string> {
    [Letters(long)] + seq(short, i => Letters(1))
  }

  lemma {:induction false} LongThenShortBytes(long: nat, short: nat, k: nat)
    requires 1 <= k <= 1 + short
    ensures TurnBytes(LongThenShort(long, short)[..k]) == long + k - 1
  {
    hide Encode;
    var blocks := LongThenShort(long, short);
    assert blocks[..k][..k - 1] == blocks[..k - 1];
    if k == 1 {
      assert blocks[..0] == [];
    } else {
      LongThenShortBytes(long, short, k - 1);
    }
  }

  /** For every number of turns shown and omitted, some segment reaches the bound: the plain cap is not guaranteed. */
  lemma CapIsExceeded(preamble: string, shown: nat, omitted: nat) returns (blocks: seq<string>)
    requires Reserved(preamble) <= SEGMENT_MAX_BYTES
    requires 1 <= shown <= TurnBudget(preamble) && omitted >= 1
    ensures |blocks| == shown + omitted && IsCut(blocks, TurnBudget(preamble), shown)
    ensures ByteLen(Document(preamble, blocks, shown)) == SEGMENT_MAX_BYTES + shown + |Dec(omitted)| - 75
  {
    hide Encode, Document, Dec, TurnBytes;
    var budget := TurnBudget(preamble);
    var long := budget - (shown - 1);
    blocks := LongThenShort(long, shown - 1 + omitted);
    LongThenShortBytes(long, shown - 1 + omitted, shown);
    assert blocks[shown] == Letters(1);
    DocumentLength(preamble, blocks, shown);
  }

  /** Even with nothing omitted: from 130 turns on, some segment of that many exceeds the cap. */
  lemma WholeCapIsExceeded(preamble: string, turns: nat) returns (blocks: seq<string>)
    requires Reserved(preamble) <= SEGMENT_MAX_BYTES && 1 <= turns <= TurnBudget(preamble)
    ensures |blocks| == turns && IsCut(blocks, TurnBudget(preamble), turns)
    ensures ByteLen(Document(preamble, blocks, turns)) == SEGMENT_MAX_BYTES + turns - 129
  {
    hide Encode, Document, Dec, TurnBytes;
    var long := TurnBudget(preamble) - (turns - 1);
    blocks := LongThenShort(long, turns - 1);
    LongThenShortBytes(long, turns - 1, turns);
    assert |TRUNCATION_NOTICE| == 64;
    DocumentLength(preamble, blocks, turns);
  }

  /** 76 turns can exceed it. */
  lemma LongerSegmentExceeds(preamble: string) returns (blocks: seq<string>)
    requires Reserved(preamble) <= SEGMENT_MAX_BYTES && TurnBudget(preamble) >= 75
    ensures |blocks| == 76 && IsCut(blocks, TurnBudget(preamble), 75)
    ensures ByteLen(Document(preamble, blocks, 75)) == SEGMENT_MAX_BYTES + 1
  {
    hide Encode, Document, TurnBytes;
    blocks := CapIsExceeded(preamble, 75, 1);
    assert |Dec(1)| == 1;
  }

  // ----- what stands where in the document

  /** Where the `i`th turn starts among turns put one per line. */
  function Offset(blocks: seq<string>, i: nat): nat
    requires i <= |blocks|
  {
    if i == 0 then 0 else |blocks[0]| + 1 + Offset(blocks[1..], i - 1)
  }

  lemma {:induction false} JoinedAt(blocks: seq<string>, i: nat)
    requires i < |blocks|
    ensures var s, k := Join(blocks, "\n"), Offset(blocks, i);
            && k + |blocks[i]| <= |s| && s[k..k + |blocks[i]|] == blocks[i]
            && if i + 1 < |blocks| then k + |blocks[i]| < |s| && s[k + |blocks[i]|] == '\n' else k + |blocks[i]| == |s|
  {
    var first, rest := blocks[0], blocks[1..];
    if |blocks| > 1 {
      var s, tail := Join(blocks, "\n"), Join(rest, "\n");
      assert s == first + "\n" + tail;
      if i > 0 {
        JoinedAt(rest, i - 1);
        var k := Offset(rest, i - 1);
        assert s[|first| + 1..] == tail;
        assert s[|first| + 1 + k..|first| + 1 + k + |blocks[i]|] == tail[k..k + |blocks[i]|];
      }
    }
  }

  /**
   The document opens with the preamble, shows the turns one behind the other on lines of
   their own, and ends with the notice of how many were left out, if any were.
   */
  lemma DocumentByPosition(preamble: string, blocks: seq<string>, shown: nat, i: nat)
    requires i < shown <= |blocks|
    ensures var doc, k := Document(preamble, blocks, shown), |preamble| + Offset(blocks[..shown], i);
            && preamble <= doc && k + |blocks[i]| <= |doc| && doc[k..k + |blocks[i]|] == blocks[i]
            && (i + 1 < shown ==> k + |blocks[i]| < |doc| && doc[k + |blocks[i]|] == '\n')
  {
    hide Join, Notice, Offset;
    var body := Join(blocks[..shown], "\n");
    JoinedAt(blocks[..shown], i);
    var doc, k := Document(preamble, blocks, shown), Offset(blocks[..shown], i);
    var n := |blocks[i]|;
    assert doc[|preamble|..|preamble| + |body|] == body;
    assert doc[|preamble| + k..|preamble| + k + n] == body[k..k + n];
    if i + 1 < shown { assert doc[|preamble| + k + n] == body[k + n]; }
  }

  lemma DocumentEnds(preamble: string, blocks: seq<string>, shown: nat)
    requires shown <= |blocks|
    ensures var doc, n := Document(preamble, blocks, shown), |preamble| + |Join(blocks[..shown], "\n")|;
            && n <= |doc|
            && doc[n..] == if shown == |blocks| then ""
                           else "\n\n[... TRUNCATED at " + Dec(512 * 1024) + " bytes, " + Dec(|blocks| - shown) + " turns omitted ...]\n"
  {
    hide Join, Notice, Dec;
    var body := preamble + Join(blocks[..shown], "\n");
    if shown < |blocks| {
      NoticeText(|blocks| - shown);
      assert (body + Notice(|blocks| - shown))[|body|..] == Notice(|blocks| - shown);
    }
  }
}
