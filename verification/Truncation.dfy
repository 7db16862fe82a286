/** The size of a truncated text in bytes, and when truncating it again changes nothing. */
module Truncation {
  import opened Wrappers
  import opened Decimal
  import opened Utf8
  import opened Budget

  // ----- the exact size

  lemma MarkerBytes(n: nat)
    ensures ByteLen(Marker(n)) == 56 + |Dec(n)|
  {
    hide Encode, Dec;
    var a, d, b := "\n[... truncated ", Dec(n), " bytes to fit the compaction window ...]";
    AsciiByteLen(a);
    AsciiByteLen(d);
    AsciiByteLen(b);
    EncodeConcat(a + d, b);
    EncodeConcat(a, d);
  }

  /** How many bytes of the text stay in front of the marker, boundaries aside. */
  function Keep(maxBytes: nat): nat { Minus(maxBytes, MARKER_RESERVE) }

  /** The bytes between position `i` and the last character boundary at or before it. */
  function GivenUp(s: string, i: nat): nat {
    i - Floor(Encode(s), i)
  }

  /** The size after truncation, from the size of the text alone but for the bytes given up. */
  function TruncatedSize(s: string, maxBytes: nat): nat {
    var size, keep := ByteLen(s), Keep(maxBytes);
    if size <= maxBytes then size
    else keep - GivenUp(s, keep) + 56 + |Dec(size - keep + GivenUp(s, keep))|
  }

  /** The cut gives up at most three bytes, and the marker takes 56 plus the digits of what was dropped. */
  lemma TruncatedLength(s: string, maxBytes: nat)
    ensures ByteLen(Truncated(s, maxBytes)) == TruncatedSize(s, maxBytes)
    ensures ByteLen(s) > maxBytes ==>
              && GivenUp(s, Keep(maxBytes)) <= 3 && CutPoint(s, maxBytes) == Keep(maxBytes) - GivenUp(s, Keep(maxBytes))
              && Slice(s, CutPoint(s, maxBytes)) <= s
  {
    hide Encode, Slice, Marker, Dec, Floor;
    if ByteLen(s) > maxBytes {
      var cut := CutPoint(s, maxBytes);
      FloorIsNear(s, Keep(maxBytes));
      MarkerBytes(ByteLen(s) - cut);
      EncodeConcat(Slice(s, cut), Marker(ByteLen(s) - cut));
    }
  }

  // ----- the bounds

  /**
   A truncated text stays within its budget, or within the 64 bytes reserved for the
   marker if that is more, exactly when what is dropped prints in eight digits plus
   the bytes given up.
   */
  lemma TruncationBound(s: string, maxBytes: nat)
    requires ByteLen(s) > maxBytes
    ensures var keep := Keep(maxBytes);
            var g := GivenUp(s, keep);
            ByteLen(Truncated(s, maxBytes)) <= Max(maxBytes, MARKER_RESERVE) <==> ByteLen(s) - keep + g < Pow10(8 + g)
  {
    hide Encode, Truncated, Dec, GivenUp, Pow10;
    var keep := Keep(maxBytes);
    var g := GivenUp(s, keep);
    TruncatedLength(s, maxBytes);
    DecLength(ByteLen(s) - keep + g, 8 + g);
  }

  lemma {:induction false} Pow10Adds(k: nat, g: nat)
    ensures Pow10(k + g) >= Pow10(k) + g
  {
    if g > 0 {
      Pow10Adds(k, g - 1);
      Pow10Positive(k + g - 1);
    }
  }

  /** Whatever the text, dropping fewer than 100 million bytes keeps the bound. */
  lemma TruncationFits(s: string, maxBytes: nat)
    requires ByteLen(s) < Keep(maxBytes) + Pow10(8)
    ensures ByteLen(Truncated(s, maxBytes)) <= Max(maxBytes, MARKER_RESERVE)
    ensures TruncatedSize(s, maxBytes) <= Max(maxBytes, MARKER_RESERVE)
  {
    hide Encode, Dec, GivenUp, Pow10, Slice, Marker, CutPoint;
    TruncatedLength(s, maxBytes);
    if ByteLen(s) > maxBytes {
      TruncationBound(s, maxBytes);
      Pow10Adds(8, GivenUp(s, Keep(maxBytes)));
    }
  }

  /**
   The documented bound, `maxBytes` itself: below 64 the whole text goes and the marker
   alone must fit; from 64 on what is dropped must print in eight digits plus the bytes
   given up.
   */
  lemma TruncationWithinBudget(s: string, maxBytes: nat)
    requires ByteLen(s) > maxBytes
    ensures var keep := Keep(maxBytes);
            var g := GivenUp(s, keep);
            ByteLen(Truncated(s, maxBytes)) <= maxBytes <==>
            if maxBytes < MARKER_RESERVE then maxBytes > 56 && ByteLen(s) < Pow10(maxBytes - 56)
            else ByteLen(s) - keep + g < Pow10(8 + g)
  {
    hide Encode, Truncated, Dec, GivenUp, Pow10;
    TruncatedLength(s, maxBytes);
    if maxBytes >= MARKER_RESERVE {
      TruncationBound(s, maxBytes);
    } else if maxBytes > 56 {
      DecLength(ByteLen(s), maxBytes - 56);
    }
  }

  lemma {:induction false} AsciiByte(s: string, i: nat)
    requires i < ByteLen(s) && forall k :: 0 <= k < |s| ==> s[k] < '\U{80}'
    ensures !IsContinuation(Encode(s)[i])
  {
    if i > 0 {
      assert Encode(s)[i] == Encode(s[1..])[i - 1];
      AsciiByte(s[1..], i - 1);
    }
  }

  lemma AsciiGivesUpNothing(s: string, i: nat)
    requires i <= ByteLen(s) && forall k :: 0 <= k < |s| ==> s[k] < '\U{80}'
    ensures GivenUp(s, i) == 0
  {
    if 0 < i < ByteLen(s) {
      AsciiByte(s, i);
    }
  }

  /**
   On sizes alone: within the documented bound for every text that drops fewer than
   100 million bytes, and for ASCII text for no other.
   */
  lemma TruncationWithinBudgetBySize(s: string, maxBytes: nat)
    requires ByteLen(s) > maxBytes >= MARKER_RESERVE
    ensures ByteLen(s) < Keep(maxBytes) + Pow10(8) ==> ByteLen(Truncated(s, maxBytes)) <= maxBytes
    ensures (forall k :: 0 <= k < |s| ==> s[k] < '\U{80}') ==>
              (ByteLen(Truncated(s, maxBytes)) <= maxBytes <==> ByteLen(s) < Keep(maxBytes) + Pow10(8))
  {
    hide Encode, Truncated, Dec, GivenUp, Pow10;
    if ByteLen(s) < Keep(maxBytes) + Pow10(8) { TruncationFits(s, maxBytes); }
    if forall k :: 0 <= k < |s| ==> s[k] < '\U{80}' {
      AsciiGivesUpNothing(s, Keep(maxBytes));
      TruncationWithinBudget(s, maxBytes);
    }
  }

  /** For every budget some text is cut to more than it. */
  lemma TruncationOverruns(maxBytes: nat)
    ensures ByteLen(Truncated(Letters(maxBytes + Pow10(8)), maxBytes)) > maxBytes
  {
    hide Encode, Truncated, Dec, GivenUp, Pow10, Letters;
    var s := Letters(maxBytes + Pow10(8));
    Pow10Positive(8);
    if maxBytes >= MARKER_RESERVE {
      TruncationWithinBudgetBySize(s, maxBytes);
    } else {
      TruncationBound(s, maxBytes);
      AsciiGivesUpNothing(s, 0);
      TruncatedLength(s, maxBytes);
    }
  }

  // ----- truncating twice

  lemma SmallPowers()
    ensures Pow10(1) == 10 && Pow10(2) == 100 && Pow10(3) == 1000
  {
    assert Pow10(0) == 1;
  }

  /** Only the marker of 58 dropped bytes is itself 58 bytes long. */
  lemma MarkerFixedIff(n: nat)
    ensures 56 + |Dec(n)| == n <==> n == 58
  {
    hide Pow10;
    FewDigits(n);
    DecLength(n, 1);
    DecLength(n, 2);
    SmallPowers();
  }

  lemma MarkerInjective(m: nat, n: nat)
    requires Marker(m) == Marker(n)
    ensures m == n
  {
    hide Dec, Value;
    var front := |"\n[... truncated "|;
    assert |Dec(m)| == |Dec(n)|;
    assert Marker(m)[front..front + |Dec(m)|] == Dec(m);
    assert Marker(n)[front..front + |Dec(n)|] == Dec(n);
    ValueOfDec(m);
    ValueOfDec(n);
  }

  lemma LongerPrefix(a: string, b: string)
    requires a < b
    ensures ByteLen(a) < ByteLen(b)
  {
    var rest := b[|a|..];
    assert b == a + rest && rest != [];
    EncodeConcat(a, rest);
  }

  lemma PrefixBySize(a: string, b: string, t: string)
    requires a <= t && b <= t && ByteLen(a) == ByteLen(b)
    ensures a == b
  {
    hide Encode;
    if |a| < |b| {
      LongerPrefix(a, b);
    } else if |b| < |a| {
      LongerPrefix(b, a);
    }
  }

  lemma MarkerIsAscii(n: nat)
    ensures var m := Marker(n); |m| > 3 && forall k :: 0 <= k < |m| ==> m[k] < '\U{80}'
  {
    hide Dec;
  }

  /** The marker is ASCII, so a cut inside it gives up nothing. */
  lemma CutInMarker(p: string, n: nat, g: nat)
    requires g <= 3
    ensures var t := p + Marker(n);
            && ByteLen(p) + g <= ByteLen(t) && IsCharBoundary(Encode(t), ByteLen(p) + g)
            && Slice(t, ByteLen(p) + g) == p + Marker(n)[..g]
  {
    hide Encode, Dec, Slice;
    var m := Marker(n);
    var t := p + m;
    MarkerBytes(n);
    EncodeConcat(p, m);
    MarkerIsAscii(n);
    AsciiGivesUpNothing(m, g);
    var front := m[..g];
    assert t == (p + front) + m[g..];
    AsciiByteLen(front);
    EncodeConcat(p, front);
    assert IsCharBoundary(Encode(m), g);
    assert g > 0 ==> Encode(t)[ByteLen(p) + g] == Encode(m)[g];
    if g == 0 { StartIsBoundary(m); assert Encode(t)[ByteLen(p)] == Encode(m)[0]; }
    PrefixBySize(Slice(t, ByteLen(p) + g), p + front, t);
  }

  lemma FloorOfBoundary(bytes: seq<byte>, i: nat)
    requires IsCharBoundary(bytes, i)
    ensures Floor(bytes, i) == i
  {
  }

  /** Truncating a truncated text that is still over the budget. */
  lemma SecondCut(s: string, maxBytes: nat)
    requires ByteLen(s) > maxBytes && TruncatedSize(s, maxBytes) > maxBytes
    ensures var t, keep := Truncated(s, maxBytes), Keep(maxBytes);
            var cut := CutPoint(s, maxBytes);
            var p, n := Slice(s, cut), ByteLen(s) - cut;
            && ByteLen(p) == cut && keep - 3 <= cut <= keep < ByteLen(t) && t == p + Marker(n)
            && Truncated(t, maxBytes) == p + Marker(n)[..keep - cut] + Marker(ByteLen(t) - keep)
  {
    hide Encode, Dec, Slice, Floor, Marker;
    var keep, cut := Keep(maxBytes), CutPoint(s, maxBytes);
    var p, n := Slice(s, cut), ByteLen(s) - cut;
    var t := Truncated(s, maxBytes);
    TruncatedLength(s, maxBytes);
    CutInMarker(p, n, keep - cut);
    FloorOfBoundary(Encode(t), keep);
  }

  lemma MarkerFront(p: string, n: nat, again: nat, g: nat)
    requires 1 <= g <= 3
    ensures |Marker(n)| > g && p + Marker(n)[..g] + Marker(again) != p + Marker(n)
  {
    hide Dec;
    var a, b := p + Marker(n)[..g] + Marker(again), p + Marker(n);
    assert a[|p| + g] == '\n';
    assert b[|p| + g] == Marker(n)[g] != '\n';
  }

  /** A text over the budget even when cut is cut again, unless it is exactly 58 bytes long. */
  lemma SecondCutDiffersIff(s: string, maxBytes: nat)
    requires ByteLen(s) > maxBytes && TruncatedSize(s, maxBytes) > maxBytes
    ensures var t := Truncated(s, maxBytes); Truncated(t, maxBytes) == t <==> ByteLen(s) == 58
  {
    hide Encode, Dec, Slice, Truncated, CutPoint, GivenUp;
    var t, keep := Truncated(s, maxBytes), Keep(maxBytes);
    SecondCut(s, maxBytes);
    TruncatedLength(s, maxBytes);
    var cut := CutPoint(s, maxBytes);
    var p, n, again := Slice(s, cut), ByteLen(s) - cut, ByteLen(t) - keep;
    if cut == keep {
      assert Marker(n)[..0] == [] && p + [] == p;
      MarkerFixedIff(n);
      if Truncated(t, maxBytes) == t {
        assert (p + Marker(again))[|p|..] == Marker(again) && (p + Marker(n))[|p|..] == Marker(n);
        MarkerInjective(again, n);
      }
    } else {
      MarkerFront(p, n, again, keep - cut);
    }
  }

  /**
   Truncating a second time changes nothing exactly when the first cut met the budget
   or the text is 58 bytes long, the length of the marker that says so.
   */
  lemma TruncatedTwiceIff(s: string, maxBytes: nat)
    ensures var t := Truncated(s, maxBytes);
            Truncated(t, maxBytes) == t <==> ByteLen(s) == 58 || TruncatedSize(s, maxBytes) <= maxBytes
  {
    hide Encode, Dec, Slice, CutPoint, GivenUp, TruncatedSize, Marker;
    TruncatedLength(s, maxBytes);
    if ByteLen(s) > maxBytes && TruncatedSize(s, maxBytes) > maxBytes {
      SecondCutDiffersIff(s, maxBytes);
    }
  }
}
