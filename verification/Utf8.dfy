/** UTF-8 as section 3 of RFC 3629 defines it, and cutting encoded text at character boundaries. */
module Utf8 {
  import opened Wrappers

  function EncodeChar(c: char): (bytes: seq<byte>)
    ensures 1 <= |bytes| <= 4
    ensures !IsContinuation(bytes[0]) && forall i :: 1 <= i < |bytes| ==> IsContinuation(bytes[i])
  {
    var n := c as int;
    if n < 0x80 then [n]
    else if n < 0x800 then [0xC0 + n / 64, 0x80 + n % 64]
    else if n < 0x1_0000 then [0xE0 + n / 4096, 0x80 + n / 64 % 64, 0x80 + n % 64]
    else [0xF0 + n / 262144, 0x80 + n / 4096 % 64, 0x80 + n / 64 % 64, 0x80 + n % 64]
  }

  predicate IsContinuation(b: byte) {
    0x80 <= b < 0xC0
  }

  function Encode(s: string): seq<byte> {
    if s == [] then [] else EncodeChar(s[0]) + Encode(s[1..])
  }

  function ByteLen(s: string): nat {
    |Encode(s)|
  }

  predicate IsCharBoundary(bytes: seq<byte>, i: nat) {
    i == 0 || i == |bytes| || (i < |bytes| && !IsContinuation(bytes[i]))
  }

  /** The greatest character boundary at or below `i`. */
  function Floor(bytes: seq<byte>, i: nat): (end: nat)
    ensures end <= i && IsCharBoundary(bytes, end)
    ensures forall j :: end < j <= i ==> !IsCharBoundary(bytes, j)
  {
    if IsCharBoundary(bytes, i) then i else Floor(bytes, i - 1)
  }

  /** The text whose encoding is the first `end` bytes of that of `s`. */
  function Slice(s: string, end: nat): (r: string)
    requires end <= ByteLen(s) && IsCharBoundary(Encode(s), end)
    ensures r <= s && Encode(r) == Encode(s)[..end]
  {
    if end == 0 then []
    else
      var first := EncodeChar(s[0]);
      assert first <= Encode(s) && Encode(s)[|first|..] == Encode(s[1..]);
      assert forall i :: 1 <= i < |first| ==> Encode(s)[i] == first[i];
      assert end >= |first|;
      assert IsCharBoundary(Encode(s[1..]), end - |first|) by {
        if end < |Encode(s)| { assert Encode(s)[end] == Encode(s[1..])[end - |first|]; }
      }
      var tail := Slice(s[1..], end - |first|);
      var r := [s[0]] + tail;
      assert r[1..] == tail;
      r
  }

  /** A boundary is never more than three bytes away. */
  lemma {:induction false} FloorIsNear(s: string, i: nat)
    requires i <= ByteLen(s)
    ensures i - Floor(Encode(s), i) <= 3
  {
    if i > 0 {
      var bytes, first := Encode(s), EncodeChar(s[0]);
      if i < |first| {
        assert IsCharBoundary(bytes, 0);
      } else {
        var rest := Encode(s[1..]);
        FloorIsNear(s[1..], i - |first|);
        var end := Floor(rest, i - |first|);
        assert IsCharBoundary(bytes, end + |first|) by {
          if 0 < end < |rest| { assert bytes[end + |first|] == rest[end]; }
          if end == 0 && rest != [] { assert bytes[|first|] == rest[0]; StartIsBoundary(s[1..]); }
        }
      }
    }
  }

  lemma StartIsBoundary(s: string)
    requires s != []
    ensures Encode(s) != [] && !IsContinuation(Encode(s)[0])
  {
  }

  lemma {:induction false} EncodeConcat(a: string, b: string)
    ensures Encode(a + b) == Encode(a) + Encode(b)
  {
    if a == [] {
      assert a + b == b;
    } else {
      assert (a + b)[0] == a[0] && (a + b)[1..] == a[1..] + b;
      EncodeConcat(a[1..], b);
    }
  }

  lemma {:induction false} AsciiByteLen(s: string)
    requires forall i :: 0 <= i < |s| ==> s[i] < '\U{80}'
    ensures ByteLen(s) == |s|
  {
    if s != [] {
      AsciiByteLen(s[1..]);
    }
  }

  /** A text of `n` bytes. */
  function Letters(n: nat): (s: string)
    ensures |s| == n && ByteLen(s) == n && forall k :: 0 <= k < n ==> s[k] < '\U{80}'
  {
    var s := seq(n, i => 'a');
    AsciiByteLen(s);
    s
  }

  /** The number a leading byte and its continuation bytes stand for. */
  function Decoded(bytes: seq<int>): int
    requires 1 <= |bytes| <= 4
  {
    if |bytes| == 1 then bytes[0]
    else if |bytes| == 2 then (bytes[0] - 0xC0) * 64 + (bytes[1] - 0x80)
    else if |bytes| == 3 then (bytes[0] - 0xE0) * 4096 + (bytes[1] - 0x80) * 64 + (bytes[2] - 0x80)
    else (bytes[0] - 0xF0) * 262144 + (bytes[1] - 0x80) * 4096 + (bytes[2] - 0x80) * 64 + (bytes[3] - 0x80)
  }

  lemma SixBits(n: nat)
    ensures n / 64 * 64 + n % 64 == n && n / 64 / 64 == n / 4096 && n / 4096 / 64 == n / 262144
  {
  }

  /** How many bytes a leading byte announces. */
  function Announced(lead: int): nat {
    if lead < 0x80 then 1 else if lead < 0xE0 then 2 else if lead < 0xF0 then 3 else 4
  }

  /** The smallest number that needs so many bytes. */
  function Smallest(length: nat): nat {
    if length <= 1 then 0 else if length == 2 then 0x80 else if length == 3 then 0x800 else 0x1_0000
  }

  /** As section 3 of RFC 3629 asks: each character reads back, its first byte announces the length, no form is overlong. */
  lemma DecodesBack(c: char)
    ensures var bytes := EncodeChar(c);
            Decoded(bytes) == c as int && |bytes| == Announced(bytes[0]) && Smallest(|bytes|) <= c as int
  {
    var n := c as int;
    SixBits(n);
    SixBits(n / 64);
    SixBits(n / 4096);
  }
}
