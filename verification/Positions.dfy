/** Positions picked out of a sequence, in order: how filters are specified. */
module Positions {
  /** Strictly increasing positions of a sequence of `n` elements. */
  ghost predicate Increasing(at: seq<nat>, n: nat) {
    && (forall i :: 0 <= i < |at| ==> at[i] < n)
    && forall i, j :: 0 <= i < j < |at| ==> at[i] < at[j]
  }

  lemma Appended(at: seq<nat>, n: nat)
    requires Increasing(at, n)
    ensures n !in at && Increasing(at, n + 1) && Increasing(at + [n], n + 1)
  {
  }

  /** The same positions one further on, behind a new first element that is picked or not. */
  function Prepend(first: bool, at: seq<nat>): (r: seq<nat>)
    ensures |r| == |at| + if first then 1 else 0
    ensures forall i :: |r| - |at| <= i < |r| ==> r[i] == at[i - (|r| - |at|)] + 1
    ensures first ==> r[0] == 0
  {
    (if first then [0] else []) + seq(|at|, i requires 0 <= i < |at| => at[i] + 1)
  }

  lemma Prepended(first: bool, at: seq<nat>, n: nat)
    requires Increasing(at, n)
    ensures Increasing(Prepend(first, at), n + 1)
    ensures forall k: nat :: k in Prepend(first, at) <==> if k == 0 then first else k - 1 in at
  {
    forall k: nat ensures k in Prepend(first, at) <==> if k == 0 then first else k - 1 in at { PrependedAt(first, at, k); }
  }

  lemma PrependedAt(first: bool, at: seq<nat>, k: nat)
    ensures k in Prepend(first, at) <==> if k == 0 then first else k - 1 in at
  {
    var r := Prepend(first, at);
    var d := |r| - |at|;
    if k > 0 && k - 1 in at {
      var i :| 0 <= i < |at| && at[i] == k - 1;
      assert r[i + d] == k;
    }
    if k in r {
      var i :| 0 <= i < |r| && r[i] == k;
      if i >= d { assert at[i - d] == k - 1; }
    }
  }

  /** What is picked: the first element or not, then what was picked before. */
  lemma PickedBehind<T>(x: T, s: seq<T>, picked: seq<T>, first: bool, at: seq<nat>)
    requires Increasing(at, |s|) && |picked| == |at| && forall i :: 0 <= i < |at| ==> picked[i] == s[at[i]]
    ensures var all, r, more := [x] + s, Prepend(first, at), (if first then [x] else []) + picked;
            && Increasing(r, |all|) && |more| == |r| && forall i :: 0 <= i < |r| ==> more[i] == all[r[i]]
  {
    Prepended(first, at, |s|);
    var all, r, more := [x] + s, Prepend(first, at), (if first then [x] else []) + picked;
    var d := |r| - |at|;
    forall i | 0 <= i < |r| ensures more[i] == all[r[i]] {
      if i >= d { assert more[i] == picked[i - d] && r[i] == at[i - d] + 1; }
    }
  }
}
