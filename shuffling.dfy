/** `shuffle` (Fisher–Yates over a copy of its argument) and `pickN`.
    `Math.random` is replaced by the swap indices it would have produced:
    at step `i` the element at `i` is exchanged with the one at `js[i]`. */
module Shuffling {
  import opened Seqs

  /** `js` can drive a pass over `n` elements: `Math.floor(Math.random() * (i + 1))` lies in `0..i`. */
  predicate SwapIndices(js: seq<nat>, n: nat) {
    n <= |js| && forall i :: 0 <= i < n ==> js[i] <= i
  }

  /** Indices that can drive a pass over `n` elements can drive one over fewer. */
  lemma SwapIndicesFewer(js: seq<nat>, m: nat, n: nat)
    requires m <= n && SwapIndices(js, n)
    ensures SwapIndices(js, m)
  {
  }

  /** `a` with the elements at `i` and `j` exchanged. */
  function Swap<T>(a: seq<T>, i: nat, j: nat): (r: seq<T>)
    requires i < |a| && j < |a|
    ensures |r| == |a|
  {
    a[i := a[j]][j := a[i]]
  }

  /** What the loop of `shuffle` leaves behind: the step for the last position
      fixes that position for good, the rest is a shuffle of what is before it. */
  function Shuffled<T>(a: seq<T>, js: seq<nat>): (r: seq<T>)
    requires SwapIndices(js, |a|)
    ensures |r| == |a|
    decreases |a|
  {
    if |a| <= 1 then a
    else
      var n := |a| - 1;
      var b := Swap(a, n, js[n]);
      Shuffled(b[..n], js) + [b[n]]
  }

  /** The shuffle is a permutation: it keeps every element as often as it occurs. */
  lemma {:induction false} ShuffledPermutes<T>(a: seq<T>, js: seq<nat>)
    requires SwapIndices(js, |a|)
    ensures multiset(Shuffled(a, js)) == multiset(a)
    decreases |a|
  {
    if |a| > 1 {
      var n := |a| - 1;
      var b := Swap(a, n, js[n]);
      ShuffledPermutes(b[..n], js);
      assert b == b[..n] + [b[n]];
      SwapPermutes(a, n, js[n]);
    }
  }

  /** Exchanging position `i` with one at or below it changes only the first `i + 1` elements. */
  lemma SwapPrefix<T>(before: seq<T>, after: seq<T>, i: nat, j: nat)
    requires j <= i < |before| && after == Swap(before, i, j)
    ensures Swap(before[..i + 1], i, j)[..i] == after[..i]
    ensures Swap(before[..i + 1], i, j)[i] == after[i]
    ensures after[i..] == [after[i]] + before[i + 1..]
  {
    assert Swap(before[..i + 1], i, j) == after[..i + 1];
  }

  /** One step of the loop: once `after` is `before` with position `i` exchanged,
      handing its prefix on leaves the eventual result unchanged. */
  lemma ShuffleStep<T>(before: seq<T>, after: seq<T>, i: nat, js: seq<nat>)
    requires 0 < i < |before| && SwapIndices(js, |before|)
    requires after == Swap(before, i, js[i])
    ensures Shuffled(after[..i], js) + after[i..] == Shuffled(before[..i + 1], js) + before[i + 1..]
  {
    SwapPrefix(before, after, i, js[i]);
    var c := before[..i + 1];
    assert Shuffled(c, js) == Shuffled(Swap(c, i, js[i])[..i], js) + [Swap(c, i, js[i])[i]];
  }

  /** The loop's result when it stops at `i <= 0`. */
  lemma ShuffleDone<T>(a: seq<T>, i: int, js: seq<nat>)
    requires -1 <= i <= 0 && i < |a| && SwapIndices(js, |a|)
    ensures Shuffled(a[..i + 1], js) + a[i + 1..] == a
  {
    assert a == a[..i + 1] + a[i + 1..];
  }

  /** `shuffle(arr)`: copies `arr` and runs the Fisher–Yates loop on the copy. */
  method Shuffle<T>(arr: seq<T>, js: seq<nat>) returns (r: seq<T>)
    requires SwapIndices(js, |arr|)
    ensures r == Shuffled(arr, js)
  {
    var a := new T[|arr|](k requires 0 <= k < |arr| => arr[k]);
    var i := a.Length - 1;
    assert a[..i + 1] == arr && a[i + 1..] == [];
    while i > 0
      invariant -1 <= i < a.Length && (a.Length > 0 ==> 0 <= i)
      invariant Shuffled(a[..i + 1], js) + a[i + 1..] == Shuffled(arr, js)
      decreases i
    {
      var j := js[i];
      ghost var before := a[..];
      a[i], a[j] := a[j], a[i];
      ShuffleStep(before, a[..], i, js);
      i := i - 1;
    }
    ShuffleDone(a[..], i, js);
    r := a[..];
  }

  /** The shuffle reads only the swap indices of the positions it has. */
  lemma {:induction false} ShuffledReadsPrefix<T>(a: seq<T>, js1: seq<nat>, js2: seq<nat>)
    requires SwapIndices(js1, |a|) && SwapIndices(js2, |a|)
    requires forall i :: 0 <= i < |a| ==> js1[i] == js2[i]
    ensures Shuffled(a, js1) == Shuffled(a, js2)
    decreases |a|
  {
    if |a| > 1 {
      var n := |a| - 1;
      ShuffledReadsPrefix(Swap(a, n, js1[n])[..n], js1, js2);
    }
  }

  /** Every arrangement of `a` is the outcome of some choice of swap indices:
      the shuffle privileges no order. */
  lemma {:induction false} ShuffledReachesEveryPermutation<T>(a: seq<T>, b: seq<T>)
    requires multiset(a) == multiset(b)
    ensures exists js :: SwapIndices(js, |a|) && Shuffled(a, js) == b
    decreases |a|
  {
    assert |a| == |multiset(a)| == |b|;
    if |a| <= 1 {
      ShortIsFixed(a, b);
      assert SwapIndices([0], |a|) && Shuffled(a, [0]) == b;
    } else {
      var n := |a| - 1;
      var j := LastFrom(a, b);
      SwapLastKeepsRest(a, b, j);
      ShuffledReachesEveryPermutation(Swap(a, n, j)[..n], b[..n]);
      var js' :| SwapIndices(js', n) && Shuffled(Swap(a, n, j)[..n], js') == b[..n];
      ReachStep(a, b, j, js');
    }
  }

  /** Zero or one element has one arrangement. */
  lemma ShortIsFixed<T>(a: seq<T>, b: seq<T>)
    requires |a| == |b| <= 1 && multiset(a) == multiset(b)
    ensures a == b
  {
    if |a| == 1 {
      assert a[0] in multiset(b);
    }
  }

  /** A position of `a` holding `b`'s last element. */
  lemma LastFrom<T>(a: seq<T>, b: seq<T>) returns (j: nat)
    requires |a| == |b| > 0 && multiset(a) == multiset(b)
    ensures j < |a| && a[j] == b[|b| - 1]
  {
    assert b[|b| - 1] in multiset(a);
    j :| 0 <= j < |a| && a[j] == b[|b| - 1];
  }

  /** Swapping `b`'s last element into place and then reaching the rest of `b`
      reaches all of `b`. */
  lemma ReachStep<T>(a: seq<T>, b: seq<T>, j: nat, js': seq<nat>)
    requires |a| == |b| > 1 && j < |a| && a[j] == b[|b| - 1]
    requires SwapIndices(js', |a| - 1)
    requires Shuffled(Swap(a, |a| - 1, j)[..|a| - 1], js') == b[..|b| - 1]
    ensures SwapIndices(js'[..|a| - 1] + [j], |a|)
    ensures Shuffled(a, js'[..|a| - 1] + [j]) == b
  {
    var n := |a| - 1;
    var c := Swap(a, n, j);
    var js := js'[..n] + [j];
    assert SwapIndices(js, |a|);
    assert js[n] == j;
    ShuffledReadsPrefix(c[..n], js, js');
    assert Shuffled(a, js) == Shuffled(c[..n], js) + [c[n]];
    assert b == b[..n] + [b[n]];
  }

  /** An exchange of two elements keeps the contents. */
  lemma SwapPermutes<T>(a: seq<T>, i: nat, j: nat)
    requires i < |a| && j < |a|
    ensures multiset(Swap(a, i, j)) == multiset(a)
  {
    assert a == a[i := a[i]];
  }

  /** Moving a copy of `b`'s last element to the end of `a` leaves prefixes
      with equal contents. */
  lemma SwapLastKeepsRest<T>(a: seq<T>, b: seq<T>, j: nat)
    requires |a| == |b| > 0 && j < |a| && a[j] == b[|b| - 1]
    requires multiset(a) == multiset(b)
    ensures multiset(Swap(a, |a| - 1, j)[..|a| - 1]) == multiset(b[..|b| - 1])
  {
    var n := |a| - 1;
    var c := Swap(a, n, j);
    SwapPermutes(a, n, j);
    assert c == c[..n] + [b[n]];
    assert b == b[..n] + [b[n]];
    SubtractLast(multiset(c[..n]), multiset(b[..n]), b[n]);
  }

  lemma SubtractLast<T>(x: multiset<T>, y: multiset<T>, e: T)
    requires x + multiset{e} == y + multiset{e}
    ensures x == y
  {
    assert forall v :: x[v] == (x + multiset{e})[v] - multiset{e}[v];
    assert forall v :: y[v] == (y + multiset{e})[v] - multiset{e}[v];
  }

  /** `pickN(arr, n)`: the whole shuffle when `arr` has at most `n` elements,
      else its first `n` (JavaScript `slice`, so a negative `n` drops from the end). */
  function PickN<T(==)>(arr: seq<T>, n: int, js: seq<nat>): (r: seq<T>)
    requires SwapIndices(js, |arr|)
    ensures |r| <= |arr|
    ensures multiset(r) <= multiset(arr)
    ensures n >= 0 ==> |r| == Min(n, |arr|)
    ensures n < 0 ==> |r| == Max(|arr| + n, 0)
    ensures n >= |arr| ==> multiset(r) == multiset(arr)
  {
    ShuffledPermutes(arr, js);
    if |arr| <= n then Shuffled(arr, js) else Take(Shuffled(arr, js), n)
  }
}
