/**
 * `shuffle(copySlice(xs))`: Go's `rand.Shuffle`, a Fisher-Yates pass that, for
 * `i` from `n - 1` down to `1`, swaps position `i` with a position drawn from
 * `[0, i]`. The random source is a parameter: `rng(i)` is the raw draw taken at
 * step `i`, reduced into range. Because the model is pure, the caller's roster
 * is never modified: only the returned copy is permuted.
 */
module Shuffling {

  /** The draws of the random source, by Fisher-Yates step. */
  type Rng = nat -> nat

  /** `x` reduced into `[0, n)`, the remainder of `x` divided by `n`. */
  function Reduce(x: nat, n: nat): (r: nat)
    requires n > 0
    ensures r < n
    ensures x < n ==> r == x
  {
    if x < n then x else Reduce(x - n, n)
  }

  /** The index drawn at step `i`, always in `[0, i]`. */
  function Draw(rng: Rng, i: nat): (j: nat)
    ensures j <= i
  {
    Reduce(rng(i), i + 1)
  }

  function Swap<T>(s: seq<T>, i: nat, j: nat): (r: seq<T>)
    requires i < |s| && j < |s|
    ensures |r| == |s| && r[i] == s[j] && r[j] == s[i]
    ensures forall k :: 0 <= k < |s| && k != i && k != j ==> r[k] == s[k]
  {
    s[i := s[j]][j := s[i]]
  }

  lemma SwapPermutes<T>(s: seq<T>, i: nat, j: nat)
    requires i < |s| && j < |s|
    ensures multiset(Swap(s, i, j)) == multiset(s)
  {
  }

  /** Steps `i`, `i - 1`, ..., `1` of the pass. */
  function ShuffleDown<T>(s: seq<T>, i: nat, rng: Rng): (r: seq<T>)
    requires i < |s|
    ensures |r| == |s|
    decreases i
  {
    if i == 0 then s else ShuffleDown(Swap(s, i, Draw(rng, i)), i - 1, rng)
  }

  /** The pass only ever swaps, so it keeps the multiset of names. */
  lemma {:induction false} ShuffleDownPermutes<T>(s: seq<T>, i: nat, rng: Rng)
    requires i < |s|
    ensures multiset(ShuffleDown(s, i, rng)) == multiset(s)
    decreases i
  {
    if i == 0 {
      assert ShuffleDown(s, i, rng) == s;
    } else {
      ShuffleDownPermutes(Swap(s, i, Draw(rng, i)), i - 1, rng);
      PermutesStep(s, i, rng);
    }
  }

  lemma PermutesStep<T>(s: seq<T>, i: nat, rng: Rng)
    requires 0 < i < |s|
    requires multiset(ShuffleDown(Swap(s, i, Draw(rng, i)), i - 1, rng)) == multiset(Swap(s, i, Draw(rng, i)))
    ensures multiset(ShuffleDown(s, i, rng)) == multiset(s)
  {
    SwapPermutes(s, i, Draw(rng, i));
  }

  /** The pass from step `i` down never touches the positions above `i`. */
  lemma {:induction false} ShuffleDownKeepsAbove<T>(s: seq<T>, i: nat, rng: Rng)
    requires i < |s|
    ensures forall k :: i < k < |s| ==> ShuffleDown(s, i, rng)[k] == s[k]
    decreases i
  {
    if i == 0 {
      assert ShuffleDown(s, i, rng) == s;
    } else {
      var s' := Swap(s, i, Draw(rng, i));
      assert ShuffleDown(s, i, rng) == ShuffleDown(s', i - 1, rng);
      ShuffleDownKeepsAbove(s', i - 1, rng);
    }
  }

  /** `shuffle(copySlice(s))`: a rearrangement of `s`, same length, same multiset of names. */
  function Shuffle<T>(s: seq<T>, rng: Rng): (r: seq<T>)
    ensures |r| == |s|
    ensures multiset(r) == multiset(s)
  {
    if |s| == 0 then s
    else
      ShuffleDownPermutes(s, |s| - 1, rng);
      ShuffleDown(s, |s| - 1, rng)
  }

  /** Only the draws at steps `1..i` matter to the pass from step `i` down. */
  lemma {:induction false} ShuffleDownDraws<T>(s: seq<T>, i: nat, rng: Rng, rng': Rng)
    requires i < |s|
    requires forall k :: 1 <= k <= i ==> rng(k) == rng'(k)
    ensures ShuffleDown(s, i, rng) == ShuffleDown(s, i, rng')
    decreases i
  {
    if i > 0 {
      var j := Draw(rng, i);
      assert j == Draw(rng', i);
      ShuffleDownDraws(Swap(s, i, j), i - 1, rng, rng');
    }
  }

  /**
   * The pass from step `i` down can produce any arrangement `p` that agrees with
   * `s` above `i` and rearranges its first `i + 1` elements; `rng` is draws that do it.
   */
  lemma {:induction false} ShuffleDownReaches<T>(s: seq<T>, p: seq<T>, i: nat) returns (rng: Rng)
    requires i < |s| && |p| == |s|
    requires multiset(s[..i + 1]) == multiset(p[..i + 1])
    requires s[i + 1..] == p[i + 1..]
    ensures ShuffleDown(s, i, rng) == p
    decreases i
  {
    if i == 0 {
      rng := k => 0;
      SameWhenHeadsAgree(s, p, rng);
    } else {
      var j := FindSource(s, p, i);
      var s' := Swap(s, i, j);
      SwapIntoPlace(s, p, i, j);
      assert multiset(s'[..(i - 1) + 1]) == multiset(p[..(i - 1) + 1]);
      var rng' := ShuffleDownReaches(s', p, i - 1);
      rng := FirstStep(s, p, i, j, rng');
    }
  }

  /** The draws `rng'` with the draw of step `i` replaced by `j`. */
  function Override(rng': Rng, i: nat, j: nat): (rng: Rng)
    ensures rng(i) == j
    ensures forall k :: k != i ==> rng(k) == rng'(k)
  {
    k => if k == i then j else rng'(k)
  }

  /** Where in the first `i + 1` elements of `s` the element `p` wants at `i` sits. */
  lemma FindSource<T>(s: seq<T>, p: seq<T>, i: nat) returns (j: nat)
    requires i < |s| && i < |p|
    requires multiset(s[..i + 1]) == multiset(p[..i + 1])
    ensures j <= i && s[j] == p[i]
  {
    assert p[i] == p[..i + 1][i];
    assert p[i] in multiset(p[..i + 1]);
    assert p[i] in s[..i + 1];
    var k :| 0 <= k <= i && s[..i + 1][k] == p[i];
    j := k;
  }

  /** Drawing `j` at step `i` and then following `rng'` reaches what `rng'` reaches from the swapped state. */
  lemma FirstStep<T>(s: seq<T>, p: seq<T>, i: nat, j: nat, rng': Rng) returns (rng: Rng)
    requires 0 < i < |s| && j <= i
    requires ShuffleDown(Swap(s, i, j), i - 1, rng') == p
    ensures ShuffleDown(s, i, rng) == p
  {
    rng := Override(rng', i, j);
    assert Draw(rng, i) == j;
    ShuffleDownDraws(Swap(s, i, j), i - 1, rng, rng');
  }

  /** With one element left to place, the pass is done: `s` already is `p`. */
  lemma SameWhenHeadsAgree<T>(s: seq<T>, p: seq<T>, rng: Rng)
    requires 0 < |s| && |p| == |s|
    requires multiset(s[..1]) == multiset(p[..1])
    requires s[1..] == p[1..]
    ensures ShuffleDown(s, 0, rng) == p
  {
    assert ShuffleDown(s, 0, rng) == s;
    assert s[..1] == [s[0]] && p[..1] == [p[0]];
    assert s[0] in multiset(p[..1]);
    assert s == s[..1] + s[1..] && p == p[..1] + p[1..];
  }

  /** Swapping the element `p` wants at `i` into place leaves a smaller instance. */
  lemma SwapIntoPlace<T>(s: seq<T>, p: seq<T>, i: nat, j: nat)
    requires 0 < i < |s| && |p| == |s| && j <= i && s[j] == p[i]
    requires multiset(s[..i + 1]) == multiset(p[..i + 1])
    requires s[i + 1..] == p[i + 1..]
    ensures multiset(Swap(s, i, j)[..i]) == multiset(p[..i])
    ensures Swap(s, i, j)[i..] == p[i..]
  {
    SwapPrefix(s, p, i, j);
    SwapSuffix(s, p, i, j);
  }

  lemma SwapPrefix<T>(s: seq<T>, p: seq<T>, i: nat, j: nat)
    requires 0 < i < |s| && |p| == |s| && j <= i && s[j] == p[i]
    requires multiset(s[..i + 1]) == multiset(p[..i + 1])
    ensures multiset(Swap(s, i, j)[..i]) == multiset(p[..i])
  {
    var s' := Swap(s, i, j);
    assert multiset(s'[..i + 1]) == multiset(p[..i + 1]) by {
      assert s'[..i + 1] == Swap(s[..i + 1], i, j);
      SwapPermutes(s[..i + 1], i, j);
    }
    DropLast(s'[..i + 1], p[..i + 1]);
    assert s'[..i + 1][..i] == s'[..i];
    assert p[..i + 1][..i] == p[..i];
  }

  lemma SwapSuffix<T>(s: seq<T>, p: seq<T>, i: nat, j: nat)
    requires 0 < i < |s| && |p| == |s| && j <= i && s[j] == p[i]
    requires s[i + 1..] == p[i + 1..]
    ensures Swap(s, i, j)[i..] == p[i..]
  {
    var s' := Swap(s, i, j);
    assert s'[i..] == [p[i]] + s[i + 1..];
    assert p[i..] == [p[i]] + p[i + 1..];
  }

  /** Two arrangements of one multiset that end alike still agree without the last element. */
  lemma DropLast<T>(a: seq<T>, b: seq<T>)
    requires |a| > 0 && |b| > 0 && a[|a| - 1] == b[|b| - 1]
    requires multiset(a) == multiset(b)
    ensures multiset(a[..|a| - 1]) == multiset(b[..|b| - 1])
  {
    var x := a[|a| - 1];
    var a', b' := a[..|a| - 1], b[..|b| - 1];
    assert multiset(a) == multiset(a') + multiset{x} by {
      assert a == a' + [x];
    }
    assert multiset(b) == multiset(b') + multiset{x} by {
      assert b == b' + [x];
    }
    assert multiset(a') == multiset(a) - multiset{x};
    assert multiset(b') == multiset(b) - multiset{x};
  }

  /** Nothing beyond the multiset is promised: some draws produce any given rearrangement. */
  lemma ShuffleReaches<T>(s: seq<T>, p: seq<T>) returns (rng: Rng)
    requires multiset(p) == multiset(s)
    ensures Shuffle(s, rng) == p
  {
    assert |p| == |multiset(p)| == |s|;
    if |s| == 0 {
      rng := k => 0;
    } else {
      assert s[..|s|] == s && p[..|s|] == p;
      rng := ShuffleDownReaches(s, p, |s| - 1);
    }
  }
}
