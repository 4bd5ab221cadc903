/** `randomInt` and the in-place Fisher–Yates `shuffle`.

    `Math.random()` is not modelled: each draw it would return is passed in
    as a real in [0, 1), so the shuffle is a function of the array and the
    draws. The loop walks `i` from the last index down to 1, draws
    `j = randomInt(0, i)` and exchanges `arr[i]` and `arr[j]`; the draws
    are used in that order, one per step. */
module Shuffle {
  import opened Seqs

  /** `randomInt(min, max)`: `floor(min + u * (max + 1 - min))` for the draw
      `u`. */
  function RandomInt(lo: int, hi: int, u: real): (r: int)
    ensures lo <= hi && 0.0 <= u < 1.0 ==> lo <= r <= hi
  {
    (lo as real + Scale(u, (hi + 1 - lo) as real)).Floor
  }

  /** The draw stretched over a span of m values. */
  function Scale(u: real, m: real): (r: real)
    ensures 0.0 <= u < 1.0 && m > 0.0 ==> 0.0 <= r < m
  {
    u * m
  }

  /** Each of the `hi - lo + 1` results is chosen by a slice of the draws
      of width 1 / (hi - lo + 1): `randomInt` is uniform when the draw is. */
  lemma RandomIntSlices(lo: int, hi: int, u: real, k: int)
    requires lo <= hi && 0.0 <= u < 1.0
    ensures RandomInt(lo, hi, u) == k <==>
      (k - lo) as real <= u * (hi + 1 - lo) as real < (k - lo + 1) as real
  {
    assert Scale(u, (hi + 1 - lo) as real) == u * (hi + 1 - lo) as real;
  }

  /** Every draw lies in [0, 1), as `Math.random()` promises. */
  predicate Draws(us: seq<real>) {
    forall k :: 0 <= k < |us| ==> 0.0 <= us[k] < 1.0
  }

  /** `arr.shuffle()`. The first pass of the loop exchanges the last index
      with the partner the first draw selects; later passes never touch the
      last index again, so what is left is the shuffle of the elements
      before it, with the remaining draws. */
  function Shuffle<T>(s: seq<T>, us: seq<real>): (r: seq<T>)
    requires |s| - 1 <= |us| && Draws(us)
    ensures |r| == |s| && multiset(r) == multiset(s)
    decreases |s|
  {
    if |s| <= 1 then s
    else
      var i := |s| - 1;
      var s' := Swap(s, i, RandomInt(0, i, us[0]));
      assert s' == s'[..i] + [s'[i]];
      Shuffle(s'[..i], us[1..]) + [s'[i]]
  }

  /** The loop as written: `i` runs from the last index down to 1, and
      each pass exchanges `i` with the partner the next draw selects. */
  method ShuffleLoop<T>(s: seq<T>, us: seq<real>) returns (r: seq<T>)
    requires |s| - 1 <= |us| && Draws(us)
    ensures r == Shuffle(s, us)
    ensures multiset(r) == multiset(s)
  {
    r := s;
    var n := |s|;  // the loop's `i + 1`: the length of the unsettled prefix
    var rest := us;
    ghost var target := Shuffle(s, us);
    assert r[..n] == r && r[n..] == [];
    while n > 1
      invariant 0 <= n <= |r| == |s| && n - 1 <= |rest| && Draws(rest)
      invariant target == Shuffle(r[..n], rest) + r[n..]
    {
      var i := n - 1;
      var j := RandomInt(0, i, rest[0]);
      var r', rest' := Swap(r, i, j), rest[1..];
      LoopStep(r, i, j, rest, r', rest');
      r, n, rest := r', i, rest';
    }
    LoopDone(r, n, rest);
  }

  /** With at most one unsettled element the loop has nothing left to do. */
  lemma LoopDone<T>(r: seq<T>, n: nat, rest: seq<real>)
    requires n <= 1 && n <= |r| && n - 1 <= |rest| && Draws(rest)
    ensures Shuffle(r[..n], rest) + r[n..] == r
  {
  }

  /** One pass of the loop, stated against the recursive definition. */
  lemma LoopStep<T>(r: seq<T>, i: nat, j: int, rest: seq<real>, r': seq<T>, rest': seq<real>)
    requires 0 < i < |r| && i <= |rest| && Draws(rest)
    requires j == RandomInt(0, i, rest[0])
    requires r' == Swap(r, i, j) && rest' == rest[1..]
    ensures Draws(rest') && i - 1 <= |rest'|
    ensures Shuffle(r[..i + 1], rest) + r[i + 1..] == Shuffle(r'[..i], rest') + r'[i..]
  {
    var q := r[..i + 1];
    assert |q| - 1 == i;
    ShuffleFirstPass(q, rest);
    SwapWithinPrefix(r, i, j);
    SwapKeepsSuffix(r, i, j);
    AppendAssociates(Shuffle(r'[..i], rest[1..]), [r'[i]], r[i + 1..]);
  }

  lemma SwapWithinPrefix<T>(r: seq<T>, i: nat, j: nat)
    requires j <= i < |r|
    ensures Swap(r[..i + 1], i, j)[..i] == Swap(r, i, j)[..i]
    ensures Swap(r[..i + 1], i, j)[i] == Swap(r, i, j)[i]
  {
  }

  lemma SwapKeepsSuffix<T>(r: seq<T>, i: nat, j: nat)
    requires j <= i < |r|
    ensures Swap(r, i, j)[i..] == [Swap(r, i, j)[i]] + r[i + 1..]
  {
  }

  lemma DropFirst<T>(x: T, s: seq<T>)
    ensures ([x] + s)[1..] == s
  {
  }

  lemma SplitLast<T>(s: seq<T>)
    requires |s| > 0
    ensures s == s[..|s| - 1] + [s[|s| - 1]]
  {
  }

  lemma AppendAssociates<T>(a: seq<T>, b: seq<T>, c: seq<T>)
    ensures (a + b) + c == a + (b + c)
  {
  }

  /** The definition's first pass. */
  lemma ShuffleFirstPass<T>(s: seq<T>, us: seq<real>)
    requires |s| >= 2 && |s| - 1 <= |us| && Draws(us)
    ensures var s' := Swap(s, |s| - 1, RandomInt(0, |s| - 1, us[0]));
      Shuffle(s, us) == Shuffle(s'[..|s| - 1], us[1..]) + [s'[|s| - 1]]
  {
  }

  /** The pass at the last index settles it for good: the result ends with
      the element the first draw picked from anywhere in the array, and
      everything before it is the shuffle of the rest. */
  lemma ShuffleSettlesLast<T>(s: seq<T>, us: seq<real>, j: int)
    requires |s| >= 2 && |s| - 1 <= |us| && Draws(us)
    requires j == RandomInt(0, |s| - 1, us[0])
    ensures 0 <= j < |s|
    ensures Shuffle(s, us)[|s| - 1] == s[j]
    ensures Shuffle(s, us)[..|s| - 1] == Shuffle(Swap(s, |s| - 1, j)[..|s| - 1], us[1..])
  {
    var s' := Swap(s, |s| - 1, j);
    var a := Shuffle(s'[..|s| - 1], us[1..]);
    ShuffleFirstPass(s, us);
    PrefixOfSnoc(a, s'[|s| - 1]);
  }

  lemma PrefixOfSnoc<T>(a: seq<T>, x: T)
    ensures (a + [x])[..|a|] == a && (a + [x])[|a|] == x
  {
  }

  /** The draw that makes `randomInt(0, i)` return j. */
  function DrawFor(j: nat, i: nat): (u: real)
    requires j <= i
    ensures 0.0 <= u < 1.0 && RandomInt(0, i, u) == j
  {
    var u := j as real / (i + 1) as real;
    ScaledDraw(j, i + 1);
    assert (0 as real + Scale(u, (i + 1 - 0) as real)).Floor == j;
    u
  }

  lemma ScaledDraw(j: nat, m: nat)
    requires j < m
    ensures var u := j as real / m as real;
      0.0 <= u < 1.0 && Scale(u, m as real) == j as real
  {
  }

  /** The first index holding x. */
  function IndexOf<T(==)>(s: seq<T>, x: T): (k: nat)
    requires x in s
    ensures k < |s| && s[k] == x && forall m :: 0 <= m < k ==> s[m] != x
  {
    if s[0] == x then 0 else 1 + IndexOf(s[1..], x)
  }

  lemma SameLength<T>(s: seq<T>, t: seq<T>)
    requires multiset(t) == multiset(s)
    ensures |t| == |s|
  {
    assert |multiset(t)| == |multiset(s)|;
  }

  /** Draws that bring s into the order t: at each pass the partner is
      where the element t wants at index i currently sits. */
  function ArrangingDraws<T(==)>(s: seq<T>, t: seq<T>): (us: seq<real>)
    requires multiset(t) == multiset(s)
    ensures |s| - 1 <= |us| && Draws(us)
    decreases |s|
  {
    SameLength(s, t);
    if |s| <= 1 then []
    else
      var i := |s| - 1;
      assert t[i] in multiset(s);
      var j := IndexOf(s, t[i]);
      var s' := Swap(s, i, j);
      LastPlaced(s, s', t);
      [DrawFor(j, i)] + ArrangingDraws(s'[..i], t[..i])
  }

  /** Every arrangement of the elements can come out of the shuffle: the
      draws above produce any permutation t of s. */
  lemma {:induction false} EveryArrangementReachable<T>(s: seq<T>, t: seq<T>)
    requires multiset(t) == multiset(s)
    ensures Shuffle(s, ArrangingDraws(s, t)) == t
    decreases |s|
  {
    SameLength(s, t);
    if |s| <= 1 {
      if |s| == 1 {
        assert t[0] in multiset(s);
      }
    } else {
      var i := |s| - 1;
      assert t[i] in multiset(s);
      var j := IndexOf(s, t[i]);
      var s' := Swap(s, i, j);
      LastPlaced(s, s', t);
      var rest := ArrangingDraws(s'[..i], t[..i]);
      EveryArrangementReachable(s'[..i], t[..i]);
      var u := DrawFor(j, i);
      assert ArrangingDraws(s, t) == [u] + rest;
      ShuffleFirstPass(s, [u] + rest);
      DropFirst(u, rest);
      SplitLast(t);
    }
  }

  /** Once the last element of t is in place, what remains before it is a
      permutation of the rest of t. */
  lemma LastPlaced<T>(s: seq<T>, s': seq<T>, t: seq<T>)
    requires |s| == |s'| == |t| > 0 && multiset(s') == multiset(s) == multiset(t)
    requires s'[|s| - 1] == t[|s| - 1]
    ensures multiset(s'[..|s| - 1]) == multiset(t[..|s| - 1])
  {
    var i := |s| - 1;
    var x := multiset{t[i]};
    assert s' == s'[..i] + [t[i]] && t == t[..i] + [t[i]];
    assert multiset(s'[..i]) + x == multiset(t[..i]) + x by {
      assert multiset(s'[..i] + [t[i]]) == multiset(s') == multiset(s);
    }
    assert multiset(s'[..i]) == (multiset(s'[..i]) + x) - x;
    assert multiset(t[..i]) == (multiset(t[..i]) + x) - x;
  }
}
