/** `range(start, end)`: the inclusive run of integers from `start` to `end`,
    counting up or down by one. */
module Ranges {
  import opened Numbers
  import opened Seqs

  /** `Array.from({length: |end - start| + 1}, (x, i) => start + i * sign(end - start))`. */
  function Range(start: int, end: int): (r: seq<int>)
    ensures |r| == Abs(end - start) + 1
    ensures r[0] == start && r[|r| - 1] == end
    ensures forall i :: 0 <= i < |r| - 1 ==> r[i + 1] - r[i] == Sign(end - start)
  {
    seq(Abs(end - start) + 1, i => start + i * Sign(end - start))
  }

  /** A range holds exactly the integers between its two ends. */
  lemma RangeMembers(start: int, end: int)
    ensures forall x :: x in Range(start, end) <==>
      (start <= x <= end || end <= x <= start)
  {
    var r := Range(start, end);
    forall x | start <= x <= end || end <= x <= start
      ensures x in r
    {
      var i := Abs(x - start);
      assert r[i] == x;
    }
  }

  /** Swapping the ends reverses the range. */
  lemma RangeReversed(start: int, end: int)
    ensures Range(end, start) == Reverse(Range(start, end))
  {
    var r, q := Range(start, end), Range(end, start);
    forall i | 0 <= i < |q|
      ensures q[i] == Reverse(r)[i]
    {
      var n := Abs(end - start);
      if end > start {
        assert q[i] == end - i && r[n - i] == start + (n - i);
      } else if end < start {
        assert q[i] == end + i && r[n - i] == start - (n - i);
      }
    }
  }

  lemma RangeSingleton(s: int)
    ensures Range(s, s) == [s]
  {
  }
}
