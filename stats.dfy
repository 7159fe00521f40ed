/** Reductions over one numeric column of the sets table: sum, maximum,
    minimum, ascending sort, consecutive differences and mean. */
module Stats {
  import opened Wrappers

  /** The sum of a column (`Series.sum()`). */
  function SumOf(s: seq<int>): int
  {
    if s == [] then 0 else s[0] + SumOf(s[1..])
  }

  /** The largest value of a non-empty column (`Series.max()`). */
  function MaxOf(s: seq<int>): (m: int)
    requires s != []
    ensures m in s
    ensures forall i :: 0 <= i < |s| ==> s[i] <= m
  {
    if |s| == 1 then s[0]
    else
      var rest := MaxOf(s[1..]);
      if s[0] < rest then rest else s[0]
  }

  /** The smallest value of a non-empty column. */
  function MinOf(s: seq<int>): (m: int)
    requires s != []
    ensures m in s
    ensures forall i :: 0 <= i < |s| ==> m <= s[i]
  {
    if |s| == 1 then s[0]
    else
      var rest := MinOf(s[1..]);
      if rest < s[0] then rest else s[0]
  }

  lemma {:induction false} SumNonNegative(s: seq<int>)
    requires forall j :: 0 <= j < |s| ==> 0 <= s[j]
    ensures 0 <= SumOf(s)
  {
    if s != [] {
      SumNonNegative(s[1..]);
    }
  }

  /** With no negative entries, the sum of a column is at least each of its entries. */
  lemma {:induction false} SumBoundsEach(s: seq<int>, i: int)
    requires 0 <= i < |s|
    requires forall j :: 0 <= j < |s| ==> 0 <= s[j]
    ensures s[i] <= SumOf(s)
  {
    if i == 0 {
      SumNonNegative(s[1..]);
    } else {
      SumBoundsEach(s[1..], i - 1);
    }
  }

  lemma MinBelowMax(s: seq<int>)
    requires s != []
    ensures MinOf(s) <= MaxOf(s)
  {
    assert MinOf(s) <= s[0] <= MaxOf(s);
  }

  ghost predicate Sorted(s: seq<int>)
  {
    forall i, j :: 0 <= i < j < |s| ==> s[i] <= s[j]
  }

  /** Places `x` into an ascending sequence. */
  function Insert(x: int, s: seq<int>): (r: seq<int>)
    requires Sorted(s)
    ensures Sorted(r)
    ensures multiset(r) == multiset(s) + multiset{x}
  {
    if s == [] || x <= s[0] then
      ConsSorted(x, s);
      [x] + s
    else
      SortedTail(s);
      var tail := Insert(x, s[1..]);
      InsertedAbove(s[0], x, s[1..], tail);
      ConsSorted(s[0], tail);
      assert s == [s[0]] + s[1..];
      [s[0]] + tail
  }

  /** The tail of an ascending sequence ascends and lies above its head. */
  lemma SortedTail(s: seq<int>)
    requires Sorted(s) && s != []
    ensures Sorted(s[1..])
    ensures forall k :: 0 <= k < |s[1..]| ==> s[0] <= s[1..][k]
  {
  }

  /** A head below every element of an ascending tail keeps it ascending. */
  lemma ConsSorted(h: int, t: seq<int>)
    requires Sorted(t)
    requires t == [] || h <= t[0]
    ensures Sorted([h] + t)
  {
  }

  /** A bound below `x` and every element of `s` stays below every element
      of a sequence made of `s` and `x`. */
  lemma InsertedAbove(b: int, x: int, s: seq<int>, t: seq<int>)
    requires b <= x && forall k :: 0 <= k < |s| ==> b <= s[k]
    requires multiset(t) == multiset(s) + multiset{x}
    ensures forall k :: 0 <= k < |t| ==> b <= t[k]
  {
    forall k | 0 <= k < |t|
      ensures b <= t[k]
    {
      assert t[k] in multiset(t);
      if t[k] != x {
        assert t[k] in multiset(s);
      }
    }
  }

  /** The column in ascending order (`sort_values`). */
  function SortAsc(s: seq<int>): (r: seq<int>)
    ensures Sorted(r)
    ensures multiset(r) == multiset(s)
  {
    if s == [] then []
    else
      assert s == [s[0]] + s[1..];
      Insert(s[0], SortAsc(s[1..]))
  }

  /** An ascending permutation of `s` starts at its minimum and ends at its maximum. */
  lemma PermutationEnds(r: seq<int>, s: seq<int>)
    requires s != [] && Sorted(r) && multiset(r) == multiset(s)
    ensures |r| == |s|
    ensures r[0] == MinOf(s) && r[|s| - 1] == MaxOf(s)
  {
    assert |r| == |s| by {
      assert |multiset(r)| == |multiset(s)|;
    }
    var lo, hi := MinOf(s), MaxOf(s);
    assert r[0] in multiset(s) && r[|r| - 1] in multiset(s);
    var a :| 0 <= a < |s| && s[a] == r[0];
    var b :| 0 <= b < |s| && s[b] == r[|r| - 1];
    assert lo in multiset(r) && hi in multiset(r);
    var c :| 0 <= c < |r| && r[c] == lo;
    var d :| 0 <= d < |r| && r[d] == hi;
    assert r[0] <= r[c] && r[d] <= r[|r| - 1];
  }

  /** `Series.diff()` with its leading missing value dropped: each element
      minus the one before it. */
  function Gaps(s: seq<int>): (r: seq<int>)
    ensures |r| == if |s| < 2 then 0 else |s| - 1
    ensures forall i :: 0 <= i < |r| ==> r[i] == s[i + 1] - s[i]
  {
    if |s| < 2 then [] else [s[1] - s[0]] + Gaps(s[1..])
  }

  /** The consecutive differences of a column telescope to last minus first. */
  lemma {:induction false} GapsTelescope(s: seq<int>)
    requires s != []
    ensures |Gaps(s)| == |s| - 1
    ensures SumOf(Gaps(s)) == s[|s| - 1] - s[0]
  {
    if |s| >= 2 {
      GapsTelescope(s[1..]);
    }
  }

  /** An exact quotient `num / den`. */
  datatype Ratio = Ratio(num: int, den: int)

  function RatioValue(r: Ratio): real
    requires r.den != 0
  {
    (r.num as real) / (r.den as real)
  }

  /** `Series.mean()` over the values present, kept exact as sum over count:
      missing when there are no values. */
  function Mean(s: seq<int>): (r: Option<Ratio>)
    ensures r.Some? <==> s != []
  {
    if s == [] then None else Some(Ratio(SumOf(s), |s|))
  }
}
