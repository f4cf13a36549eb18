/**
 * Cross-scenario aggregation: every net-worth trajectory is padded to the
 * longest length by repeating its last value, then the max, mean and min are
 * taken month by month.
 */
module Stats {
  import opened Wrappers

  function Sum(s: seq<real>): real
  {
    if s == [] then 0.0 else s[0] + Sum(s[1..])
  }

  /** The largest element: it occurs in `s` and bounds every element. */
  function Max(s: seq<real>): (m: real)
    requires |s| > 0
    ensures m in s && forall i :: 0 <= i < |s| ==> s[i] <= m
  {
    if |s| == 1 then s[0]
    else
      var rest := Max(s[1..]);
      assert forall i :: 1 <= i < |s| ==> s[i] == s[1..][i - 1];
      if s[0] >= rest then s[0] else rest
  }

  /** The smallest element: it occurs in `s` and is at most every element. */
  function Min(s: seq<real>): (m: real)
    requires |s| > 0
    ensures m in s && forall i :: 0 <= i < |s| ==> m <= s[i]
  {
    if |s| == 1 then s[0]
    else
      var rest := Min(s[1..]);
      assert forall i :: 1 <= i < |s| ==> s[i] == s[1..][i - 1];
      if s[0] <= rest then s[0] else rest
  }

  lemma {:induction false} SumBelow(s: seq<real>, bound: real)
    requires forall i :: 0 <= i < |s| ==> s[i] <= bound
    ensures Sum(s) <= (|s| as real) * bound
  {
    if s != [] {
      SumBelow(s[1..], bound);
    }
  }

  lemma {:induction false} SumAbove(s: seq<real>, bound: real)
    requires forall i :: 0 <= i < |s| ==> bound <= s[i]
    ensures (|s| as real) * bound <= Sum(s)
  {
    if s != [] {
      SumAbove(s[1..], bound);
    }
  }

  /** Arithmetic mean of a non-empty sequence; it lies between the minimum and the maximum. */
  function Mean(s: seq<real>): (m: real)
    requires |s| > 0
    ensures Min(s) <= m <= Max(s)
  {
    SumAbove(s, Min(s));
    SumBelow(s, Max(s));
    DivideAtLeast(Sum(s), |s| as real, Min(s));
    DivideAtMost(Sum(s), |s| as real, Max(s));
    Sum(s) / (|s| as real)
  }

  lemma DivideAtLeast(total: real, n: real, lo: real)
    requires n > 0.0 && n * lo <= total
    ensures lo <= total / n
  {
    assert (total / n) * n == total;
  }

  lemma DivideAtMost(total: real, n: real, hi: real)
    requires n > 0.0 && total <= n * hi
    ensures total / n <= hi
  {
    assert (total / n) * n == total;
  }

  /** The longest length of any trajectory (0 when none has a value). */
  function MaxLen(sims: seq<seq<real>>): (n: nat)
    ensures forall i :: 0 <= i < |sims| ==> |sims[i]| <= n
    ensures n == 0 || exists i :: 0 <= i < |sims| && |sims[i]| == n
  {
    if sims == [] then 0
    else
      var rest := MaxLen(sims[1..]);
      assert forall i :: 1 <= i < |sims| ==> sims[i] == sims[1..][i - 1];
      if |sims[0]| >= rest then |sims[0]| else rest
  }

  /**
   * Pads one trajectory to `len` entries by repeating its last value; an
   * empty trajectory becomes all zeros.
   */
  function Pad(sim: seq<real>, len: nat): (r: seq<real>)
    requires |sim| <= len
    ensures |r| == len
    ensures sim != [] ==> r[..|sim|] == sim && forall i :: |sim| <= i < len ==> r[i] == sim[|sim| - 1]
    ensures sim == [] ==> forall i :: 0 <= i < len ==> r[i] == 0.0
  {
    if sim == [] then seq(len, _ => 0.0)
    else sim + seq(len - |sim|, _ => sim[|sim| - 1])
  }

  function PadAll(sims: seq<seq<real>>, len: nat): (rows: seq<seq<real>>)
    requires forall i :: 0 <= i < |sims| ==> |sims[i]| <= len
    ensures |rows| == |sims| && forall i :: 0 <= i < |rows| ==> |rows[i]| == len
  {
    seq(|sims|, i requires 0 <= i < |sims| => Pad(sims[i], len))
  }

  /** The values of every row at month index `j`. */
  function Column(rows: seq<seq<real>>, j: nat): (col: seq<real>)
    requires forall i :: 0 <= i < |rows| ==> j < |rows[i]|
    ensures |col| == |rows|
  {
    seq(|rows|, i requires 0 <= i < |rows| => rows[i][j])
  }

  /** The three monthly summary series. */
  datatype Summary = Summary(maxSeries: seq<real>, avgSeries: seq<real>, minSeries: seq<real>)

  /**
   * Pads every trajectory to the longest length and summarizes month by
   * month. Fails (`None`) when no trajectory has a value, as taking the
   * maximum length of nothing does.
   */
  function Aggregate(sims: seq<seq<real>>): (r: Option<Summary>)
    ensures r.None? <==> forall i :: 0 <= i < |sims| ==> sims[i] == []
    ensures r.Some? ==> |r.value.maxSeries| == |r.value.avgSeries| == |r.value.minSeries| == MaxLen(sims) > 0
  {
    var len := MaxLen(sims);
    if len == 0 then None
    else
      var rows := PadAll(sims, len);
      Some(Summary(
        seq(len, j requires 0 <= j < len => Max(Column(rows, j))),
        seq(len, j requires 0 <= j < len => Mean(Column(rows, j))),
        seq(len, j requires 0 <= j < len => Min(Column(rows, j)))))
  }

  /** Month by month, max >= mean >= min. */
  lemma AggregateOrdered(sims: seq<seq<real>>)
    requires Aggregate(sims).Some?
    ensures var r := Aggregate(sims).value;
      forall j :: 0 <= j < |r.avgSeries| ==> r.minSeries[j] <= r.avgSeries[j] <= r.maxSeries[j]
  {
  }

  /**
   * Each month's maximum and minimum are values that some padded trajectory
   * actually takes in that month.
   */
  lemma AggregateAttained(sims: seq<seq<real>>, j: nat)
    requires Aggregate(sims).Some? && j < MaxLen(sims)
    ensures var r := Aggregate(sims).value;
      (exists i :: 0 <= i < |sims| && r.maxSeries[j] == Pad(sims[i], MaxLen(sims))[j]) &&
      (exists i :: 0 <= i < |sims| && r.minSeries[j] == Pad(sims[i], MaxLen(sims))[j])
  {
    var rows := PadAll(sims, MaxLen(sims));
    var col := Column(rows, j);
    var hi :| 0 <= hi < |col| && col[hi] == Max(col);
    var lo :| 0 <= lo < |col| && col[lo] == Min(col);
    assert col[hi] == Pad(sims[hi], MaxLen(sims))[j];
    assert col[lo] == Pad(sims[lo], MaxLen(sims))[j];
  }

  /**
   * Every trajectory lies between the min and max series, over its own
   * months and, padded with its last value, over the months after it ended.
   */
  lemma AggregateBoundsTrajectories(sims: seq<seq<real>>, i: nat, j: nat)
    requires Aggregate(sims).Some? && i < |sims| && sims[i] != [] && j < MaxLen(sims)
    ensures var r := Aggregate(sims).value;
      var v := if j < |sims[i]| then sims[i][j] else sims[i][|sims[i]| - 1];
      r.minSeries[j] <= v <= r.maxSeries[j]
  {
    var rows := PadAll(sims, MaxLen(sims));
    var col := Column(rows, j);
    assert col[i] == Pad(sims[i], MaxLen(sims))[j];
    if j < |sims[i]| {
      assert Pad(sims[i], MaxLen(sims))[..|sims[i]|][j] == sims[i][j];
    }
  }
}
