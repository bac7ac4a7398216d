/**
 * The Dashboard page: portfolio value is the sum of the Value column and
 * the overall P&L is the plain mean of the P&L % column; an empty
 * portfolio shows 0 and 0.
 */
module Dashboard {
  import opened Wrappers
  import opened Holdings

  /** Sum of a column, accumulated left to right. */
  function Sum(xs: seq<real>): real
    decreases |xs|
  {
    if xs == [] then 0.0 else Sum(xs[..|xs| - 1]) + xs[|xs| - 1]
  }

  /** The smallest entry of a non-empty column. */
  function Smallest(xs: seq<real>): (m: real)
    requires |xs| > 0
    ensures exists i :: 0 <= i < |xs| && xs[i] == m
    ensures forall i :: 0 <= i < |xs| ==> m <= xs[i]
    decreases |xs|
  {
    if |xs| == 1 then xs[0]
    else
      var m := Smallest(xs[..|xs| - 1]);
      if xs[|xs| - 1] < m then xs[|xs| - 1] else m
  }

  /** The largest entry of a non-empty column. */
  function Largest(xs: seq<real>): (m: real)
    requires |xs| > 0
    ensures exists i :: 0 <= i < |xs| && xs[i] == m
    ensures forall i :: 0 <= i < |xs| ==> xs[i] <= m
    decreases |xs|
  {
    if |xs| == 1 then xs[0]
    else
      var m := Largest(xs[..|xs| - 1]);
      if m < xs[|xs| - 1] then xs[|xs| - 1] else m
  }

  /** The mean that pandas' mean() computes on a column of finite values. */
  function Mean(xs: seq<real>): real
    requires |xs| > 0
  {
    Sum(xs) / |xs| as real
  }

  /** The Value column of the table. */
  function Values(rows: seq<Row>): (vs: seq<real>)
    ensures |vs| == |rows|
    ensures forall i :: 0 <= i < |rows| ==> vs[i] == Value(rows[i])
  {
    seq(|rows|, i requires 0 <= i < |rows| => Value(rows[i]))
  }

  /** Every row has a non-zero average, so every P&L % is finite. */
  predicate AllPriced(rows: seq<Row>) {
    forall i :: 0 <= i < |rows| ==> rows[i].avg != 0.0
  }

  /** The P&L % column of a table whose averages are all non-zero. */
  function Pnls(rows: seq<Row>): (ps: seq<real>)
    requires AllPriced(rows)
    ensures |ps| == |rows|
    ensures forall i :: 0 <= i < |rows| ==> RowPnl(rows[i]) == Some(ps[i])
  {
    seq(|rows|, i requires 0 <= i < |rows| && AllPriced(rows) => RowPnl(rows[i]).value)
  }

  /** The two dashboard metrics. */
  datatype Summary = Summary(totalValue: real, overallPnl: Option<real>)

  function Summarize(rows: seq<Row>): (s: Summary)
    ensures rows == [] ==> s == Summary(0.0, Some(0.0))
    ensures s.totalValue == Sum(Values(rows))
    ensures s.overallPnl.Some? <==> AllPriced(rows)
    ensures rows != [] && AllPriced(rows) ==> s.overallPnl == Some(Mean(Pnls(rows)))
  {
    if rows == [] then Summary(0.0, Some(0.0))
    else Summary(Sum(Values(rows)), if AllPriced(rows) then Some(Mean(Pnls(rows))) else None)
  }

  /** A sum of non-negative entries is non-negative. */
  lemma {:induction false} SumNonNegative(xs: seq<real>)
    requires forall i :: 0 <= i < |xs| ==> 0.0 <= xs[i]
    ensures 0.0 <= Sum(xs)
    decreases |xs|
  {
    if xs != [] {
      SumNonNegative(xs[..|xs| - 1]);
    }
  }

  /** A sum of entries between lo and hi lies between |xs| * lo and |xs| * hi. */
  lemma {:induction false} SumBetween(xs: seq<real>, lo: real, hi: real)
    requires forall i :: 0 <= i < |xs| ==> lo <= xs[i] <= hi
    ensures |xs| as real * lo <= Sum(xs) <= |xs| as real * hi
    decreases |xs|
  {
    if xs != [] {
      var n := |xs| - 1;
      SumBetween(xs[..n], lo, hi);
      assert n as real * lo <= Sum(xs[..n]) <= n as real * hi;
      assert lo <= xs[n] <= hi;
      assert |xs| as real * lo == n as real * lo + lo;
      assert |xs| as real * hi == n as real * hi + hi;
    }
  }

  /** Sum distributes over concatenation of columns. */
  lemma {:induction false} SumAppend(xs: seq<real>, ys: seq<real>)
    ensures Sum(xs + ys) == Sum(xs) + Sum(ys)
    decreases |ys|
  {
    if ys == [] {
      assert xs + ys == xs;
    } else {
      var n := |ys| - 1;
      assert (xs + ys)[..|xs + ys| - 1] == xs + ys[..n];
      SumAppend(xs, ys[..n]);
    }
  }

  /** The mean of a column lies between its smallest and its largest entry. */
  lemma MeanBetween(xs: seq<real>)
    requires |xs| > 0
    ensures Smallest(xs) <= Mean(xs) <= Largest(xs)
  {
    MeanWithin(xs, Smallest(xs), Largest(xs));
  }

  /** The mean of entries between lo and hi lies between lo and hi. */
  lemma MeanWithin(xs: seq<real>, lo: real, hi: real)
    requires |xs| > 0
    requires forall i :: 0 <= i < |xs| ==> lo <= xs[i] <= hi
    ensures lo <= Mean(xs) <= hi
  {
    SumBetween(xs, lo, hi);
    QuotientBetween(Sum(xs), |xs| as real, lo, hi);
  }

  /** Dividing the bounds n * lo <= s <= n * hi by a positive n. */
  lemma QuotientBetween(s: real, n: real, lo: real, hi: real)
    requires n > 0.0 && n * lo <= s <= n * hi
    ensures lo <= s / n <= hi
  {
  }

  /** With the form's minimums, the portfolio value is non-negative. */
  lemma TotalValueNonNegative(rows: seq<Row>)
    requires forall i :: 0 <= i < |rows| ==> FromForm(rows[i])
    ensures 0.0 <= Summarize(rows).totalValue
  {
    SumNonNegative(Values(rows));
  }

  /** Adding a row adds its value to the portfolio value. */
  lemma TotalValueAppend(rows: seq<Row>, r: Row)
    ensures Summarize(rows + [r]).totalValue == Summarize(rows).totalValue + Value(r)
  {
    assert Values(rows + [r]) == Values(rows) + [Value(r)];
    SumAppend(Values(rows), [Value(r)]);
  }

  /** The overall P&L lies between the least and the largest row P&L. */
  lemma OverallPnlBetween(rows: seq<Row>)
    requires rows != [] && AllPriced(rows)
    ensures Summarize(rows).overallPnl.Some?
    ensures Smallest(Pnls(rows)) <= Summarize(rows).overallPnl.value <= Largest(Pnls(rows))
  {
    MeanBetween(Pnls(rows));
  }

  /** When every row breaks even, so does the portfolio. */
  lemma OverallPnlAllEqual(rows: seq<Row>, p: real)
    requires rows != [] && AllPriced(rows)
    requires forall i :: 0 <= i < |rows| ==> RowPnl(rows[i]) == Some(p)
    ensures Summarize(rows).overallPnl == Some(p)
  {
    MeanWithin(Pnls(rows), p, p);
  }
}
