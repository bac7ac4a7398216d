/**
 * One holding of the portfolio table (the columns Stock, Qty, Avg, CMP)
 * and the two per-row metrics derived from it: Value and P&L %.
 */
module Holdings {
  import opened Wrappers

  /** A row of the portfolio table. Qty is entered as a whole number. */
  datatype Row = Row(stock: string, qty: int, avg: real, cmp: real)

  /** The minimums the Add / Update form enforces on its number inputs. */
  predicate FromForm(r: Row) {
    r.qty >= 1 && r.avg >= 0.0 && r.cmp >= 0.0
  }

  /** The Value column: quantity times current market price. */
  function Value(r: Row): (v: real)
    ensures FromForm(r) ==> 0.0 <= v
    ensures FromForm(r) ==> r.cmp <= v
    ensures r.qty >= 1 ==> (v == 0.0 <==> r.cmp == 0.0)
  {
    r.qty as real * r.cmp
  }

  /**
   * The P&L % column, (CMP - Avg) / Avg * 100. A zero average makes the
   * source's float division non-finite; the model reports None there.
   */
  function PnlPercent(avg: real, cmp: real): (p: Option<real>)
    ensures p.Some? <==> avg != 0.0
    ensures p.Some? ==> p.value * avg == (cmp - avg) * 100.0
    ensures avg > 0.0 ==> p.Some? && (0.0 < p.value <==> avg < cmp)
    ensures avg > 0.0 ==> p.Some? && (p.value == 0.0 <==> cmp == avg)
    ensures avg > 0.0 && cmp >= 0.0 ==> p.Some? && -100.0 <= p.value
  {
    if avg == 0.0 then None
    else
      PercentChangeFacts(avg, cmp);
      Some((cmp - avg) / avg * 100.0)
  }

  /** The sign and lower bound of (cmp - avg) / avg * 100 for a non-zero avg. */
  lemma PercentChangeFacts(avg: real, cmp: real)
    requires avg != 0.0
    ensures var p := (cmp - avg) / avg * 100.0;
      p * avg == (cmp - avg) * 100.0 &&
      (avg > 0.0 ==> (0.0 < p <==> avg < cmp) && (p == 0.0 <==> cmp == avg)) &&
      (avg > 0.0 && cmp >= 0.0 ==> -100.0 <= p)
  {
  }

  /** P&L % of one row. */
  function RowPnl(r: Row): Option<real> {
    PnlPercent(r.avg, r.cmp)
  }
}
