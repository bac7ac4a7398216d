/**
 * The Daily Review page: each holding's P&L % is mapped to an action by a
 * first-match-wins chain of strict comparisons.
 */
module Review {
  import opened Wrappers
  import opened Holdings

  datatype Action = Hold | AvoidAveraging | Review

  /** The text the review table shows for an action. */
  function Label(a: Action): (s: string)
    ensures s == "Hold" || s == "\U{274C} Avoid Averaging" || s == "\U{26A0}\U{FE0F} Review"
  {
    match a
    case Hold => "Hold"
    case AvoidAveraging => "\U{274C} Avoid Averaging"
    case Review => "\U{26A0}\U{FE0F} Review"
  }

  /** The hard-coded bound above which a holding is left alone. */
  const HoldAbovePercent: real := 20.0
  /** The hard-coded loss bound below which a holding is put up for review. */
  const ReviewBelowPercent: real := -15.0

  /**
   * The action for a finite P&L %, given the configured avoid-averaging
   * threshold. The ensures clauses give the flattened decision table.
   */
  function Classify(pnl: real, avoidAveragingLossPercent: real): (a: Action)
    ensures a == AvoidAveraging <==> pnl <= HoldAbovePercent && pnl < avoidAveragingLossPercent
    ensures a == Review <==> avoidAveragingLossPercent <= pnl < ReviewBelowPercent
    ensures a == Hold <==>
      HoldAbovePercent < pnl || (avoidAveragingLossPercent <= pnl && ReviewBelowPercent <= pnl)
  {
    if pnl > HoldAbovePercent then Hold
    else if pnl < avoidAveragingLossPercent then AvoidAveraging
    else if pnl < ReviewBelowPercent then Review
    else Hold
  }

  /** The first test wins: above 20% the configured threshold is never consulted. */
  lemma HoldAboveIgnoresThreshold(pnl: real, t1: real, t2: real)
    requires pnl > HoldAbovePercent
    ensures Classify(pnl, t1) == Classify(pnl, t2) == Hold
  {
  }

  /** Strict comparisons: exactly -15% is not a review case, whatever the threshold. */
  lemma AtReviewBoundIsHold(t: real)
    requires t <= ReviewBelowPercent
    ensures Classify(ReviewBelowPercent, t) == Hold
  {
  }

  /**
   * The action for a row. When the average is zero the source's P&L is
   * +inf (CMP > 0), NaN (CMP == 0) or -inf (CMP < 0); every comparison with
   * NaN is false, so only -inf reaches the avoid-averaging branch.
   */
  function RowAction(r: Row, avoidAveragingLossPercent: real): (a: Action)
    ensures r.avg == 0.0 ==> (a == AvoidAveraging <==> r.cmp < 0.0)
    ensures r.avg == 0.0 ==> a != Review
    ensures FromForm(r) && r.avg == 0.0 ==> a == Hold
    ensures r.avg > 0.0 && r.cmp > r.avg * 1.2 ==> a == Hold
  {
    match RowPnl(r)
    case Some(p) => Classify(p, avoidAveragingLossPercent)
    case None => if r.cmp < 0.0 then AvoidAveraging else Hold
  }

  /** The Action column: one action per holding, in table order. */
  function DailyReview(rows: seq<Row>, avoidAveragingLossPercent: real): (actions: seq<Action>)
    ensures |actions| == |rows|
    ensures forall i :: 0 <= i < |rows| ==> actions[i] == RowAction(rows[i], avoidAveragingLossPercent)
    ensures forall i :: 0 <= i < |rows| ==>
      (actions[i] == Review <==>
        rows[i].avg != 0.0 && avoidAveragingLossPercent <= RowPnl(rows[i]).value < ReviewBelowPercent)
    ensures forall i :: 0 <= i < |rows| ==>
      (actions[i] == AvoidAveraging <==>
        (rows[i].avg == 0.0 && rows[i].cmp < 0.0) ||
        (rows[i].avg != 0.0 && RowPnl(rows[i]).value <= HoldAbovePercent &&
         RowPnl(rows[i]).value < avoidAveragingLossPercent))
  {
    seq(|rows|, i requires 0 <= i < |rows| => RowAction(rows[i], avoidAveragingLossPercent))
  }
}
