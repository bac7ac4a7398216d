# Investing dashboard: portfolio table, P&L metrics and review actions

A Dafny model of the logic inside `app.py` of a personal investment-tracking
Streamlit app. The app keeps one portfolio table per session (columns
Stock, Qty, Avg, CMP, with integer index labels), adds or updates holdings
in it, derives each row's Value and P&L %, shows two dashboard aggregates,
classifies each holding into a review action, and offers a two-lot
average-price calculator. All prices are modelled as Dafny `real`, not
floats.

Modules, one per part of the page logic:

- `Wrappers` (`wrappers.dfy`): `Option`, used where the source's float
  arithmetic goes non-finite.
- `Holdings` (`holdings.dfy`): the `Row` datatype, the form's input minimums
  (`FromForm`), `Value = Qty * CMP`, and `PnlPercent = (CMP - Avg) / Avg * 100`,
  which is `None` when the average is zero.
- `Portfolio` (`portfolio.dfy`): the table as a class `Table` whose field
  `entries: seq<Entry>` pairs each row with its index label, and the Add /
  Update operation. The method `Table.Upsert` is proved equal to the function
  `AfterUpsert`. That function filters out the symbol and then assigns the
  label `len(filtered)` with pandas `.loc` semantics: it overwrites the row
  that has the label, or appends a new row if none has it. The lemmas state
  what this does to the table.
- `Dashboard` (`dashboard.dfy`): total value (sum of the Value column) and
  overall P&L (plain mean of the P&L % column), with 0 and 0 on an empty
  portfolio.
- `Review` (`review.dfy`): the first-match-wins action chain, with the
  configured avoid-averaging threshold as a parameter.
- `Tools` (`tools.dfy`): the average price of two lots.

Notes on the code:

- The classifier has no profit-booking label. A P&L above 20 returns Hold.
- All comparisons are strict.
- The review bound is the constant -15, not a configured value.
- The dashboard's overall P&L is the unweighted mean of the row P&Ls, not a
  capital-weighted figure.

## Model

| member | source | states |
|---|---|---|
| Holdings.Value | app.py:39 | A row's value is non-negative and at least its CMP when the form's minimums hold (Qty >= 1, CMP >= 0). With Qty >= 1 it is zero exactly when CMP is zero. |
| Holdings.PnlPercent | app.py:40 | P&L % is defined exactly when Avg is non-zero, and then satisfies P&L * Avg == (CMP - Avg) * 100. For Avg > 0 it is positive iff CMP > Avg and zero iff CMP == Avg. With CMP >= 0 it is at least -100. |
| Review.Label | app.py:101-107 | The only labels are "Hold", "❌ Avoid Averaging" and "⚠️ Review". |
| Review.Classify | app.py:100-107 | Decision table of the chain. Avoid Averaging iff pnl <= 20 and pnl < threshold. Review iff threshold <= pnl < -15. Hold iff pnl > 20, or pnl >= threshold and pnl >= -15. |
| Review.HoldAboveIgnoresThreshold | app.py:101-102 | Any P&L above 20 gives Hold whatever the configured threshold is, because that test runs first. |
| Review.AtReviewBoundIsHold | app.py:105-107 | The comparisons are strict: a P&L of exactly -15 with a threshold <= -15 gives Hold. |
| Review.RowAction | app.py:98-109 | For Avg == 0 the float P&L is +inf, NaN or -inf. Only -inf (CMP < 0) gives Avoid Averaging, so such a row is never Review, and a row within the form's minimums gets Hold. A row whose CMP is more than 1.2 times a positive Avg gets Hold. |
| Review.DailyReview | app.py:98-109 | The Action column has one entry per holding, in table order. An entry is Review iff that row's average is non-zero and threshold <= P&L < -15. It is Avoid Averaging iff the average is zero with CMP < 0 (a -inf P&L), or the P&L is at most 20 and below the threshold. |
| Tools.AveragePrice | app.py:117-123 | For lot quantities >= 1 the average lies between the two prices. It times (q1 + q2) gives q1*p1 + q2*p2, and it equals p1 when p1 == p2. |
| Tools.AveragePriceSymmetric | app.py:123 | Swapping (q1, p1) with (q2, p2) gives the same average. |
| Dashboard.Values | app.py:39 | The Value column has one entry per row, each that row's Qty * CMP. |
| Dashboard.Pnls | app.py:40 | When every average is non-zero, the P&L % column has one finite entry per row, each that row's P&L. |
| Dashboard.Summarize | app.py:38-45 | An empty portfolio gives 0 and 0. Total value is the sum of the Value column. Overall P&L is defined iff every average is non-zero, and it is then the mean of the P&L column. |
| Dashboard.TotalValueNonNegative | app.py:39-41 | With the form's minimums on every row, the portfolio value is non-negative. |
| Dashboard.TotalValueAppend | app.py:41 | Adding a row adds exactly its value to the portfolio value. |
| Dashboard.OverallPnlBetween | app.py:42 | On a non-empty portfolio the overall P&L lies between the smallest and the largest row P&L. |
| Dashboard.OverallPnlAllEqual | app.py:42 | If every row has the same P&L p, the overall P&L is p. |
| Dashboard.MeanBetween | app.py:42 | The mean of a non-empty column lies between its minimum and its maximum. |
| Dashboard.SumBetween | app.py:41-42 | A sum of n entries, each between lo and hi, lies between n*lo and n*hi. |
| Portfolio.FilterMembers | app.py:66 | An entry survives the filter iff it is in the table and its Stock differs from the symbol. The filtered table is no longer than the original. |
| Portfolio.FilterAppend | app.py:66 | Filtering distributes over concatenation, so survivors keep their labels and their relative order. |
| Portfolio.FilterAbsent | app.py:66 | A table without the symbol is unchanged by the filter. |
| Portfolio.FilterOnce | app.py:66 | A table holding the symbol in exactly one entry loses exactly that entry. |
| Portfolio.FilterKeepsDistinct | app.py:66 | Filtering keeps distinct labels distinct and unique symbols unique. |
| Portfolio.UpsertHoldsSymbolOnce | app.py:65-67 | After Add / Update exactly one row has Stock == stock: the new row [stock, qty, avg, cmp], at label len(filtered). |
| Portfolio.UpsertKeepsLabelsDistinct | app.py:67 | Add / Update keeps the index labels distinct. |
| Portfolio.UpsertKeepsSymbolsUnique | app.py:66-67 | If each symbol appeared at most once before Add / Update, each still does after. |
| Portfolio.UpsertNewSymbolAppends | app.py:66-67 | Suppose the symbol is absent and the labels are exactly 0..n-1. Then every old row is unchanged, the new row is appended last at label n, and the labels stay 0..n. |
| Portfolio.UpsertOverwritesLabelOwner | app.py:67 | If a survivor already has the label len(filtered), the result is the filtered table with only that survivor replaced by the new row. |
| Portfolio.UpsertLosesLastHolding | app.py:66-67 | Take a table labelled 0..n-1 with unique symbols. Updating a symbol that is not in the last row removes the last row's symbol from the table. |
| Portfolio.UpdateFirstOfThreeDropsThird | app.py:66-67 | With A, B, C at labels 0, 1, 2, updating A gives [(1, B), (2, A')]: C is lost. |
| Portfolio.UpsertKeepsFormRows | app.py:59-61 | If every row and the new row meet the form's minimums, every row after Add / Update does too. |
| Portfolio.UpsertReindexedKeepsOthers | app.py:66-67 | With the filtered table renumbered before the assignment, the rows are the survivors in order followed by the new row, and the labels are 0..n-1. Every holding with another symbol is kept. |
| Portfolio.UpsertReindexedHoldsSymbolOnce | app.py:66-67 | With renumbering, the new row is last and no other row has its symbol. |
| Portfolio.UpsertsAgreeOnNewSymbol | app.py:66-67 | On a table labelled 0..n-1 without the symbol, the as-written and the renumbered upsert give the same table. |
| Portfolio.Table.constructor | app.py:21-24 | A session starts with an empty table, and its labels are trivially distinct. |
| Portfolio.Table.Upsert | app.py:65-68 | The table after Add / Update is `AfterUpsert` of the table before: filter, then `.loc[len(filtered)]`; its rows are that table's rows. Distinct labels are preserved. |
| Portfolio.Table.UpsertReindexed | app.py:65-68 | The corrected Add / Update: the table after is the survivors, renumbered 0..m-1, followed by the new row at label m. |

## Findings

| source | as written | input that shows it | evidently intended | confidence | as-written member | corrected member |
|---|---|---|---|---|---|---|
| app.py:66-67 | After filtering, the table keeps its old labels, so `df.loc[len(df)]` can hit a surviving row and overwrite it instead of appending | A, B, C at labels 0, 1, 2; Add / Update A: filtered labels are [1, 2], `.loc[2]` overwrites C, so C disappears | the update replaces A and keeps B and C (renumber the filtered table, e.g. `reset_index(drop=True)`, before `.loc[len(df)]`) | high (not executed) | Portfolio.UpdateFirstOfThreeDropsThird | Portfolio.UpsertReindexedKeepsOthers |

The table class offers both operations. `Table.Upsert` is the code as
written; `Table.UpsertReindexed` is the corrected one.
`Portfolio.UpsertLosesLastHolding` states the general as-written case.
`Portfolio.UpsertsAgreeOnNewSymbol` shows that the two operations agree
whenever a new symbol is added to a table labelled 0..n-1.

## Left out

- Streamlit rendering is not modelled: page navigation, forms, metrics, tables, expanders, messages and number formatting. When the portfolio is empty, the Daily Review page shows a warning; `DailyReview` returns an empty column there.
- Loading `baskets.json` and `rules.json` is file I/O behind a cache decorator. The avoid-averaging threshold is a parameter instead, and the basket count on the dashboard is not modelled.
- The rulebook and basket pages only display configuration and compute nothing.
- Floating point is not modelled: rounding, and pandas' NaN/inf handling. Prices are exact reals.
- Summarize: reports the overall P&L as undefined (None) whenever some row has Avg == 0. pandas instead skips the NaN of a 0/0 row and propagates +inf from a row with CMP > 0.
- PnlPercent: for Avg == 0 it gives None rather than telling +inf, NaN and -inf apart; `RowAction` handles those three cases separately.
- Whether `st.session_state` and `DataFrame.copy()` return copies or views is not modelled. The session table is one `Table` object that the Add / Update methods update.
