/**
 * The session's portfolio table and its Add / Update operation.
 *
 * The table is a sequence of rows, each with an integer index label. The
 * upsert first keeps only the rows whose Stock differs from the input
 * symbol (survivors keep their labels and order) and then assigns the new
 * row to the label len(filtered) with pandas `.loc` semantics: a row that
 * already carries that label is overwritten in place, otherwise the new row
 * is appended at the end.
 */
module Portfolio {
  import opened Holdings

  /** A table row together with its index label. */
  datatype Entry = Entry(index: int, row: Row)

  function LabelOf(e: Entry): int { e.index }
  function StockOf(e: Entry): string { e.row.stock }

  /** No two entries share a key. */
  ghost predicate Distinct<K>(s: seq<Entry>, key: Entry -> K) {
    forall i, j :: 0 <= i < j < |s| ==> key(s[i]) != key(s[j])
  }

  /** The labels are exactly 0, 1, ..., |s| - 1, in order (a fresh RangeIndex). */
  predicate Dense(s: seq<Entry>) {
    forall i :: 0 <= i < |s| ==> s[i].index == i
  }

  /** The rows of the table, without their labels. */
  function RowsOf(s: seq<Entry>): (rows: seq<Row>)
    ensures |rows| == |s|
    ensures forall i :: 0 <= i < |s| ==> rows[i] == s[i].row
  {
    seq(|s|, i requires 0 <= i < |s| => s[i].row)
  }

  /** `df[df["Stock"] != stock]`: the entries whose Stock differs, in order. */
  function Filter(s: seq<Entry>, stock: string): seq<Entry>
    decreases |s|
  {
    if s == [] then []
    else Filter(s[..|s| - 1], stock) + (if s[|s| - 1].row.stock != stock then [s[|s| - 1]] else [])
  }

  predicate HasLabel(s: seq<Entry>, index: int) {
    exists i :: 0 <= i < |s| && s[i].index == index
  }

  /** Every entry carrying the label gets the row instead. */
  function Overwrite(s: seq<Entry>, index: int, r: Row): seq<Entry> {
    seq(|s|, i requires 0 <= i < |s| => if s[i].index == index then Entry(index, r) else s[i])
  }

  /** `df.loc[label] = row`: overwrite in place if the label exists, append otherwise. */
  function Loc(s: seq<Entry>, index: int, r: Row): seq<Entry> {
    if HasLabel(s, index) then Overwrite(s, index, r) else s + [Entry(index, r)]
  }

  /** The Add / Update operation as the source writes it. */
  function AfterUpsert(s: seq<Entry>, r: Row): seq<Entry> {
    var f := Filter(s, r.stock);
    Loc(f, |f|, r)
  }

  /** Renumber the labels 0, 1, ..., keeping rows and order (`reset_index(drop=True)`). */
  function Reindex(s: seq<Entry>): (t: seq<Entry>)
    ensures Dense(t) && RowsOf(t) == RowsOf(s)
  {
    seq(|s|, i requires 0 <= i < |s| => Entry(i, s[i].row))
  }

  /** The Add / Update operation with the filtered table renumbered before the assignment. */
  function AfterUpsertReindexed(s: seq<Entry>, r: Row): seq<Entry> {
    var f := Reindex(Filter(s, r.stock));
    f + [Entry(|f|, r)]
  }

  // ---------------------------------------------------------------- Filter

  /** An entry survives the filter exactly when it is in the table with a different Stock. */
  lemma {:induction false} FilterMembers(s: seq<Entry>, stock: string)
    ensures |Filter(s, stock)| <= |s|
    ensures forall e :: e in Filter(s, stock) <==> e in s && e.row.stock != stock
    decreases |s|
  {
    if s != [] {
      var n := |s| - 1;
      FilterMembers(s[..n], stock);
      assert s == s[..n] + [s[n]];
    }
  }

  /** Filtering distributes over concatenation, so survivors keep their relative order. */
  lemma {:induction false} FilterAppend(s: seq<Entry>, t: seq<Entry>, stock: string)
    ensures Filter(s + t, stock) == Filter(s, stock) + Filter(t, stock)
    decreases |t|
  {
    if t == [] {
      assert s + t == s;
    } else {
      var n := |t| - 1;
      assert (s + t)[..|s + t| - 1] == s + t[..n];
      FilterAppend(s, t[..n], stock);
    }
  }

  /** A table without the symbol is left as it is. */
  lemma {:induction false} FilterAbsent(s: seq<Entry>, stock: string)
    requires forall i :: 0 <= i < |s| ==> s[i].row.stock != stock
    ensures Filter(s, stock) == s
    decreases |s|
  {
    if s != [] {
      FilterAbsent(s[..|s| - 1], stock);
    }
  }

  /** A table holding the symbol in one entry only loses exactly that entry. */
  lemma FilterOnce(before: seq<Entry>, e: Entry, after: seq<Entry>)
    requires forall i :: 0 <= i < |before| ==> before[i].row.stock != e.row.stock
    requires forall i :: 0 <= i < |after| ==> after[i].row.stock != e.row.stock
    ensures Filter(before + [e] + after, e.row.stock) == before + after
  {
    var x := e.row.stock;
    calc {
      Filter(before + [e] + after, x);
    == { FilterAround(before, e, after, x); }
      Filter(before, x) + Filter([e], x) + Filter(after, x);
    == { FilterAbsent(before, x); FilterAbsent(after, x); FilterSingle(e, x); }
      before + [] + after;
    == { assert before + [] == before; }
      before + after;
    }
  }

  /** A one-row table keeps its row exactly when the Stock differs. */
  lemma FilterSingle(e: Entry, stock: string)
    ensures Filter([e], stock) == if e.row.stock != stock then [e] else []
  {
  }

  /** Filtering a table split around one entry filters each part. */
  lemma FilterAround(before: seq<Entry>, e: Entry, after: seq<Entry>, stock: string)
    ensures Filter(before + [e] + after, stock) ==
      Filter(before, stock) + Filter([e], stock) + Filter(after, stock)
  {
    FilterAppend(before + [e], after, stock);
    FilterAppend(before, [e], stock);
  }

  /** Filtering keeps any key distinct that was distinct before. */
  lemma {:induction false} FilterKeepsDistinct<K>(s: seq<Entry>, stock: string, key: Entry -> K)
    requires Distinct(s, key)
    ensures Distinct(Filter(s, stock), key)
    decreases |s|
  {
    if s != [] {
      var n := |s| - 1;
      var p := s[..n];
      assert Distinct(p, key);
      FilterKeepsDistinct(p, stock, key);
      FilterMembers(p, stock);
      var f := Filter(p, stock);
      if s[n].row.stock != stock {
        forall i | 0 <= i < |f| ensures key(f[i]) != key(s[n]) {
          assert f[i] in p;
          var j :| 0 <= j < n && p[j] == f[i];
        }
      }
    }
  }

  // ---------------------------------------------------------------- Upsert

  /**
   * After Add / Update exactly one entry holds the symbol: the new row, at
   * the label len(filtered).
   */
  lemma UpsertHoldsSymbolOnce(s: seq<Entry>, r: Row)
    requires Distinct(s, LabelOf)
    ensures var t, m := AfterUpsert(s, r), |Filter(s, r.stock)|;
      (exists i :: 0 <= i < |t| && t[i] == Entry(m, r)) &&
      (forall i :: 0 <= i < |t| && t[i].row.stock == r.stock ==> t[i] == Entry(m, r)) &&
      (forall i, j :: 0 <= i < |t| && 0 <= j < |t| && t[i].row.stock == r.stock && t[j].row.stock == r.stock ==> i == j)
  {
    var f := Filter(s, r.stock);
    FilterMembers(s, r.stock);
    FilterKeepsDistinct(s, r.stock, LabelOf);
    var t := AfterUpsert(s, r);
    forall i | 0 <= i < |f| ensures f[i].row.stock != r.stock {
      assert f[i] in f;
    }
    if HasLabel(f, |f|) {
      var k :| 0 <= k < |f| && f[k].index == |f|;
      assert t[k] == Entry(|f|, r);
      forall i | 0 <= i < |t| && i != k ensures t[i].row.stock != r.stock {
        assert LabelOf(f[i]) != LabelOf(f[k]);
      }
    } else {
      assert t[|f|] == Entry(|f|, r);
    }
  }

  /** Add / Update keeps the labels distinct. */
  lemma UpsertKeepsLabelsDistinct(s: seq<Entry>, r: Row)
    requires Distinct(s, LabelOf)
    ensures Distinct(AfterUpsert(s, r), LabelOf)
  {
    var f := Filter(s, r.stock);
    FilterKeepsDistinct(s, r.stock, LabelOf);
    var t := AfterUpsert(s, r);
    if !HasLabel(f, |f|) {
      forall i, j | 0 <= i < j < |t| ensures LabelOf(t[i]) != LabelOf(t[j]) {
        if j == |f| {
          assert f[i].index != |f|;
        }
      }
    }
  }

  /** If every symbol appeared at most once before Add / Update, each still does. */
  lemma UpsertKeepsSymbolsUnique(s: seq<Entry>, r: Row)
    requires Distinct(s, LabelOf) && Distinct(s, StockOf)
    ensures Distinct(AfterUpsert(s, r), StockOf)
  {
    var f := Filter(s, r.stock);
    FilterMembers(s, r.stock);
    FilterKeepsDistinct(s, r.stock, StockOf);
    UpsertHoldsSymbolOnce(s, r);
    var t := AfterUpsert(s, r);
    forall i | 0 <= i < |f| ensures f[i].row.stock != r.stock {
      assert f[i] in f;
    }
    forall i, j | 0 <= i < j < |t| ensures StockOf(t[i]) != StockOf(t[j]) {
      if t[i].row.stock != r.stock && t[j].row.stock != r.stock {
        assert t[i] == f[i] && t[j] == f[j];
      }
    }
  }

  /**
   * A new symbol added to a table labelled 0 .. n-1 leaves every old row
   * unchanged and is appended last with label n.
   */
  lemma UpsertNewSymbolAppends(s: seq<Entry>, r: Row)
    requires Dense(s)
    requires forall i :: 0 <= i < |s| ==> s[i].row.stock != r.stock
    ensures AfterUpsert(s, r) == s + [Entry(|s|, r)]
    ensures Dense(AfterUpsert(s, r))
  {
    FilterAbsent(s, r.stock);
    assert !HasLabel(s, |s|);
  }

  /**
   * When some survivor already carries the label len(filtered), that
   * survivor is overwritten: the table keeps its filtered length and only
   * that entry changes.
   */
  lemma UpsertOverwritesLabelOwner(s: seq<Entry>, r: Row, k: int)
    requires Distinct(s, LabelOf)
    requires 0 <= k < |Filter(s, r.stock)|
    requires Filter(s, r.stock)[k].index == |Filter(s, r.stock)|
    ensures var f := Filter(s, r.stock);
      AfterUpsert(s, r) == f[k := Entry(|f|, r)]
  {
    var f := Filter(s, r.stock);
    FilterKeepsDistinct(s, r.stock, LabelOf);
    forall i | 0 <= i < |f| && i != k ensures f[i].index != |f| {
      assert LabelOf(f[i]) != LabelOf(f[k]);
    }
  }

  /**
   * In a table labelled 0 .. n-1 with unique symbols, updating a symbol
   * that is not in the last row removes the last row's symbol from the
   * table: its row carries the label len(filtered) and is overwritten.
   */
  lemma UpsertLosesLastHolding(s: seq<Entry>, r: Row, k: int)
    requires Dense(s) && Distinct(s, StockOf)
    requires 0 <= k < |s| - 1 && s[k].row.stock == r.stock
    ensures forall e :: e in AfterUpsert(s, r) ==> e.row.stock != s[|s| - 1].row.stock
  {
    var n := |s| - 1;
    var y := s[n].row.stock;
    var before, after := s[..k], s[k + 1..];
    forall i | 0 <= i < |before| ensures before[i].row.stock != r.stock {
      assert StockOf(s[i]) != StockOf(s[k]);
    }
    forall i | 0 <= i < |after| ensures after[i].row.stock != r.stock {
      assert after[i] == s[k + 1 + i];
      assert StockOf(s[k]) != StockOf(s[k + 1 + i]);
    }
    assert s == before + [s[k]] + after;
    FilterOnce(before, s[k], after);
    var f := Filter(s, r.stock);
    assert f == before + after;
    assert |f| == n;
    assert f[n - 1] == s[n];
    assert Distinct(s, LabelOf) by {
      forall i, j | 0 <= i < j < |s| ensures LabelOf(s[i]) != LabelOf(s[j]) { }
    }
    UpsertOverwritesLabelOwner(s, r, n - 1);
    forall i | 0 <= i < n - 1 ensures f[i].row.stock != y {
      var j := if i < k then i else i + 1;
      assert f[i] == s[j];
      assert StockOf(s[j]) != StockOf(s[n]);
    }
    assert StockOf(s[k]) != StockOf(s[n]);
  }

  /** Concretely: with A, B, C at labels 0, 1, 2, updating A overwrites C. */
  lemma UpdateFirstOfThreeDropsThird(a: Row, b: Row, c: Row, a': Row)
    requires a.stock == "A" && b.stock == "B" && c.stock == "C" && a'.stock == "A"
    ensures AfterUpsert([Entry(0, a), Entry(1, b), Entry(2, c)], a') == [Entry(1, b), Entry(2, a')]
  {
    var s := [Entry(0, a), Entry(1, b), Entry(2, c)];
    assert s[..2][..1][..0] == [];
    assert Filter(s[..2][..1], "A") == [];
    assert Filter(s[..2], "A") == [Entry(1, b)];
    assert Filter(s, "A") == [Entry(1, b), Entry(2, c)];
    assert HasLabel(Filter(s, "A"), 2) by {
      assert Filter(s, "A")[1].index == 2;
    }
  }

  /** Add / Update keeps the form's minimums on every row. */
  lemma UpsertKeepsFormRows(s: seq<Entry>, r: Row)
    requires forall i :: 0 <= i < |s| ==> FromForm(s[i].row)
    requires FromForm(r)
    ensures forall e :: e in AfterUpsert(s, r) ==> FromForm(e.row)
  {
    FilterMembers(s, r.stock);
    var f := Filter(s, r.stock);
    forall i | 0 <= i < |f| ensures FromForm(f[i].row) {
      assert f[i] in s;
    }
  }

  // ------------------------------------------------------- Reindexed upsert

  /**
   * The renumbered upsert keeps every other holding, in order, appends the
   * new row last and leaves the labels 0 .. n-1.
   */
  lemma UpsertReindexedKeepsOthers(s: seq<Entry>, r: Row)
    ensures var t := AfterUpsertReindexed(s, r);
      Dense(t) && RowsOf(t) == RowsOf(Filter(s, r.stock)) + [r]
    ensures forall e :: e in s && e.row.stock != r.stock ==> e.row in RowsOf(AfterUpsertReindexed(s, r))
  {
    var f := Filter(s, r.stock);
    var t := AfterUpsertReindexed(s, r);
    assert RowsOf(t) == RowsOf(Reindex(f)) + [r];
    FilterMembers(s, r.stock);
    forall e | e in s && e.row.stock != r.stock ensures e.row in RowsOf(t) {
      assert e in f;
      var i :| 0 <= i < |f| && f[i] == e;
      assert RowsOf(t)[i] == e.row;
    }
  }

  /** The renumbered upsert holds the symbol exactly once, in the last row. */
  lemma UpsertReindexedHoldsSymbolOnce(s: seq<Entry>, r: Row)
    ensures var t := AfterUpsertReindexed(s, r);
      |t| > 0 && t[|t| - 1].row == r &&
      forall i :: 0 <= i < |t| - 1 ==> t[i].row.stock != r.stock
  {
    var f := Filter(s, r.stock);
    FilterMembers(s, r.stock);
    forall i | 0 <= i < |f| ensures f[i].row.stock != r.stock {
      assert f[i] in f;
    }
  }

  /** On a table labelled 0 .. n-1 without the symbol, both upserts agree. */
  lemma UpsertsAgreeOnNewSymbol(s: seq<Entry>, r: Row)
    requires Dense(s)
    requires forall i :: 0 <= i < |s| ==> s[i].row.stock != r.stock
    ensures AfterUpsert(s, r) == AfterUpsertReindexed(s, r)
  {
    UpsertNewSymbolAppends(s, r);
    FilterAbsent(s, r.stock);
    assert Reindex(s) == s;
  }

  // ------------------------------------------------------------- The table

  /** `st.session_state.portfolio`: the one table a session keeps. */
  class Table {
    var entries: seq<Entry>

    /** Labels stay distinct, as pandas' `.loc` assignments keep them. */
    ghost predicate Valid()
      reads this
    {
      Distinct(entries, LabelOf)
    }

    function Rows(): seq<Row>
      reads this
    {
      RowsOf(entries)
    }

    /** A new session starts with an empty table. */
    constructor ()
      ensures Valid() && entries == []
    {
      entries := [];
    }

    /** The Add / Update button: filter out the symbol, then `.loc[len(filtered)] = row`. */
    method Upsert(stock: string, qty: int, avg: real, cmp: real)
      requires Valid()
      modifies this
      ensures Valid()
      ensures entries == AfterUpsert(old(entries), Row(stock, qty, avg, cmp))
      ensures Rows() == RowsOf(AfterUpsert(old(entries), Row(stock, qty, avg, cmp)))
    {
      var r := Row(stock, qty, avg, cmp);
      var filtered: seq<Entry> := [];
      var i := 0;
      while i < |entries|
        invariant 0 <= i <= |entries|
        invariant filtered == Filter(entries[..i], stock)
      {
        assert entries[..i + 1][..i] == entries[..i];
        if entries[i].row.stock != stock {
          filtered := filtered + [entries[i]];
        }
        i := i + 1;
      }
      assert entries[..|entries|] == entries;
      var index := |filtered|;
      var result := filtered;
      var found := false;
      var j := 0;
      while j < |result|
        invariant 0 <= j <= |result| == |filtered|
        invariant found <==> exists k :: 0 <= k < j && filtered[k].index == index
        invariant forall k :: 0 <= k < j ==>
          result[k] == if filtered[k].index == index then Entry(index, r) else filtered[k]
        invariant forall k :: j <= k < |result| ==> result[k] == filtered[k]
      {
        if result[j].index == index {
          result := result[j := Entry(index, r)];
          found := true;
        }
        j := j + 1;
      }
      if !found {
        result := result + [Entry(index, r)];
      }
      assert result == AfterUpsert(entries, r);
      UpsertKeepsLabelsDistinct(entries, r);
      entries := result;
    }

    /** Add / Update with the filtered table renumbered before the assignment. */
    method UpsertReindexed(stock: string, qty: int, avg: real, cmp: real)
      requires Valid()
      modifies this
      ensures Valid()
      ensures entries == AfterUpsertReindexed(old(entries), Row(stock, qty, avg, cmp))
      ensures Rows() == RowsOf(AfterUpsertReindexed(old(entries), Row(stock, qty, avg, cmp)))
    {
      var r := Row(stock, qty, avg, cmp);
      var filtered: seq<Entry> := [];
      var i := 0;
      while i < |entries|
        invariant 0 <= i <= |entries|
        invariant Dense(filtered) && RowsOf(filtered) == RowsOf(Filter(entries[..i], stock))
      {
        assert entries[..i + 1][..i] == entries[..i];
        if entries[i].row.stock != stock {
          filtered := filtered + [Entry(|filtered|, entries[i].row)];
        }
        i := i + 1;
      }
      assert entries[..|entries|] == entries;
      filtered := filtered + [Entry(|filtered|, r)];
      entries := filtered;
    }
  }
}
