/** The cart total: what it sums, and how it behaves when rows are split,
    unchecked, or all unchecked. */
module CartTotals {
  import opened CartTypes
  import opened CartStore
  import opened CartAggregator

  function Sum(xs: seq<int>): int {
    if xs == [] then 0 else xs[0] + Sum(xs[1..])
  }

  /** The row counts toward the total: it is checked and its product exists. */
  predicate Selected(row: CartRow, catalog: Catalog) {
    row.checked && Lookup(catalog, row.productId).Some?
  }

  /** The line totals of the selected rows, in row order. */
  function SelectedLineTotals(rows: seq<CartRow>, catalog: Catalog): (totals: seq<int>)
    ensures |totals| <= |rows|
  {
    if rows == [] then []
    else
      (if Selected(rows[0], catalog) then [LineFor(rows[0], catalog).priced.value.totalPrice] else [])
      + SelectedLineTotals(rows[1..], catalog)
  }

  /** The running total over two consecutive stretches of rows is the sum of
      their running totals, so the order of accumulation does not matter. */
  lemma {:induction false} RunningTotalAppend(a: seq<CartRow>, b: seq<CartRow>, catalog: Catalog)
    ensures RunningTotal(a + b, catalog) == RunningTotal(a, catalog) + RunningTotal(b, catalog)
  {
    if b == [] {
      assert a + b == a;
    } else {
      var n := |b| - 1;
      assert (a + b)[..|a + b| - 1] == a + b[..n];
      assert (a + b)[|a + b| - 1] == b[n];
      RunningTotalAppend(a, b[..n], catalog);
    }
  }

  /** The cart total is the sum of the line totals of the checked rows whose
      product exists; unchecked rows and rows without a product add nothing. */
  lemma {:induction false} TotalIsSumOfSelectedLines(rows: seq<CartRow>, catalog: Catalog)
    ensures RunningTotal(rows, catalog) == Sum(SelectedLineTotals(rows, catalog))
  {
    if rows != [] {
      var head := if Selected(rows[0], catalog) then [LineFor(rows[0], catalog).priced.value.totalPrice] else [];
      assert rows == [rows[0]] + rows[1..];
      RunningTotalAppend([rows[0]], rows[1..], catalog);
      assert [rows[0]][..0] == [];
      TotalIsSumOfSelectedLines(rows[1..], catalog);
      SumAppend(head, SelectedLineTotals(rows[1..], catalog));
    }
  }

  lemma {:induction false} SumAppend(xs: seq<int>, ys: seq<int>)
    ensures Sum(xs + ys) == Sum(xs) + Sum(ys)
  {
    if xs != [] {
      assert (xs + ys)[1..] == xs[1..] + ys;
      SumAppend(xs[1..], ys);
    } else {
      assert xs + ys == ys;
    }
  }

  /** Unchecking one row takes exactly its contribution off the total and
      leaves every view line as it was. */
  lemma UncheckRow(rows: seq<CartRow>, catalog: Catalog, k: nat)
    requires k < |rows|
    ensures var rows' := rows[k := rows[k].(checked := false)];
      && RunningTotal(rows', catalog) == RunningTotal(rows, catalog) - Contribution(rows[k], catalog)
      && LinesFor(rows', catalog) == LinesFor(rows, catalog)
  {
    var rows' := rows[k := rows[k].(checked := false)];
    var row' := rows[k].(checked := false);
    var before, after := rows[..k], rows[k + 1..];
    assert rows == (before + [rows[k]]) + after;
    assert rows' == (before + [row']) + after;
    RunningTotalAppend(before + [rows[k]], after, catalog);
    RunningTotalAppend(before + [row'], after, catalog);
    RunningTotalOfOne(before, rows[k], catalog);
    RunningTotalOfOne(before, row', catalog);
    assert Contribution(row', catalog) == 0;
    assert LineFor(row', catalog) == LineFor(rows[k], catalog);
  }

  /** Adding one row to the end adds its contribution. */
  lemma RunningTotalOfOne(rows: seq<CartRow>, row: CartRow, catalog: Catalog)
    ensures RunningTotal(rows + [row], catalog) == RunningTotal(rows, catalog) + Contribution(row, catalog)
  {
    assert (rows + [row])[..|rows|] == rows;
  }

  /** The view's total is the sum of the selected line totals of the user's rows. */
  lemma BuildTotalIsSelectedSum(store: Store, catalog: Catalog, userId: Option<int>, imageHost: string)
    ensures Build(store, catalog, userId, imageHost).view.totalPrice ==
      Sum(SelectedLineTotals(SelectByUserId(store, userId), catalog))
  {
    TotalIsSumOfSelectedLines(SelectByUserId(store, userId), catalog);
  }

  /** Every row the user owns is checked. */
  ghost predicate OwnedAllChecked(store: Store, userId: Option<int>) {
    forall r :: r in store && Owns(userId, r) ==> r.checked
  }

  /** Writes of quantities leave owners and checked flags alone. */
  lemma WritesKeepCheckedFlags(store: Store, writes: seq<Write>, userId: Option<int>)
    ensures OwnedAllChecked(ApplyWrites(store, writes), userId) <==> OwnedAllChecked(store, userId)
  {
    var store' := ApplyWrites(store, writes);
    ApplyWritesLastWins(store, writes);
    assert forall i :: 0 <= i < |store| ==> store'[i].checked == store[i].checked && store'[i].userId == store[i].userId;
    if OwnedAllChecked(store, userId) {
      forall r | r in store' && Owns(userId, r) ensures r.checked {
        var i :| 0 <= i < |store'| && store'[i] == r;
        assert store[i] in store;
      }
    }
    if OwnedAllChecked(store', userId) {
      forall r | r in store && Owns(userId, r) ensures r.checked {
        var i :| 0 <= i < |store| && store[i] == r;
        assert store'[i] in store';
      }
    }
  }

  /** The view's all-checked flag holds exactly when the user id is present
      and every one of the user's rows is checked: the pass's write-backs
      touch quantities only. A user with no rows is vacuously all checked. */
  lemma BuildAllChecked(store: Store, catalog: Catalog, userId: Option<int>, imageHost: string)
    ensures Build(store, catalog, userId, imageHost).view.allChecked <==>
      userId.Some? && forall row :: row in store && Owns(userId, row) ==> row.checked
  {
    var r := Build(store, catalog, userId, imageHost);
    WritesKeepCheckedFlags(store, r.writes, userId);
  }

  /** A user with no rows sees an empty, zero-priced, fully checked cart. */
  lemma EmptyCartView(store: Store, catalog: Catalog, userId: int, imageHost: string)
    requires forall row :: row in store ==> row.userId != userId
    ensures var view := Build(store, catalog, Some(userId), imageHost).view;
      view.lines == [] && view.totalPrice == 0 && view.allChecked
  {
    SelectOfNonOwner(store, Some(userId));
    BuildAllChecked(store, catalog, Some(userId), imageHost);
  }
}
