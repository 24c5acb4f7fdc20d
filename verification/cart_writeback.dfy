/** What a reconciliation pass does to the stored cart: only the user's rows
    whose product is short of stock change, and only in their quantity; and a
    second pass over the corrected cart issues no writes. */
module CartWriteBack {
  import opened CartTypes
  import opened CartStore
  import opened CartAggregator

  /** The stock the row's quantity is cut down to, when it is short. */
  function ClampTarget(row: CartRow, catalog: Catalog): Option<int> {
    if Shortfall(row, catalog) then Some(Lookup(catalog, row.productId).value.stock) else None
  }

  /** A row as a pass leaves it: its quantity cut to the stock on a shortfall. */
  function ClampRow(row: CartRow, catalog: Catalog): CartRow {
    if Shortfall(row, catalog) then row.(quantity := Lookup(catalog, row.productId).value.stock) else row
  }

  /** The store as a pass over one user's rows should leave it. */
  function ClampStore(store: Store, catalog: Catalog, userId: Option<int>): (store': Store)
    ensures |store'| == |store|
  {
    seq(|store|, i requires 0 <= i < |store| => if Owns(userId, store[i]) then ClampRow(store[i], catalog) else store[i])
  }

  /** Every row clamped. */
  function ClampAll(rows: seq<CartRow>, catalog: Catalog): (rows': seq<CartRow>)
    ensures |rows'| == |rows|
  {
    seq(|rows|, i requires 0 <= i < |rows| => ClampRow(rows[i], catalog))
  }

  /** Appending at most one write moves the last write only for its own key. */
  lemma LastWriteAppend(writes: seq<Write>, ws: seq<Write>, id: int)
    requires |ws| <= 1
    ensures LastWriteTo(writes + ws, id) ==
      if ws != [] && ws[0].id == id then Some(ws[0].quantity) else LastWriteTo(writes, id)
  {
    if ws == [] {
      assert writes + ws == writes;
    } else {
      assert (writes + ws)[..|writes|] == writes;
    }
  }

  /** Over rows with distinct keys, the last write-back to a row's key is
      that row's own clamp, and keys of no row are never written. */
  lemma {:induction false} ClampWritesTargets(rows: seq<CartRow>, catalog: Catalog)
    requires UniqueIds(rows)
    ensures forall k :: 0 <= k < |rows| ==> LastWriteTo(ClampWrites(rows, catalog), rows[k].id) == ClampTarget(rows[k], catalog)
    ensures forall id :: (forall k :: 0 <= k < |rows| ==> rows[k].id != id) ==> LastWriteTo(ClampWrites(rows, catalog), id) == None
  {
    if rows != [] {
      var n := |rows| - 1;
      var init := rows[..n];
      var x := rows[n];
      var before := ClampWrites(init, catalog);
      var ws := WritesFor(x, catalog);
      assert ClampWrites(rows, catalog) == before + ws;
      ClampWritesTargets(init, catalog);
      forall k | 0 <= k < |rows|
        ensures LastWriteTo(ClampWrites(rows, catalog), rows[k].id) == ClampTarget(rows[k], catalog)
      {
        LastWriteAppend(before, ws, rows[k].id);
        if k < n {
          assert init[k] == rows[k];
        } else {
          assert forall j :: 0 <= j < |init| ==> init[j].id != x.id;
        }
      }
      forall id | forall k :: 0 <= k < |rows| ==> rows[k].id != id
        ensures LastWriteTo(ClampWrites(rows, catalog), id) == None
      {
        LastWriteAppend(before, ws, id);
        assert forall j :: 0 <= j < |init| ==> init[j] == rows[j];
      }
    }
  }

  /** A pass rewrites exactly the user's short rows, setting their quantity
      to the stock; every other row, and every other field, is unchanged. */
  lemma BuildWritesBackOnlyShortfalls(store: Store, catalog: Catalog, userId: Option<int>, imageHost: string)
    requires UniqueIds(store)
    ensures var store' := Build(store, catalog, userId, imageHost).store;
      && |store'| == |store|
      && forall i :: 0 <= i < |store| ==>
           if Owns(userId, store[i]) && Shortfall(store[i], catalog)
           then store'[i] == store[i].(quantity := Lookup(catalog, store[i].productId).value.stock)
           else store'[i] == store[i]
  {
    var rows := SelectByUserId(store, userId);
    var writes := ClampWrites(rows, catalog);
    SelectKeepsUniqueIds(store, userId);
    ClampWritesTargets(rows, catalog);
    ApplyWritesLastWins(store, writes);
    forall i | 0 <= i < |store|
      ensures LastWriteTo(writes, store[i].id) == (if Owns(userId, store[i]) then ClampTarget(store[i], catalog) else None)
    {
      if Owns(userId, store[i]) {
        assert store[i] in rows;
        var k :| 0 <= k < |rows| && rows[k] == store[i];
      } else {
        forall k | 0 <= k < |rows| ensures rows[k].id != store[i].id {
          assert rows[k] in store;
          var j :| 0 <= j < |store| && store[j] == rows[k];
          assert j != i;
        }
      }
    }
  }

  /** The same, as an equation on whole stores. */
  lemma BuildStoreIsClampStore(store: Store, catalog: Catalog, userId: Option<int>, imageHost: string)
    requires UniqueIds(store)
    ensures Build(store, catalog, userId, imageHost).store == ClampStore(store, catalog, userId)
  {
    BuildWritesBackOnlyShortfalls(store, catalog, userId, imageHost);
  }

  /** Correcting a row in front corrects it and then the rest. */
  lemma ClampAllPrepend(x: CartRow, rows: seq<CartRow>, catalog: Catalog)
    ensures ClampAll([x] + rows, catalog) == [ClampRow(x, catalog)] + ClampAll(rows, catalog)
  {
  }

  /** Selecting a user's rows from the corrected store gives the corrected rows. */
  lemma {:induction false} SelectOfClampStore(store: Store, catalog: Catalog, userId: Option<int>)
    ensures SelectByUserId(ClampStore(store, catalog, userId), userId) == ClampAll(SelectByUserId(store, userId), catalog)
  {
    var store' := ClampStore(store, catalog, userId);
    if store != [] {
      var tail := SelectByUserId(store[1..], userId);
      SelectOfClampStore(store[1..], catalog, userId);
      assert store'[1..] == ClampStore(store[1..], catalog, userId);
      assert SelectByUserId(store', userId) ==
        (if Owns(userId, store'[0]) then [store'[0]] else []) + SelectByUserId(store'[1..], userId);
      assert Owns(userId, store'[0]) == Owns(userId, store[0]);
      if Owns(userId, store[0]) {
        assert SelectByUserId(store, userId) == [store[0]] + tail;
        assert store'[0] == ClampRow(store[0], catalog);
        ClampAllPrepend(store[0], tail, catalog);
      } else {
        assert SelectByUserId(store, userId) == tail;
      }
    } else {
      assert store' == [];
    }
  }

  /** The view line of a corrected row is the original line with a success flag. */
  function Settle(line: LineView): LineView {
    if line.priced.Some? then line.(priced := Some(line.priced.value.(limit := LimitNumSuccess))) else line
  }

  /** Lines with every limit flag settled to success. */
  function SettleLines(lines: seq<LineView>): (lines': seq<LineView>)
    ensures |lines'| == |lines|
  {
    seq(|lines|, i requires 0 <= i < |lines| => Settle(lines[i]))
  }

  /** A view with every line's limit flag settled to success. */
  function SettleView(view: CartView): (view': CartView)
    ensures |view'.lines| == |view.lines|
  {
    view.(lines := SettleLines(view.lines))
  }

  /** Correcting a row leaves no shortfall, keeps its line but for the limit
      flag, and keeps its contribution to the total. */
  lemma ClampRowSettles(row: CartRow, catalog: Catalog)
    ensures !Shortfall(ClampRow(row, catalog), catalog)
    ensures LineFor(ClampRow(row, catalog), catalog) == Settle(LineFor(row, catalog))
    ensures Contribution(ClampRow(row, catalog), catalog) == Contribution(row, catalog)
  {
  }

  /** Correcting every row leaves the running total as it was. */
  lemma {:induction false} RunningTotalOfClampAll(rows: seq<CartRow>, catalog: Catalog)
    ensures RunningTotal(ClampAll(rows, catalog), catalog) == RunningTotal(rows, catalog)
  {
    if rows != [] {
      var n := |rows| - 1;
      assert ClampAll(rows, catalog)[..n] == ClampAll(rows[..n], catalog);
      RunningTotalOfClampAll(rows[..n], catalog);
      ClampRowSettles(rows[n], catalog);
    }
  }

  /** Corrected rows need no write-back. */
  lemma ClampAllNeedsNoWrites(rows: seq<CartRow>, catalog: Catalog)
    ensures ClampWrites(ClampAll(rows, catalog), catalog) == []
  {
    var rows' := ClampAll(rows, catalog);
    forall k | 0 <= k < |rows'| ensures !Shortfall(rows'[k], catalog) {
      ClampRowSettles(rows[k], catalog);
    }
  }

  /** Corrected rows show the original lines with settled limit flags. */
  lemma LinesOfClampAll(rows: seq<CartRow>, catalog: Catalog)
    ensures LinesFor(ClampAll(rows, catalog), catalog) == SettleLines(LinesFor(rows, catalog))
  {
    forall k | 0 <= k < |rows|
      ensures LinesFor(ClampAll(rows, catalog), catalog)[k] == SettleLines(LinesFor(rows, catalog))[k]
    {
      ClampRowSettles(rows[k], catalog);
    }
  }

  /** The rows a second pass selects are the first pass's rows, clamped. */
  lemma SecondPassRows(store: Store, catalog: Catalog, userId: Option<int>, imageHost: string)
    requires UniqueIds(store)
    ensures SelectByUserId(Build(store, catalog, userId, imageHost).store, userId) ==
      ClampAll(SelectByUserId(store, userId), catalog)
  {
    BuildStoreIsClampStore(store, catalog, userId, imageHost);
    SelectOfClampStore(store, catalog, userId);
  }

  /** A second pass over the store a first pass left behind issues no
      write-back, so it leaves that store as it is. */
  lemma SecondPassWritesNothing(store: Store, catalog: Catalog, userId: Option<int>, imageHost: string)
    requires UniqueIds(store)
    ensures var first := Build(store, catalog, userId, imageHost);
      Build(first.store, catalog, userId, imageHost).writes == []
  {
    SecondPassRows(store, catalog, userId, imageHost);
    ClampAllNeedsNoWrites(SelectByUserId(store, userId), catalog);
  }

  /** The same, as an equation on stores: the second pass keeps the store. */
  lemma SecondPassKeepsStore(store: Store, catalog: Catalog, userId: Option<int>, imageHost: string)
    requires UniqueIds(store)
    ensures var first := Build(store, catalog, userId, imageHost);
      Build(first.store, catalog, userId, imageHost).store == first.store
  {
    SecondPassWritesNothing(store, catalog, userId, imageHost);
  }

  /** A second pass shows the first view with every limit flag settled to
      success; in particular the total is the same. */
  lemma SecondPassSettlesView(store: Store, catalog: Catalog, userId: Option<int>, imageHost: string)
    requires UniqueIds(store)
    ensures var first := Build(store, catalog, userId, imageHost);
      Build(first.store, catalog, userId, imageHost).view == SettleView(first.view)
  {
    var first := Build(store, catalog, userId, imageHost);
    var rows := SelectByUserId(store, userId);
    SecondPassRows(store, catalog, userId, imageHost);
    SecondPassKeepsStore(store, catalog, userId, imageHost);
    RunningTotalOfClampAll(rows, catalog);
    LinesOfClampAll(rows, catalog);
  }

  /** From the second pass on, reconciliation is a fixed point: the third
      pass keeps the store and shows the second view. */
  lemma ThirdPassRepeatsSecond(store: Store, catalog: Catalog, userId: Option<int>, imageHost: string)
    requires UniqueIds(store)
    ensures var second := Build(Build(store, catalog, userId, imageHost).store, catalog, userId, imageHost);
      var third := Build(second.store, catalog, userId, imageHost);
      third.store == second.store && third.view == second.view
  {
    var first := Build(store, catalog, userId, imageHost);
    SecondPassKeepsStore(store, catalog, userId, imageHost);
    SecondPassSettlesView(store, catalog, userId, imageHost);
    var second := Build(first.store, catalog, userId, imageHost);
    assert second.store == first.store;
    assert Build(second.store, catalog, userId, imageHost) == second;
  }

  /** The views of the first and second pass can differ: a row of 5 against a
      stock of 2 is flagged as a failed limit by the first pass and, its
      quantity having been written back, as a success by the second. */
  lemma FirstAndSecondViewsCanDiffer()
    ensures var store := [CartRow(1, 7, Some(3), 5, true)];
      var catalog := map[3 := Product("p", "", "", 100, 1, 2)];
      var first := Build(store, catalog, Some(7), "");
      var second := Build(first.store, catalog, Some(7), "");
      && first.writes == [QuantityWrite(1, 2)]
      && first.view.lines[0].priced.value.limit == LimitNumFail
      && second.view.lines[0].priced.value.limit == LimitNumSuccess
      && first.view != second.view
  {
    var store := [CartRow(1, 7, Some(3), 5, true)];
    var catalog := map[3 := Product("p", "", "", 100, 1, 2)];
    assert SelectByUserId(store, Some(7)) == store;
    assert store[..0] == [];
    SecondPassSettlesView(store, catalog, Some(7), "");
    var first := Build(store, catalog, Some(7), "");
    assert first.view.lines[0] == LineFor(store[0], catalog);
    var second := Build(first.store, catalog, Some(7), "");
    assert second.view.lines[0] == Settle(first.view.lines[0]);
  }
}
