/** Reconciliation of a user's cart against the catalog: every row becomes a
    view line, quantities above the stock are clamped and the clamp is written
    back, and the cart total sums the checked lines whose product exists. */
module CartAggregator {
  import opened CartTypes
  import opened CartStore

  /** The quantity that can actually be bought: the requested quantity, cut
      down to the stock when the stock falls short. */
  function EffectiveQuantity(quantity: int, stock: int): (q: int)
    ensures q <= quantity && q <= stock
    ensures q == quantity || q == stock
  {
    if stock >= quantity then quantity else stock
  }

  /** The limit flag shown on a line. */
  function LimitOf(quantity: int, stock: int): (limit: LimitQuantity)
    ensures limit == LimitNumSuccess <==> stock >= quantity
  {
    if stock >= quantity then LimitNumSuccess else LimitNumFail
  }

  /** The product exists and its stock is below the row's quantity. */
  predicate Shortfall(row: CartRow, catalog: Catalog) {
    var p := Lookup(catalog, row.productId);
    p.Some? && p.value.stock < row.quantity
  }

  /** The view line for one stored row. */
  function LineFor(row: CartRow, catalog: Catalog): (line: LineView)
    ensures line.id == row.id && line.userId == row.userId && line.productId == row.productId
    ensures line.priced.Some? <==> Lookup(catalog, row.productId).Some?
    ensures line.priced.Some? ==>
      var p := Lookup(catalog, row.productId).value;
      var l := line.priced.value;
      && l.name == p.name && l.subtitle == p.subtitle && l.mainImage == p.mainImage
      && l.price == p.price && l.status == p.status && l.stock == p.stock
      && l.quantity <= row.quantity && l.quantity <= p.stock
      && (l.quantity == row.quantity || l.quantity == p.stock)
      && (l.limit == LimitNumSuccess <==> !Shortfall(row, catalog))
      && l.totalPrice == l.quantity * p.price
  {
    match Lookup(catalog, row.productId)
    case None => LineView(row.id, row.userId, row.productId, None)
    case Some(p) =>
      var q := EffectiveQuantity(row.quantity, p.stock);
      LineView(row.id, row.userId, row.productId,
        Some(PricedLine(p.name, p.subtitle, p.mainImage, p.price, p.status, p.stock,
                        LimitOf(row.quantity, p.stock), q, p.price * q)))
  }

  /** The view lines of a list of rows, one per row and in the same order. */
  function LinesFor(rows: seq<CartRow>, catalog: Catalog): (lines: seq<LineView>)
    ensures |lines| == |rows|
    ensures forall i :: 0 <= i < |rows| ==> lines[i] == LineFor(rows[i], catalog)
  {
    seq(|rows|, i requires 0 <= i < |rows| => LineFor(rows[i], catalog))
  }

  /** The write-back a row needs: none, or its quantity set to the stock. */
  function WritesFor(row: CartRow, catalog: Catalog): (ws: seq<Write>)
    ensures ws == [] <==> !Shortfall(row, catalog)
    ensures ws != [] ==> ws == [QuantityWrite(row.id, Lookup(catalog, row.productId).value.stock)]
  {
    match Lookup(catalog, row.productId)
    case None => []
    case Some(p) => if p.stock >= row.quantity then [] else [QuantityWrite(row.id, p.stock)]
  }

  /** The write-backs of a pass over the rows, in the order they are issued. */
  function ClampWrites(rows: seq<CartRow>, catalog: Catalog): (ws: seq<Write>)
    ensures |ws| <= |rows|
    ensures ws == [] <==> forall k :: 0 <= k < |rows| ==> !Shortfall(rows[k], catalog)
  {
    if rows == [] then []
    else ClampWrites(rows[..|rows| - 1], catalog) + WritesFor(rows[|rows| - 1], catalog)
  }

  /** The number of rows whose product is short of stock. */
  function ShortCount(rows: seq<CartRow>, catalog: Catalog): nat
  {
    if rows == [] then 0
    else ShortCount(rows[..|rows| - 1], catalog) + (if Shortfall(rows[|rows| - 1], catalog) then 1 else 0)
  }

  /** A pass issues exactly as many write-backs as there are short rows. */
  lemma {:induction false} ClampWritesCount(rows: seq<CartRow>, catalog: Catalog)
    ensures |ClampWrites(rows, catalog)| == ShortCount(rows, catalog)
  {
    if rows != [] {
      ClampWritesCount(rows[..|rows| - 1], catalog);
    }
  }

  /** What a row adds to the cart total. */
  function Contribution(row: CartRow, catalog: Catalog): (c: int)
    ensures !row.checked || Lookup(catalog, row.productId).None? ==> c == 0
    ensures row.checked && Lookup(catalog, row.productId).Some? ==>
      c == LineFor(row, catalog).priced.value.totalPrice
  {
    var line := LineFor(row, catalog);
    if row.checked && line.priced.Some? then line.priced.value.totalPrice else 0
  }

  /** No row is checked. */
  predicate NoneChecked(rows: seq<CartRow>) {
    forall k :: 0 <= k < |rows| ==> !rows[k].checked
  }

  /** The cart total as accumulated front to back over the rows; with
      nothing checked it stays zero. */
  function RunningTotal(rows: seq<CartRow>, catalog: Catalog): (total: int)
    ensures NoneChecked(rows) ==> total == 0
  {
    if rows == [] then 0
    else RunningTotal(rows[..|rows| - 1], catalog) + Contribution(rows[|rows| - 1], catalog)
  }

  /** Whether the cart is fully checked; false for a null user. */
  function AllCheckedStatus(store: Store, userId: Option<int>): (all: bool)
    ensures all <==> userId.Some? && forall r :: r in store && Owns(userId, r) ==> r.checked
  {
    if userId.None? then false else CountUnchecked(store, userId.value) == 0
  }

  /** One reconciliation pass over a user's cart. */
  function Build(store: Store, catalog: Catalog, userId: Option<int>, imageHost: string): (r: Reconciliation)
    ensures var rows := SelectByUserId(store, userId);
      && |r.view.lines| == |rows|
      && (forall i :: 0 <= i < |rows| ==> r.view.lines[i] == LineFor(rows[i], catalog))
      && r.view.imageHost == imageHost
    ensures SelectByUserId(store, userId) == [] ==>
      r.view.lines == [] && r.view.totalPrice == 0 && r.writes == [] && r.store == store
    ensures userId.None? ==> !r.view.allChecked
  {
    var rows := SelectByUserId(store, userId);
    var writes := ClampWrites(rows, catalog);
    var store' := ApplyWrites(store, writes);
    Reconciliation(
      CartView(LinesFor(rows, catalog), RunningTotal(rows, catalog), AllCheckedStatus(store', userId), imageHost),
      store', writes)
  }

  /** Extending the processed prefix by one row extends its write-backs by
      that row's write-back. */
  lemma PrefixStepWrites(rows: seq<CartRow>, catalog: Catalog, i: nat)
    requires i < |rows|
    ensures ClampWrites(rows[..i + 1], catalog) == ClampWrites(rows[..i], catalog) + WritesFor(rows[i], catalog)
  {
    var prefix := rows[..i + 1];
    assert prefix[..i] == rows[..i] && prefix[i] == rows[i];
  }

  /** Extending the processed prefix by one row adds that row's share to
      the running total. */
  lemma PrefixStepTotal(rows: seq<CartRow>, catalog: Catalog, i: nat)
    requires i < |rows|
    ensures RunningTotal(rows[..i + 1], catalog) == RunningTotal(rows[..i], catalog) + Contribution(rows[i], catalog)
  {
    var prefix := rows[..i + 1];
    assert prefix[..i] == rows[..i] && prefix[i] == rows[i];
  }

  /** Extending the processed prefix by one row appends that row's line. */
  lemma PrefixStepLines(rows: seq<CartRow>, catalog: Catalog, i: nat)
    requires i < |rows|
    ensures LinesFor(rows[..i + 1], catalog) == LinesFor(rows[..i], catalog) + [LineFor(rows[i], catalog)]
  {
  }

  /** The loop over a user's rows: view lines, running total, and the log of
      write-backs in the order they are issued. */
  method ReconcileRows(cartList: seq<CartRow>, catalog: Catalog)
    returns (lines: seq<LineView>, total: int, writes: seq<Write>)
    ensures lines == LinesFor(cartList, catalog)
    ensures total == RunningTotal(cartList, catalog)
    ensures writes == ClampWrites(cartList, catalog)
  {
    lines := [];
    total := 0;
    writes := [];
    var i := 0;
    while i < |cartList|
      invariant 0 <= i <= |cartList|
      invariant lines == LinesFor(cartList[..i], catalog)
      invariant total == RunningTotal(cartList[..i], catalog)
      invariant writes == ClampWrites(cartList[..i], catalog)
    {
      var item := cartList[i];
      PrefixStepWrites(cartList, catalog, i);
      PrefixStepTotal(cartList, catalog, i);
      PrefixStepLines(cartList, catalog, i);
      writes := writes + WritesFor(item, catalog);
      total := total + Contribution(item, catalog);
      lines := lines + [LineFor(item, catalog)];
      i := i + 1;
    }
    assert cartList[..i] == cartList;
  }

  /** The reconciliation pass: select the user's rows, reconcile them, issue
      the write-backs, then read the checked status from the store as the
      write-backs left it. */
  method GetCartVoLimit(store: Store, catalog: Catalog, userId: Option<int>, imageHost: string)
    returns (r: Reconciliation)
    ensures r == Build(store, catalog, userId, imageHost)
  {
    var cartList := SelectByUserId(store, userId);
    var lines, total, writes := ReconcileRows(cartList, catalog);
    var rows := ApplyWrites(store, writes);
    r := Reconciliation(CartView(lines, total, AllCheckedStatus(rows, userId), imageHost), rows, writes);
  }
}
