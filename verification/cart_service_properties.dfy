/** What the cart operations promise: adding accumulates, updating replaces,
    deleting removes, the cart invariant survives every operation,
    and the returned view reflects each change after reconciliation. */
module CartServiceProperties {
  import opened CartTypes
  import opened CartStore
  import opened CartAggregator
  import opened CartWriteBack
  import opened CartService

  /** After a quantity update of the first matching row, that row is still
      the first match, now with the new quantity. */
  lemma {:induction false} SelectAfterUpdate(store: Store, userId: Option<int>, productId: Option<int>, quantity: int)
    requires UniqueIds(store)
    requires SelectByUserIdAndProductId(store, userId, productId).Some?
    ensures var cart := SelectByUserIdAndProductId(store, userId, productId).value;
      SelectByUserIdAndProductId(UpdateQuantity(store, cart.id, quantity), userId, productId) == Some(cart.(quantity := quantity))
  {
    var cart := SelectByUserIdAndProductId(store, userId, productId).value;
    var store' := UpdateQuantity(store, cart.id, quantity);
    if !Matches(userId, productId, store[0]) {
      assert cart in store[1..];
      var j :| 0 <= j < |store[1..]| && store[1..][j] == cart;
      assert store[j + 1] == cart;
      assert store[0].id != cart.id;
      assert store'[1..] == UpdateQuantity(store[1..], cart.id, quantity);
      SelectAfterUpdate(store[1..], userId, productId, quantity);
    }
  }

  /** Appending a row only matters to a lookup that found nothing before. */
  lemma {:induction false} SelectAfterAppend(store: Store, row: CartRow, userId: Option<int>, productId: Option<int>)
    ensures SelectByUserIdAndProductId(store + [row], userId, productId) ==
      if SelectByUserIdAndProductId(store, userId, productId).Some? then SelectByUserIdAndProductId(store, userId, productId)
      else if Matches(userId, productId, row) then Some(row) else None
  {
    if store == [] {
      assert store + [row] == [row];
    } else {
      assert (store + [row])[1..] == store[1..] + [row];
      SelectAfterAppend(store[1..], row, userId, productId);
    }
  }

  /** Adding accumulates: the stored quantity grows by the count, starting
      from zero when the cart did not hold the product. */
  lemma AddAccumulates(store: Store, userId: int, productId: int, count: int)
    requires UniqueIds(store)
    ensures QuantityOf(AddToStore(store, userId, Some(productId), count), userId, productId) ==
      Some(QuantityOrZero(store, userId, productId) + count)
  {
    var found := SelectByUserIdAndProductId(store, Some(userId), Some(productId));
    var store' := AddToStore(store, userId, Some(productId), count);
    if found.Some? {
      var cart := found.value;
      assert store' == UpdateQuantity(store, cart.id, count + cart.quantity);
      SelectAfterUpdate(store, Some(userId), Some(productId), count + cart.quantity);
    } else {
      var row := CartRow(MaxId(store) + 1, userId, Some(productId), count, true);
      assert store' == store + [row];
      SelectAfterAppend(store, row, Some(userId), Some(productId));
    }
  }

  /** Updating replaces: a held product's quantity becomes the count, and a
      product the cart does not hold, or a null user, leaves the store alone. */
  lemma UpdateReplaces(store: Store, userId: int, productId: int, count: int)
    requires UniqueIds(store)
    ensures QuantityOf(store, userId, productId).Some? ==>
      QuantityOf(UpdateInStore(store, Some(userId), productId, count), userId, productId) == Some(count)
    ensures QuantityOf(store, userId, productId).None? ==> UpdateInStore(store, Some(userId), productId, count) == store
    ensures UpdateInStore(store, None, productId, count) == store
  {
    if QuantityOf(store, userId, productId).Some? {
      SelectAfterUpdate(store, Some(userId), Some(productId), count);
    }
  }

  /** Adding keeps the cart invariant: the lookup before the insert is what
      keeps one row per user and product. */
  lemma AddKeepsWellFormed(store: Store, userId: int, productId: Option<int>, count: int)
    requires WellFormed(store)
    ensures WellFormed(AddToStore(store, userId, productId, count))
  {
    var found := SelectByUserIdAndProductId(store, Some(userId), productId);
    var store' := AddToStore(store, userId, productId, count);
    if found.Some? {
      SameKeysKeepWellFormed(store, store');
    } else {
      var n := |store|;
      forall i | 0 <= i < n
        ensures store'[i].id != store'[n].id
        ensures store'[i].userId == store'[n].userId && store'[i].productId.Some? ==> store'[i].productId != store'[n].productId
      {
        assert store'[i] == store[i] && store[i] in store;
      }
    }
  }

  /** Updating keeps the cart invariant. */
  lemma UpdateKeepsWellFormed(store: Store, userId: Option<int>, productId: int, count: int)
    requires WellFormed(store)
    ensures WellFormed(UpdateInStore(store, userId, productId, count))
  {
    SameKeysKeepWellFormed(store, UpdateInStore(store, userId, productId, count));
  }

  /** A reconciliation pass keeps the cart invariant. */
  lemma BuildKeepsWellFormed(store: Store, catalog: Catalog, userId: Option<int>, imageHost: string)
    requires WellFormed(store)
    ensures WellFormed(Build(store, catalog, userId, imageHost).store)
  {
    BuildWritesBackOnlyShortfalls(store, catalog, userId, imageHost);
    SameKeysKeepWellFormed(store, Build(store, catalog, userId, imageHost).store);
  }

  /** Adding, and the pass that follows, keep the cart invariant. */
  lemma AddStepKeepsWellFormed(store: Store, catalog: Catalog, userId: Option<int>, productId: Option<int>,
                               count: Option<int>, imageHost: string)
    requires WellFormed(store)
    ensures WellFormed(Add(store, catalog, userId, productId, count, imageHost).store)
  {
    if userId.Some? && count.Some? {
      var added := AddToStore(store, userId.value, productId, count.value);
      AddKeepsWellFormed(store, userId.value, productId, count.value);
      BuildKeepsWellFormed(added, catalog, userId, imageHost);
      assert Add(store, catalog, userId, productId, count, imageHost).store == Build(added, catalog, userId, imageHost).store;
    }
  }

  /** Updating, and the pass that follows, keep the cart invariant. */
  lemma UpdateStepKeepsWellFormed(store: Store, catalog: Catalog, userId: Option<int>, productId: Option<int>,
                                  count: Option<int>, imageHost: string)
    requires WellFormed(store)
    ensures WellFormed(Update(store, catalog, userId, productId, count, imageHost).store)
  {
    if productId.Some? && count.Some? {
      var updated := UpdateInStore(store, userId, productId.value, count.value);
      UpdateKeepsWellFormed(store, userId, productId.value, count.value);
      BuildKeepsWellFormed(updated, catalog, userId, imageHost);
      assert Update(store, catalog, userId, productId, count, imageHost).store == Build(updated, catalog, userId, imageHost).store;
    }
  }

  /** Deleting, and the pass that follows, keep the cart invariant. */
  lemma DeleteStepKeepsWellFormed(store: Store, catalog: Catalog, userId: Option<int>, productIds: seq<int>, imageHost: string)
    requires WellFormed(store)
    ensures WellFormed(Delete(store, catalog, userId, productIds, imageHost).store)
  {
    if productIds != [] {
      var remaining := DeleteByUserIdAndProductIds(store, userId, productIds);
      DeleteKeepsWellFormed(store, userId, productIds);
      BuildKeepsWellFormed(remaining, catalog, userId, imageHost);
      assert Delete(store, catalog, userId, productIds, imageHost).store == Build(remaining, catalog, userId, imageHost).store;
    }
  }

  /** The view a pass returns has the line of every row the user owns. */
  lemma OwnedRowHasLine(store: Store, catalog: Catalog, userId: Option<int>, imageHost: string, row: CartRow)
    requires row in store && Owns(userId, row)
    ensures LineFor(row, catalog) in Build(store, catalog, userId, imageHost).view.lines
  {
    var rows := SelectByUserId(store, userId);
    assert row in rows;
    var k :| 0 <= k < |rows| && rows[k] == row;
    assert Build(store, catalog, userId, imageHost).view.lines[k] == LineFor(row, catalog);
  }

  /** The listed view shows the user's row for a catalog product, with its
      stored quantity cut down to the stock. */
  lemma ListShowsStoredQuantity(store: Store, catalog: Catalog, userId: int, productId: int, imageHost: string)
    requires productId in catalog && QuantityOf(store, userId, productId).Some?
    ensures var s := List(store, catalog, Some(userId), imageHost);
      && s.response.Ok?
      && exists line :: line in s.response.value.lines && line.productId == Some(productId) && line.priced.Some? &&
           line.priced.value.quantity == EffectiveQuantity(QuantityOf(store, userId, productId).value, catalog[productId].stock)
  {
    var row := SelectByUserIdAndProductId(store, Some(userId), Some(productId)).value;
    OwnedRowHasLine(store, catalog, Some(userId), imageHost, row);
    var line := LineFor(row, catalog);
    assert line in List(store, catalog, Some(userId), imageHost).response.value.lines;
    assert line.priced.value.quantity == EffectiveQuantity(row.quantity, catalog[productId].stock);
  }

  /** After adding a catalog product, the view shows it with the accumulated
      quantity, cut down to the stock. */
  lemma AddShowsAccumulatedQuantity(store: Store, catalog: Catalog, userId: int, productId: int, count: int, imageHost: string)
    requires UniqueIds(store)
    requires productId in catalog
    ensures var s := Add(store, catalog, Some(userId), Some(productId), Some(count), imageHost);
      && s.response.Ok?
      && exists line :: line in s.response.value.lines && line.productId == Some(productId) && line.priced.Some? &&
           line.priced.value.quantity == EffectiveQuantity(QuantityOrZero(store, userId, productId) + count, catalog[productId].stock)
  {
    var store' := AddToStore(store, userId, Some(productId), count);
    AddAccumulates(store, userId, productId, count);
    ListShowsStoredQuantity(store', catalog, userId, productId, imageHost);
    assert Add(store, catalog, Some(userId), Some(productId), Some(count), imageHost) == List(store', catalog, Some(userId), imageHost);
  }

  /** After updating a product the cart holds, the view shows the count as
      its quantity, cut down to the stock. */
  lemma UpdateShowsReplacedQuantity(store: Store, catalog: Catalog, userId: int, productId: int, count: int, imageHost: string)
    requires UniqueIds(store)
    requires productId in catalog && QuantityOf(store, userId, productId).Some?
    ensures var s := Update(store, catalog, Some(userId), Some(productId), Some(count), imageHost);
      && s.response.Ok?
      && exists line :: line in s.response.value.lines && line.productId == Some(productId) && line.priced.Some? &&
           line.priced.value.quantity == EffectiveQuantity(count, catalog[productId].stock)
  {
    var store' := UpdateInStore(store, Some(userId), productId, count);
    UpdateReplaces(store, userId, productId, count);
    ListShowsStoredQuantity(store', catalog, userId, productId, imageHost);
    assert Update(store, catalog, Some(userId), Some(productId), Some(count), imageHost) == List(store', catalog, Some(userId), imageHost);
  }

  /** Updating a product the cart does not hold is no error and answers
      exactly what listing the cart would. */
  lemma UpdateOfMissingRowIsList(store: Store, catalog: Catalog, userId: Option<int>, productId: int, count: int, imageHost: string)
    requires SelectByUserIdAndProductId(store, userId, Some(productId)).None?
    ensures Update(store, catalog, userId, Some(productId), Some(count), imageHost) == List(store, catalog, userId, imageHost)
  {
  }

  /** After deleting, no line of the view shows a listed product, and every
      other row of the user still has its line. */
  lemma DeleteRemovesListedLines(store: Store, catalog: Catalog, userId: Option<int>, productIds: seq<int>, imageHost: string)
    requires productIds != []
    ensures var s := Delete(store, catalog, userId, productIds, imageHost);
      && s.response.Ok?
      && (forall line :: line in s.response.value.lines ==> !Listed(productIds, line.productId))
      && (forall row :: row in store && Owns(userId, row) && !Listed(productIds, row.productId) ==>
            LineFor(row, catalog) in s.response.value.lines)
  {
    var store' := DeleteByUserIdAndProductIds(store, userId, productIds);
    var s := Delete(store, catalog, userId, productIds, imageHost);
    var rows := SelectByUserId(store', userId);
    forall line | line in s.response.value.lines ensures !Listed(productIds, line.productId) {
      var k :| 0 <= k < |s.response.value.lines| && s.response.value.lines[k] == line;
      assert rows[k] in rows;
    }
    forall row | row in store && Owns(userId, row) && !Listed(productIds, row.productId)
      ensures LineFor(row, catalog) in s.response.value.lines
    {
      OwnedRowHasLine(store', catalog, userId, imageHost, row);
    }
  }

  /** Adding 3 of a product priced 500 with a stock of 2 to an empty cart:
      the stored row is cut down to 2, and the view prices 2 of it. */
  lemma AddBeyondStockIsClamped()
    ensures var catalog := map[1 := Product("P1", "", "", 500, 1, 2)];
      var s := Add([], catalog, Some(7), Some(1), Some(3), "");
      && s.response.Ok?
      && |s.response.value.lines| == 1
      && s.response.value.lines[0].priced.value.quantity == 2
      && s.response.value.lines[0].priced.value.limit == LimitNumFail
      && s.response.value.totalPrice == 1000
      && s.store == [CartRow(1, 7, Some(1), 2, true)]
  {
    var catalog := map[1 := Product("P1", "", "", 500, 1, 2)];
    var added := AddToStore([], 7, Some(1), 3);
    assert added == [CartRow(1, 7, Some(1), 3, true)];
    assert SelectByUserId(added, Some(7)) == added;
    assert added[..0] == [];
    var r := Build(added, catalog, Some(7), "");
    assert LineFor(added[0], catalog).priced.value.quantity == 2;
    assert r.view.lines[0] == LineFor(added[0], catalog);
    assert r.writes == [QuantityWrite(1, 2)];
    assert r.store == UpdateQuantity(added, 1, 2);
    assert r.view.totalPrice == Contribution(added[0], catalog);
  }
}
