/** The cart table and the statements the service issues against it. A stored
    cart is a sequence of rows in the table's natural (insertion) order. A
    null user id or product id matches no row, as in an SQL `= null` test. */
module CartStore {
  import opened CartTypes

  type Store = seq<CartRow>

  /** The primary key is unique. */
  ghost predicate UniqueIds(store: Store) {
    forall i, j :: 0 <= i < j < |store| ==> store[i].id != store[j].id
  }

  /** At most one row per (user, product) pair with a product id. The table
      does not enforce this; `add` keeps it by looking the pair up before it
      inserts. */
  ghost predicate UniquePairs(store: Store) {
    forall i, j :: 0 <= i < j < |store| && store[i].userId == store[j].userId && store[i].productId.Some? ==>
      store[i].productId != store[j].productId
  }

  /** The cart invariant: the primary key is unique, and no user holds two
      rows for one product. */
  ghost predicate WellFormed(store: Store) {
    UniqueIds(store) && UniquePairs(store)
  }

  /** Two stores hold the same rows up to quantities and checked flags. */
  ghost predicate SameKeys(a: Store, b: Store) {
    |a| == |b| &&
    forall i :: 0 <= i < |a| ==> a[i].id == b[i].id && a[i].userId == b[i].userId && a[i].productId == b[i].productId
  }

  /** The cart invariant only looks at keys. */
  lemma SameKeysKeepWellFormed(a: Store, b: Store)
    requires SameKeys(a, b) && WellFormed(a)
    ensures WellFormed(b)
  {
  }

  /** The row belongs to the (possibly null) user id. */
  predicate Owns(userId: Option<int>, row: CartRow) {
    userId == Some(row.userId)
  }

  /** The row is the one a lookup by (user, product) is after. */
  predicate Matches(userId: Option<int>, productId: Option<int>, row: CartRow) {
    Owns(userId, row) && productId.Some? && row.productId == productId
  }

  /** All of a user's rows, in store order. */
  function SelectByUserId(store: Store, userId: Option<int>): (rows: Store)
    ensures |rows| <= |store|
    ensures forall r :: r in rows <==> r in store && Owns(userId, r)
  {
    if store == [] then []
    else (if Owns(userId, store[0]) then [store[0]] else []) + SelectByUserId(store[1..], userId)
  }

  /** Selecting from two consecutive stretches of the table selects from
      the first, then from the second. With SelectOfOne this pins the
      selection down to the user's rows, each once, in table order. */
  lemma {:induction false} SelectAppend(a: Store, b: Store, userId: Option<int>)
    ensures SelectByUserId(a + b, userId) == SelectByUserId(a, userId) + SelectByUserId(b, userId)
  {
    if a == [] {
      assert a + b == b;
    } else {
      var head := if Owns(userId, a[0]) then [a[0]] else [];
      assert (a + b)[0] == a[0] && (a + b)[1..] == a[1..] + b;
      assert SelectByUserId(a + b, userId) == head + SelectByUserId(a[1..] + b, userId);
      SelectAppend(a[1..], b, userId);
      assert head + (SelectByUserId(a[1..], userId) + SelectByUserId(b, userId)) ==
        (head + SelectByUserId(a[1..], userId)) + SelectByUserId(b, userId);
    }
  }

  /** A one-row table yields its row exactly when the user owns it. */
  lemma SelectOfOne(row: CartRow, userId: Option<int>)
    ensures SelectByUserId([row], userId) == if Owns(userId, row) then [row] else []
  {
    assert [row][1..] == [];
  }

  /** A user who owns no row has an empty selection. */
  lemma {:induction false} SelectOfNonOwner(store: Store, userId: Option<int>)
    requires forall r :: r in store ==> !Owns(userId, r)
    ensures SelectByUserId(store, userId) == []
  {
    if store != [] {
      assert forall r :: r in store[1..] ==> r in store;
      SelectOfNonOwner(store[1..], userId);
    }
  }

  /** The first row of a user for a product, if any. */
  function SelectByUserIdAndProductId(store: Store, userId: Option<int>, productId: Option<int>): (found: Option<CartRow>)
    ensures found.Some? ==> found.value in store && Matches(userId, productId, found.value)
    ensures found.None? <==> forall r :: r in store ==> !Matches(userId, productId, r)
  {
    if store == [] then None
    else if Matches(userId, productId, store[0]) then Some(store[0])
    else SelectByUserIdAndProductId(store[1..], userId, productId)
  }

  /** Sets the quantity of the row with the given primary key; no other field
      and no other row changes. */
  function UpdateQuantity(store: Store, id: int, quantity: int): (store': Store)
    ensures |store'| == |store|
    ensures forall i :: 0 <= i < |store| && store[i].id != id ==> store'[i] == store[i]
    ensures forall i :: 0 <= i < |store| && store[i].id == id ==> store'[i] == store[i].(quantity := quantity)
  {
    seq(|store|, i requires 0 <= i < |store| => if store[i].id == id then store[i].(quantity := quantity) else store[i])
  }

  /** Issues quantity writes one after the other. Only quantities change:
      every row keeps its key, owner, product and checked flag. */
  function ApplyWrites(store: Store, writes: seq<Write>): (store': Store)
    ensures |store'| == |store|
    ensures forall i :: 0 <= i < |store| ==> store'[i] == store[i].(quantity := store'[i].quantity)
  {
    if writes == [] then store
    else
      var w := writes[|writes| - 1];
      UpdateQuantity(ApplyWrites(store, writes[..|writes| - 1]), w.id, w.quantity)
  }

  /** The quantity of the last write to a primary key, if any. */
  function LastWriteTo(writes: seq<Write>, id: int): Option<int>
  {
    if writes == [] then None
    else if writes[|writes| - 1].id == id then Some(writes[|writes| - 1].quantity)
    else LastWriteTo(writes[..|writes| - 1], id)
  }

  /** Each row ends with the quantity of the last write to its key, or unchanged. */
  lemma {:induction false} ApplyWritesLastWins(store: Store, writes: seq<Write>)
    ensures forall i :: 0 <= i < |store| ==>
      ApplyWrites(store, writes)[i] ==
        match LastWriteTo(writes, store[i].id)
        case None => store[i]
        case Some(q) => store[i].(quantity := q)
  {
    if writes != [] {
      ApplyWritesLastWins(store, writes[..|writes| - 1]);
    }
  }

  /** The largest primary key in use, or 0. */
  function MaxId(store: Store): (m: int)
    ensures forall r :: r in store ==> r.id <= m
  {
    if store == [] then 0
    else var rest := MaxId(store[1..]); if store[0].id > rest then store[0].id else rest
  }

  /** Appends a row under a fresh primary key, as an auto-increment insert does. */
  function Insert(store: Store, userId: int, productId: Option<int>, quantity: int, checked: bool): (store': Store)
    ensures |store'| == |store| + 1 && store'[..|store|] == store
    ensures var r := store'[|store|];
      r.userId == userId && r.productId == productId && r.quantity == quantity && r.checked == checked
    ensures forall old_row :: old_row in store ==> old_row.id != store'[|store|].id
  {
    store + [CartRow(MaxId(store) + 1, userId, productId, quantity, checked)]
  }

  /** The row's product is one of the listed ids. */
  predicate Listed(productIds: seq<int>, productId: Option<int>) {
    productId.Some? && productId.value in productIds
  }

  /** Removes the user's rows whose product id is listed. */
  function DeleteByUserIdAndProductIds(store: Store, userId: Option<int>, productIds: seq<int>): (store': Store)
    ensures |store'| <= |store|
    ensures forall r :: r in store' <==> r in store && !(Owns(userId, r) && Listed(productIds, r.productId))
  {
    if store == [] then []
    else
      (if Owns(userId, store[0]) && Listed(productIds, store[0].productId) then [] else [store[0]])
      + DeleteByUserIdAndProductIds(store[1..], userId, productIds)
  }

  /** Deleting from two consecutive stretches of the table deletes from
      each. With DeleteOfOne this says the surviving rows keep their table
      order. */
  lemma {:induction false} DeleteAppend(a: Store, b: Store, userId: Option<int>, productIds: seq<int>)
    ensures DeleteByUserIdAndProductIds(a + b, userId, productIds) ==
      DeleteByUserIdAndProductIds(a, userId, productIds) + DeleteByUserIdAndProductIds(b, userId, productIds)
  {
    if a == [] {
      assert a + b == b;
    } else {
      var head := if Owns(userId, a[0]) && Listed(productIds, a[0].productId) then [] else [a[0]];
      assert (a + b)[0] == a[0] && (a + b)[1..] == a[1..] + b;
      assert DeleteByUserIdAndProductIds(a + b, userId, productIds) ==
        head + DeleteByUserIdAndProductIds(a[1..] + b, userId, productIds);
      DeleteAppend(a[1..], b, userId, productIds);
      assert head + (DeleteByUserIdAndProductIds(a[1..], userId, productIds) + DeleteByUserIdAndProductIds(b, userId, productIds)) ==
        (head + DeleteByUserIdAndProductIds(a[1..], userId, productIds)) + DeleteByUserIdAndProductIds(b, userId, productIds);
    }
  }

  /** A one-row table keeps its row exactly when it is not to be deleted. */
  lemma DeleteOfOne(row: CartRow, userId: Option<int>, productIds: seq<int>)
    ensures DeleteByUserIdAndProductIds([row], userId, productIds) ==
      if Owns(userId, row) && Listed(productIds, row.productId) then [] else [row]
  {
    assert [row][1..] == [];
  }

  /** The number of the user's unchecked rows. */
  function CountUnchecked(store: Store, userId: int): (n: nat)
    ensures n == 0 <==> forall r :: r in store && r.userId == userId ==> r.checked
  {
    if store == [] then 0
    else (if store[0].userId == userId && !store[0].checked then 1 else 0) + CountUnchecked(store[1..], userId)
  }

  /** A user's rows keep their primary keys distinct. */
  lemma {:induction false} SelectKeepsUniqueIds(store: Store, userId: Option<int>)
    requires UniqueIds(store)
    ensures UniqueIds(SelectByUserId(store, userId))
  {
    if store != [] {
      var tail := SelectByUserId(store[1..], userId);
      SelectKeepsUniqueIds(store[1..], userId);
      forall r | r in tail ensures r.id != store[0].id {
        var j :| 0 <= j < |store[1..]| && store[1..][j] == r;
        assert store[j + 1] == r;
      }
    }
  }

  /** A row whose keys clash with none of a well-formed table's rows can
      be put in front of it. */
  lemma PrependKeepsWellFormed(x: CartRow, tail: Store)
    requires WellFormed(tail)
    requires forall r :: r in tail ==> r.id != x.id
    requires forall r :: r in tail && r.userId == x.userId && x.productId.Some? ==> r.productId != x.productId
    ensures WellFormed([x] + tail)
  {
    var s := [x] + tail;
    forall j | 0 < j < |s| ensures s[j] == tail[j - 1] && s[j] in tail {
    }
  }

  /** Deleting rows keeps the cart invariant. */
  lemma {:induction false} DeleteKeepsWellFormed(store: Store, userId: Option<int>, productIds: seq<int>)
    requires WellFormed(store)
    ensures WellFormed(DeleteByUserIdAndProductIds(store, userId, productIds))
  {
    if store != [] {
      var rest := store[1..];
      assert WellFormed(rest) by {
        forall j | 0 <= j < |rest| ensures rest[j] == store[j + 1] { }
      }
      var tail := DeleteByUserIdAndProductIds(rest, userId, productIds);
      DeleteKeepsWellFormed(rest, userId, productIds);
      if Owns(userId, store[0]) && Listed(productIds, store[0].productId) {
        assert DeleteByUserIdAndProductIds(store, userId, productIds) == tail;
      } else {
        forall r | r in tail
          ensures r.id != store[0].id
          ensures r.userId == store[0].userId && store[0].productId.Some? ==> r.productId != store[0].productId
        {
          assert r in rest;
          var j :| 0 <= j < |rest| && rest[j] == r;
          assert store[j + 1] == r;
        }
        PrependKeepsWellFormed(store[0], tail);
        assert DeleteByUserIdAndProductIds(store, userId, productIds) == [store[0]] + tail;
      }
    }
  }
}
