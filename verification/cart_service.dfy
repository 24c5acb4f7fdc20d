/** The cart operations callers use. Each one validates its arguments,
    mutates the cart table, and answers with a freshly reconciled view. */
module CartService {
  import opened CartTypes
  import opened CartStore
  import opened CartAggregator

  /** The reconciled view of a user's cart, and the store the pass leaves. */
  function List(store: Store, catalog: Catalog, userId: Option<int>, imageHost: string): (s: Step<CartView>)
    ensures s.response.Ok?
    ensures s.response.value == Build(store, catalog, userId, imageHost).view
    ensures s.store == Build(store, catalog, userId, imageHost).store
  {
    var r := Build(store, catalog, userId, imageHost);
    Step(Ok(r.view), r.store)
  }

  /** The quantity stored for a user and product, if the cart holds it. */
  function QuantityOf(store: Store, userId: int, productId: int): Option<int> {
    match SelectByUserIdAndProductId(store, Some(userId), Some(productId))
    case None => None
    case Some(row) => Some(row.quantity)
  }

  /** The stored quantity, counting a missing row as none. */
  function QuantityOrZero(store: Store, userId: int, productId: int): int {
    match QuantityOf(store, userId, productId)
    case None => 0
    case Some(q) => q
  }

  /** Adding to the table: a new checked row with the count when the user
      has no row for the product, otherwise the count added to that row. */
  function AddToStore(store: Store, userId: int, productId: Option<int>, count: int): (store': Store)
    ensures SelectByUserIdAndProductId(store, Some(userId), productId).None? ==>
      && |store'| == |store| + 1 && store'[..|store|] == store
      && store'[|store|].userId == userId && store'[|store|].productId == productId
      && store'[|store|].quantity == count && store'[|store|].checked
      && forall r :: r in store ==> r.id != store'[|store|].id
    ensures SelectByUserIdAndProductId(store, Some(userId), productId).Some? ==>
      var existing := SelectByUserIdAndProductId(store, Some(userId), productId).value;
      && |store'| == |store|
      && forall i :: 0 <= i < |store| ==>
           store'[i] == if store[i].id == existing.id then store[i].(quantity := existing.quantity + count) else store[i]
  {
    match SelectByUserIdAndProductId(store, Some(userId), productId)
    case None => Insert(store, userId, productId, count, true)
    case Some(cart) => UpdateQuantity(store, cart.id, count + cart.quantity)
  }

  /** Updating the table: the user's row for the product takes the count as
      its quantity; without such a row nothing changes. */
  function UpdateInStore(store: Store, userId: Option<int>, productId: int, count: int): (store': Store)
    ensures SelectByUserIdAndProductId(store, userId, Some(productId)).None? ==> store' == store
    ensures SelectByUserIdAndProductId(store, userId, Some(productId)).Some? ==>
      var existing := SelectByUserIdAndProductId(store, userId, Some(productId)).value;
      && |store'| == |store|
      && forall i :: 0 <= i < |store| ==>
           store'[i] == if store[i].id == existing.id then store[i].(quantity := count) else store[i]
  {
    match SelectByUserIdAndProductId(store, userId, Some(productId))
    case None => store
    case Some(cart) => UpdateQuantity(store, cart.id, count)
  }

  /** Adds a product to a user's cart and returns the reconciled view. */
  function Add(store: Store, catalog: Catalog, userId: Option<int>, productId: Option<int>, count: Option<int>, imageHost: string)
    : (s: Step<CartView>)
    ensures s.response.IllegalArgument? <==> userId.None? || count.None?
    ensures s.response.IllegalArgument? ==> s.store == store
  {
    if userId.None? || count.None? then Step(IllegalArgument, store)
    else List(AddToStore(store, userId.value, productId, count.value), catalog, userId, imageHost)
  }

  /** Sets the quantity of a product in a user's cart and returns the view. */
  function Update(store: Store, catalog: Catalog, userId: Option<int>, productId: Option<int>, count: Option<int>, imageHost: string)
    : (s: Step<CartView>)
    ensures s.response.IllegalArgument? <==> productId.None? || count.None?
    ensures s.response.IllegalArgument? ==> s.store == store
  {
    if productId.None? || count.None? then Step(IllegalArgument, store)
    else List(UpdateInStore(store, userId, productId.value, count.value), catalog, userId, imageHost)
  }

  /** Removes the listed products from a user's cart and returns the view.
      The list is what splitting the caller's comma-separated ids yields. */
  function Delete(store: Store, catalog: Catalog, userId: Option<int>, productIds: seq<int>, imageHost: string)
    : (s: Step<CartView>)
    ensures s.response.IllegalArgument? <==> productIds == []
    ensures s.response.IllegalArgument? ==> s.store == store
  {
    if |productIds| < 1 then Step(IllegalArgument, store)
    else List(DeleteByUserIdAndProductIds(store, userId, productIds), catalog, userId, imageHost)
  }

  /** The cart's item count as the table reports it; zero for a null user,
      without asking the table. */
  function GetCartProductCount(userId: Option<int>, countInTable: int -> int): (n: int)
    ensures userId.None? ==> n == 0
    ensures userId.Some? ==> n == countInTable(userId.value)
  {
    if userId.None? then 0 else countInTable(userId.value)
  }
}
