/** Entities of the shopping-cart service: stored cart rows, catalog products,
    the priced view handed back to callers, and the service's response shape. */
module CartTypes {

  /** A value that may be absent; stands for a Java reference that may be null. */
  datatype Option<+T> = None | Some(value: T)

  /** One stored cart row: a user's requested quantity of one product.
      The product id may be absent because adding to the cart does not reject
      a missing product id. */
  datatype CartRow = CartRow(id: int, userId: int, productId: Option<int>, quantity: int, checked: bool)

  /** The catalog's view of a product. The price is an exact amount in the
      currency's smallest unit; stock is the quantity available. */
  datatype Product = Product(name: string, subtitle: string, mainImage: string, price: int, status: int, stock: int)

  /** The product catalog, keyed by product id. */
  type Catalog = map<int, Product>

  /** Looks a product up; an absent id finds nothing, like a primary-key
      select with a null key. */
  function Lookup(catalog: Catalog, productId: Option<int>): (p: Option<Product>)
    ensures p.Some? <==> productId.Some? && productId.value in catalog
    ensures p.Some? ==> p.value == catalog[productId.value]
  {
    if productId.Some? && productId.value in catalog then Some(catalog[productId.value]) else None
  }

  /** Whether the stock covered the requested quantity. */
  datatype LimitQuantity = LimitNumSuccess | LimitNumFail

  /** The product part of a view line, present only when the product exists. */
  datatype PricedLine = PricedLine(
    name: string, subtitle: string, mainImage: string,
    price: int, status: int, stock: int,
    limit: LimitQuantity, quantity: int, totalPrice: int)

  /** One line of the cart view. */
  datatype LineView = LineView(id: int, userId: int, productId: Option<int>, priced: Option<PricedLine>)

  /** The cart view returned by every cart operation. */
  datatype CartView = CartView(lines: seq<LineView>, totalPrice: int, allChecked: bool, imageHost: string)

  /** A quantity write issued by primary key. */
  datatype Write = QuantityWrite(id: int, quantity: int)

  /** What one reconciliation pass produces: the view, the store after its
      write-backs, and the write-backs themselves in the order issued. */
  datatype Reconciliation = Reconciliation(view: CartView, store: seq<CartRow>, writes: seq<Write>)

  /** A service response: a payload, or the illegal-argument error. */
  datatype Response<+T> = Ok(value: T) | IllegalArgument

  /** A service call's response together with the cart store it leaves behind. */
  datatype Step<+T> = Step(response: Response<T>, store: seq<CartRow>)
}
