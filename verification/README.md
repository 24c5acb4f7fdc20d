# Shopping-cart service, modelled in Dafny

This project models the cart service of a small online shop
(`CartServiceImpl.java`). A user's cart is a set of rows in a cart table. Each
row holds a primary key, the owning user, a product id, a quantity and a
checked flag. The service answers every cart operation with a reconciled
view of the cart (`getCartVoLimit`). That reconciliation does four things:

- it joins each row with the product catalog;
- it cuts any quantity above the product's stock down to the stock, and
  writes the cut back to the table;
- it prices each line;
- it sums the lines that are checked.

On top of that the service offers:

- `add`: insert a product, or add to the quantity already held;
- `update`: set a product's quantity;
- `delete`: remove the listed products;
- `getCartProductCount`: the number of items in the cart.

The model is functional. A stored cart is a `seq<CartRow>` in table order, and
the product catalog is a `map<int, Product>`. Each mapper statement the
service issues becomes a pure function on the row sequence (module
`CartStore`):

- select by user;
- first match by (user, product);
- quantity update by primary key;
- append-insert with a fresh key;
- delete by user and product list;
- count of unchecked rows.

A Java `null` argument is an `Option`. A null user or product id matches no
row, as an SQL `= null` comparison does. Service results are either `Ok` or
`IllegalArgument`. Each operation returns the store it leaves behind, paired
with its answer in a `Step`.

Modules:

- `CartTypes`: rows, products, view lines, the cart view, responses.
- `CartStore`: the cart table and its statements; the cart invariant (a
  unique primary key, and at most one row per user and product).
- `CartAggregator`: one reconciliation pass, as a function (`Build`) and as
  the loop the service runs (`GetCartVoLimit`), proved equal.
- `CartWriteBack`: what a pass writes, and what a second pass does.
- `CartTotals`: what the cart total sums, and the all-checked flag.
- `CartService`: `add`, `update`, `delete`, `list`, `getCartProductCount`.
- `CartServiceProperties`: how the operations and their views relate.

Behaviours of the code worth knowing, each proved or stated below:

- **A second pass is quiet but not identical.** A second pass over the
  store a first pass left issues no write and leaves the store unchanged
  (`CartWriteBack.SecondPassWritesNothing`,
  `CartWriteBack.SecondPassKeepsStore`). Its view is not the first view,
  however: a line the first pass flagged `LIMIT_NUM_FAIL` shows
  `LIMIT_NUM_SUCCESS` the second time, because its stored quantity now
  equals the stock (`CartWriteBack.SecondPassSettlesView`).
  `CartWriteBack.FirstAndSecondViewsCanDiffer` exhibits this on a concrete
  cart. From the second pass on, the pass is a fixed point
  (`CartWriteBack.ThirdPassRepeatsSecond`).
- **Product status is not checked.** The product's status is copied into
  the line but never tested, so an off-sale product is priced and summed
  like any other.
- **Quantities are not checked for sign.** `add` and `update` accept any
  count, including zero and negative counts. The model uses unbounded
  integers that may be negative.
- **`add` does not reject a null product id.** The lookup with a null
  product finds nothing, so a row without a product is inserted. Its view
  line carries no product fields, and it adds nothing to the total.
- **Write-backs are applied after the loop.** The service issues each
  write-back inside its loop. The loop method `GetCartVoLimit` logs the
  write-backs and applies them after the loop. When no row raises an
  exception, the two are equivalent: the loop reads only the rows it
  selected before the first write, and the checked status is read after the
  last write. In the source, an exception on a later row leaves the earlier
  write-backs applied; the model has no such path (see "## Left out").

## Model

| member | source | states |
|---|---|---|
| CartTypes.Lookup | CartServiceImpl.java:167-168 | a product is found exactly when the row has a product id present in the catalog, and it is that catalog entry |
| CartStore.SelectByUserId | CartServiceImpl.java:154 | the selection holds exactly the store's rows owned by the user; a null user owns none |
| CartStore.SelectAppend | CartServiceImpl.java:154 | selecting from two consecutive stretches of the table gives the selection from the first followed by that from the second, so the selection keeps table order |
| CartStore.SelectOfOne | CartServiceImpl.java:154 | a one-row table yields its row exactly when the user owns it, so each owned row appears once |
| CartStore.SelectOfNonOwner | CartServiceImpl.java:154-157 | a user who owns no row gets an empty selection |
| CartStore.SelectByUserIdAndProductId | CartServiceImpl.java:49-50 | a found row is in the store and belongs to that user and product; nothing is found exactly when no row matches |
| CartStore.UpdateQuantity | CartServiceImpl.java:63-64 | only the quantity of the row with the given primary key changes; every other row and field stays |
| CartStore.ApplyWrites | CartServiceImpl.java:187-190 | issuing quantity writes keeps the number of rows and changes nothing in any row but its quantity |
| CartStore.ApplyWritesLastWins | CartServiceImpl.java:187-190 | after a series of quantity writes, each row has the quantity of the last write to its key, or is unchanged if no write touched it |
| CartStore.MaxId | CartServiceImpl.java:58 | the chosen bound is at least every primary key in use |
| CartStore.Insert | CartServiceImpl.java:53-58 | the store grows by one row at the end with the given user, product, quantity and flag, under a key no existing row has |
| CartStore.DeleteByUserIdAndProductIds | CartServiceImpl.java:108 | a row survives exactly when it is not the user's row for a listed product |
| CartStore.DeleteAppend | CartServiceImpl.java:108 | deleting from two consecutive stretches of the table deletes from each, so the surviving rows keep table order |
| CartStore.DeleteOfOne | CartServiceImpl.java:108 | a one-row table keeps its row exactly when it is not the user's row for a listed product |
| CartStore.CountUnchecked | CartServiceImpl.java:223 | the count is zero exactly when every row of the user is checked |
| CartStore.SelectKeepsUniqueIds | CartServiceImpl.java:154 | a selection from a table with unique keys has unique keys |
| CartStore.PrependKeepsWellFormed | CartServiceImpl.java:108 | a row whose keys clash with no row of a cart satisfying the invariant can stand in front of it |
| CartStore.DeleteKeepsWellFormed | CartServiceImpl.java:108 | deleting keeps the cart invariant: a unique primary key, and at most one row per user and product |
| CartStore.SameKeysKeepWellFormed | CartServiceImpl.java:187-190 | changing only quantities and flags keeps the cart invariant |
| CartAggregator.EffectiveQuantity | CartServiceImpl.java:177-186 | the line quantity is at most the stored quantity and at most the stock, and equals one of the two |
| CartAggregator.LimitOf | CartServiceImpl.java:178-191 | the limit flag is success exactly when the stock covers the stored quantity |
| CartAggregator.LineFor | CartServiceImpl.java:161-194 | a line copies the row's keys; it has product fields exactly when the product exists; then its quantity is at most the stored quantity and the stock and equals one of them, its flag is success exactly when there is no shortfall, and its total is quantity times price |
| CartAggregator.LinesFor | CartServiceImpl.java:159-202 | one line per row, in row order |
| CartAggregator.WritesFor | CartServiceImpl.java:184-190 | a row needs a write-back exactly when its product is short of stock, and the write sets its quantity to the stock |
| CartAggregator.ClampWrites | CartServiceImpl.java:184-190 | a pass issues no more write-backs than rows, and none at all exactly when no row is short of stock |
| CartAggregator.ClampWritesCount | CartServiceImpl.java:178-190 | a pass issues exactly as many write-backs as there are rows short of stock |
| CartAggregator.Contribution | CartServiceImpl.java:197-200 | an unchecked row, or a row whose product is missing, adds nothing; a checked row with a product adds its line total |
| CartAggregator.RunningTotal | CartServiceImpl.java:147-200 | the cart total starts at zero and stays zero when no row is checked |
| CartAggregator.AllCheckedStatus | CartServiceImpl.java:217-224 | the flag is false for a null user, and otherwise holds exactly when every row of the user is checked |
| CartAggregator.Build | CartServiceImpl.java:144-211 | one line per selected row, each that row's line (the selection's store order is given by CartStore.SelectAppend and CartStore.SelectOfOne); the image host is passed through; a user with no rows gets no lines, a zero total, no writes and an unchanged store; a null user is never all checked |
| CartAggregator.PrefixStepWrites | CartServiceImpl.java:159-192 | handling one more row appends that row's write-back, if any, to those already issued |
| CartAggregator.PrefixStepTotal | CartServiceImpl.java:159-200 | handling one more row adds that row's share to the running total |
| CartAggregator.PrefixStepLines | CartServiceImpl.java:159-202 | handling one more row appends that row's line |
| CartAggregator.ReconcileRows | CartServiceImpl.java:157-204 | the loop yields the lines, the total and the write-backs the pass defines |
| CartAggregator.GetCartVoLimit | CartServiceImpl.java:144-211 | the service's loop gives the same view, store and write-backs as the reconciliation pass |
| CartWriteBack.ClampWritesTargets | CartServiceImpl.java:184-191 | over rows with unique keys, the last write-back to a row's key is that row's clamp to the stock, and no other key is written |
| CartWriteBack.BuildWritesBackOnlyShortfalls | CartServiceImpl.java:177-193 | a pass changes exactly the user's rows that are short of stock, and only by setting their quantity to the stock |
| CartWriteBack.BuildStoreIsClampStore | CartServiceImpl.java:177-193 | the store a pass leaves is the store with the user's short rows clamped |
| CartWriteBack.ClampAllPrepend | CartServiceImpl.java:177-193 | clamping rows clamps the first row, then the rest |
| CartWriteBack.SelectOfClampStore | CartServiceImpl.java:154 | selecting the user's rows from the clamped store gives the user's rows clamped |
| CartWriteBack.ClampRowSettles | CartServiceImpl.java:177-194 | a clamped row is not short, shows the same line but for a success flag, and adds the same to the total |
| CartWriteBack.RunningTotalOfClampAll | CartServiceImpl.java:194-200 | clamping the rows leaves the cart total unchanged |
| CartWriteBack.ClampAllNeedsNoWrites | CartServiceImpl.java:184-191 | clamped rows need no write-back |
| CartWriteBack.LinesOfClampAll | CartServiceImpl.java:159-202 | the lines of the clamped rows are the lines of the rows with every limit flag settled to success |
| CartWriteBack.SecondPassRows | CartServiceImpl.java:154 | the rows a second pass selects are the rows of the first pass, each clamped to the stock |
| CartWriteBack.SecondPassWritesNothing | CartServiceImpl.java:184-191 | a second pass over the store the first pass left issues no write-back |
| CartWriteBack.SecondPassKeepsStore | CartServiceImpl.java:184-191 | a second pass leaves the store the first pass left unchanged |
| CartWriteBack.SecondPassSettlesView | CartServiceImpl.java:144-211 | a second pass shows the first view with every limit flag set to success, and the same lines otherwise, the same total and the same checked status |
| CartWriteBack.ThirdPassRepeatsSecond | CartServiceImpl.java:144-211 | a third pass keeps the store and shows the second view: from the second pass on, a pass is a fixed point |
| CartWriteBack.FirstAndSecondViewsCanDiffer | CartServiceImpl.java:178-193 | a row of 5 against a stock of 2 is written back to 2 and flagged failed by the first pass, and flagged success by the second, so the two views differ |
| CartTotals.SelectedLineTotals | CartServiceImpl.java:197-200 | there are no more selected line totals than rows |
| CartTotals.RunningTotalAppend | CartServiceImpl.java:159-200 | the total over two consecutive stretches of rows is the sum of their totals |
| CartTotals.TotalIsSumOfSelectedLines | CartServiceImpl.java:147-200 | the cart total is the sum of the line totals of the checked rows whose product exists; an empty cart totals 0 |
| CartTotals.SumAppend | CartServiceImpl.java:199 | the sum over two lists is the sum of their sums |
| CartTotals.UncheckRow | CartServiceImpl.java:194-200 | unchecking a row takes exactly its share off the total and changes no view line |
| CartTotals.RunningTotalOfOne | CartServiceImpl.java:197-200 | one more row adds its share to the total |
| CartTotals.BuildTotalIsSelectedSum | CartServiceImpl.java:147-206 | the view's total is the sum of the selected line totals of the user's rows |
| CartTotals.WritesKeepCheckedFlags | CartServiceImpl.java:187-190 | quantity write-backs do not change whether the user's rows are all checked |
| CartTotals.BuildAllChecked | CartServiceImpl.java:207-224 | the view's flag holds exactly when the user is given and every row of the user is checked, read after the write-backs |
| CartTotals.EmptyCartView | CartServiceImpl.java:154-224 | a user with no rows sees no lines, a zero total and an all-checked flag |
| CartService.List | CartServiceImpl.java:134-138 | listing always answers success, with the view of one reconciliation pass, and leaves the store that pass leaves |
| CartService.AddToStore | CartServiceImpl.java:49-65 | without a row for the product, a checked row with the count is appended under a fresh key; with one, that row's quantity becomes its old quantity plus the count |
| CartService.UpdateInStore | CartServiceImpl.java:85-90 | without a row for the product the store is unchanged; with one, that row's quantity becomes the count |
| CartService.Add | CartServiceImpl.java:41-70 | the answer is an illegal-argument error exactly when the user or the count is null, and then the store is unchanged |
| CartService.Update | CartServiceImpl.java:79-92 | the answer is an illegal-argument error exactly when the product or the count is null, and then the store is unchanged |
| CartService.Delete | CartServiceImpl.java:101-110 | the answer is an illegal-argument error exactly when the product list is empty, and then the store is unchanged |
| CartService.GetCartProductCount | CartServiceImpl.java:125-132 | a null user gets 0 without asking the table; otherwise the table's count is returned |
| CartServiceProperties.SelectAfterUpdate | CartServiceImpl.java:63-64 | after updating the matched row's quantity, the lookup finds the same row with the new quantity |
| CartServiceProperties.SelectAfterAppend | CartServiceImpl.java:49-58 | an appended row is found only by a lookup that found nothing before and that it matches |
| CartServiceProperties.AddAccumulates | CartServiceImpl.java:49-65 | after adding, the stored quantity is the old quantity (0 if absent) plus the count |
| CartServiceProperties.UpdateReplaces | CartServiceImpl.java:85-90 | after updating a held product its stored quantity is the count; a product not held, or a null user, leaves the store unchanged |
| CartServiceProperties.AddKeepsWellFormed | CartServiceImpl.java:49-65 | adding keeps the cart invariant; the lookup before the insert is what keeps one row per user and product |
| CartServiceProperties.UpdateKeepsWellFormed | CartServiceImpl.java:85-90 | updating keeps the cart invariant |
| CartServiceProperties.BuildKeepsWellFormed | CartServiceImpl.java:184-191 | a reconciliation pass keeps the cart invariant |
| CartServiceProperties.AddStepKeepsWellFormed | CartServiceImpl.java:41-70 | the whole add operation, pass included, keeps the cart invariant |
| CartServiceProperties.UpdateStepKeepsWellFormed | CartServiceImpl.java:79-92 | the whole update operation, pass included, keeps the cart invariant |
| CartServiceProperties.DeleteStepKeepsWellFormed | CartServiceImpl.java:101-110 | the whole delete operation, pass included, keeps the cart invariant |
| CartServiceProperties.OwnedRowHasLine | CartServiceImpl.java:154-202 | every row the user owns has its line in the view |
| CartServiceProperties.ListShowsStoredQuantity | CartServiceImpl.java:134-138 | the listed view shows the user's row for a catalog product with its stored quantity cut down to the stock |
| CartServiceProperties.AddShowsAccumulatedQuantity | CartServiceImpl.java:41-70 | after adding a catalog product the view shows it with quantity the smaller of the old quantity plus the count and the stock |
| CartServiceProperties.UpdateShowsReplacedQuantity | CartServiceImpl.java:79-92 | after updating a held catalog product the view shows it with quantity the smaller of the count and the stock |
| CartServiceProperties.UpdateOfMissingRowIsList | CartServiceImpl.java:85-91 | updating a product the cart does not hold answers exactly what listing the cart does |
| CartServiceProperties.DeleteRemovesListedLines | CartServiceImpl.java:101-110 | after deleting, no line shows a listed product, and every other row of the user keeps its line |
| CartServiceProperties.AddBeyondStockIsClamped | CartServiceImpl.java:41-70 | adding 3 of a product priced 500 with stock 2 to an empty cart stores 2, shows 2 with a failed limit, and totals 1000 |

## Left out

- `selectOrUnselect` (CartServiceImpl.java:119-123) is not modelled. Its
  mapper statement's scoping (one product, or all of the user's products,
  and which flag values it writes) is not visible. Only its effect on the
  total is modelled: `CartTotals.UncheckRow`.
- Splitting the comma-separated product ids in `delete` is not modelled.
  The split yields a list of strings; `Delete` takes the integer product ids
  those tokens name. Tokens that are not integers (including the `""` that
  splitting an empty string yields) are not modelled, nor is the exception
  a null string raises at the split. Splitting a string never yields an
  empty list, so the source's `size < 1` guard cannot fire from a string
  argument; the model keeps the guard on the list.
- The `checked` column is an integer in the source; the model makes it a
  `bool`, true exactly when the column holds `Const.Cart.CHECKED`. A stored
  value other than the two constants, which `selectOrUnselect` could write,
  is not modelled. With a `bool`, the total's test for `CHECKED` and the
  all-checked count agree by construction.
- CartStore.CountUnchecked: assumes the mapper's checked-status statement
  counts exactly the user's rows whose flag is not `CHECKED`; that statement
  is not part of this model.
- Prices are exact integers in minor units. The `BigDecimalUtil`
  double-precision multiply and add are not modelled.
- The image host read through `PropertiesUtil` is a parameter.
- Java `int` overflow of quantities, stock and totals is not modelled;
  integers are unbounded.
- The table's own item count, used by `getCartProductCount`, is a function
  parameter. Its SQL is not visible.
- The mapper SQL is represented only by the statements' observable effects
  on the row sequence.
- CartStore.Insert: the database's auto-increment key is modelled as one
  more than the largest key in use. Only its freshness matters to the
  properties.
- Concurrency between requests is not modelled; each operation is atomic.
  The one-row-per-user-and-product invariant is kept only by `add`'s lookup
  before its insert (CartServiceImpl.java:49-58); the table does not enforce
  it, so two concurrent adds of the same product could both insert.
- Null fields of stored rows and catalog products are not modelled: rows
  are assumed to have a non-null quantity and checked flag, and products a
  non-null price and stock. In the source a null there raises a
  NullPointerException on unboxing (the stored quantity at
  CartServiceImpl.java:63, stock and quantity at :178, price at :194,
  checked at :197). An exception in the reconciliation loop leaves the
  write-backs of earlier rows applied; the model, which applies them after
  the loop, has no such partial outcome.
- The Spring wiring and `ServerResponse` status codes and messages are not
  modelled. An error is the single `IllegalArgument` answer.
