/** The pure side of order placement (orders/views.py, place_order): the
    stock check that runs over every cart line before anything is written,
    the order-item snapshot of each line, and the stock after the
    decrement loop, which does not check again. */
module Checkout {
  import opened Text
  import opened Catalog
  import opened Carts

  type UserId = nat

  /** An immutable snapshot of a cart line taken when the order is placed. */
  datatype OrderItem = OrderItem(product: ProductId, quantity: int, size: Option<string>)

  /** A placed order with its denormalised delivery details. */
  datatype Order = Order(user: UserId, fullName: string, phone: string, address: string,
                         items: seq<OrderItem>)

  /** What the stock check finds for one line. */
  datatype LineCheck =
    | Available
    | VariantMissing(product: ProductId, size: Option<string>)
    | NotEnoughStock(product: ProductId, size: Option<string>)

  /** A line of an unsized product always passes; a sized line needs its
      ProductSize row (a 404 otherwise) holding at least its quantity. */
  function CheckLine(line: CartLine, catalog: map<ProductId, Product>, stock: StockTable): LineCheck
    requires line.product in catalog
  {
    if !catalog[line.product].hasSizes then Available
    else if line.size.None? || Variant(line.product, line.size.value) !in stock then
      VariantMissing(line.product, line.size)
    else if stock[Variant(line.product, line.size.value)] < line.quantity then
      NotEnoughStock(line.product, line.size)
    else Available
  }

  /** The check loop: the first line that fails decides the outcome. */
  function CheckStock(lines: seq<CartLine>, catalog: map<ProductId, Product>, stock: StockTable): (r: LineCheck)
    requires ProductsKnown(lines, catalog)
    ensures r == Available <==> forall i :: 0 <= i < |lines| ==> CheckLine(lines[i], catalog, stock) == Available
  {
    if lines == [] then Available
    else if CheckLine(lines[0], catalog, stock) != Available then CheckLine(lines[0], catalog, stock)
    else
      var r := CheckStock(lines[1..], catalog, stock);
      assert forall i :: 1 <= i < |lines| ==> lines[1..][i - 1] == lines[i];
      r
  }

  /** When all lines before `i` pass and line `i` fails, the check reports
      line `i`. */
  lemma {:induction false} CheckStockFirstFailure(lines: seq<CartLine>, catalog: map<ProductId, Product>,
                                                  stock: StockTable, i: nat)
    requires ProductsKnown(lines, catalog) && i < |lines|
    requires forall j :: 0 <= j < i ==> CheckLine(lines[j], catalog, stock) == Available
    requires CheckLine(lines[i], catalog, stock) != Available
    ensures CheckStock(lines, catalog, stock) == CheckLine(lines[i], catalog, stock)
  {
    if i > 0 {
      assert forall j :: 0 <= j < i - 1 ==> lines[1..][j] == lines[j + 1];
      CheckStockFirstFailure(lines[1..], catalog, stock, i - 1);
    }
  }

  /** The order item created for one cart line: same product and quantity;
      no size for a product without sizes. */
  function Snapshot(line: CartLine, catalog: map<ProductId, Product>): OrderItem
    requires line.product in catalog
  {
    OrderItem(line.product, line.quantity, if catalog[line.product].hasSizes then line.size else None)
  }

  /** The order items in the order the lines are visited: one per cart
      line. */
  function OrderItemsOf(lines: seq<CartLine>, catalog: map<ProductId, Product>): (items: seq<OrderItem>)
    requires ProductsKnown(lines, catalog)
    ensures |items| == |lines|
    ensures forall i :: 0 <= i < |lines| ==>
      items[i].product == lines[i].product && items[i].quantity == lines[i].quantity &&
      items[i].size == (if catalog[lines[i].product].hasSizes then lines[i].size else None)
  {
    if lines == [] then []
    else OrderItemsOf(lines[..|lines| - 1], catalog) + [Snapshot(lines[|lines| - 1], catalog)]
  }

  /** Every sized line has its ProductSize row, as the check guarantees
      before the decrement loop fetches it. */
  predicate VariantsPresent(lines: seq<CartLine>, catalog: map<ProductId, Product>, stock: StockTable)
    requires ProductsKnown(lines, catalog)
  {
    forall i :: 0 <= i < |lines| && catalog[lines[i].product].hasSizes ==>
      lines[i].size.Some? && Variant(lines[i].product, lines[i].size.value) in stock
  }

  /** `ps.stock -= item.quantity` for a sized line; nothing for an unsized one. */
  function DecrementLine(stock: StockTable, line: CartLine, catalog: map<ProductId, Product>): StockTable
    requires line.product in catalog
    requires catalog[line.product].hasSizes ==>
      line.size.Some? && Variant(line.product, line.size.value) in stock
  {
    if catalog[line.product].hasSizes then
      var v := Variant(line.product, line.size.value);
      stock[v := stock[v] - line.quantity]
    else stock
  }

  /** The stock after the decrement loop has visited every line, in order. */
  function Decremented(stock: StockTable, lines: seq<CartLine>, catalog: map<ProductId, Product>): (r: StockTable)
    requires ProductsKnown(lines, catalog) && VariantsPresent(lines, catalog, stock)
    ensures r.Keys == stock.Keys
  {
    if lines == [] then stock
    else
      var init := lines[..|lines| - 1];
      assert forall i :: 0 <= i < |init| ==> init[i] == lines[i];
      DecrementLine(Decremented(stock, init, catalog), lines[|lines| - 1], catalog)
  }

  /** Visiting line `k` extends the snapshots by that line's item and the
      decrements by that line's decrement. */
  lemma OneMoreLine(stock: StockTable, lines: seq<CartLine>, catalog: map<ProductId, Product>, k: nat)
    requires ProductsKnown(lines, catalog) && VariantsPresent(lines, catalog, stock)
    requires k < |lines|
    ensures ProductsKnown(lines[..k], catalog) && VariantsPresent(lines[..k], catalog, stock)
    ensures ProductsKnown(lines[..k + 1], catalog) && VariantsPresent(lines[..k + 1], catalog, stock)
    ensures OrderItemsOf(lines[..k + 1], catalog) == OrderItemsOf(lines[..k], catalog) + [Snapshot(lines[k], catalog)]
    ensures catalog[lines[k].product].hasSizes ==>
      lines[k].size.Some? && Variant(lines[k].product, lines[k].size.value) in Decremented(stock, lines[..k], catalog)
    ensures Decremented(stock, lines[..k + 1], catalog)
            == DecrementLine(Decremented(stock, lines[..k], catalog), lines[k], catalog)
  {
    assert lines[..k + 1][..k] == lines[..k];
  }

  /** Whether a line's decrement falls on variant `v`. */
  predicate Draws(line: CartLine, catalog: map<ProductId, Product>, v: Variant)
  {
    line.product in catalog && catalog[line.product].hasSizes &&
    line.product == v.product && line.size == Some(v.size)
  }

  /** The total quantity the lines take from variant `v`. */
  function Demand(lines: seq<CartLine>, catalog: map<ProductId, Product>, v: Variant): int
  {
    if lines == [] then 0
    else
      var last := lines[|lines| - 1];
      Demand(lines[..|lines| - 1], catalog, v) + (if Draws(last, catalog, v) then last.quantity else 0)
  }

  /** Each variant loses exactly the quantity the lines demand of it. */
  lemma {:induction false} DecrementedByDemand(stock: StockTable, lines: seq<CartLine>,
                                               catalog: map<ProductId, Product>, v: Variant)
    requires ProductsKnown(lines, catalog) && VariantsPresent(lines, catalog, stock)
    requires v in stock
    ensures Decremented(stock, lines, catalog)[v] == stock[v] - Demand(lines, catalog, v)
  {
    if lines != [] {
      var init := lines[..|lines| - 1];
      assert forall i :: 0 <= i < |init| ==> init[i] == lines[i];
      DecrementedByDemand(stock, init, catalog, v);
    }
  }

  /** With one line per (product, size), at most one line draws on a
      variant, so the demand is that line's quantity, or 0 when none does. */
  lemma {:induction false} DemandOfUniqueLines(lines: seq<CartLine>, catalog: map<ProductId, Product>, v: Variant)
    requires UniqueKeys(lines)
    ensures forall i :: 0 <= i < |lines| && Draws(lines[i], catalog, v) ==>
      Demand(lines, catalog, v) == lines[i].quantity
    ensures (forall i :: 0 <= i < |lines| ==> !Draws(lines[i], catalog, v)) ==>
      Demand(lines, catalog, v) == 0
  {
    if lines != [] {
      var n := |lines| - 1;
      var init := lines[..n];
      assert forall i :: 0 <= i < |init| ==> init[i] == lines[i];
      assert UniqueKeys(init);
      DemandOfUniqueLines(init, catalog, v);
      if Draws(lines[n], catalog, v) {
        forall i | 0 <= i < |init| ensures !Draws(init[i], catalog, v) {
          assert lines[i].Key() != lines[n].Key();
        }
      }
    }
  }

  /** The stock effect of a successful order: the check guarantees that
      every sized line's row exists, each such row loses exactly that line's
      quantity, rows no line draws on keep their count, and no count goes
      below zero; this needs the check and one line per (product, size),
      not a second check at decrement time. */
  lemma PlacedOrderStock(stock: StockTable, lines: seq<CartLine>, catalog: map<ProductId, Product>)
    requires StockNonNegative(stock)
    requires UniqueKeys(lines) && ProductsKnown(lines, catalog)
    requires CheckStock(lines, catalog, stock) == Available
    ensures VariantsPresent(lines, catalog, stock)
    ensures forall i :: 0 <= i < |lines| && catalog[lines[i].product].hasSizes ==>
      var v := Variant(lines[i].product, lines[i].size.value);
      Decremented(stock, lines, catalog)[v] == stock[v] - lines[i].quantity
    ensures forall v :: v in stock && (forall i :: 0 <= i < |lines| ==> !Draws(lines[i], catalog, v)) ==>
      Decremented(stock, lines, catalog)[v] == stock[v]
    ensures StockNonNegative(Decremented(stock, lines, catalog))
  {
    assert forall i :: 0 <= i < |lines| ==> CheckLine(lines[i], catalog, stock) == Available;
    var after := Decremented(stock, lines, catalog);
    forall v | v in stock
      ensures after[v] == stock[v] - Demand(lines, catalog, v)
      ensures after[v] >= 0
    {
      DecrementedByDemand(stock, lines, catalog, v);
      DemandOfUniqueLines(lines, catalog, v);
      if i :| 0 <= i < |lines| && Draws(lines[i], catalog, v) {
        assert CheckLine(lines[i], catalog, stock) == Available;
      }
    }
    forall i | 0 <= i < |lines| && catalog[lines[i].product].hasSizes
      ensures after[Variant(lines[i].product, lines[i].size.value)]
              == stock[Variant(lines[i].product, lines[i].size.value)] - lines[i].quantity
    {
      var v := Variant(lines[i].product, lines[i].size.value);
      assert Draws(lines[i], catalog, v);
      DemandOfUniqueLines(lines, catalog, v);
    }
    forall v | v in stock && (forall i :: 0 <= i < |lines| ==> !Draws(lines[i], catalog, v))
      ensures after[v] == stock[v]
    {
      DemandOfUniqueLines(lines, catalog, v);
    }
  }
}
