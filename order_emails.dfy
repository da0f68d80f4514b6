/** The item lines of the two order e-mails (orders/views.py,
    send_admin_order_email and send_customer_order_email): one line per
    order item, `- {name} | Qty: {quantity}`, followed by ` | Size: {size}`
    when the item has a non-empty size, the lines joined with newlines. */
module OrderEmails {
  import opened Text
  import opened Catalog
  import opened Checkout

  /** A size is printed when it is present and non-empty (Python truthiness). */
  predicate SizeShown(size: Option<string>)
  {
    size.Some? && size.value != ""
  }

  /** Everything before the quantity. */
  function LinePrefix(name: string): string
  {
    "- " + name + " | Qty: "
  }

  /** The size part, empty when no size is shown. */
  function SizeSuffix(size: Option<string>): (r: string)
    ensures r == [] <==> !SizeShown(size)
  {
    if SizeShown(size) then " | Size: " + size.value else ""
  }

  /** One item's line. */
  function ItemLine(name: string, quantity: int, size: Option<string>): string
  {
    LinePrefix(name) + IntToString(quantity) + SizeSuffix(size)
  }

  /** The line reads back: after the prefix come exactly the decimal digits
      of the quantity, followed either by the end of the line (no size) or
      by ` | Size: ` and the size. */
  lemma ItemLineReadsBack(name: string, quantity: nat, size: Option<string>)
    ensures var line := ItemLine(name, quantity, size);
      var p := |LinePrefix(name)|;
      var d := |NatToString(quantity)|;
      && StartsWith(line, LinePrefix(name))
      && p + d <= |line|
      && (forall i :: p <= i < p + d ==> IsDigit(line[i]))
      && DecimalValue(line[p..p + d]) == quantity
      && (SizeShown(size) <==> p + d < |line|)
      && (SizeShown(size) ==> line[p + d..] == " | Size: " + size.value && !IsDigit(line[p + d]))
  {
    var line := ItemLine(name, quantity, size);
    var p := |LinePrefix(name)|;
    var digits := NatToString(quantity);
    assert line == LinePrefix(name) + digits + SizeSuffix(size);
    assert line[..p] == LinePrefix(name);
    assert line[p..p + |digits|] == digits;
    assert line[p + |digits|..] == SizeSuffix(size);
    DecimalRoundTrip(quantity);
  }

  /** A line holds no newline when the name and the size hold none. */
  lemma ItemLineSingleLine(name: string, quantity: int, size: Option<string>)
    requires '\n' !in name
    requires size.Some? ==> '\n' !in size.value
    ensures '\n' !in ItemLine(name, quantity, size)
  {
    var digits := IntToString(quantity);
    assert forall i :: 0 <= i < |digits| ==> digits[i] == '-' || IsDigit(digits[i]);
    var line := ItemLine(name, quantity, size);
    assert line == "- " + name + " | Qty: " + digits + SizeSuffix(size);
  }

  /** The line printed for one order item. */
  function LineOf(item: OrderItem, catalog: map<ProductId, Product>): string
    requires item.product in catalog
  {
    ItemLine(catalog[item.product].name, item.quantity, item.size)
  }

  /** The lines of an order's items, in order. */
  function ItemLines(items: seq<OrderItem>, catalog: map<ProductId, Product>): (lines: seq<string>)
    requires forall i :: 0 <= i < |items| ==> items[i].product in catalog
    ensures |lines| == |items|
    ensures forall i :: 0 <= i < |items| ==> lines[i] == LineOf(items[i], catalog)
  {
    seq(|items|, i requires 0 <= i < |items| => LineOf(items[i], catalog))
  }

  /** The `Items:` block of both e-mails. */
  function ItemsText(items: seq<OrderItem>, catalog: map<ProductId, Product>): string
    requires forall i :: 0 <= i < |items| ==> items[i].product in catalog
  {
    Join(ItemLines(items, catalog), '\n')
  }

  /** With no newline in product names or sizes, splitting the block at
      newlines gives back exactly one line per item, in order. */
  lemma {:induction false} ItemsTextSplits(items: seq<OrderItem>, catalog: map<ProductId, Product>)
    requires |items| >= 1
    requires forall i :: 0 <= i < |items| ==> items[i].product in catalog
    requires forall p :: p in catalog ==> '\n' !in catalog[p].name
    requires forall i :: 0 <= i < |items| && items[i].size.Some? ==> '\n' !in items[i].size.value
    ensures Split(ItemsText(items, catalog), '\n') == ItemLines(items, catalog)
  {
    var lines := ItemLines(items, catalog);
    forall i | 0 <= i < |lines| ensures '\n' !in lines[i] {
      ItemLineSingleLine(catalog[items[i].product].name, items[i].quantity, items[i].size);
      assert lines[i] == LineOf(items[i], catalog);
    }
    SplitJoin(lines, '\n');
  }

  /** The block for a placed order: one line per cart line, naming the
      product, giving the quantity, and the size only for a sized product. */
  lemma PlacedOrderLines(lines: seq<Carts.CartLine>, catalog: map<ProductId, Product>, i: nat)
    requires Carts.ProductsKnown(lines, catalog) && i < |lines|
    ensures var items := OrderItemsOf(lines, catalog);
      && (forall j :: 0 <= j < |items| ==> items[j].product in catalog)
      && ItemLines(items, catalog)[i] == ItemLine(catalog[lines[i].product].name, lines[i].quantity,
                     if catalog[lines[i].product].hasSizes then lines[i].size else None)
  {
    var items := OrderItemsOf(lines, catalog);
    assert LineOf(items[i], catalog) == ItemLine(catalog[items[i].product].name, items[i].quantity, items[i].size);
  }
}
