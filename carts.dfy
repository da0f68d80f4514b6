/** The lines of one user's cart (the CartItem rows of orders/views.py and
    products/views.py) and the pure rules that decide how a cart changes.
    A CartItem is identified by its (product, size) key, which get-or-create
    keeps unique within a cart. */
module Carts {
  import opened Text
  import opened Catalog

  /** What makes a cart line unique: the product and, for sized products,
      the chosen size (`None` for a product without sizes). */
  datatype LineKey = LineKey(product: ProductId, size: Option<string>)

  datatype CartLine = CartLine(product: ProductId, size: Option<string>, quantity: int)
  {
    function Key(): LineKey
    {
      LineKey(product, size)
    }
  }

  predicate UniqueKeys(lines: seq<CartLine>)
  {
    forall i, j :: 0 <= i < j < |lines| ==> lines[i].Key() != lines[j].Key()
  }

  predicate PositiveQuantities(lines: seq<CartLine>)
  {
    forall i :: 0 <= i < |lines| ==> lines[i].quantity >= 1
  }

  /** The cart invariant: one line per key, every quantity at least 1. */
  predicate WellFormed(lines: seq<CartLine>)
  {
    UniqueKeys(lines) && PositiveQuantities(lines)
  }

  /** The position of the line with the given key, if there is one. */
  function Find(lines: seq<CartLine>, key: LineKey): (r: Option<nat>)
    ensures r.Some? ==> r.value < |lines| && lines[r.value].Key() == key
    ensures r.None? <==> forall i :: 0 <= i < |lines| ==> lines[i].Key() != key
  {
    if lines == [] then None
    else if lines[0].Key() == key then Some(0)
    else match Find(lines[1..], key)
      case None => None
      case Some(i) => Some(i + 1)
  }

  /** The quantity held under a key; 0 when the cart has no such line. */
  function QuantityOf(lines: seq<CartLine>, key: LineKey): int
  {
    match Find(lines, key)
    case None => 0
    case Some(i) => lines[i].quantity
  }

  /** With unique keys, the quantity under a line's key is that line's. */
  lemma QuantityOfLine(lines: seq<CartLine>, i: nat)
    requires UniqueKeys(lines) && i < |lines|
    ensures Find(lines, lines[i].Key()) == Some(i)
    ensures QuantityOf(lines, lines[i].Key()) == lines[i].quantity
  {
  }

  /** Adds 1 to the quantity of the line at `i`. */
  function IncreaseAt(lines: seq<CartLine>, i: nat): (r: seq<CartLine>)
    requires i < |lines|
  {
    lines[i := lines[i].(quantity := lines[i].quantity + 1)]
  }

  /** Deletes the line at `i`, keeping the others in order. */
  function RemoveAt(lines: seq<CartLine>, i: nat): (r: seq<CartLine>)
    requires i < |lines|
  {
    lines[..i] + lines[i + 1..]
  }

  /** Takes 1 off the line at `i`, deleting it instead when that would
      leave it below 1. */
  function DecreaseAt(lines: seq<CartLine>, i: nat): (r: seq<CartLine>)
    requires i < |lines|
  {
    if lines[i].quantity > 1 then lines[i := lines[i].(quantity := lines[i].quantity - 1)]
    else RemoveAt(lines, i)
  }

  /** Get-or-create with quantity 1, then quantity + 1 when the line
      already existed. */
  function AddOne(lines: seq<CartLine>, key: LineKey): (r: seq<CartLine>)
  {
    match Find(lines, key)
    case None => lines + [CartLine(key.product, key.size, 1)]
    case Some(i) => IncreaseAt(lines, i)
  }

  lemma IncreaseAtEffect(lines: seq<CartLine>, i: nat)
    requires WellFormed(lines) && i < |lines|
    ensures WellFormed(IncreaseAt(lines, i))
    ensures |IncreaseAt(lines, i)| == |lines|
    ensures QuantityOf(IncreaseAt(lines, i), lines[i].Key()) == lines[i].quantity + 1
    ensures forall k :: k != lines[i].Key() ==> QuantityOf(IncreaseAt(lines, i), k) == QuantityOf(lines, k)
  {
    var r := IncreaseAt(lines, i);
    assert forall j :: 0 <= j < |r| ==> r[j].Key() == lines[j].Key();
    QuantityOfLine(r, i);
    forall k | k != lines[i].Key() ensures QuantityOf(r, k) == QuantityOf(lines, k) {
      match Find(lines, k)
      case None =>
      case Some(j) =>
        QuantityOfLine(r, j);
    }
  }

  lemma RemoveAtEffect(lines: seq<CartLine>, i: nat)
    requires WellFormed(lines) && i < |lines|
    ensures WellFormed(RemoveAt(lines, i))
    ensures |RemoveAt(lines, i)| == |lines| - 1
    ensures Find(RemoveAt(lines, i), lines[i].Key()).None?
    ensures forall k :: k != lines[i].Key() ==> QuantityOf(RemoveAt(lines, i), k) == QuantityOf(lines, k)
  {
    var r := RemoveAt(lines, i);
    assert |r| == |lines| - 1;
    assert forall j :: 0 <= j < |r| ==> r[j] == lines[if j < i then j else j + 1];
    assert UniqueKeys(r) by {
      forall a, b | 0 <= a < b < |r| ensures r[a].Key() != r[b].Key() {
        assert r[a] == lines[if a < i then a else a + 1];
        assert r[b] == lines[if b < i then b else b + 1];
      }
    }
    assert forall j :: 0 <= j < |r| ==> r[j].Key() != lines[i].Key() by {
      forall j | 0 <= j < |r| ensures r[j].Key() != lines[i].Key() {
        assert r[j] == lines[if j < i then j else j + 1];
      }
    }
    forall k | k != lines[i].Key() ensures QuantityOf(r, k) == QuantityOf(lines, k) {
      match Find(lines, k)
      case None =>
        assert forall j :: 0 <= j < |r| ==> r[j].Key() != k by {
          forall j | 0 <= j < |r| ensures r[j].Key() != k {
            assert r[j] == lines[if j < i then j else j + 1];
          }
        }
      case Some(j) =>
        var j' := if j < i then j else j - 1;
        assert r[j'] == lines[j];
        QuantityOfLine(r, j');
    }
  }

  /** "decrease": 1 less while above 1, otherwise the line is gone, so
      quantities stay at least 1. */
  lemma DecreaseAtEffect(lines: seq<CartLine>, i: nat)
    requires WellFormed(lines) && i < |lines|
    ensures WellFormed(DecreaseAt(lines, i))
    ensures lines[i].quantity > 1 ==>
      |DecreaseAt(lines, i)| == |lines| &&
      QuantityOf(DecreaseAt(lines, i), lines[i].Key()) == lines[i].quantity - 1
    ensures lines[i].quantity == 1 ==>
      |DecreaseAt(lines, i)| == |lines| - 1 &&
      Find(DecreaseAt(lines, i), lines[i].Key()).None?
    ensures forall k :: k != lines[i].Key() ==> QuantityOf(DecreaseAt(lines, i), k) == QuantityOf(lines, k)
  {
    if lines[i].quantity > 1 {
      var r := DecreaseAt(lines, i);
      assert forall j :: 0 <= j < |r| ==> r[j].Key() == lines[j].Key();
      QuantityOfLine(r, i);
      forall k | k != lines[i].Key() ensures QuantityOf(r, k) == QuantityOf(lines, k) {
        match Find(lines, k)
        case None =>
        case Some(j) =>
          QuantityOfLine(r, j);
      }
    } else {
      RemoveAtEffect(lines, i);
    }
  }

  /** Adding to the cart creates exactly one line of quantity 1 for a new
      key, or adds exactly 1 to the existing line; nothing else changes. */
  lemma AddOneEffect(lines: seq<CartLine>, key: LineKey)
    requires WellFormed(lines)
    ensures WellFormed(AddOne(lines, key))
    ensures QuantityOf(AddOne(lines, key), key) == QuantityOf(lines, key) + 1
    ensures forall k :: k != key ==> QuantityOf(AddOne(lines, key), k) == QuantityOf(lines, k)
    ensures Find(lines, key).None? ==> AddOne(lines, key) == lines + [CartLine(key.product, key.size, 1)]
    ensures Find(lines, key).Some? ==> |AddOne(lines, key)| == |lines|
  {
    match Find(lines, key)
    case None =>
      var r := AddOne(lines, key);
      assert r[|lines|].Key() == key;
      QuantityOfLine(r, |lines|);
      forall k | k != key ensures QuantityOf(r, k) == QuantityOf(lines, k) {
        match Find(lines, k)
        case None =>
          assert forall j :: 0 <= j < |r| ==> r[j].Key() != k;
        case Some(j) =>
          QuantityOfLine(r, j);
      }
    case Some(i) =>
      IncreaseAtEffect(lines, i);
  }

  predicate ProductsKnown(lines: seq<CartLine>, catalog: map<ProductId, Product>)
  {
    forall i :: 0 <= i < |lines| ==> lines[i].product in catalog
  }

  /** The edits above only ever add lines for the key they are given, so
      lines keep naming catalogue products. */
  lemma EditsKeepProductsKnown(lines: seq<CartLine>, catalog: map<ProductId, Product>, key: LineKey, i: nat)
    requires ProductsKnown(lines, catalog) && key.product in catalog
    ensures ProductsKnown(AddOne(lines, key), catalog)
    ensures i < |lines| ==> ProductsKnown(IncreaseAt(lines, i), catalog)
    ensures i < |lines| ==> ProductsKnown(DecreaseAt(lines, i), catalog)
    ensures i < |lines| ==> ProductsKnown(RemoveAt(lines, i), catalog)
  {
    if i < |lines| {
      var r := RemoveAt(lines, i);
      assert forall j :: 0 <= j < i ==> r[j] == lines[j];
      assert forall j :: i <= j < |r| ==> r[j] == lines[j + 1];
    }
  }

  /** Every cart is well formed and names catalogue products. */
  ghost predicate CartsValid(carts: map<nat, seq<CartLine>>, catalog: map<ProductId, Product>)
  {
    forall u :: u in carts ==> WellFormed(carts[u]) && ProductsKnown(carts[u], catalog)
  }

  lemma CartsValidUpdate(carts: map<nat, seq<CartLine>>, catalog: map<ProductId, Product>, user: nat, lines: seq<CartLine>)
    requires CartsValid(carts, catalog)
    requires WellFormed(lines) && ProductsKnown(lines, catalog)
    ensures CartsValid(carts[user := lines], catalog)
  {
  }

  /** The cart a user has, or the empty one get-or-create would make. */
  function CartOf(carts: map<nat, seq<CartLine>>, user: nat): seq<CartLine>
  {
    if user in carts then carts[user] else []
  }
  /** The cart get-or-create returns is well formed and names catalogue
      products. */
  lemma CartOfValid(carts: map<nat, seq<CartLine>>, catalog: map<ProductId, Product>, user: nat)
    requires CartsValid(carts, catalog)
    ensures WellFormed(CartOf(carts, user)) && ProductsKnown(CartOf(carts, user), catalog)
    ensures CartsValid(carts[user := CartOf(carts, user)], catalog)
  {
  }


  /** A size choice is missing when the form sent none or an empty one. */
  predicate NoSizeGiven(size: Option<string>)
  {
    size.None? || size.value == ""
  }

  /** How an add-to-cart request ends. */
  datatype AddOutcome =
    | NotPost
    | ProductNotFound
    | SizeRequired
    | SizeNotFound
    | OutOfStock
    | OnlyAvailable(available: int)
    | Added

  /** The key add-to-cart files a request under: the chosen size for a
      sized product, no size otherwise. */
  function AddKey(product: ProductId, hasSizes: bool, size: Option<string>): LineKey
  {
    LineKey(product, if hasSizes then size else None)
  }

  /** The guards of add-to-cart for a product that exists, evaluated against
      the cart `lines` it reads. */
  function AddToCartDecision(product: ProductId, info: Product, stock: StockTable,
                             lines: seq<CartLine>, size: Option<string>): AddOutcome
  {
    if !info.hasSizes then Added
    else if NoSizeGiven(size) then SizeRequired
    else if Variant(product, size.value) !in stock then SizeNotFound
    else
      var available := stock[Variant(product, size.value)];
      if available <= 0 then OutOfStock
      else if Find(lines, LineKey(product, size)).Some?
              && QuantityOf(lines, LineKey(product, size)) + 1 > available then OnlyAvailable(available)
      else Added
  }

  /** The cart after add-to-cart: one more of the key when it was added,
      otherwise as it was. */
  function CartAfterAdd(outcome: AddOutcome, lines: seq<CartLine>, key: LineKey): seq<CartLine>
  {
    if outcome == Added then AddOne(lines, key) else lines
  }

  /** Add-to-cart never takes a sized line above the variant's stock unless
      it was above it already: a new line gets 1 out of a positive stock and
      an existing one grows only while quantity + 1 fits. */
  lemma AddToCartStaysWithinStock(product: ProductId, info: Product, stock: StockTable,
                                  lines: seq<CartLine>, size: Option<string>)
    requires WellFormed(lines)
    requires info.hasSizes
    requires AddToCartDecision(product, info, stock, lines, size) == Added
    ensures !NoSizeGiven(size) && Variant(product, size.value) in stock
    ensures var key := LineKey(product, size);
      QuantityOf(CartAfterAdd(Added, lines, key), key) <= stock[Variant(product, size.value)]
  {
    AddOneEffect(lines, LineKey(product, size));
  }

  /** Add-to-cart with a missing size, an unknown size or a sold-out size
      leaves the cart as it was. */
  lemma AddToCartRefusals(product: ProductId, info: Product, stock: StockTable,
                          lines: seq<CartLine>, size: Option<string>)
    requires info.hasSizes
    requires NoSizeGiven(size) || Variant(product, size.value) !in stock
             || stock[Variant(product, size.value)] <= 0
    ensures AddToCartDecision(product, info, stock, lines, size) != Added
    ensures CartAfterAdd(AddToCartDecision(product, info, stock, lines, size), lines,
                         AddKey(product, true, size)) == lines
  {
  }

  /** How a move-to-cart request ends. */
  datatype MoveOutcome =
    | MoveNotPost
    | WishItemNotFound
    | MoveSizeRequired
    | MoveSizeNotFound
    | MoveOutOfStock
    | Moved

  /** The guards of move-to-cart for a wishlist item that exists. Unlike
      add-to-cart, nothing bounds the increment of an existing line. */
  function MoveToCartDecision(product: ProductId, info: Product, stock: StockTable,
                              size: Option<string>): MoveOutcome
  {
    if !info.hasSizes then Moved
    else if NoSizeGiven(size) then MoveSizeRequired
    else if Variant(product, size.value) !in stock then MoveSizeNotFound
    else if stock[Variant(product, size.value)] <= 0 then MoveOutOfStock
    else Moved
  }

  /** Move-to-cart goes through whenever the size has some stock, so a line
      already holding all of it grows past the stock, where add-to-cart
      would have refused. */
  lemma MoveToCartIgnoresLineQuantity(product: ProductId, info: Product, size: string, held: int)
    requires info.hasSizes && size != "" && held >= 1
    ensures var stock := map[Variant(product, size) := held];
      var lines := [CartLine(product, Some(size), held)];
      var key := LineKey(product, Some(size));
      && MoveToCartDecision(product, info, stock, Some(size)) == Moved
      && QuantityOf(AddOne(lines, key), key) == held + 1 > stock[Variant(product, size)]
      && AddToCartDecision(product, info, stock, lines, Some(size)) == OnlyAvailable(held)
  {
    var lines := [CartLine(product, Some(size), held)];
    var key := LineKey(product, Some(size));
    assert lines[0].Key() == key;
    AddOneEffect(lines, key);
  }
}
