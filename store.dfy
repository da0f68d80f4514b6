/** The storefront's state and the view operations that change it
    (orders/views.py and products/views.py), as one sequential in-memory
    store. A request that ends in a redirect with an error message, a
    JSON error or a 404 leaves the store as it was, except where the
    source has already created an empty cart. */
module Storefront {
  import opened Text
  import opened Catalog
  import opened Carts
  import opened Wishlists
  import opened Checkout

  /** How an update-cart-item request ends (the JSON reply). */
  datatype UpdateOutcome =
    | InvalidRequest
    | ItemNotFound
    | LineRemoved
    | LineQuantity(quantity: int)

  /** How a place-order request ends. */
  datatype PlaceOutcome =
    | CartNotFound
    | CartEmpty
    | ShowForm
    | MissingDetails
    | StockRefused(check: LineCheck)
    | Placed(orderId: nat)

  function WishlistOf(wishlists: map<UserId, seq<ProductId>>, user: UserId): seq<ProductId>
  {
    if user in wishlists then wishlists[user] else []
  }

  /** All three delivery fields are non-empty once stripped. */
  predicate DetailsGiven(fullName: string, phone: string, address: string)
  {
    Trim(fullName, PythonWhitespace) != "" && Trim(phone, PythonWhitespace) != ""
    && Trim(address, PythonWhitespace) != ""
  }

  class Store {
    /** The products, read-only for every operation here. */
    const catalog: map<ProductId, Product>
    /** The ProductSize table's stock counts. */
    var stock: StockTable
    /** Each user's cart, present once created; at most one per user. */
    var carts: map<UserId, seq<CartLine>>
    /** Each user's wishlist, present once created; at most one per user. */
    var wishlists: map<UserId, seq<ProductId>>
    /** Every order placed so far, oldest first. */
    var orders: seq<Order>

    ghost predicate Valid()
      reads this
    {
      StockNonNegative(stock) && CartsValid(carts, catalog) && WishlistsValid(wishlists, catalog)
    }

    constructor (catalog: map<ProductId, Product>, stock: StockTable)
      requires StockNonNegative(stock)
      ensures Valid()
      ensures this.catalog == catalog && this.stock == stock
      ensures carts == map[] && wishlists == map[] && orders == []
    {
      this.catalog := catalog;
      this.stock := stock;
      carts := map[];
      wishlists := map[];
      orders := [];
    }

    /** cart_detail: get-or-create the caller's cart and return its lines.
        Opening the cart page therefore creates an empty cart, after which
        place_order answers CartEmpty rather than CartNotFound. */
    method CartDetail(user: UserId) returns (lines: seq<CartLine>)
      requires Valid()
      modifies this`carts
      ensures Valid()
      ensures lines == CartOf(old(carts), user)
      ensures carts == old(carts)[user := lines]
    {
      lines := CartOf(carts, user);
      CartOfValid(carts, catalog, user);
      carts := carts[user := lines];
    }

    /** wishlist_view: get-or-create the caller's wishlist and return its
        items. */
    method WishlistView(user: UserId) returns (items: seq<ProductId>)
      requires Valid()
      modifies this`wishlists
      ensures Valid()
      ensures items == WishlistOf(old(wishlists), user)
      ensures wishlists == old(wishlists)[user := items]
    {
      items := WishlistOf(wishlists, user);
      WishlistsValidUpdate(wishlists, catalog, user, items);
      wishlists := wishlists[user := items];
    }

    /** add_to_cart. The cart is created before the size and stock guards
        run, so a refused request can still leave a new, empty cart. */
    method AddToCart(user: UserId, isPost: bool, product: ProductId, size: Option<string>) returns (r: AddOutcome)
      requires Valid()
      modifies this
      ensures Valid()
      ensures stock == old(stock) && wishlists == old(wishlists) && orders == old(orders)
      ensures !isPost ==> r == NotPost && carts == old(carts)
      ensures isPost && product !in catalog ==> r == ProductNotFound && carts == old(carts)
      ensures isPost && product in catalog ==>
        var lines := CartOf(old(carts), user);
        && r == AddToCartDecision(product, catalog[product], stock, lines, size)
        && carts == old(carts)[user := CartAfterAdd(r, lines, AddKey(product, catalog[product].hasSizes, size))]
    {
      if !isPost {
        return NotPost;
      }
      if product !in catalog {
        return ProductNotFound;
      }
      var lines := CartOf(carts, user);
      CartOfValid(carts, catalog, user);
      carts := carts[user := lines];
      r := AddToCartGuards(product, lines, size);
      if r == Added {
        var key := AddKey(product, catalog[product].hasSizes, size);
        AddOneEffect(lines, key);
        EditsKeepProductsKnown(lines, catalog, key, 0);
        CartsValidUpdate(carts, catalog, user, AddOne(lines, key));
        carts := carts[user := AddOne(lines, key)];
      }
    }

    /** The size and stock guards of add_to_cart for a product that exists,
        reading the cart `lines`. */
    method AddToCartGuards(product: ProductId, lines: seq<CartLine>, size: Option<string>) returns (r: AddOutcome)
      requires product in catalog
      ensures r == AddToCartDecision(product, catalog[product], stock, lines, size)
    {
      if catalog[product].hasSizes {
        if size.None? || size.value == "" {
          return SizeRequired;
        }
        var v := Variant(product, size.value);
        if v !in stock {
          return SizeNotFound;
        }
        if stock[v] <= 0 {
          return OutOfStock;
        }
        var found := Find(lines, LineKey(product, size));
        if found.Some? && lines[found.value].quantity + 1 > stock[v] {
          return OnlyAvailable(stock[v]);
        }
      }
      r := Added;
    }

    /** update_cart_item: "increase" adds 1 without looking at stock,
        "decrease" takes 1 off or deletes a line of quantity 1, and any
        other action changes nothing. */
    method UpdateCartItem(user: UserId, isPost: bool, key: LineKey, action: Option<string>)
      returns (r: UpdateOutcome)
      requires Valid()
      modifies this
      ensures Valid()
      ensures stock == old(stock) && wishlists == old(wishlists) && orders == old(orders)
      ensures !isPost ==> r == InvalidRequest && carts == old(carts)
      ensures isPost && (user !in old(carts) || Find(old(carts)[user], key).None?) ==>
        r == ItemNotFound && carts == old(carts)
      ensures isPost && user in old(carts) && Find(old(carts)[user], key).Some? ==>
        var lines := old(carts)[user];
        var i := Find(lines, key).value;
        if action == Some("increase") then
          carts == old(carts)[user := IncreaseAt(lines, i)] && r == LineQuantity(lines[i].quantity + 1)
        else if action == Some("decrease") then
          carts == old(carts)[user := DecreaseAt(lines, i)] &&
          r == (if lines[i].quantity > 1 then LineQuantity(lines[i].quantity - 1) else LineRemoved)
        else
          carts == old(carts) && r == LineQuantity(lines[i].quantity)
    {
      if !isPost {
        return InvalidRequest;
      }
      if user !in carts {
        return ItemNotFound;
      }
      var lines := carts[user];
      var found := Find(lines, key);
      if found.None? {
        return ItemNotFound;
      }
      var i := found.value;
      EditsKeepProductsKnown(lines, catalog, key, i);
      if action == Some("increase") {
        IncreaseAtEffect(lines, i);
        carts := carts[user := IncreaseAt(lines, i)];
        r := LineQuantity(lines[i].quantity + 1);
      } else if action == Some("decrease") {
        DecreaseAtEffect(lines, i);
        carts := carts[user := DecreaseAt(lines, i)];
        r := if lines[i].quantity > 1 then LineQuantity(lines[i].quantity - 1) else LineRemoved;
      } else {
        r := LineQuantity(lines[i].quantity);
      }
    }

    /** remove_from_cart: deletes the line only when it is in the caller's
        cart. */
    method RemoveFromCart(user: UserId, key: LineKey) returns (removed: bool)
      requires Valid()
      modifies this
      ensures Valid()
      ensures stock == old(stock) && wishlists == old(wishlists) && orders == old(orders)
      ensures removed <==> user in old(carts) && Find(old(carts)[user], key).Some?
      ensures removed ==> carts == old(carts)[user := RemoveAt(old(carts)[user], Find(old(carts)[user], key).value)]
      ensures !removed ==> carts == old(carts)
    {
      if user !in carts {
        return false;
      }
      var lines := carts[user];
      match Find(lines, key)
      case None =>
        removed := false;
      case Some(i) =>
        RemoveAtEffect(lines, i);
        EditsKeepProductsKnown(lines, catalog, key, i);
        carts := carts[user := RemoveAt(lines, i)];
        removed := true;
    }

    /** place_order, as written: every stock check runs first, then the
        order is created, each line gets its order item and, when sized, its
        variant's stock decremented without checking again, and the cart is
        emptied. On any refusal nothing changes. */
    method PlaceOrder(user: UserId, isPost: bool, fullName: string, phone: string, address: string)
      returns (r: PlaceOutcome)
      requires Valid()
      modifies this
      ensures Valid()
      ensures wishlists == old(wishlists)
      ensures r.Placed? <==>
        && user in old(carts) && old(carts)[user] != [] && isPost
        && DetailsGiven(fullName, phone, address)
        && CheckStock(old(carts)[user], catalog, old(stock)) == Available
      ensures !r.Placed? ==>
        && stock == old(stock) && carts == old(carts) && orders == old(orders)
        && r == (if user !in old(carts) then CartNotFound
                 else if old(carts)[user] == [] then CartEmpty
                 else if !isPost then ShowForm
                 else if !DetailsGiven(fullName, phone, address) then MissingDetails
                 else StockRefused(CheckStock(old(carts)[user], catalog, old(stock))))
      ensures r.Placed? ==>
        var lines := old(carts)[user];
        && r.orderId == |old(orders)|
        && orders == old(orders) + [Order(user, Trim(fullName, PythonWhitespace), Trim(phone, PythonWhitespace),
                                          Trim(address, PythonWhitespace), OrderItemsOf(lines, catalog))]
        && VariantsPresent(lines, catalog, old(stock))
        && stock == Decremented(old(stock), lines, catalog)
        && carts == old(carts)[user := []]
    {
      if user !in carts {
        return CartNotFound;
      }
      var lines := carts[user];
      if lines == [] {
        return CartEmpty;
      }
      if !isPost {
        return ShowForm;
      }
      var name := Trim(fullName, PythonWhitespace);
      var tel := Trim(phone, PythonWhitespace);
      var addr := Trim(address, PythonWhitespace);
      if name == "" || tel == "" || addr == "" {
        return MissingDetails;
      }

      var check := CheckCartStock(lines);
      if check != Available {
        return StockRefused(check);
      }
      var orderId := CommitOrder(user, name, tel, addr);
      r := Placed(orderId);
    }

    /** The check loop of place_order: the first sized line whose
        ProductSize row is missing or holds less than its quantity. */
    method CheckCartStock(lines: seq<CartLine>) returns (check: LineCheck)
      requires ProductsKnown(lines, catalog)
      ensures check == CheckStock(lines, catalog, stock)
    {
      var i := 0;
      while i < |lines|
        invariant 0 <= i <= |lines|
        invariant forall j :: 0 <= j < i ==> CheckLine(lines[j], catalog, stock) == Available
      {
        var line := lines[i];
        if catalog[line.product].hasSizes {
          if line.size.None? || Variant(line.product, line.size.value) !in stock {
            CheckStockFirstFailure(lines, catalog, stock, i);
            return VariantMissing(line.product, line.size);
          }
          if stock[Variant(line.product, line.size.value)] < line.quantity {
            CheckStockFirstFailure(lines, catalog, stock, i);
            return NotEnoughStock(line.product, line.size);
          }
        }
        i := i + 1;
      }
      check := Available;
    }

    /** The writes of place_order once every check has passed: the order,
        its items, the decrements (not checked again) and the emptied cart. */
    method CommitOrder(user: UserId, name: string, tel: string, addr: string) returns (orderId: nat)
      requires Valid()
      requires user in carts
      requires CheckStock(carts[user], catalog, stock) == Available
      modifies this
      ensures Valid()
      ensures wishlists == old(wishlists)
      ensures orderId == |old(orders)|
      ensures orders == old(orders) + [Order(user, name, tel, addr, OrderItemsOf(old(carts)[user], catalog))]
      ensures VariantsPresent(old(carts)[user], catalog, old(stock))
      ensures stock == Decremented(old(stock), old(carts)[user], catalog)
      ensures carts == old(carts)[user := []]
    {
      var lines := carts[user];
      PlacedOrderStock(stock, lines, catalog);
      orderId := |orders|;
      orders := orders + [Order(user, name, tel, addr, [])];
      AddOrderItems(lines);
      CartsValidUpdate(carts, catalog, user, []);
      carts := carts[user := []];
    }

    /** The loop of place_order over the cart lines: each line becomes an
        item of the newest order and, when sized, takes its quantity off its
        variant's stock. The items are attached together at the end, which
        the surrounding transaction makes indistinguishable from one by one. */
    method AddOrderItems(lines: seq<CartLine>)
      requires ProductsKnown(lines, catalog) && VariantsPresent(lines, catalog, stock)
      requires orders != [] && orders[|orders| - 1].items == []
      modifies this`orders, this`stock
      ensures |orders| == |old(orders)| && orders[..|orders| - 1] == old(orders)[..|orders| - 1]
      ensures orders[|orders| - 1] == old(orders)[|orders| - 1].(items := OrderItemsOf(lines, catalog))
      ensures stock == Decremented(old(stock), lines, catalog)
    {
      var n := |orders| - 1;
      var items: seq<OrderItem> := [];
      var k := 0;
      while k < |lines|
        invariant 0 <= k <= |lines|
        invariant items == OrderItemsOf(lines[..k], catalog)
        invariant stock == Decremented(old(stock), lines[..k], catalog)
        invariant orders == old(orders)
      {
        OneMoreLine(old(stock), lines, catalog, k);
        var line := lines[k];
        items := items + [OrderItem(line.product, line.quantity,
                                    if catalog[line.product].hasSizes then line.size else None)];
        if catalog[line.product].hasSizes {
          var v := Variant(line.product, line.size.value);
          stock := stock[v := stock[v] - line.quantity];
        }
        k := k + 1;
      }
      assert lines[..|lines|] == lines;
      orders := orders[n := orders[n].(items := items)];
    }

    /** add_to_wishlist: the wishlist is created on first use and holds at
        most one item per product. */
    method AddToWishlist(user: UserId, product: ProductId) returns (added: bool)
      requires Valid()
      modifies this
      ensures Valid()
      ensures stock == old(stock) && carts == old(carts) && orders == old(orders)
      ensures added <==> product in catalog
      ensures added ==> wishlists == old(wishlists)[user := AddWish(WishlistOf(old(wishlists), user), product)]
      ensures !added ==> wishlists == old(wishlists)
    {
      if product !in catalog {
        return false;
      }
      if user !in wishlists {
        wishlists := wishlists[user := []];
      }
      var items := wishlists[user];
      AddWishEffect(items, product);
      if product !in items {
        wishlists := wishlists[user := items + [product]];
      }
      added := true;
    }

    /** remove_from_wishlist: deletes the item only when it is in the
        caller's wishlist. */
    method RemoveFromWishlist(user: UserId, product: ProductId) returns (removed: bool)
      requires Valid()
      modifies this
      ensures Valid()
      ensures stock == old(stock) && carts == old(carts) && orders == old(orders)
      ensures removed <==> user in old(wishlists) && product in old(wishlists)[user]
      ensures removed ==> wishlists == old(wishlists)[user := RemoveWish(old(wishlists)[user], product)]
      ensures !removed ==> wishlists == old(wishlists)
    {
      if user !in wishlists || product !in wishlists[user] {
        return false;
      }
      RemoveWishEffect(wishlists[user], product);
      wishlists := wishlists[user := RemoveWish(wishlists[user], product)];
      removed := true;
    }

    /** move_to_cart: after the size and stock guards, get-or-create the
        cart line (quantity 1, or 1 more with no stock bound) and delete the
        wishlist item. */
    method MoveToCart(user: UserId, isPost: bool, product: ProductId, size: Option<string>)
      returns (r: MoveOutcome)
      requires Valid()
      modifies this
      ensures Valid()
      ensures stock == old(stock) && orders == old(orders)
      ensures !isPost ==> r == MoveNotPost && carts == old(carts) && wishlists == old(wishlists)
      ensures isPost && (user !in old(wishlists) || product !in old(wishlists)[user]) ==>
        r == WishItemNotFound && carts == old(carts) && wishlists == old(wishlists)
      ensures isPost && user in old(wishlists) && product in old(wishlists)[user] ==>
        && product in catalog
        && r == MoveToCartDecision(product, catalog[product], stock, size)
        && (r == Moved ==>
              && carts == old(carts)[user := AddOne(CartOf(old(carts), user),
                                                    AddKey(product, catalog[product].hasSizes, size))]
              && wishlists == old(wishlists)[user := RemoveWish(old(wishlists)[user], product)])
        && (r != Moved ==> carts == old(carts) && wishlists == old(wishlists))
    {
      if !isPost {
        return MoveNotPost;
      }
      if user !in wishlists || product !in wishlists[user] {
        return WishItemNotFound;
      }
      var selected: Option<string> := None;
      if catalog[product].hasSizes {
        selected := size;
        if selected.None? || selected.value == "" {
          return MoveSizeRequired;
        }
        var v := Variant(product, selected.value);
        if v !in stock {
          return MoveSizeNotFound;
        }
        if stock[v] <= 0 {
          return MoveOutOfStock;
        }
      }
      var lines := CartOf(carts, user);
      var key := LineKey(product, selected);
      AddOneEffect(lines, key);
      EditsKeepProductsKnown(lines, catalog, key, 0);
      carts := carts[user := AddOne(lines, key)];
      RemoveWishEffect(wishlists[user], product);
      wishlists := wishlists[user := RemoveWish(wishlists[user], product)];
      r := Moved;
    }
  }
}
