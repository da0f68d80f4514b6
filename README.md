# Storefront cart, stock and order model

A Dafny model of the shopping core of a small clothing storefront built on Django, together with two helpers from its browser script.

The storefront has:
- **products**, some of which come in sizes XS to XXL;
- **per-size stock rows**;
- **a cart per user**: one line per (product, size), with a positive quantity;
- **a wishlist per user**: at most one item per product;
- **orders**: each order snapshots its cart lines as order items.

The model treats the database as one sequential, in-memory store (`Storefront.Store`). Each view function is a method on that store. A method states the complete new state, and `Valid()` is preserved. `Valid()` means three things:
- every stock count is at least 0;
- every cart has one line per key, each line's quantity is at least 1, and every line names a catalogue product;
- every wishlist is free of duplicates and names catalogue products.

A request that ends in an error message, a JSON error or a 404 leaves the store unchanged. The one exception follows the code: `add_to_cart` creates the user's empty cart before it runs its size and stock checks.

Each view method is proved against the functions of other modules, and the properties the views promise are proved about those functions:
- `Carts`: cart-line edits.
- `Wishlists`: wishlist edits.
- `Checkout`: the stock check, the order-item snapshot and the stock after the decrement loop.

The other modules:
- `Catalog`: product defaults, size ranks, the ProductSize row and its save, and the display order of sizes.
- `OrderEmails`: the item lines printed in both order e-mails.
- `ClientScript`: the password-strength meter and `getCookie` from the browser script.
- `Text`: Python `strip()` and JavaScript `trim()` over their own whitespace sets, `split`/`join`, prefix tests and decimal rendering.

`place_order` is modelled as the code is written:
1. Every stock check runs first.
2. Then the order, its items and the decrements are written.
3. The decrements are never checked again (orders/views.py:173-179).

`Checkout.PlacedOrderStock` proves that no count goes negative anyway in a sequential store. This follows from the pre-check together with each cart holding one line per (product, size).

Only `add_to_cart` bounds a line by stock (orders/views.py:59). `update_cart_item` "increase" (orders/views.py:91-93) and `move_to_cart` (products/views.py:86-88) add one with no bound, as `Carts.MoveToCartIgnoresLineQuantity` shows.

## Model

| member | source | states |
|---|---|---|
| `Text.TrimStartShape` | orders/views.py:135-137 | dropping leading whitespace leaves a suffix; everything dropped is whitespace; the rest does not start with whitespace |
| `Text.TrimEndShape` | orders/views.py:135-137 | the mirror image for trailing whitespace: a prefix remains and everything dropped is whitespace |
| `Text.TrimShape` | orders/views.py:135-137 | `strip()` leaves a contiguous piece of the input with only whitespace around it, and the piece neither starts nor ends with whitespace |
| `Text.TrimEmptyIff` | orders/views.py:139 | a stripped field is empty exactly when the field is all whitespace |
| `Text.TrimIdempotent` | orders/views.py:135-137 | stripping twice is stripping once |
| `Text.Split` | static/js/script.js:103 | `split(";")` yields at least one piece and no piece holds the separator |
| `Text.JoinSplit` | static/js/script.js:103 | joining the pieces of a split with the separator gives back the input |
| `Text.SplitNoSeparator` | static/js/script.js:103 | a string without the separator splits into itself alone |
| `Text.SplitAfterPiece` | static/js/script.js:103 | a separator-free piece followed by the separator splits off as the first piece |
| `Text.SplitJoin` | orders/views.py:212-216 | splitting a newline-join of newline-free lines gives back exactly those lines |
| `Text.NatToString` | orders/views.py:213 | a quantity renders as decimal digits with no leading zero |
| `Text.DecimalRoundTrip` | orders/views.py:213 | the rendered digits read back as the same number |
| `Catalog.NewProduct` | products/models.py:9-10 | a new product is available and has no sizes |
| `Catalog.SizeOrder` | products/models.py:25-32 | each of the six size choices ranks as its position counted from 1, and any other code ranks 99 |
| `Catalog.SizeRanking` | products/models.py:16-32 | ranks strictly increase along XS, S, M, L, XL, XXL, and an unknown size ranks after all of them |
| `Catalog.ProductSize.constructor` | products/models.py:40-43 | a new row has stock 0 and no rank until saved |
| `Catalog.ProductSize.Save` | products/models.py:46-48 | save stores the rank of the row's size and changes nothing else, so saving twice stores the same rank |
| `Catalog.InsertByOrder` | products/models.py:50-51 | inserting a row into a listing sorted by `order` keeps it sorted: same rows plus the new one |
| `Catalog.DisplayOrder` | products/models.py:50-51 | the `ordering = ["order"]` listing is sorted by rank and is a permutation of the rows |
| `Catalog.SortedListingFollowsChoices` | products/models.py:25-51 | in a rank-sorted listing of saved rows, known sizes appear in choice order and never after an unknown size |
| `Catalog.DisplayOrderKeepsRanks` | products/models.py:46-51 | sorting keeps each row's saved rank, so the lemma above applies to `DisplayOrder`'s result |
| `Carts.Find` | orders/views.py:51-56 | the lookup of get-or-create finds a line with the key, or reports that no line has it |
| `Carts.QuantityOfLine` | orders/views.py:51-56 | with one line per key, a line's key finds that line and its quantity |
| `Carts.IncreaseAtEffect` | orders/views.py:91-93 | "increase" keeps the cart well formed, adds exactly 1 to that line, and leaves every other key's quantity alone |
| `Carts.DecreaseAtEffect` | orders/views.py:95-100 | "decrease" takes exactly 1 off a line above 1 and otherwise deletes it, so quantities stay at least 1; other keys are untouched |
| `Carts.RemoveAtEffect` | orders/views.py:115-117 | deleting a line removes that key only and keeps the cart well formed |
| `Carts.AddOneEffect` | orders/views.py:51-76 | get-or-create plus increment gives a new key quantity 1 and an existing key 1 more; other keys are untouched |
| `Carts.EditsKeepProductsKnown` | orders/views.py:51-117 | no cart edit introduces a product outside the catalogue |
| `Carts.CartsValidUpdate` | orders/views.py:36 | replacing one user's cart by a well-formed cart of catalogue products keeps every cart valid |
| `Carts.CartOfValid` | orders/views.py:36 | the cart get-or-create returns, new or existing, is valid |
| `Carts.AddToCartStaysWithinStock` | orders/views.py:47-62 | an accepted add of a sized product leaves that line at or below the size's stock |
| `Carts.AddToCartRefusals` | orders/views.py:40-49 | no size, an unknown size, or stock at or below 0 refuses the add and leaves the lines as they were |
| `Carts.MoveToCartIgnoresLineQuantity` | products/views.py:71-88 | a line already holding all the stock of its size still grows on move-to-cart, where add-to-cart refuses with "only N available" |
| `Wishlists.RemoveWish` | products/views.py:47-49 | deleting an item removes that product and only it, with every other product's count kept |
| `Wishlists.OccursOnce` | products/views.py:29-33 | a duplicate-free wishlist holds a product at most once |
| `Wishlists.AddWishEffect` | products/views.py:29-33 | adding a product any number of times leaves exactly one item for it and the other items untouched |
| `Wishlists.RemoveWishEffect` | products/views.py:47-50 | removal keeps the wishlist duplicate-free, shrinks it by one when the product was there, and changes nothing otherwise |
| `Wishlists.RemoveAbsent` | products/views.py:47-50 | removing an absent product changes nothing |
| `Wishlists.WishlistsValidUpdate` | products/views.py:29 | replacing one user's wishlist by a duplicate-free list of catalogue products keeps every wishlist valid |
| `Checkout.CheckStock` | orders/views.py:145-154 | the check passes exactly when every line passes: unsized lines always, sized lines with a row holding at least their quantity |
| `Checkout.CheckStockFirstFailure` | orders/views.py:146-154 | the first failing line decides what the check reports |
| `Checkout.OrderItemsOf` | orders/views.py:165-171 | one order item per cart line, in order, with the same product and quantity, and no size for an unsized product |
| `Checkout.Decremented` | orders/views.py:173-179 | the decrement loop keeps the set of stock rows |
| `Checkout.OneMoreLine` | orders/views.py:165-179 | visiting one more line adds its item and its decrement, and its row is still present |
| `Checkout.DecrementedByDemand` | orders/views.py:173-179 | each row loses exactly the total quantity of the lines that draw on it |
| `Checkout.DemandOfUniqueLines` | orders/views.py:51-56 | with one line per (product, size), a row's demand is the one drawing line's quantity, or 0 |
| `Checkout.PlacedOrderStock` | orders/views.py:145-179 | after a passed check, every decremented row exists; each sized line's row drops by exactly that line's quantity; other rows keep their count; no count goes below 0 |
| `Storefront.Store.constructor` | products/models.py:41 | a new store has the given non-negative stock, no carts, no wishlists and no orders |
| `Storefront.Store.CartDetail` | orders/views.py:20-28 | the caller's cart is created empty when missing and its lines are returned; nothing else changes |
| `Storefront.Store.WishlistView` | products/views.py:37-44 | the caller's wishlist is created empty when missing and its items are returned; nothing else changes |
| `Storefront.Store.AddToCart` | orders/views.py:31-79 | non-POST or an unknown product changes nothing; otherwise the cart is created and then changed as the add decision says; stock, wishlists and orders are untouched |
| `Storefront.Store.UpdateCartItem` | orders/views.py:83-111 | non-POST or a missing line changes nothing; "increase" adds 1; "decrease" takes 1 or deletes; any other action changes nothing; the reply quantity matches |
| `Storefront.Store.RemoveFromCart` | orders/views.py:115-119 | the line is deleted exactly when it is in the caller's cart; nothing else changes |
| `Storefront.Store.PlaceOrder` | orders/views.py:127-181 | see the rows below |
| `Storefront.Store.CheckCartStock` | orders/views.py:145-154 | the check loop returns the stock-check result and writes nothing |
| `Storefront.Store.CommitOrder` | orders/views.py:156-181 | appends the order with its items, applies the decrements, empties the cart and keeps the store valid |
| `Storefront.Store.AddOrderItems` | orders/views.py:164-179 | the loop attaches one item per line to the new order and decrements exactly as the decrement function says |
| `Storefront.Store.AddToWishlist` | products/views.py:27-34 | an unknown product changes nothing; otherwise the wishlist is created on first use and gets the product once |
| `Storefront.Store.RemoveFromWishlist` | products/views.py:47-50 | the item is deleted exactly when it is in the caller's wishlist; nothing else changes |
| `Storefront.Store.MoveToCart` | products/views.py:53-94 | non-POST, a missing item, a missing size, an unknown size or no stock changes nothing; otherwise the cart line is created or incremented (no stock bound) and the wishlist item deleted |
| `OrderEmails.SizeSuffix` | orders/views.py:214 | the size part of a line is empty exactly when the size is absent or empty |
| `OrderEmails.ItemLineReadsBack` | orders/views.py:213-214 | after the name and quantity label come exactly the quantity's digits, which read back as the quantity; then either the line ends (no size) or the size label and the size follow |
| `OrderEmails.ItemLineSingleLine` | orders/views.py:213-214 | a line has no newline when the name and size have none |
| `OrderEmails.ItemsTextSplits` | orders/views.py:256-258 | with newline-free names and sizes, the items block splits back into exactly one line per item |
| `OrderEmails.PlacedOrderLines` | orders/views.py:165-171 | in a placed order's block, line i names cart line i's product and quantity, with a size only for a sized product |
| `ClientScript.Utf16Length` | static/js/script.js:16 | `length` counts UTF-16 code units: between one and two per character |
| `ClientScript.Utf16LengthBmp` | static/js/script.js:16 | inside the Basic Multilingual Plane, `length` is the character count |
| `ClientScript.SatisfiedCount` | static/js/script.js:14-19 | the number of criteria met is the sum of the four 0/1 points |
| `ClientScript.Scan` | static/js/script.js:17-19 | a regular-expression test is true exactly when some character is in the class |
| `ClientScript.StrengthScore` | static/js/script.js:14-19 | the score is the number of criteria met, so at most 4 |
| `ClientScript.LevelMonotone` | static/js/script.js:29-43 | meeting more criteria never shows a weaker level |
| `ClientScript.StrongExactlyWhenAllMet` | static/js/script.js:29-43 | a non-empty password is strong exactly when all four criteria hold, and weak exactly when at most one does |
| `ClientScript.StrongExample` | static/js/script.js:14-43 | `Passw0rd!` is strong |
| `ClientScript.LowerCaseIsWeak` | static/js/script.js:14-43 | a password of lower-case letters only is weak, however long |
| `ClientScript.StrengthMeter.OnInput` | static/js/script.js:12-44 | the bar's width, caption and classes become those of the level: nothing for an empty password, otherwise 33/66/100% with weak/medium/strong |
| `ClientScript.EntryValueMeaning` | static/js/script.js:104-106 | an entry matches exactly when, trimmed, it starts with `name=`, and the value is the rest |
| `ClientScript.GetCookie` | static/js/script.js:100-111 | null for an empty cookie string; otherwise the value of the last matching entry |
| `ClientScript.LastMatchNone` | static/js/script.js:101-110 | no value is found exactly when no entry matches |
| `ClientScript.LastMatchWins` | static/js/script.js:102-107 | a value found is that of a matching entry with no matching entry after it |

`Storefront.Store.PlaceOrder` is proved for each case:
- **Refusals change nothing.** A missing cart, an empty cart, a request that only shows the form, a blank delivery field or a failed stock check leaves stock, carts and orders unchanged, and the outcome says which refusal it was.
- **A placed order has a known shape.** An order is placed exactly when none of those refusals applies. It then does four things:
  - it appends one order with the stripped delivery fields;
  - it gives that order one item per line;
  - it decrements stock exactly as the decrement function says;
  - it empties the cart.

## Left out

- Item ids: cart items and wishlist items are addressed by their natural key, (product, size) and product, rather than by a database id. Get-or-create keeps those keys unique.
- ProductSize rows: the stock table holds at most one row per (product, size). The source declares no such constraint, and a duplicate row would make its lookups raise instead of 404.
- Transactions and row locks: `transaction.atomic` and `select_for_update` are not modelled. Each view is one sequential step. The order items are attached to the new order in one assignment after the loop, which the transaction makes indistinguishable from one at a time.
- Prices: `price`, `total_price()` and the `cart_total`/`item_total` strings in the JSON replies are not modelled. They are decimal money formatting defined outside the modelled files.
- Request plumbing: login checks, messages, redirects, templates and JSON bodies are not modelled. The user is a parameter; the POST fields are parameters, a missing field being `None` or `""` as in the code.
- Stock of unsized products: unsized products have no stock row and are never checked, as in the code.
- E-mails: sending, subjects, timestamps, the HTML bodies and the empty-address early return of the customer e-mail are I/O. Only the item-line text is modelled.
- Render-only views: `product_list` and `product_detail` only read, so they are not modelled. `cart_detail` and `wishlist_view` are modelled only for their get-or-create; rendering the page is not modelled.
- Iteration order: the source loops over `cart.items` and `order.items` (orders/views.py:146, 165, 200, 244) with no ordering declared in the modelled files. orders/models.py is not part of this model. The model takes the cart's line sequence, in the order lines were created, as that order. That choice decides which line `StockRefused` names (`Checkout.CheckStockFirstFailure`), the order of the items in `Checkout.OrderItemsOf`, and what "line i" means in `OrderEmails.PlacedOrderLines`.
- Integer width: `stock` is a `PositiveIntegerField` (products/models.py:41), and cart and order quantities are database integers. Both are bounded columns. The model uses unbounded `int`, so an overflow of a column is not modelled. Such an overflow could come from the unbounded increments of `update_cart_item` "increase" and `move_to_cart`. The database's own check that `stock` is at least 0 appears only as the `Valid()` invariant.
- Catalogue changes: the catalogue is fixed for the store's lifetime. Product deletion and its cascades are not modelled.
- `ClientScript.EntryValueMeaning`: `decodeURIComponent` is taken as the identity, so the URIError it raises on a malformed escape is not modelled.
- The strength meter's DOM elements are three fields of `ClientScript.StrengthMeter`, and its `input` listener is a method called with the input's value.
- The browser script's message fading, `fetch` calls and DOM updates are not modelled.
- Strings are sequences of Unicode scalar values. The JavaScript side's lone surrogates cannot be represented.
