/** The items of one user's wishlist (the WishlistItem rows of
    products/views.py). Get-or-create keeps at most one item per product, so
    an item is identified by its product. */
module Wishlists {
  import opened Catalog

  predicate NoDuplicates(items: seq<ProductId>)
  {
    forall i, j :: 0 <= i < j < |items| ==> items[i] != items[j]
  }

  /** Get-or-create of the item for `p`. */
  function AddWish(items: seq<ProductId>, p: ProductId): (r: seq<ProductId>)
  {
    if p in items then items else items + [p]
  }

  /** Deletes the item for `p`, keeping the others in order. */
  function RemoveWish(items: seq<ProductId>, p: ProductId): (r: seq<ProductId>)
    ensures p !in r
    ensures forall q :: q != p ==> (q in r <==> q in items)
    ensures multiset(r) == multiset(items)[p := 0]
  {
    if items == [] then []
    else
      assert items == [items[0]] + items[1..];
      if items[0] == p then RemoveWish(items[1..], p)
      else [items[0]] + RemoveWish(items[1..], p)
  }

  /** A duplicate-free list holds a product at most once. */
  lemma {:induction false} OccursOnce(items: seq<ProductId>, p: ProductId)
    requires NoDuplicates(items)
    ensures multiset(items)[p] == if p in items then 1 else 0
  {
    if items != [] {
      assert items == [items[0]] + items[1..];
      assert NoDuplicates(items[1..]) by {
        forall i, j | 0 <= i < j < |items[1..]| ensures items[1..][i] != items[1..][j] {
          assert items[1..][i] == items[i + 1] && items[1..][j] == items[j + 1];
        }
      }
      OccursOnce(items[1..], p);
      if items[0] == p {
        assert p !in items[1..] by {
          forall k | 0 <= k < |items[1..]| ensures items[1..][k] != p {
            assert items[1..][k] == items[k + 1];
          }
        }
      }
    }
  }

  /** However often a product is added, its wishlist holds exactly one item
      for it, and the other items are untouched. */
  lemma AddWishEffect(items: seq<ProductId>, p: ProductId)
    requires NoDuplicates(items)
    ensures NoDuplicates(AddWish(items, p))
    ensures multiset(AddWish(items, p))[p] == 1
    ensures forall q :: q != p ==> multiset(AddWish(items, p))[q] == multiset(items)[q]
    ensures AddWish(AddWish(items, p), p) == AddWish(items, p)
  {
    var r := AddWish(items, p);
    OccursOnce(r, p);
  }

  /** Removing deletes only the named product's item; with no duplicates
      the list shrinks by exactly one when it was there. */
  lemma RemoveWishEffect(items: seq<ProductId>, p: ProductId)
    requires NoDuplicates(items)
    ensures NoDuplicates(RemoveWish(items, p))
    ensures p in items ==> |RemoveWish(items, p)| == |items| - 1
    ensures p !in items ==> RemoveWish(items, p) == items
  {
    var r := RemoveWish(items, p);
    OccursOnce(items, p);
    assert |r| == |multiset(r)|;
    forall q ensures multiset(r)[q] <= 1 {
      OccursOnce(items, q);
    }
    NoDuplicatesFromCounts(r);
    if p !in items {
      RemoveAbsent(items, p);
    }
  }

  lemma {:induction false} RemoveAbsent(items: seq<ProductId>, p: ProductId)
    requires p !in items
    ensures RemoveWish(items, p) == items
  {
    if items != [] {
      assert items[0] in items;
      assert p !in items[1..] by { assert forall q :: q in items[1..] ==> q in items; }
      RemoveAbsent(items[1..], p);
      assert items == [items[0]] + items[1..];
    }
  }

  lemma TwoOccurrences(items: seq<ProductId>, i: nat, j: nat)
    requires i < j < |items| && items[i] == items[j]
    ensures multiset(items)[items[i]] >= 2
  {
    var q := items[i];
    assert items == items[..j] + items[j..];
    assert items[..j][i] == q && items[j..][0] == q;
  }

  lemma NoDuplicatesFromCounts(items: seq<ProductId>)
    requires forall q :: multiset(items)[q] <= 1
    ensures NoDuplicates(items)
  {
    forall i, j | 0 <= i < j < |items| ensures items[i] != items[j] {
      if items[i] == items[j] {
        TwoOccurrences(items, i, j);
        assert false;
      }
    }
  }

  /** Every wishlist is free of duplicates and names catalogue products. */
  ghost predicate WishlistsValid(wishlists: map<nat, seq<ProductId>>, catalog: map<ProductId, Product>)
  {
    forall u :: u in wishlists ==>
      NoDuplicates(wishlists[u]) && forall p :: p in wishlists[u] ==> p in catalog
  }

  lemma WishlistsValidUpdate(wishlists: map<nat, seq<ProductId>>, catalog: map<ProductId, Product>,
                             user: nat, items: seq<ProductId>)
    requires WishlistsValid(wishlists, catalog)
    requires NoDuplicates(items) && forall p :: p in items ==> p in catalog
    ensures WishlistsValid(wishlists[user := items], catalog)
  {
  }
}
