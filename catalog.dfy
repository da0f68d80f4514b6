/** The catalogue side of the storefront (products/models.py): products,
    the fixed size enumeration with its display rank, the per-size stock
    rows, and the order in which a product's sizes are listed. */
module Catalog {
  import opened Text

  type ProductId = nat

  /** A catalogue entry. Price, image and creation time are not modelled. */
  datatype Product = Product(name: string, description: string, available: bool, hasSizes: bool)

  /** A product as created without explicit flags: on sale, and without
      size variants. */
  function NewProduct(name: string, description: string): (p: Product)
    ensures p.name == name && p.description == description
    ensures p.available
    ensures !p.hasSizes
  {
    Product(name, description, true, false)
  }

  /** The size codes a ProductSize may be given, smallest first. */
  const SizeChoices: seq<string> := ["XS", "S", "M", "L", "XL", "XXL"]

  /** The display rank of each known size code. */
  const SizeOrderTable: map<string, nat> := map["XS" := 1, "S" := 2, "M" := 3, "L" := 4, "XL" := 5, "XXL" := 6]

  /** The rank given to any size code missing from `SizeOrderTable`. */
  const UnknownSizeRank: nat := 99

  /** The rank stored in a ProductSize's `order` field on save: a known
      size's rank is its position in `SizeChoices`, counted from 1, and any
      other code ranks 99. */
  function SizeOrder(size: string): (r: nat)
    ensures forall i :: 0 <= i < |SizeChoices| && SizeChoices[i] == size ==> r == i + 1
    ensures size !in SizeChoices ==> r == UnknownSizeRank
  {
    if size in SizeOrderTable then SizeOrderTable[size] else UnknownSizeRank
  }

  /** The ranks strictly increase along the size choices, and every unknown
      code ranks after all known ones. */
  lemma SizeRanking(a: nat, b: nat, unknown: string)
    requires a < b < |SizeChoices|
    requires unknown !in SizeChoices
    ensures SizeOrder(SizeChoices[a]) < SizeOrder(SizeChoices[b])
    ensures SizeOrder(SizeChoices[b]) < SizeOrder(unknown)
  {
  }

  /** A ProductSize row's identity: the product and the size code. */
  datatype Variant = Variant(product: ProductId, size: string)

  /** The stock column of the ProductSize table, one count per variant. */
  type StockTable = map<Variant, int>

  ghost predicate StockNonNegative(stock: StockTable)
  {
    forall v :: v in stock ==> stock[v] >= 0
  }

  /** One ProductSize row, modelling only `save` and the `order` field it
      writes. The row's stock count is the entry for its variant in the
      store's `StockTable` (Storefront.Store.stock); the `stock` field here
      only records the column's default of 0 for a new row. */
  class ProductSize {
    const product: ProductId
    var size: string
    var stock: nat
    var order: Option<nat>

    /** A fresh row: no stock and no rank until it is saved. */
    constructor (product: ProductId, size: string)
      ensures this.product == product && this.size == size
      ensures stock == 0 && order == None
    {
      this.product := product;
      this.size := size;
      stock := 0;
      order := None;
    }

    /** Sets `order` from the size alone, so saving again stores the same
        rank. */
    method Save()
      modifies this`order
      ensures order == Some(SizeOrder(size))
    {
      order := Some(SizeOrder(size));
    }
  }

  /** A saved ProductSize row as a listing returns it. */
  datatype ListedSize = ListedSize(size: string, stock: nat, order: nat)

  /** Every row carries the rank `Save` stores for its size. */
  predicate RanksSaved(rows: seq<ListedSize>)
  {
    forall i :: 0 <= i < |rows| ==> rows[i].order == SizeOrder(rows[i].size)
  }

  /** Rows by ascending `order`, as the `ordering` of ProductSize asks. */
  predicate SortedByOrder(rows: seq<ListedSize>)
  {
    forall i, j :: 0 <= i < j < |rows| ==> rows[i].order <= rows[j].order
  }

  /** Putting a row of least rank in front of a sorted listing keeps it sorted. */
  lemma SortedCons(x: ListedSize, rows: seq<ListedSize>)
    requires SortedByOrder(rows)
    requires forall k :: 0 <= k < |rows| ==> x.order <= rows[k].order
    ensures SortedByOrder([x] + rows)
  {
    var r := [x] + rows;
    forall i, j | 0 <= i < j < |r| ensures r[i].order <= r[j].order {
      assert r[j] == rows[j - 1];
      if i > 0 {
        assert r[i] == rows[i - 1];
      }
    }
  }

  /** A lower bound on the ranks of `rows` and of `x` bounds every row of
      a rearrangement of them. */
  lemma RanksAtLeast(lo: nat, x: ListedSize, rows: seq<ListedSize>, r: seq<ListedSize>)
    requires lo <= x.order
    requires forall k :: 0 <= k < |rows| ==> lo <= rows[k].order
    requires multiset(r) == multiset(rows) + multiset{x}
    ensures forall k :: 0 <= k < |r| ==> lo <= r[k].order
  {
    forall k | 0 <= k < |r| ensures lo <= r[k].order {
      assert r[k] in multiset(r);
      if r[k] != x {
        var m :| 0 <= m < |rows| && rows[m] == r[k];
      }
    }
  }

  function InsertByOrder(x: ListedSize, rows: seq<ListedSize>): (r: seq<ListedSize>)
    requires SortedByOrder(rows)
    ensures SortedByOrder(r)
    ensures multiset(r) == multiset(rows) + multiset{x}
  {
    if rows == [] || x.order <= rows[0].order then
      SortedCons(x, rows);
      [x] + rows
    else
      var rest := InsertByOrder(x, rows[1..]);
      assert rows == [rows[0]] + rows[1..];
      RanksAtLeast(rows[0].order, x, rows[1..], rest);
      SortedCons(rows[0], rest);
      [rows[0]] + rest
  }

  /** A product's size rows in display order: the same rows, by ascending
      `order`. */
  function DisplayOrder(rows: seq<ListedSize>): (r: seq<ListedSize>)
    ensures SortedByOrder(r)
    ensures multiset(r) == multiset(rows)
  {
    if rows == [] then []
    else
      assert rows == [rows[0]] + rows[1..];
      InsertByOrder(rows[0], DisplayOrder(rows[1..]))
  }

  /** In a listing of saved rows sorted by rank, a known size is never
      preceded by an unknown one, and two known sizes appear in the order of
      the choices (XS, S, M, L, XL, XXL). */
  lemma SortedListingFollowsChoices(r: seq<ListedSize>, i: nat, j: nat, a: nat, b: nat)
    requires SortedByOrder(r) && RanksSaved(r)
    requires i < j < |r|
    requires a < |SizeChoices| && b < |SizeChoices|
    requires r[j].size == SizeChoices[b]
    ensures r[i].size in SizeChoices
    ensures r[i].size == SizeChoices[a] ==> a <= b
  {
    assert r[i].order <= r[j].order;
  }

  /** Sorting keeps every row's saved rank, so a display-ordered listing of
      saved rows lists known sizes in the order of the choices and unknown
      sizes last. */
  lemma DisplayOrderKeepsRanks(rows: seq<ListedSize>)
    requires RanksSaved(rows)
    ensures RanksSaved(DisplayOrder(rows))
    ensures SortedByOrder(DisplayOrder(rows))
  {
    var r := DisplayOrder(rows);
    forall i | 0 <= i < |r| ensures r[i].order == SizeOrder(r[i].size) {
      assert r[i] in multiset(r);
      var m :| 0 <= m < |rows| && rows[m] == r[i];
    }
  }
}
