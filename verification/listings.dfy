/** The four product listings (`getFlashDeals`, `getNewArrivals`,
    `getProducts`, `getBestSellers`): one query each that keeps the
    products in stock that meet the listing's own condition, orders them,
    and cuts the result; then every row's numeric columns are coerced and
    its images attached with `processProductImages`. */
module Listings {
  import opened Wrappers
  import opened Query
  import opened Catalog
  import opened ProductImages
  import Search
  import Detail

  /** Which listing is asked for. `cutoff` is the moment thirty days
      before the request; `category` the `category` query parameter when
      one was given. */
  datatype Listing =
    | FlashDeals
    | NewArrivals(cutoff: int)
    | AllProducts(category: Option<nat>)
    | BestSellers

  /** `LIMIT 12` on the three home-page listings; the full catalogue is not cut. */
  const HomeListingLimit: nat := 12

  /** Effective stock above zero, the condition every listing shares. */
  predicate InStock(p: ProductRow, variants: seq<VariantRow>) {
    EffectiveStock(p, variants) > 0
  }

  /** The listing's `WHERE` (and, for best sellers, `HAVING`) condition. */
  predicate Qualifies(l: Listing, variants: seq<VariantRow>, p: ProductRow) {
    InStock(p, variants)
    && match l
       case FlashDeals => SqlPositive(p.discountedPrice) && SqlPositive(p.discountPercentage)
       case NewArrivals(cutoff) => p.createdAt >= cutoff
       case AllProducts(category) => category.None? || p.categoryId == category
       case BestSellers => p.totalSold > 0
  }

  /** `ORDER BY discount_percentage DESC, created_at DESC`. */
  function FlashKey(p: ProductRow): seq<real> {
    [-NumberOrZero(p.discountPercentage), -(p.createdAt as real)]
  }

  /** `ORDER BY created_at DESC`. */
  function NewestKey(p: ProductRow): seq<real> {
    [-(p.createdAt as real)]
  }

  /** `ORDER BY created_at DESC, product_id DESC`. */
  function CatalogKey(p: ProductRow): seq<real> {
    [-(p.createdAt as real), -(p.productId as real)]
  }

  /** `ORDER BY total_sold DESC, created_at DESC`. */
  function BestSellerKey(p: ProductRow): seq<real> {
    [-(p.totalSold as real), -(p.createdAt as real)]
  }

  function OrderKey(l: Listing): ProductRow -> seq<real> {
    match l
    case FlashDeals => FlashKey
    case NewArrivals(_) => NewestKey
    case AllProducts(_) => CatalogKey
    case BestSellers => BestSellerKey
  }

  /** How many rows the listing may return: twelve, or every qualifying row. */
  function RowLimit(l: Listing, products: seq<ProductRow>): nat {
    if l.AllProducts? then |products| else HomeListingLimit
  }

  function QualifiesIn(l: Listing, variants: seq<VariantRow>): ProductRow -> bool {
    (p: ProductRow) => Qualifies(l, variants, p)
  }

  /** The rows the listing's query returns. */
  function SelectRows(l: Listing, products: seq<ProductRow>, variants: seq<VariantRow>): seq<ProductRow> {
    Select(products, QualifiesIn(l, variants), OrderKey(l), RowLimit(l, products))
  }

  /** The `ORDER BY` clause read column by column: `a` may be listed before `b`. */
  predicate RanksFirst(l: Listing, a: ProductRow, b: ProductRow) {
    match l
    case FlashDeals =>
      NumberOrZero(a.discountPercentage) > NumberOrZero(b.discountPercentage)
      || (NumberOrZero(a.discountPercentage) == NumberOrZero(b.discountPercentage) && a.createdAt >= b.createdAt)
    case NewArrivals(_) => a.createdAt >= b.createdAt
    case AllProducts(_) =>
      a.createdAt > b.createdAt || (a.createdAt == b.createdAt && a.productId >= b.productId)
    case BestSellers => a.totalSold > b.totalSold || (a.totalSold == b.totalSold && a.createdAt >= b.createdAt)
  }

  /** The sort key encodes the `ORDER BY` clause exactly. */
  lemma OrderKeyMeansRanksFirst(l: Listing, a: ProductRow, b: ProductRow)
    ensures KeyLe(OrderKey(l)(a), OrderKey(l)(b)) <==> RanksFirst(l, a, b)
  {
    match l
    case FlashDeals =>
      KeyLePair(-NumberOrZero(a.discountPercentage), -(a.createdAt as real),
                -NumberOrZero(b.discountPercentage), -(b.createdAt as real));
    case NewArrivals(_) =>
      KeyLeSingle(-(a.createdAt as real), -(b.createdAt as real));
    case AllProducts(_) =>
      KeyLePair(-(a.createdAt as real), -(a.productId as real), -(b.createdAt as real), -(b.productId as real));
    case BestSellers =>
      KeyLePair(-(a.totalSold as real), -(a.createdAt as real), -(b.totalSold as real), -(b.createdAt as real));
  }

  /** Every row a listing returns is in stock, meets the listing's
      condition and comes from the table; rows come in `ORDER BY` order;
      the home-page listings return at most twelve; and a qualifying row
      left out never ranks before a returned one. The full catalogue
      returns every qualifying row. */
  lemma SelectRowsSpec(l: Listing, products: seq<ProductRow>, variants: seq<VariantRow>)
    ensures var r := SelectRows(l, products, variants);
      && (forall i :: 0 <= i < |r| ==> Qualifies(l, variants, r[i]) && InStock(r[i], variants))
      && multiset(r) <= multiset(products)
      && (forall i, j :: 0 <= i < j < |r| ==> RanksFirst(l, r[i], r[j]))
      && (!l.AllProducts? ==> |r| <= HomeListingLimit)
      && (|r| < RowLimit(l, products) ==> forall x :: x in products && Qualifies(l, variants, x) ==> x in r)
      && (forall i, x :: 0 <= i < |r| && x in products && Qualifies(l, variants, x) && x !in r
            ==> RanksFirst(l, r[i], x))
  {
    var r := SelectRows(l, products, variants);
    var p := QualifiesIn(l, variants);
    var key := OrderKey(l);
    SelectSound(products, p, key, RowLimit(l, products));
    SelectComplete(products, p, key, RowLimit(l, products));
    SelectTop(products, p, key, RowLimit(l, products));
    forall i, j | 0 <= i < j < |r|
      ensures RanksFirst(l, r[i], r[j])
    {
      OrderKeyMeansRanksFirst(l, r[i], r[j]);
    }
    forall i, x | 0 <= i < |r| && x in products && Qualifies(l, variants, x) && x !in r
      ensures RanksFirst(l, r[i], x)
    {
      assert p(x);
      OrderKeyMeansRanksFirst(l, r[i], x);
    }
  }

  /** The full catalogue returns every qualifying row: it is never cut. */
  lemma AllProductsReturnsEveryMatch(category: Option<nat>, products: seq<ProductRow>, variants: seq<VariantRow>)
    ensures forall x :: x in products && Qualifies(AllProducts(category), variants, x)
              ==> x in SelectRows(AllProducts(category), products, variants)
  {
    var l := AllProducts(category);
    var p := QualifiesIn(l, variants);
    SelectComplete(products, p, OrderKey(l), |products|);
    if |SelectRows(l, products, variants)| == |products| {
      var r := SelectRows(l, products, variants);
      SelectSound(products, p, OrderKey(l), |products|);
      assert multiset(r) == multiset(products) by {
        assert |multiset(r)| == |multiset(products)|;
        assert multiset(products) - multiset(r) == multiset{} by {
          assert |multiset(products) - multiset(r)| == |multiset(products)| - |multiset(r)|;
        }
      }
      forall x | x in products
        ensures x in r
      {
        assert x in multiset(r);
      }
    }
  }

  /** A listed product: the row's columns with the numeric ones coerced,
      the effective stock and the `has_variants` flag, the sales total
      (best sellers only) and the attached images. */
  datatype ListedProduct = ListedProduct(
    productId: nat,
    name: string,
    productCode: Option<string>,
    description: Option<string>,
    categoryId: Option<nat>,
    categoryName: Option<string>,
    createdAt: int,
    price: real,
    discountedPrice: real,
    discountPercentage: real,
    averageRating: real,
    reviewCount: int,
    baseStock: Option<int>,
    stock: int,
    hasVariants: bool,
    totalSold: Option<int>,
    images: seq<Image>)

  /** The per-row coercion loop: NULL numbers become 0, the other
      columns pass through. */
  function Normalize(l: Listing, p: ProductRow, variants: seq<VariantRow>, images: seq<Image>): (r: ListedProduct)
    ensures r.productId == p.productId && r.name == p.name && r.createdAt == p.createdAt
    ensures r.productCode == p.productCode && r.description == p.description
    ensures r.categoryId == p.categoryId && r.categoryName == p.categoryName
    ensures r.stock == EffectiveStock(p, variants) && r.baseStock == p.stock
    ensures r.hasVariants <==> exists v :: v in variants && v.productId == p.productId
    ensures r.price == (if p.price.Some? then p.price.value else 0.0)
    ensures r.discountedPrice == (if p.discountedPrice.Some? then p.discountedPrice.value else 0.0)
    ensures r.discountPercentage == (if p.discountPercentage.Some? then p.discountPercentage.value else 0.0)
    ensures r.averageRating == (if p.averageRating.Some? then p.averageRating.value else 0.0)
    ensures r.reviewCount == (if p.reviewCount.Some? then p.reviewCount.value else 0)
    ensures r.totalSold == (if l.BestSellers? then Some(p.totalSold) else None)
    ensures r.images == images
  {
    ListedProduct(
      p.productId, p.name, p.productCode, p.description, p.categoryId, p.categoryName, p.createdAt,
      NumberOrZero(p.price), NumberOrZero(p.discountedPrice), NumberOrZero(p.discountPercentage),
      NumberOrZero(p.averageRating), p.reviewCount.GetOr(0),
      p.stock, EffectiveStock(p, variants), HasVariants(p.productId, variants),
      if l.BestSellers? then Some(p.totalSold) else None,
      images)
  }

  /** `includeImages` is on unless the parameter is "false" or "0". */
  predicate IncludeImages(param: Option<string>) {
    param != Some("false") && param != Some("0")
  }

  /** The body sent: the full catalogue as `{ products }`, the others as a bare array. */
  datatype ListingResponse = Wrapped(products: seq<ListedProduct>) | Bare(items: seq<ListedProduct>)

  function Items(r: ListingResponse): seq<ListedProduct> {
    match r
    case Wrapped(ps) => ps
    case Bare(ps) => ps
  }

  /** One listing request. */
  function ListProducts(l: Listing, products: seq<ProductRow>, variants: seq<VariantRow>, imageRows: seq<ImageRow>,
                        includeImagesParam: Option<string>): (r: ListingResponse)
    ensures r.Wrapped? <==> l.AllProducts?
    ensures var rows := SelectRows(l, products, variants);
      |Items(r)| == |rows|
      && forall i :: 0 <= i < |rows| ==> Items(r)[i].productId == rows[i].productId
    ensures !IncludeImages(includeImagesParam) ==> forall i :: 0 <= i < |Items(r)| ==> Items(r)[i].images == []
    ensures var rows := SelectRows(l, products, variants);
      IncludeImages(includeImagesParam) ==>
        forall i :: 0 <= i < |Items(r)| ==> Items(r)[i].images == ImagesFor(rows[i], imageRows, variants)
    ensures var rows := SelectRows(l, products, variants);
      forall i :: 0 <= i < |Items(r)| ==> Items(r)[i] == Normalize(l, rows[i], variants, Items(r)[i].images)
  {
    var rows := SelectRows(l, products, variants);
    var images := ProcessProductImages(rows, imageRows, variants, IncludeImages(includeImagesParam));
    var items := seq(|rows|, i requires 0 <= i < |rows| => Normalize(l, rows[i], variants, images[i]));
    if l.AllProducts? then Wrapped(items) else Bare(items)
  }

  /** Each item carries its selected row's columns, coerced. */
  lemma ItemsMirrorRows(l: Listing, products: seq<ProductRow>, variants: seq<VariantRow>, imageRows: seq<ImageRow>,
                        includeImagesParam: Option<string>, i: nat)
    requires i < |SelectRows(l, products, variants)|
    ensures var row := SelectRows(l, products, variants)[i];
      var item := Items(ListProducts(l, products, variants, imageRows, includeImagesParam))[i];
      && item.productId == row.productId && item.createdAt == row.createdAt && item.categoryId == row.categoryId
      && item.stock == EffectiveStock(row, variants)
      && item.discountedPrice == NumberOrZero(row.discountedPrice)
      && item.discountPercentage == NumberOrZero(row.discountPercentage)
      && item.totalSold == (if l.BestSellers? then Some(row.totalSold) else None)
  {
  }

  /** An item carries the id of a row of the table. */
  predicate ListedFromTable(products: seq<ProductRow>, item: ListedProduct) {
    exists p :: p in products && item.productId == p.productId
  }

  /** What a client sees in a listing: items in stock (by effective
      stock), each from a qualifying row of the table, at most twelve on
      the home-page listings; flash deals carry a positive discounted
      price and discount, new arrivals are recent, best sellers have sold,
      and a category filter holds. */
  lemma ListingSpec(l: Listing, products: seq<ProductRow>, variants: seq<VariantRow>, imageRows: seq<ImageRow>,
                    includeImagesParam: Option<string>)
    ensures var items := Items(ListProducts(l, products, variants, imageRows, includeImagesParam));
      && (!l.AllProducts? ==> |items| <= HomeListingLimit)
      && (forall i :: 0 <= i < |items| ==> items[i].stock > 0)
      && (l.FlashDeals? ==> forall i :: 0 <= i < |items| ==>
            items[i].discountedPrice > 0.0 && items[i].discountPercentage > 0.0)
      && (l.NewArrivals? ==> forall i :: 0 <= i < |items| ==> items[i].createdAt >= l.cutoff)
      && (l.BestSellers? ==> forall i :: 0 <= i < |items| ==> items[i].totalSold.Some? && items[i].totalSold.value > 0)
      && (l.AllProducts? && l.category.Some? ==> forall i :: 0 <= i < |items| ==> items[i].categoryId == l.category)
      && (forall i :: 0 <= i < |items| ==> ListedFromTable(products, items[i]))
  {
    var items := Items(ListProducts(l, products, variants, imageRows, includeImagesParam));
    assert !l.AllProducts? ==> |items| <= HomeListingLimit by {
      SelectRowsSpec(l, products, variants);
    }
    forall i | 0 <= i < |items|
      ensures items[i].stock > 0
      ensures l.FlashDeals? ==> items[i].discountedPrice > 0.0 && items[i].discountPercentage > 0.0
      ensures l.NewArrivals? ==> items[i].createdAt >= l.cutoff
      ensures l.BestSellers? ==> items[i].totalSold.Some? && items[i].totalSold.value > 0
      ensures l.AllProducts? && l.category.Some? ==> items[i].categoryId == l.category
      ensures ListedFromTable(products, items[i])
    {
      ItemQualifies(l, products, variants, imageRows, includeImagesParam, i);
    }
  }

  /** Item `i` of a listing comes from a qualifying row of the table. */
  lemma ItemQualifies(l: Listing, products: seq<ProductRow>, variants: seq<VariantRow>, imageRows: seq<ImageRow>,
                      includeImagesParam: Option<string>, i: nat)
    requires i < |Items(ListProducts(l, products, variants, imageRows, includeImagesParam))|
    ensures var item := Items(ListProducts(l, products, variants, imageRows, includeImagesParam))[i];
      && item.stock > 0
      && (l.FlashDeals? ==> item.discountedPrice > 0.0 && item.discountPercentage > 0.0)
      && (l.NewArrivals? ==> item.createdAt >= l.cutoff)
      && (l.BestSellers? ==> item.totalSold.Some? && item.totalSold.value > 0)
      && (l.AllProducts? && l.category.Some? ==> item.categoryId == l.category)
      && ListedFromTable(products, item)
  {
    var rows := SelectRows(l, products, variants);
    ItemsMirrorRows(l, products, variants, imageRows, includeImagesParam, i);
    var row := rows[i];
    assert Qualifies(l, variants, row) && row in products by {
      SelectRowsSpec(l, products, variants);
      assert row in multiset(products);
    }
  }

  /** The listings, search and the detail page read a product's price,
      rating and review count alike: NULL becomes 0, anything else is
      kept. */
  lemma CoercionsAgree(l: Listing, p: ProductRow, variants: seq<VariantRow>, images: seq<Image>,
                       imageRows: seq<ImageRow>, failedLookups: set<nat>, d: Detail.ProductDetail)
    requires Detail.CoercedFrom(d, p)
    ensures var item := Normalize(l, p, variants, images);
      var res := Search.Shape(p, imageRows, failedLookups);
      && item.price == res.price == d.price
      && item.averageRating == res.averageRating == d.averageRating
      && item.reviewCount == res.reviewCount == d.reviewCount
      && item.discountedPrice == d.discountedPrice && item.discountPercentage == d.discountPercentage
      && item.categoryId == res.categoryId == d.categoryId
  {
  }
}
