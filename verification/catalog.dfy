/** The relational rows the product controller reads, and the SQL
    expressions it evaluates over them: effective stock, NULL-aware
    comparisons and the image ordering `ORDER BY sort_order`. */
module Catalog {
  import opened Wrappers
  import opened Query

  newtype byte = x: int | 0 <= x < 256

  /** What an `image_url` column holds: nothing (NULL), a stored path or
      URL string, or raw image bytes (a BLOB read back as a Buffer). */
  datatype RawRef = Absent | Path(text: string) | Blob(bytes: seq<byte>)

  /** JavaScript truthiness of the column value: NULL and the empty string
      are falsy; a Buffer is an object and so truthy even when empty. */
  predicate Truthy(r: RawRef) {
    match r
    case Absent => false
    case Path(s) => s != ""
    case Blob(_) => true
  }

  /** The value of `${image_url}` used as a de-duplication key: NULL
      prints as "null", a string as itself; a Buffer keeps its bytes. */
  datatype UrlKey = TextKey(text: string) | BlobKey(bytes: seq<byte>)

  function KeyOf(r: RawRef): (k: UrlKey)
    ensures r.Path? ==> k == TextKey(r.text)
    ensures r == Absent ==> k == TextKey("null")
    ensures r.Blob? <==> k.BlobKey?
    ensures r.Blob? ==> k.bytes == r.bytes
  {
    match r
    case Absent => TextKey("null")
    case Path(s) => TextKey(s)
    case Blob(b) => BlobKey(b)
  }

  /** Two column values share a key exactly when they are equal, or one
      is NULL and the other the literal text "null". */
  lemma KeyOfCollisions(a: RawRef, b: RawRef)
    ensures KeyOf(a) == KeyOf(b) <==>
      a == b || (a == Absent && b == Path("null")) || (b == Absent && a == Path("null"))
  {
  }

  /** A `products` row joined with its category name. `totalSold` is the
      `COALESCE(SUM(oi.quantity), 0)` column of the best-seller query. */
  datatype ProductRow = ProductRow(
    productId: nat,
    name: string,
    productCode: Option<string>,
    description: Option<string>,
    categoryId: Option<nat>,
    categoryName: Option<string>,
    createdAt: int,
    price: Option<real>,
    discountedPrice: Option<real>,
    discountPercentage: Option<real>,
    averageRating: Option<real>,
    reviewCount: Option<int>,
    stock: Option<int>,
    totalSold: int)

  /** The `attributes` column of a variant: NULL, text that is not valid
      JSON, or an attribute object, given by its values in key order. */
  datatype Attributes = NullAttributes | Unparsable | Parsed(values: seq<string>)

  /** A `product_variants` row. */
  datatype VariantRow = VariantRow(
    variantId: nat,
    productId: nat,
    sku: string,
    price: Option<real>,
    stock: Option<int>,
    imageUrl: RawRef,
    attributes: Attributes)

  /** A `product_images` row. */
  datatype ImageRow = ImageRow(
    imageId: Option<nat>,
    productId: nat,
    imageUrl: RawRef,
    sortOrder: Option<int>,
    altText: Option<string>)

  /** The non-NULL values added up, NULL read as 0. */
  function NonNullTotal(xs: seq<Option<int>>): (t: int)
    ensures (forall i :: 0 <= i < |xs| ==> xs[i].None?) ==> t == 0
    decreases |xs|
  {
    if |xs| == 0 then 0 else xs[0].GetOr(0) + NonNullTotal(xs[1..])
  }

  /** SQL `SUM`: NULL when no value is non-NULL (in particular over no
      rows), otherwise the total of the non-NULL values. */
  function SqlSum(xs: seq<Option<int>>): (r: Option<int>)
    ensures r.None? <==> forall i :: 0 <= i < |xs| ==> xs[i].None?
    ensures r.Some? ==> r.value == NonNullTotal(xs)
    decreases |xs|
  {
    if |xs| == 0 then None
    else
      var rest := SqlSum(xs[1..]);
      match xs[0]
      case None => rest
      case Some(v) => Some(v + rest.GetOr(0))
  }

  function VariantsOf(productId: nat, variants: seq<VariantRow>): seq<VariantRow> {
    Filter(variants, (v: VariantRow) => v.productId == productId)
  }

  /** `EXISTS (SELECT 1 FROM product_variants WHERE product_id = p.product_id)`. */
  predicate HasVariants(productId: nat, variants: seq<VariantRow>) {
    exists i :: 0 <= i < |variants| && variants[i].productId == productId
  }

  function VariantStocks(vs: seq<VariantRow>): (r: seq<Option<int>>)
    ensures |r| == |vs|
    ensures forall i :: 0 <= i < |vs| ==> r[i] == vs[i].stock
  {
    seq(|vs|, i requires 0 <= i < |vs| => vs[i].stock)
  }

  /** `COALESCE((SELECT SUM(stock) FROM product_variants WHERE product_id
      = p.product_id), p.stock, 0)`. */
  function EffectiveStock(p: ProductRow, variants: seq<VariantRow>): int {
    match SqlSum(VariantStocks(VariantsOf(p.productId, variants)))
    case Some(total) => total
    case None => p.stock.GetOr(0)
  }

  /** Effective stock is the total of the product's non-NULL variant
      stocks when it has at least one, and otherwise the product's own
      stock with NULL read as 0 (also when it has variants whose stocks are
      all NULL). */
  lemma EffectiveStockCases(p: ProductRow, variants: seq<VariantRow>)
    ensures var own := VariantsOf(p.productId, variants);
      if exists i :: 0 <= i < |own| && own[i].stock.Some?
      then EffectiveStock(p, variants) == NonNullTotal(VariantStocks(own))
      else EffectiveStock(p, variants) == p.stock.GetOr(0)
    ensures !HasVariants(p.productId, variants) ==> EffectiveStock(p, variants) == p.stock.GetOr(0)
  {
    var own := VariantsOf(p.productId, variants);
    if |own| > 0 {
      assert own[0] in multiset(variants);
    }
  }

  /** `x > 0` in SQL: false when `x` is NULL. */
  predicate SqlPositive(x: Option<real>) {
    x.Some? && x.value > 0.0
  }

  /** `Number(x) || 0` for a DECIMAL column: NULL becomes 0. */
  function NumberOrZero(x: Option<real>): real {
    x.GetOr(0.0)
  }

  /** `ORDER BY sort_order` ascending: NULL sorts before every value. */
  function SortOrderKey(o: Option<int>): seq<real> {
    match o
    case None => [0.0]
    case Some(v) => [1.0, v as real]
  }

  lemma SortOrderKeyOrder(a: Option<int>, b: Option<int>)
    ensures KeyLe(SortOrderKey(a), SortOrderKey(b)) <==> a.None? || (b.Some? && a.value <= b.value)
  {
    if a.Some? && b.Some? {
      var ka, kb := SortOrderKey(a), SortOrderKey(b);
      assert ka[1..] == [a.value as real] && kb[1..] == [b.value as real];
      assert ka[1..][1..] == [] && kb[1..][1..] == [];
      assert KeyLe(ka, kb) == KeyLe(ka[1..], kb[1..]);
      assert KeyLe(ka[1..], kb[1..]) == (a.value as real <= b.value as real);
    }
  }

  function ImageSqlOrder(row: ImageRow): seq<real> {
    SortOrderKey(row.sortOrder)
  }

  function ImagesOf(productId: nat, rows: seq<ImageRow>): seq<ImageRow> {
    Filter(rows, (r: ImageRow) => r.productId == productId)
  }

  /** `SELECT image_url FROM product_images WHERE product_id = ? ORDER BY
      sort_order LIMIT 1`: none exactly when the product has no image row;
      otherwise one of its rows with the least `sort_order`. */
  function FirstImageRow(rows: seq<ImageRow>, productId: nat): (r: Option<ImageRow>)
    ensures r.None? <==> forall i :: 0 <= i < |rows| ==> rows[i].productId != productId
    ensures r.Some? ==> r.value in rows && r.value.productId == productId
    ensures r.Some? ==> forall i :: 0 <= i < |rows| && rows[i].productId == productId
                          ==> KeyLe(ImageSqlOrder(r.value), ImageSqlOrder(rows[i]))
  {
    var own := ImagesOf(productId, rows);
    var ordered := SortBy(own, ImageSqlOrder);
    FilterKeepsMatching(rows, (r: ImageRow) => r.productId == productId);
    if |ordered| == 0 then
      None
    else
      SortBySorted(own, ImageSqlOrder);
      SortedHeadIsLeast(ordered, ImageSqlOrder);
      assert ordered[0] in multiset(own);
      Some(ordered[0])
  }
}
