/** `getProductById`: one product with its coerced numbers, its variants
    (each named after its attribute values and given at most one image)
    and every one of its declared images, in `sort_order`, without
    de-duplication. */
module Detail {
  import opened Wrappers
  import opened Text
  import opened Query
  import opened Catalog
  import opened ImageUrls

  /** A variant's own image entry. Its `url` is the stored value,
      passed on without resolution. */
  datatype VariantImage = VariantImage(id: string, url: RawRef, alt: string, order: int)

  /** A variant as the detail page receives it. `attributes` is what the
      attribute parse left: `None` is sent as `null`. */
  datatype DetailVariant = DetailVariant(
    variantId: nat,
    productId: nat,
    sku: string,
    price: Option<real>,
    stock: Option<int>,
    imageUrl: RawRef,
    attributes: Option<seq<string>>,
    parentProductId: nat,
    images: seq<VariantImage>,
    name: string)

  /** A declared image as the detail page receives it; `id` and `order`
      are passed on as stored, NULL included. */
  datatype DetailImage = DetailImage(id: Option<nat>, url: ClientUrl, alt: string, order: Option<int>)

  datatype ProductDetail = ProductDetail(
    productId: nat,
    name: string,
    productCode: Option<string>,
    description: Option<string>,
    categoryId: Option<nat>,
    categoryName: Option<string>,
    createdAt: int,
    price: real,
    discountedPrice: real,
    discountPercentage: real,
    averageRating: real,
    reviewCount: int,
    stockQuantity: Option<int>,
    itemsSold: int,
    variants: seq<DetailVariant>,
    images: seq<DetailImage>)

  /** 404 "Product not found", or the product. */
  datatype DetailResponse = NotFound | Found(detail: ProductDetail)

  const VariantImagePrefix: string := "variant-img-"
  const NameSeparator: string := " - "

  /** `parsedAttributes`: it starts as `{}` and keeps that when the text
      is not valid JSON; a NULL column is passed on as it is, since only a
      string is parsed. */
  function ParsedAttributes(a: Attributes): (r: Option<seq<string>>)
    ensures r.None? <==> a.NullAttributes?
    ensures a.Unparsable? ==> r == Some([])
    ensures a.Parsed? ==> r == Some(a.values)
  {
    match a
    case NullAttributes => None
    case Unparsable => Some([])
    case Parsed(values) => Some(values)
  }

  /** The values of `parsedAttributes || {}`. */
  function AttributeValues(a: Attributes): seq<string> {
    ParsedAttributes(a).GetOr([])
  }

  /** The attribute values joined by single spaces. */
  function AttributeString(attributes: seq<string>): string {
    Join(attributes, " ")
  }

  /** A variant's display name: the product name, followed by
      ` - <attribute values>` when those are not empty. */
  function VariantName(productName: string, attributes: seq<string>): (r: string)
    ensures r == productName <==> AttributeString(attributes) == ""
    ensures AttributeString(attributes) != "" ==>
      StartsWith(r, productName + NameSeparator) && r[|productName + NameSeparator|..] == AttributeString(attributes)
  {
    var joined := AttributeString(attributes);
    if joined == "" then productName
    else
      var r := productName + NameSeparator + joined;
      assert |r| > |productName|;
      assert r[..|productName + NameSeparator|] == productName + NameSeparator;
      r
  }

  /** The variant's image entry, present exactly when its stored value is
      truthy. The alt text always carries the separator, even when the
      attribute string is empty. */
  function VariantImages(productName: string, v: VariantRow, attributes: seq<string>): (r: seq<VariantImage>)
    ensures |r| <= 1
    ensures |r| == 1 <==> Truthy(v.imageUrl)
    ensures |r| == 1 ==> r[0].url == v.imageUrl && r[0].order == 0
                         && r[0].id == VariantImagePrefix + NatToString(v.variantId)
                         && r[0].alt == productName + NameSeparator + AttributeString(attributes)
  {
    if Truthy(v.imageUrl) then
      [VariantImage(VariantImagePrefix + NatToString(v.variantId), v.imageUrl,
                    productName + NameSeparator + AttributeString(attributes), 0)]
    else []
  }

  /** Distinct variants get distinct image ids. */
  lemma VariantImageIdsDistinct(productName: string, v: VariantRow, w: VariantRow)
    requires Truthy(v.imageUrl) && Truthy(w.imageUrl) && v.variantId != w.variantId
    ensures VariantImages(productName, v, AttributeValues(v.attributes))[0].id
            != VariantImages(productName, w, AttributeValues(w.attributes))[0].id
  {
    var a := VariantImagePrefix + NatToString(v.variantId);
    var b := VariantImagePrefix + NatToString(w.variantId);
    if a == b {
      assert a[|VariantImagePrefix|..] == NatToString(v.variantId);
      assert b[|VariantImagePrefix|..] == NatToString(w.variantId);
      NatToStringInjective(v.variantId, w.variantId);
    }
  }

  function ToDetailVariant(productName: string, productId: nat, v: VariantRow): (r: DetailVariant)
    ensures r.variantId == v.variantId && r.productId == v.productId && r.parentProductId == productId
    ensures r.sku == v.sku && r.price == v.price && r.stock == v.stock && r.imageUrl == v.imageUrl
    ensures r.attributes.None? <==> v.attributes.NullAttributes?
    ensures r.attributes == ParsedAttributes(v.attributes)
    ensures r.name == VariantName(productName, AttributeValues(v.attributes))
    ensures r.images == VariantImages(productName, v, AttributeValues(v.attributes))
  {
    var values := AttributeValues(v.attributes);
    DetailVariant(v.variantId, v.productId, v.sku, v.price, v.stock, v.imageUrl, ParsedAttributes(v.attributes),
                  productId, VariantImages(productName, v, values), VariantName(productName, values))
  }

  /** One declared image: blob as a data URI, anything else after
      `/uploads/`; alt text or else the product name. */
  function ToDetailImage(productName: string, row: ImageRow): (r: DetailImage)
    ensures r.id == row.imageId && r.order == row.sortOrder
    ensures r.url == DetailImageUrl(row.imageUrl)
    ensures r.alt == (if row.altText.None? || row.altText.value == "" then productName else row.altText.value)
  {
    var alt := if row.altText.Some? && row.altText.value != "" then row.altText.value else productName;
    DetailImage(row.imageId, DetailImageUrl(row.imageUrl), alt, row.sortOrder)
  }

  /** `WHERE product_id = ? ORDER BY sort_order`. */
  function DetailImageRows(productId: nat, imageRows: seq<ImageRow>): seq<ImageRow> {
    SortBy(ImagesOf(productId, imageRows), ImageSqlOrder)
  }

  function DetailImages(name: string, productId: nat, imageRows: seq<ImageRow>): (r: seq<DetailImage>)
    ensures var rows := DetailImageRows(productId, imageRows);
      |r| == |rows| && forall i :: 0 <= i < |r| ==> r[i] == ToDetailImage(name, rows[i])
  {
    var rows := DetailImageRows(productId, imageRows);
    seq(|rows|, i requires 0 <= i < |rows| => ToDetailImage(name, rows[i]))
  }

  /** Row `i` is the first row of the table with the id. */
  predicate FirstWithId(products: seq<ProductRow>, productId: nat, i: int) {
    0 <= i < |products| && products[i].productId == productId
    && forall j :: 0 <= j < i ==> products[j].productId != productId
  }

  /** The position of the first row with the id at or after `from`:
      `productResult[0]` of the `WHERE p.product_id = ?` query. */
  function FindProduct(products: seq<ProductRow>, productId: nat, from: nat): (r: Option<nat>)
    requires from <= |products|
    ensures r.None? <==> forall i :: from <= i < |products| ==> products[i].productId != productId
    ensures r.Some? ==> from <= r.value < |products| && products[r.value].productId == productId
                        && forall j :: from <= j < r.value ==> products[j].productId != productId
    decreases |products| - from
  {
    if from == |products| then None
    else if products[from].productId == productId then Some(from)
    else FindProduct(products, productId, from + 1)
  }

  /** The product's own columns as the detail page sends them: price,
      discounted price, discount, rating and review count with NULL read
      as 0; `stock_quantity`, `items_sold` and the other columns as
      stored. */
  predicate CoercedFrom(d: ProductDetail, p: ProductRow) {
    && d.productId == p.productId && d.name == p.name && d.productCode == p.productCode
    && d.description == p.description && d.categoryId == p.categoryId && d.categoryName == p.categoryName
    && d.createdAt == p.createdAt
    && d.price == (if p.price.Some? then p.price.value else 0.0)
    && d.discountedPrice == (if p.discountedPrice.Some? then p.discountedPrice.value else 0.0)
    && d.discountPercentage == (if p.discountPercentage.Some? then p.discountPercentage.value else 0.0)
    && d.averageRating == (if p.averageRating.Some? then p.averageRating.value else 0.0)
    && d.reviewCount == (if p.reviewCount.Some? then p.reviewCount.value else 0)
    && d.stockQuantity == p.stock && d.itemsSold == p.totalSold
  }

  /** `GET /api/products/:id`. */
  function GetProductById(productId: nat, products: seq<ProductRow>, variants: seq<VariantRow>,
                          imageRows: seq<ImageRow>): (r: DetailResponse)
    ensures r.NotFound? <==> forall i :: 0 <= i < |products| ==> products[i].productId != productId
    ensures r.Found? ==> r.detail.productId == productId
                         && exists i :: FirstWithId(products, productId, i) && CoercedFrom(r.detail, products[i])
    ensures r.Found? ==>
      var own := VariantsOf(productId, variants);
      && |r.detail.variants| == |own|
      && (forall i :: 0 <= i < |own| ==> r.detail.variants[i] == ToDetailVariant(r.detail.name, productId, own[i]))
      && r.detail.images == DetailImages(r.detail.name, productId, imageRows)
  {
    match FindProduct(products, productId, 0)
    case None => NotFound
    case Some(k) =>
      var p := products[k];
      assert FirstWithId(products, productId, k);
      var own := VariantsOf(productId, variants);
      Found(ProductDetail(
        p.productId, p.name, p.productCode, p.description, p.categoryId, p.categoryName, p.createdAt,
        NumberOrZero(p.price), NumberOrZero(p.discountedPrice), NumberOrZero(p.discountPercentage),
        NumberOrZero(p.averageRating), p.reviewCount.GetOr(0), p.stock, p.totalSold,
        seq(|own|, i requires 0 <= i < |own| => ToDetailVariant(p.name, productId, own[i])),
        DetailImages(p.name, productId, imageRows)))
  }

  /** The product found is a row of the table with that id; each of its
      variants is one of the product's variant rows, carries the
      requested id as parent, and is named after its attributes. */
  lemma DetailVariantsSpec(productId: nat, products: seq<ProductRow>, variants: seq<VariantRow>, imageRows: seq<ImageRow>)
    ensures var r := GetProductById(productId, products, variants, imageRows);
      r.Found? ==>
        (exists p :: p in products && p.productId == productId && p.name == r.detail.name)
        && forall i :: 0 <= i < |r.detail.variants| ==>
             var dv := r.detail.variants[i];
             && dv.parentProductId == productId
             && dv.name == VariantName(r.detail.name, dv.attributes.GetOr([]))
             && (exists v :: v in variants && v.productId == productId && v.variantId == dv.variantId)
  {
    var r := GetProductById(productId, products, variants, imageRows);
    if r.Found? {
      var k :| FirstWithId(products, productId, k) && CoercedFrom(r.detail, products[k]);
      assert products[k] in products;
      var own := VariantsOf(productId, variants);
      forall i | 0 <= i < |r.detail.variants|
        ensures exists v :: v in variants && v.productId == productId && v.variantId == r.detail.variants[i].variantId
      {
        assert own[i] in multiset(variants);
      }
    }
  }

  /** Detail images are every declared row of the product, one each, in
      `sort_order` (NULL first): rows storing the same value are all
      shown, unlike in the listings. */
  lemma DetailImagesSpec(name: string, productId: nat, imageRows: seq<ImageRow>)
    ensures var imgs := DetailImages(name, productId, imageRows);
      && |imgs| == |ImagesOf(productId, imageRows)|
      && (forall i, j :: 0 <= i < j < |imgs| && imgs[j].order.None? ==> imgs[i].order.None?)
      && (forall i, j :: 0 <= i < j < |imgs| && imgs[i].order.Some? && imgs[j].order.Some?
            ==> imgs[i].order.value <= imgs[j].order.value)
  {
    var imgs := DetailImages(name, productId, imageRows);
    var rows := DetailImageRows(productId, imageRows);
    SortBySorted(ImagesOf(productId, imageRows), ImageSqlOrder);
    forall i, j | 0 <= i < j < |imgs|
      ensures imgs[j].order.None? ==> imgs[i].order.None?
      ensures imgs[i].order.Some? && imgs[j].order.Some? ==> imgs[i].order.value <= imgs[j].order.value
    {
      SortOrderKeyOrder(rows[i].sortOrder, rows[j].sortOrder);
    }
  }

  /** The rows the detail query returns are the product's rows of the table. */
  lemma DetailImageRowsFromTable(productId: nat, imageRows: seq<ImageRow>)
    ensures var rows := DetailImageRows(productId, imageRows);
      forall i :: 0 <= i < |rows| ==> rows[i] in imageRows && rows[i].productId == productId
  {
    var own := ImagesOf(productId, imageRows);
    var rows := DetailImageRows(productId, imageRows);
    forall i | 0 <= i < |rows|
      ensures rows[i] in imageRows && rows[i].productId == productId
    {
      assert rows[i] in multiset(own);
      assert rows[i] in multiset(imageRows);
    }
  }

  /** Every detail image comes from one of the product's rows: its id,
      order and URL are that row's. */
  lemma DetailImagesFromRows(name: string, productId: nat, imageRows: seq<ImageRow>)
    ensures var imgs := DetailImages(name, productId, imageRows);
      forall i :: 0 <= i < |imgs| ==>
        exists row :: (row in imageRows && row.productId == productId && imgs[i].id == row.imageId
          && imgs[i].order == row.sortOrder && imgs[i].url == DetailImageUrl(row.imageUrl))
  {
    var imgs := DetailImages(name, productId, imageRows);
    var rows := DetailImageRows(productId, imageRows);
    DetailImageRowsFromTable(productId, imageRows);
    forall i | 0 <= i < |imgs|
      ensures exists row :: (row in imageRows && row.productId == productId && imgs[i].id == row.imageId
          && imgs[i].order == row.sortOrder && imgs[i].url == DetailImageUrl(row.imageUrl))
    {
      assert imgs[i] == ToDetailImage(name, rows[i]);
    }
  }
}
