/** `searchProducts`: a case-insensitive substring search over four
    columns, ranked by where the term was found, cut at ten rows; each
    row is then shaped with defaults and the URL of its first image. */
module Search {
  import opened Wrappers
  import opened Text
  import opened Query
  import opened Catalog
  import opened ImageUrls

  const SearchLimit: nat := 10

  /** The ranks of `CASE ... END DESC`. */
  const NameRank: int := 10
  const DescriptionRank: int := 5
  const OtherRank: int := 1

  /** `LOWER(column) LIKE '%term%'`. */
  predicate Like(column: string, term: string) {
    Contains(Lower(column), term)
  }

  /** The `WHERE` clause: the term occurs in the name, the description,
      the product code or the category name (NULL read as ""). */
  predicate Matches(term: string, p: ProductRow) {
    Like(p.name, term) || Like(p.description.GetOr(""), term)
    || Like(p.productCode.GetOr(""), term) || Like(p.categoryName.GetOr(""), term)
  }

  /** `CASE WHEN LOWER(name) LIKE ? THEN 10 WHEN LOWER(description) LIKE ?
      THEN 5 ELSE 1 END`. The second test has no `COALESCE`, so a NULL
      description falls through to 1. */
  function Rank(term: string, p: ProductRow): (r: int)
    ensures r == NameRank <==> Like(p.name, term)
    ensures r == DescriptionRank <==> !Like(p.name, term) && p.description.Some? && Like(p.description.value, term)
    ensures r == NameRank || r == DescriptionRank || r == OtherRank
  {
    if Like(p.name, term) then NameRank
    else if p.description.Some? && Like(p.description.value, term) then DescriptionRank
    else OtherRank
  }

  function MatchesTerm(term: string): ProductRow -> bool {
    (p: ProductRow) => Matches(term, p)
  }

  /** `ORDER BY rank DESC, created_at DESC`. */
  function SearchKey(term: string): ProductRow -> seq<real> {
    (p: ProductRow) => [-(Rank(term, p) as real), -(p.createdAt as real)]
  }

  /** The `ORDER BY` clause read column by column. */
  predicate RanksFirst(term: string, a: ProductRow, b: ProductRow) {
    Rank(term, a) > Rank(term, b) || (Rank(term, a) == Rank(term, b) && a.createdAt >= b.createdAt)
  }

  /** The sort key encodes the `ORDER BY` clause exactly. */
  lemma SearchKeyMeansRanksFirst(term: string, a: ProductRow, b: ProductRow)
    ensures KeyLe(SearchKey(term)(a), SearchKey(term)(b)) <==> RanksFirst(term, a, b)
  {
    KeyLePair(-(Rank(term, a) as real), -(a.createdAt as real), -(Rank(term, b) as real), -(b.createdAt as real));
  }

  /** The rows the search query returns for a (lower-cased) term. */
  function SearchRows(term: string, products: seq<ProductRow>): seq<ProductRow> {
    Select(products, MatchesTerm(term), SearchKey(term), SearchLimit)
  }

  /** The query returns at most ten matching rows of the table, in rank
      order, and passes over no match that ranks before a returned row. */
  lemma SearchRowsSpec(term: string, products: seq<ProductRow>)
    ensures var r := SearchRows(term, products);
      && |r| <= SearchLimit
      && (forall i :: 0 <= i < |r| ==> Matches(term, r[i]))
      && multiset(r) <= multiset(products)
      && (forall i, j :: 0 <= i < j < |r| ==> RanksFirst(term, r[i], r[j]))
      && (|r| < SearchLimit ==> forall x :: x in products && Matches(term, x) ==> x in r)
      && (forall i, x :: 0 <= i < |r| && x in products && Matches(term, x) && x !in r ==> RanksFirst(term, r[i], x))
  {
    var r := SearchRows(term, products);
    var p := MatchesTerm(term);
    var key := SearchKey(term);
    SelectSound(products, p, key, SearchLimit);
    SelectComplete(products, p, key, SearchLimit);
    SelectTop(products, p, key, SearchLimit);
    forall i, j | 0 <= i < j < |r|
      ensures RanksFirst(term, r[i], r[j])
    {
      SearchKeyMeansRanksFirst(term, r[i], r[j]);
    }
    forall i, x | 0 <= i < |r| && x in products && Matches(term, x) && x !in r
      ensures RanksFirst(term, r[i], x)
    {
      assert p(x);
      SearchKeyMeansRanksFirst(term, r[i], x);
    }
  }

  /** Name matches come first: a row whose name holds the term is never
      listed after one whose name does not. */
  lemma NameMatchesFirst(term: string, products: seq<ProductRow>)
    ensures var r := SearchRows(term, products);
      forall i, j :: 0 <= i < j < |r| && Like(r[j].name, term) ==> Like(r[i].name, term)
  {
    SearchRowsSpec(term, products);
  }

  /** A search result. */
  datatype SearchResult = SearchResult(
    productId: nat,
    name: string,
    description: string,
    productCode: string,
    categoryName: string,
    categoryId: Option<nat>,
    price: real,
    averageRating: real,
    reviewCount: int,
    image: Option<ClientUrl>,
    stock: int)

  const Uncategorized: string := "Uncategorized"

  /** `category_name || "Uncategorized"`: NULL and "" both fall back. */
  function CategoryLabel(c: Option<string>): (r: string)
    ensures r != ""
    ensures c.Some? && c.value != "" ==> r == c.value
    ensures c.None? || c.value == "" ==> r == Uncategorized
  {
    if c.Some? && c.value != "" then c.value else Uncategorized
  }

  /** The first image of a product, or null when it has no image row,
      the row's value is falsy, or the lookup failed (`lookupFailed`
      stands for the database error the code logs and swallows). */
  function FirstImage(productId: nat, imageRows: seq<ImageRow>, lookupFailed: bool): (r: Option<ClientUrl>)
    ensures r.Some? ==> !lookupFailed && exists row :: (row in imageRows && row.productId == productId
                          && Truthy(row.imageUrl) && r == SearchImageUrl(row.imageUrl))
    ensures (forall i :: 0 <= i < |imageRows| ==> imageRows[i].productId != productId) ==> r.None?
    ensures !lookupFailed && FirstImageRow(imageRows, productId).Some? ==>
      r == SearchImageUrl(FirstImageRow(imageRows, productId).value.imageUrl)
  {
    if lookupFailed then None
    else
      match FirstImageRow(imageRows, productId)
      case None => None
      case Some(row) => SearchImageUrl(row.imageUrl)
  }

  /** One row shaped for the client. The base `stock` column is reported,
      not the effective stock. */
  function Shape(p: ProductRow, imageRows: seq<ImageRow>, failedLookups: set<nat>): (r: SearchResult)
    ensures r.productId == p.productId && r.name == p.name && r.categoryId == p.categoryId
    ensures r.description == p.description.GetOr("") && r.productCode == p.productCode.GetOr("")
    ensures r.categoryName == CategoryLabel(p.categoryName) && r.categoryName != ""
    ensures r.price == (if p.price.Some? then p.price.value else 0.0)
    ensures r.averageRating == (if p.averageRating.Some? then p.averageRating.value else 0.0)
    ensures r.reviewCount == (if p.reviewCount.Some? then p.reviewCount.value else 0)
    ensures r.stock == (if p.stock.Some? then p.stock.value else 0)
    ensures p.productId in failedLookups ==> r.image.None?
    ensures p.productId !in failedLookups ==> r.image == FirstImage(p.productId, imageRows, false)
  {
    SearchResult(
      p.productId, p.name, p.description.GetOr(""), p.productCode.GetOr(""), CategoryLabel(p.categoryName),
      p.categoryId, NumberOrZero(p.price), NumberOrZero(p.averageRating), p.reviewCount.GetOr(0),
      FirstImage(p.productId, imageRows, p.productId in failedLookups), p.stock.GetOr(0))
  }

  /** A query that is missing or only white space. */
  predicate BlankQuery(query: Option<string>) {
    query.None? || IsBlank(query.value)
  }

  /** `GET /api/products/search?query=...`. Shaping a row cannot fail, so
      the final filter of failed rows keeps every row. */
  function SearchProducts(query: Option<string>, products: seq<ProductRow>, imageRows: seq<ImageRow>,
                          failedLookups: set<nat>): (r: seq<SearchResult>)
    ensures BlankQuery(query) ==> r == []
    ensures !BlankQuery(query) ==>
      var rows := SearchRows(Lower(query.value), products);
      |r| == |rows| && forall i :: 0 <= i < |r| ==> r[i] == Shape(rows[i], imageRows, failedLookups)
  {
    if query.None? || Trim(query.value) == "" then []
    else
      var rows := SearchRows(Lower(query.value), products);
      if |rows| == 0 then []
      else seq(|rows|, i requires 0 <= i < |rows| => Shape(rows[i], imageRows, failedLookups))
  }

  /** What a client sees: nothing for a blank query; otherwise at most ten
      results, each for a product of the table whose name, description,
      code or category holds the lower-cased query, with name matches
      before the rest. */
  lemma SearchSpec(query: Option<string>, products: seq<ProductRow>, imageRows: seq<ImageRow>, failedLookups: set<nat>)
    ensures var r := SearchProducts(query, products, imageRows, failedLookups);
      && |r| <= SearchLimit
      && (BlankQuery(query) ==> r == [])
      && (forall i :: 0 <= i < |r| ==> FromMatchingProduct(products, Lower(query.value), r[i]))
      && (forall i, j :: 0 <= i < j < |r| && Like(r[j].name, Lower(query.value)) ==> Like(r[i].name, Lower(query.value)))
  {
    if !BlankQuery(query) {
      var term := Lower(query.value);
      assert |SearchRows(term, products)| <= SearchLimit by {
        SelectComplete(products, MatchesTerm(term), SearchKey(term), SearchLimit);
      }
      ResultsFromRows(query, products, imageRows, failedLookups);
      ResultsNameOrder(query, products, imageRows, failedLookups);
    }
  }

  /** A result carries the id and name of a product of the table that
      matches the term. */
  predicate FromMatchingProduct(products: seq<ProductRow>, term: string, res: SearchResult) {
    exists p :: p in products && p.productId == res.productId && Matches(term, p) && res.name == p.name
  }

  /** Result `i` of a search keeps the id and name of row `i` of the query. */
  lemma ResultOfRow(query: Option<string>, products: seq<ProductRow>, imageRows: seq<ImageRow>,
                    failedLookups: set<nat>, i: nat)
    requires !BlankQuery(query) && i < |SearchProducts(query, products, imageRows, failedLookups)|
    ensures var rows := SearchRows(Lower(query.value), products);
      var r := SearchProducts(query, products, imageRows, failedLookups);
      i < |rows| && r[i].productId == rows[i].productId && r[i].name == rows[i].name
  {
  }

  /** Result `i` of a search is shaped from a matching product of the table. */
  lemma ResultFromProduct(query: Option<string>, products: seq<ProductRow>, imageRows: seq<ImageRow>,
                          failedLookups: set<nat>, i: nat)
    requires !BlankQuery(query) && i < |SearchProducts(query, products, imageRows, failedLookups)|
    ensures FromMatchingProduct(products, Lower(query.value), SearchProducts(query, products, imageRows, failedLookups)[i])
  {
    var term := Lower(query.value);
    var rows := SearchRows(term, products);
    var res := SearchProducts(query, products, imageRows, failedLookups)[i];
    ResultOfRow(query, products, imageRows, failedLookups, i);
    var row := rows[i];
    assert res.productId == row.productId && res.name == row.name;
    assert row in products && Matches(term, row) by {
      SelectSound(products, MatchesTerm(term), SearchKey(term), SearchLimit);
      assert MatchesTerm(term)(row);
      assert row in multiset(products);
    }
  }

  /** Each result of a search is shaped from a matching product of the table. */
  lemma ResultsFromRows(query: Option<string>, products: seq<ProductRow>, imageRows: seq<ImageRow>,
                        failedLookups: set<nat>)
    requires !BlankQuery(query)
    ensures var r := SearchProducts(query, products, imageRows, failedLookups);
      forall i :: 0 <= i < |r| ==> FromMatchingProduct(products, Lower(query.value), r[i])
  {
    var r := SearchProducts(query, products, imageRows, failedLookups);
    forall i | 0 <= i < |r|
      ensures FromMatchingProduct(products, Lower(query.value), r[i])
    {
      ResultFromProduct(query, products, imageRows, failedLookups, i);
    }
  }

  /** Among the results, name matches come first. */
  lemma ResultsNameOrder(query: Option<string>, products: seq<ProductRow>, imageRows: seq<ImageRow>,
                         failedLookups: set<nat>)
    requires !BlankQuery(query)
    ensures var r := SearchProducts(query, products, imageRows, failedLookups);
      forall i, j :: 0 <= i < j < |r| && Like(r[j].name, Lower(query.value)) ==> Like(r[i].name, Lower(query.value))
  {
    var r := SearchProducts(query, products, imageRows, failedLookups);
    forall i, j | 0 <= i < j < |r| && Like(r[j].name, Lower(query.value))
      ensures Like(r[i].name, Lower(query.value))
    {
      ResultOfRow(query, products, imageRows, failedLookups, i);
      ResultOfRow(query, products, imageRows, failedLookups, j);
      NameMatchesFirst(Lower(query.value), products);
    }
  }
}
