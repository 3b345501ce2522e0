# Catalogue aggregation and image resolution, in Dafny

This project models the read side of a shop's product controller and two
small helpers from its home page.

- **Image URL resolution.**
  - `getImageUrl` turns a stored `image_url` (NULL, a path string or a blob) into a browser URL.
  - Search and product detail use their own resolver, which always prefixes `/uploads/`.
  - `serveProductImage` decides between 404, sending bytes, redirecting and sending a file.
- **Image aggregation** (`processProductImages`).
  - A product's declared images are taken in `sort_order`, de-duplicated on the stored value, and stripped of empty values.
  - A product with no declared image falls back to its variants' images.
  - Each list is de-duplicated once more, resolved with `getImageUrl`, and stably sorted by `order`.
- **Listings.** Flash deals, new arrivals, the full catalogue and best sellers.
  - Each is a `WHERE` / `ORDER BY` / `LIMIT` over product rows.
  - Effective stock is `COALESCE(SUM(variant stock), product stock, 0)`.
  - After the query, the numeric columns are coerced (NULL becomes 0), and `{ products }` wraps the full catalogue only.
- **Search.**
  - A blank query gives `[]`.
  - Otherwise the query is a case-insensitive substring match on four columns.
  - Results are ranked 10 / 5 / 1 by where the term was found, then by creation time, and at most 10 are returned.
  - Each result is shaped with defaults (`""`, `"Uncategorized"`) and the URL of its first image.
- **Product detail.**
  - The response is 404 when no row has the id.
  - Each variant is named after its attribute values and has one image entry exactly when its `image_url` is truthy.
  - Every declared image is listed in `sort_order`, without de-duplication.
- **Home page.**
  - `constructUrl` joins an optional base URL and a path, with a placeholder for a missing path.
  - The banner carousel has a slide index with next, previous, the timer tick and dot clicks.

Query results are inputs to the model: sequences of `ProductRow`, `VariantRow` and `ImageRow`. The database, HTTP, the filesystem and the clock are parameters:
- the set of files present;
- the 30-day cutoff;
- the set of products whose image lookup fails.

SQL leaves the order among rows with equal sort keys open. The model settles it with a stable sort that keeps table order. The stable sort is also what JavaScript's `Array.prototype.sort` does.

Modules, one per file:
- `Wrappers`: `Option`.
- `Text`: substring search, ASCII lower-casing, `trim`, `join`, decimal ids.
- `Query`: filter, stable sort by lexicographic keys, limit, and `Select`.
- `Catalog`: row types, NULL-aware SQL helpers, effective stock, the first image row.
- `ImageUrls`: the three resolvers and the serve decision.
- `ProductImages`: `processProductImages`.
- `Listings`: the four listings.
- `Search`: `searchProducts`.
- `Detail`: `getProductById`.
- `Home`: `constructUrl` and the carousel.

What the code does in places where a reader might expect otherwise:
- **Final image de-duplication.** It keys on the stored value, not on the resolved URL. `photo.jpg` and `/uploads/photo.jpg` therefore stay two images with the same URL (`ProductImages.SpellingsNotMerged`).
- **Effective stock.** A product whose variants all have NULL stock falls back to its own stock (`Catalog.EffectiveStockCases`).
- **Best sellers' `total_sold`.** The order-status condition sits in the `ON` clause of a `LEFT JOIN`, so quantities from orders of every status are summed. The model takes `total_sold` as a column of the row.
- **Search and stock.** Search does not filter on stock, and it reports the product's base `stock` column.
- **Product detail images.** Detail lists only declared images. Variant images appear per variant, one each: two variants sharing one image give two variant entries and no detail image. In the listings, the same product gets one image (`ProductImages.SharedVariantImageCountedOnce`).
- **Detail image ids.** A detail image passes its `image_id` and `sort_order` through as stored, NULL included.
- **The cache.** The listing cache is created but never read or written, so it is not modelled.

## Model

| member | source | states |
|---|---|---|
| Text.ContainsIffOccurs | server/controllers/productsController.js:557-561 | the substring test behind `LIKE '%term%'` holds exactly when the term occurs at some offset of the column |
| Text.Lower | server/controllers/productsController.js:542 | lower-casing keeps the length, leaves no upper-case ASCII letter and changes no other character |
| Text.LowerChar | server/controllers/productsController.js:542 | a capital `A`-`Z` becomes the small letter 32 code points above it, and every other character is kept |
| Text.LowerMapsCapitals | server/controllers/productsController.js:542 | each capital of a string becomes its own small letter, so a search for "aaa" cannot match "ABC" |
| Text.Trim | server/controllers/productsController.js:537 | `trim()` gives "" exactly when the string is all white space, and otherwise a string that starts and ends with a non-space character |
| Text.TrimIsSlice | server/controllers/productsController.js:537 | `trim()` returns the part of the string between its leading and its trailing white space |
| Text.Join | server/controllers/productsController.js:722-724 | the joined attribute values are empty exactly when every value is empty and no separator sits between two values |
| Text.ParseNatToString | server/controllers/productsController.js:732 | the decimal rendering of an id inside a template literal reads back as the id |
| Text.NatToStringInjective | server/controllers/productsController.js:732 | distinct ids render as distinct strings |
| Query.Filter | server/controllers/productsController.js:317-331 | `WHERE` keeps only matching rows, drawn from the input, and every matching row as often as it occurs |
| Query.SortBy | server/controllers/productsController.js:138-140 | sorting is a permutation of its input |
| Query.SortBySorted | server/controllers/productsController.js:138-140 | the sorted sequence is ordered by the key |
| Query.SortByStable | server/controllers/productsController.js:138-140 | elements with equal keys keep their input order, as `Array.prototype.sort` does |
| Query.Take | server/controllers/productsController.js:333 | `LIMIT n` keeps the first n rows, or all when there are fewer |
| Query.TakeSortedIsTop | server/controllers/productsController.js:332-333 | cutting a sorted sequence keeps a best part: nothing dropped comes before anything kept |
| Query.SelectSound | server/controllers/productsController.js:317-333 | a `WHERE` / `ORDER BY` / `LIMIT` query returns matching rows of the table, in key order |
| Query.SelectComplete | server/controllers/productsController.js:317-333 | the query returns at most n rows, and fewer only when no matching row is left out |
| Query.SelectTop | server/controllers/productsController.js:317-333 | no matching row left out ranks before a returned row |
| Query.KeyLePair | server/controllers/productsController.js:332 | a two-column key orders by the first column, then by the second |
| Catalog.KeyOf | server/controllers/productsController.js:59 | the de-duplication key of a stored string is the string itself, NULL keys as the text "null", and a blob keys by its bytes |
| Catalog.KeyOfCollisions | server/controllers/productsController.js:59 | two stored values share a key exactly when they are equal or one is NULL and the other the text "null" |
| Catalog.SqlSum | server/controllers/productsController.js:318-322 | SQL `SUM` is NULL exactly when every value is NULL, and otherwise the total of the non-NULL values |
| Catalog.EffectiveStockCases | server/controllers/productsController.js:318-322 | effective stock is the total of the variants' non-NULL stocks when there is one, else the product's stock with NULL as 0, also for a product without variants |
| Catalog.SortOrderKeyOrder | server/controllers/productsController.js:750 | `ORDER BY sort_order` puts NULL first and then orders by value |
| Catalog.FirstImageRow | server/controllers/productsController.js:896-899 | `ORDER BY sort_order LIMIT 1` returns nothing exactly when the product has no image row, and otherwise one of its rows with the least `sort_order` |
| ImageUrls.ResolveImageUrl | server/controllers/productsController.js:15-31 | `getImageUrl` returns null exactly for a falsy value and the product's image endpoint for a blob; a string starting with `/` comes back as it is, one starting with `uploads/` gets one `/` in front, and any other gets `/uploads/` in front |
| ImageUrls.ResolveSpellingsAgree | server/controllers/productsController.js:23-30 | `photo.jpg`, `uploads/photo.jpg` and `/uploads/photo.jpg` all resolve to `/uploads/photo.jpg` |
| ImageUrls.ResolveIdempotent | server/controllers/productsController.js:15-31 | resolving a resolved URL again changes nothing |
| ImageUrls.BlobUrlsIdentifyProduct | server/controllers/productsController.js:18-21 | two blob URLs are equal exactly when they belong to the same product |
| ImageUrls.DetailImageUrl | server/controllers/productsController.js:757-771 | detail inlines a blob as a data URI of its bytes; a string comes out as `/uploads/` + the string, and NULL as `/uploads/null` |
| ImageUrls.SearchImageUrl | server/controllers/productsController.js:601-613 | the search image is null exactly for a falsy value, a data URI of the bytes for a blob, and `/uploads/` + the string for a non-empty string |
| ImageUrls.SearchAgreesWithDetail | server/controllers/productsController.js:601-613 | search and detail resolve every truthy value alike; on NULL, detail prints `/uploads/null` where search gives null |
| ImageUrls.PrefixingResolversDoubleUploads | server/controllers/productsController.js:611 | a value stored as `uploads/x` comes out as `/uploads/uploads/x` from search and detail but as `/uploads/x` from `getImageUrl` |
| ImageUrls.StripUploadsOrSlash | server/controllers/productsController.js:930 | the cleaning regex removes a leading `uploads/` when there is one, else a leading `/` when there is one, else nothing |
| ImageUrls.UploadRelativePath | server/controllers/productsController.js:929-931 | the corrected cleaning removes a leading `/` when there is one and then a leading `uploads/` when there is one, and nothing else |
| ImageUrls.ServeFrom | server/controllers/productsController.js:901-941 | 404 exactly when there is no row or its value is falsy; the bytes exactly for a blob; a redirect exactly for a string starting with `http`; for any other string, the cleaned path when that file exists and 404 "Image file not found" otherwise |
| ImageUrls.ServeProductImageAsWritten | server/controllers/productsController.js:891-951 | the endpoint as written answers for the product's first image row by `sort_order`: 404 when there is none or its value is falsy, the blob's bytes, a redirect to an `http…` path, or for a local path the file the regex cleaning names when it exists and 404 otherwise |
| ImageUrls.AsWrittenStripMissesSlashUploads | server/controllers/productsController.js:929-931 | as written, `/uploads/name` is looked up as `uploads/name` while `name` and `uploads/name` are looked up as `name` |
| ImageUrls.ServeProductImage | server/controllers/productsController.js:891-951 | the corrected endpoint answers for the same first row the same way (404, the blob's bytes, a redirect to an `http…` path), but looks up the local path `UploadRelativePath` gives |
| ImageUrls.UploadRelativePathMatchesResolve | server/controllers/productsController.js:23-30 | the corrected cleaning maps all three spellings that `getImageUrl` treats as one file to that one file |
| ImageUrls.ServeSpellingsAgree | server/controllers/productsController.js:922-941 | with the corrected cleaning, the three spellings of a local file are served the same way |
| ImageUrls.ServeLocalFile | server/controllers/productsController.js:922-941 | with the corrected cleaning, a local path other than an `http` URL is served by its cleaned name, or answers 404 when that file is missing |
| ImageUrls.AsWrittenEndpointMissesSlashUploads | server/controllers/productsController.js:891-941 | a product whose first image is stored as `/uploads/name`, with `name` present under the uploads directory, gets 404 from the endpoint as written and the file from the corrected one |
| ProductImages.Dedup | server/controllers/productsController.js:124-135 | de-duplication on the stored value keeps one entry per key, loses no key and invents no entry |
| ProductImages.DedupKeepsFirst | server/controllers/productsController.js:124-135 | every entry kept is the first one of its input with that key |
| ProductImages.DedupWithSeenSet | server/controllers/productsController.js:57-63 | the loop with a set of seen keys computes exactly the de-duplication |
| ProductImages.DedupOfDistinct | server/controllers/productsController.js:124-135 | de-duplicating entries whose keys are already distinct changes nothing |
| ProductImages.FilterKeepsDistinct | server/controllers/productsController.js:70 | dropping entries without a URL keeps the keys distinct |
| ProductImages.DeclaredCandidates | server/controllers/productsController.js:71-76 | each declared row becomes an entry with `id`, `order` and `alt` defaulting to 0, 0 and "" |
| ProductImages.VariantCandidates | server/controllers/productsController.js:109-114 | each variant row becomes an entry with its variant id, `order` 0 and `alt` "" |
| ProductImages.SourceEntries | server/controllers/productsController.js:80-117 | a product's entries before the final pass have distinct stored values, each of them truthy |
| ProductImages.ToImages | server/controllers/productsController.js:128-133 | each entry is resolved in place, one image per entry |
| ProductImages.ProcessProductImages | server/controllers/productsController.js:34-146 | one list per product; every list is empty when images are not wanted, and otherwise each is that product's aggregated image list |
| ProductImages.ImagesSortedByOrder | server/controllers/productsController.js:138-140 | a product's images are sorted by `order`, ascending |
| ProductImages.ImagesAreResolvedSources | server/controllers/productsController.js:119-146 | a product's images are exactly its entries, each resolved once: the final pass removes nothing |
| ProductImages.ImageFields | server/controllers/productsController.js:128-133 | each image has its entry's id and order, the URL `getImageUrl` gives, and its alt text or else the product name; every URL starts with `/` |
| ProductImages.VariantImagesOnlyAsFallback | server/controllers/productsController.js:81-116 | with any declared entry a product gets no variant image; otherwise its entries are its variants' images, with `order` 0 and `alt` "" |
| ProductImages.DeclaredRowsRepresented | server/controllers/productsController.js:58-78 | every declared row with a truthy value other than the text "null" is represented among the product's entries |
| ProductImages.DedupOfOneKey | server/controllers/productsController.js:97-102 | entries that all share one stored value collapse to one |
| ProductImages.NoDeclaredEntries | server/controllers/productsController.js:81-83 | a product without image rows has no declared entry |
| ProductImages.SharedVariantImageOneFallback | server/controllers/productsController.js:94-116 | variants that all store one truthy value give one fallback entry |
| ProductImages.SharedVariantImageCountedOnce | server/controllers/productsController.js:80-146 | a product without declared images whose variants share one image gets exactly one image, however many variants there are |
| ProductImages.SpellingsNotMerged | server/controllers/productsController.js:126-130 | declared rows storing `name` and `/uploads/name` stay two entries that resolve to the same URL |
| Listings.OrderKeyMeansRanksFirst | server/controllers/productsController.js:332 | each listing's sort key orders rows exactly as its `ORDER BY` clause does, column by column |
| Listings.SelectRowsSpec | server/controllers/productsController.js:317-333 | a listing returns rows of the table that are in stock and meet its condition, in `ORDER BY` order, at most 12 outside the full catalogue, and never passes over a qualifying row that ranks before a returned one |
| Listings.AllProductsReturnsEveryMatch | server/controllers/productsController.js:478-496 | the full catalogue returns every product in stock (in the category, when one is given) |
| Listings.Normalize | server/controllers/productsController.js:343-354 | coercion keeps the id, name, date, code, description and category; reports the effective and the base stock and whether variants exist; reads NULL price, discounted price, discount, rating and review count as 0; and adds `total_sold` only for best sellers |
| Listings.ListProducts | server/controllers/productsController.js:448-529 | one item per selected row in query order, each item that row coerced column by column as `Normalize` states, `{ products }` exactly for the full catalogue, no images when `includeImages` is "false" or "0", and otherwise each item's aggregated image list |
| Listings.ItemsMirrorRows | server/controllers/productsController.js:343-354 | each listed item carries its row's id, date, category, effective stock, coerced discount columns and sales total |
| Listings.ListingSpec | server/controllers/productsController.js:807-888 | listed items are in stock; flash deals have positive discounted price and discount; new arrivals are after the cutoff; best sellers have sold; a category filter holds; every item is a product of the table |
| Listings.CoercionsAgree | server/controllers/productsController.js:621-639 | the listings, search and the detail page coerce a product's price, rating, review count and category alike |
| Search.Rank | server/controllers/productsController.js:564-569 | rank 10 exactly for a name match, 5 exactly for a non-NULL description match without a name match, else 1 |
| Search.SearchKeyMeansRanksFirst | server/controllers/productsController.js:564-570 | the sort key orders rows by rank descending, then by creation time descending |
| Search.SearchRowsSpec | server/controllers/productsController.js:544-572 | the search query returns at most 10 matching rows of the table, in rank order, fewer only when no match is left out, passing over no match that ranks before a returned row |
| Search.NameMatchesFirst | server/controllers/productsController.js:564-569 | a product whose name holds the term is never listed after one whose name does not |
| Search.CategoryLabel | server/controllers/productsController.js:629 | the category label is the stored name when it is non-empty, and "Uncategorized" for NULL or "" |
| Search.FirstImage | server/controllers/productsController.js:594-619 | the search image is null when the lookup failed or the product has no image row, and otherwise resolves the product's first image row by `sort_order` |
| Search.Shape | server/controllers/productsController.js:621-639 | a result keeps the row's id, name and category id, defaults description and code to "", labels the category, reads NULL price, rating, review count and stock as 0, and carries the first image unless its lookup failed |
| Search.SearchProducts | server/controllers/productsController.js:532-660 | a missing or white-space query gives `[]`; otherwise one shaped result per row of the query |
| Search.SearchSpec | server/controllers/productsController.js:532-660 | at most 10 results, each for a product of the table that matches the lower-cased query, with name matches first |
| Detail.VariantName | server/controllers/productsController.js:722-727 | a variant is named after the product exactly when its attribute string is empty, and otherwise `name - attributes` |
| Detail.VariantImages | server/controllers/productsController.js:728-737 | a variant has one image exactly when its stored value is truthy, with id `variant-img-<id>`, the stored value, order 0 and alt `name - attributes` |
| Detail.VariantImageIdsDistinct | server/controllers/productsController.js:732 | distinct variants get distinct image ids |
| Detail.ParsedAttributes | server/controllers/productsController.js:710-720 | the parsed attributes are `null` exactly for a NULL column, `{}` for text that is not valid JSON, and the object otherwise |
| Detail.ToDetailVariant | server/controllers/productsController.js:739-745 | each variant keeps its row's columns, sends its attributes as parsed (`null` for NULL, `{}` for text that is not valid JSON, otherwise the parsed values), gets the requested id as parent, its name and its images |
| Detail.ToDetailImage | server/controllers/productsController.js:755-772 | a detail image keeps the row's id and order, uses the detail resolver, and falls back to the product name for a NULL or empty alt text |
| Detail.DetailImages | server/controllers/productsController.js:749-772 | one detail image per declared row, in `sort_order` |
| Detail.GetProductById | server/controllers/productsController.js:667-772 | 404 exactly when no row has the id; otherwise the first row with that id, with price, discounts, rating and review count read as 0 when NULL, its stock and sales as stored, one `ToDetailVariant` per variant row in order, and the detail images of its rows |
| Detail.FindProduct | server/controllers/productsController.js:667-690 | the lookup finds no row exactly when no row has the id, and otherwise the first row that has it |
| Detail.DetailVariantsSpec | server/controllers/productsController.js:703-746 | the product found is a row with that id, and each variant is one of its variant rows, with the id as parent and named after its attributes |
| Detail.DetailImagesSpec | server/controllers/productsController.js:749-772 | detail shows one image per declared row, including rows storing the same value, with NULL orders first and the rest ascending |
| Detail.DetailImageRowsFromTable | server/controllers/productsController.js:749-752 | the detail image query returns only rows of the table that belong to the product |
| Detail.DetailImagesFromRows | server/controllers/productsController.js:755-772 | every detail image has the id, order and detail URL of one of the product's rows |
| Home.ConstructUrl | client/src/components/Home.jsx:21-28 | a falsy path gives the placeholder; without a base, a path starting with `/` is kept and any other gets `/` in front; with a base, the base is followed by the path, with a `/` between them when the path does not start with one |
| Home.ConstructUrlKeepsPath | client/src/components/Home.jsx:24-27 | the result ends with the path, with a `/` right before it when the path does not start with one |
| Home.ConstructUrlWithBase | client/src/components/Home.jsx:27 | with a base, the result is the base followed by what the same path gives without one |
| Home.ConstructUrlIdempotent | client/src/components/Home.jsx:24-26 | without a base, the function leaves its own results unchanged |
| Home.SlidesRotate | client/src/components/Home.jsx:192-198 | on slides 0..3, next and previous stay in range and are rotation by one, each way |
| Home.PrevUndoesNext | client/src/components/Home.jsx:192-198 | previous undoes next on every index except -1 |
| Home.NextUndoesPrev | client/src/components/Home.jsx:192-198 | next undoes previous on every index except 4 |
| Home.FourNextsComeBack | client/src/components/Home.jsx:184-198 | four steps forward, by button or by timer, return to the start and no fewer do |
| Home.DotClickOutOfRangeStaysOut | client/src/components/Home.jsx:200-202 | a dot click takes any index unchecked, and from an index above 3 next only climbs |

## Left out

- Upload plumbing is not modelled: `multer` storage, `ensureDir` and `handleCombinedUpload`. They are filesystem I/O with random, time-based file names.
- `createProduct`, `updateProduct`, `deleteProduct` and `deleteProductImage` are empty stubs, with nothing to model.
- The listing cache is created but never used.
- SQL execution is not modelled.
  - Query results are input sequences.
  - `product_id` and `variant_id` are taken to be unique.
  - The `GROUP BY` clauses group nothing further.
  - `total_sold` is an input column.
- Search matches the term as a plain substring. `%` and `_` in the query are not treated as `LIKE` wildcards, and MySQL collation effects are not modelled.
- Text.Lower: only ASCII letters are lower-cased. Other case mappings of JavaScript's `toLowerCase` and SQL `LOWER` are left out.
- The 30-day cutoff comes from the clock. It is the parameter `cutoff` of `Listings.NewArrivals`.
- Numeric coercion is not modelled as floating point. Prices and ratings are `real`, and `Number(x) || 0` is NULL-to-0. `NaN`, numeric strings and float rounding are out of scope.
- Base64 encoding of blobs is modelled as `DataUri(bytes)`.
- Template literals of a Buffer are not modelled. A Buffer stringifies as UTF-8 text, which can collide with a stored string. The model keys blobs by their bytes (`Catalog.UrlKey`).
- HTTP is reduced to outcome datatypes: status codes, headers and `res.json`. A database error that would answer 500 is out of scope.
- `Promise.all` in search is modelled sequentially. Shaping a row cannot fail, so the filter of failed rows keeps every row. A failed image lookup is the input set `failedLookups`.
- Request parameters arrive already parsed. The `category` filter and the product id are numbers, and array-valued query strings are out of scope.
- Variant `attributes` is modelled as NULL, text that is not valid JSON, or the list of the object's values in key order (`Catalog.Attributes`). Non-string values and non-object JSON are out of scope.
- `path.join` normalisation is not modelled. The file to serve is the cleaned relative path, looked up in a set of existing files.
- The declared-image query selects `DISTINCT` rows that include `image_id`, so it drops nothing. It orders by the base `sort_order` column, NULL first. The model follows that order.
- Columns that no modelled behaviour reads are left out of the records. The listings send `updated_at`, `is_featured` and a `variants: []` placeholder per item; the detail record sends `updated_at`, and each variant its `created_at` and `updated_at`. They are passed through untouched.
- Everything on the home page other than `constructUrl` and the slide index is out of scope. That includes the video sync, the blog fetch, the pop-ups and rendering.
- The other components, the subscription controller, the route wiring and the database setup script are out of scope.

## Findings

| source | as written | input that shows it | evidently intended | confidence | as-written member | corrected member |
|---|---|---|---|---|---|---|
| server/controllers/productsController.js:929-931 | `replace(/^(uploads\/\|\/)/, "")` removes a leading `uploads/` or else one leading `/`, never both | first image stored as `/uploads/photo.jpg` with `uploads/photo.jpg` on disk: the file looked up is `uploads/uploads/photo.jpg`, so the endpoint answers 404 "Image file not found" | remove a leading `/` and then a leading `uploads/`, as `getImageUrl` reads the value, so all three spellings serve `uploads/photo.jpg` | medium, not executed | ImageUrls.ServeProductImageAsWritten, ImageUrls.AsWrittenStripMissesSlashUploads, ImageUrls.AsWrittenEndpointMissesSlashUploads | ImageUrls.ServeProductImage, ImageUrls.UploadRelativePathMatchesResolve, ImageUrls.ServeSpellingsAgree |
