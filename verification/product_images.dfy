/** `processProductImages`: the image list each product of a listing gets.

    Per product: its declared `product_images` rows in `ORDER BY
    sort_order`, de-duplicated on the stored `image_url` (first row wins)
    and stripped of rows without one; if none remain, its variants'
    images instead. The result is de-duplicated once more on the stored
    value, each entry is resolved with `getImageUrl`, and the list is
    stably sorted by `order`. De-duplication compares STORED values, so
    two spellings of one file (`photo.jpg`, `/uploads/photo.jpg`) stay two
    entries with the same URL. */
module ProductImages {
  import opened Wrappers
  import opened Text
  import opened Query
  import opened Catalog
  import opened ImageUrls

  /** An image entry before resolution: `{ id, url, order, alt }` with
      `url` still the stored value. */
  datatype Candidate = Candidate(id: nat, raw: RawRef, order: int, alt: string)

  /** An image as the client receives it. */
  datatype Image = Image(id: nat, url: string, alt: string, order: int)

  predicate HasUrl(c: Candidate) {
    Truthy(c.raw)
  }

  predicate DistinctKeys(cs: seq<Candidate>) {
    forall i, j :: 0 <= i < j < |cs| ==> KeyOf(cs[i].raw) != KeyOf(cs[j].raw)
  }

  function Keys(cs: seq<Candidate>): set<UrlKey> {
    set c | c in cs :: KeyOf(c.raw)
  }

  /** De-duplication on the stored value, first occurrence wins: keeps
      one entry per key, loses no key, and every entry kept is the first
      one of `cs` with its key. */
  function Dedup(cs: seq<Candidate>): (r: seq<Candidate>)
    ensures DistinctKeys(r)
    ensures Keys(r) == Keys(cs)
    ensures forall c :: c in r ==> c in cs
    decreases |cs|
  {
    if |cs| == 0 then []
    else
      var init := cs[..|cs| - 1];
      var last := cs[|cs| - 1];
      var d := Dedup(init);
      assert cs == init + [last];
      assert forall i :: 0 <= i < |init| ==> init[i] == cs[i];
      if KeyOf(last.raw) in Keys(d) then d
      else
        var r := d + [last];
        assert forall i :: 0 <= i < |d| ==> r[i] == d[i];
        assert forall k :: 0 <= k < |init| ==> KeyOf(cs[k].raw) in Keys(init);
        r
  }

  /** `cs[j]` is the first entry of `cs` with its key. */
  predicate FirstWithItsKey(cs: seq<Candidate>, j: int)
    requires 0 <= j < |cs|
  {
    forall k :: 0 <= k < j ==> KeyOf(cs[k].raw) != KeyOf(cs[j].raw)
  }

  /** One step of `Dedup`: the last entry is kept exactly when its key is new. */
  lemma DedupStep(cs: seq<Candidate>)
    requires |cs| > 0
    ensures var init := cs[..|cs| - 1];
      var last := cs[|cs| - 1];
      Dedup(cs) == if KeyOf(last.raw) in Keys(Dedup(init)) then Dedup(init) else Dedup(init) + [last]
  {
  }

  /** An entry first with its key in a prefix stays first in the whole. */
  lemma FirstInPrefix(cs: seq<Candidate>, j: int)
    requires 0 <= j < |cs| - 1 && FirstWithItsKey(cs[..|cs| - 1], j)
    ensures FirstWithItsKey(cs, j)
  {
    assert forall k :: 0 <= k <= j ==> cs[..|cs| - 1][k] == cs[k];
  }

  /** The last entry is first with its key when no earlier entry has it. */
  lemma LastFirstWhenNew(cs: seq<Candidate>)
    requires |cs| > 0 && KeyOf(cs[|cs| - 1].raw) !in Keys(cs[..|cs| - 1])
    ensures FirstWithItsKey(cs, |cs| - 1)
  {
    var init := cs[..|cs| - 1];
    forall k | 0 <= k < |cs| - 1
      ensures KeyOf(cs[k].raw) != KeyOf(cs[|cs| - 1].raw)
    {
      assert cs[k] == init[k];
      assert cs[k] in init;
    }
  }

  /** The first occurrence wins: every entry `Dedup` keeps is the first
      entry of its input with that key. */
  lemma {:induction false} DedupKeepsFirst(cs: seq<Candidate>)
    ensures forall i :: 0 <= i < |Dedup(cs)| ==>
              exists j :: 0 <= j < |cs| && cs[j] == Dedup(cs)[i] && FirstWithItsKey(cs, j)
    decreases |cs|
  {
    if |cs| > 0 {
      var init := cs[..|cs| - 1];
      var last := cs[|cs| - 1];
      var d := Dedup(init);
      var r := Dedup(cs);
      DedupKeepsFirst(init);
      DedupStep(cs);
      forall i | 0 <= i < |r|
        ensures exists j :: 0 <= j < |cs| && cs[j] == r[i] && FirstWithItsKey(cs, j)
      {
        if i < |d| {
          assert r[i] == d[i];
          var j :| 0 <= j < |init| && init[j] == d[i] && FirstWithItsKey(init, j);
          FirstInPrefix(cs, j);
          assert cs[j] == init[j];
        } else {
          assert r[i] == last;
          LastFirstWhenNew(cs);
          assert cs[|cs| - 1] == r[i];
        }
      }
      assert forall i :: 0 <= i < |Dedup(cs)| ==>
               exists j :: 0 <= j < |cs| && cs[j] == Dedup(cs)[i] && FirstWithItsKey(cs, j);
    } else {
      assert Dedup(cs) == [];
    }
  }

  /** The source's loop: a `Set` of seen keys and an array pushed to. */
  method DedupWithSeenSet(cs: seq<Candidate>) returns (r: seq<Candidate>)
    ensures r == Dedup(cs)
  {
    var seen: set<UrlKey> := {};
    r := [];
    var i := 0;
    while i < |cs|
      invariant 0 <= i <= |cs|
      invariant r == Dedup(cs[..i])
      invariant seen == Keys(r)
    {
      assert cs[..i + 1][..i] == cs[..i];
      var key := KeyOf(cs[i].raw);
      if key !in seen {
        seen := seen + {key};
        r := r + [cs[i]];
      }
      i := i + 1;
    }
    assert cs[..|cs|] == cs;
  }

  /** De-duplicating entries whose keys are already distinct changes nothing. */
  lemma {:induction false} DedupOfDistinct(cs: seq<Candidate>)
    requires DistinctKeys(cs)
    ensures Dedup(cs) == cs
    decreases |cs|
  {
    if |cs| > 0 {
      var init := cs[..|cs| - 1];
      DedupOfDistinct(init);
      var last := cs[|cs| - 1];
      assert cs == init + [last];
    }
  }

  /** Keeping some entries keeps their keys distinct. */
  lemma {:induction false} FilterKeepsDistinct(cs: seq<Candidate>, p: Candidate -> bool)
    requires DistinctKeys(cs)
    ensures DistinctKeys(Filter(cs, p))
    decreases |cs|
  {
    if |cs| > 0 {
      FilterKeepsDistinct(cs[1..], p);
      var rest := Filter(cs[1..], p);
      forall j | 0 <= j < |rest|
        ensures KeyOf(cs[0].raw) != KeyOf(rest[j].raw)
      {
        assert rest[j] in multiset(cs[1..]);
        var k :| 0 <= k < |cs[1..]| && cs[1..][k] == rest[j];
        assert cs[k + 1] == rest[j];
      }
    }
  }

  /** One declared row as an entry: `id` 0, `order` 0 and `alt` "" stand in
      for NULL. */
  function DeclaredCandidate(row: ImageRow): Candidate {
    Candidate(row.imageId.GetOr(0), row.imageUrl, row.sortOrder.GetOr(0), row.altText.GetOr(""))
  }

  function DeclaredCandidates(rows: seq<ImageRow>): (r: seq<Candidate>)
    ensures |r| == |rows|
    ensures forall i :: 0 <= i < |rows| ==> r[i] == DeclaredCandidate(rows[i])
  {
    seq(|rows|, i requires 0 <= i < |rows| => DeclaredCandidate(rows[i]))
  }

  /** The product's declared rows, as the query returns them. */
  function DeclaredRows(productId: nat, rows: seq<ImageRow>): seq<ImageRow> {
    SortBy(ImagesOf(productId, rows), ImageSqlOrder)
  }

  /** The declared entries kept for a product: first row per stored
      value, rows without a value dropped. */
  function DeclaredEntries(productId: nat, rows: seq<ImageRow>): seq<Candidate> {
    Filter(Dedup(DeclaredCandidates(DeclaredRows(productId, rows))), HasUrl)
  }

  /** A variant's image as a fallback entry: `order` 0, `alt` "". */
  function VariantCandidate(v: VariantRow): Candidate {
    Candidate(v.variantId, v.imageUrl, 0, "")
  }

  function VariantCandidates(vs: seq<VariantRow>): (r: seq<Candidate>)
    ensures |r| == |vs|
    ensures forall i :: 0 <= i < |vs| ==> r[i] == VariantCandidate(vs[i])
  {
    seq(|vs|, i requires 0 <= i < |vs| => VariantCandidate(vs[i]))
  }

  /** `WHERE pv.product_id IN (?) AND pv.image_url IS NOT NULL`. */
  function VariantImageRows(productId: nat, variants: seq<VariantRow>): seq<VariantRow> {
    Filter(variants, (v: VariantRow) => v.productId == productId && v.imageUrl != Absent)
  }

  function FallbackEntries(productId: nat, variants: seq<VariantRow>): seq<Candidate> {
    Filter(Dedup(VariantCandidates(VariantImageRows(productId, variants))), HasUrl)
  }

  /** Declared entries, or the variants' when there are none. */
  function SourceEntries(productId: nat, rows: seq<ImageRow>, variants: seq<VariantRow>): (r: seq<Candidate>)
    ensures DistinctKeys(r)
    ensures forall c :: c in r ==> HasUrl(c)
  {
    var declared := DeclaredEntries(productId, rows);
    var cands := DeclaredCandidates(DeclaredRows(productId, rows));
    FilterKeepsDistinct(Dedup(cands), HasUrl);
    if |declared| > 0 then declared
    else
      var vcands := VariantCandidates(VariantImageRows(productId, variants));
      FilterKeepsDistinct(Dedup(vcands), HasUrl);
      FallbackEntries(productId, variants)
  }

  /** One entry as the client sees it: the resolved URL, `alt` falling
      back to the product name. */
  function ToImage(c: Candidate, productId: nat, name: string): Image
    requires HasUrl(c)
  {
    Image(c.id, ResolveImageUrl(c.raw, productId).value, if c.alt == "" then name else c.alt, c.order)
  }

  function ToImages(cs: seq<Candidate>, productId: nat, name: string): (r: seq<Image>)
    requires forall c :: c in cs ==> HasUrl(c)
    ensures |r| == |cs|
    ensures forall i :: 0 <= i < |cs| ==> r[i] == ToImage(cs[i], productId, name)
  {
    seq(|cs|, i requires 0 <= i < |cs| => ToImage(cs[i], productId, name))
  }

  function ImageOrder(img: Image): seq<real> {
    [img.order as real]
  }

  /** The image list of one product. */
  function ImagesFor(p: ProductRow, rows: seq<ImageRow>, variants: seq<VariantRow>): seq<Image> {
    var unique := Dedup(SourceEntries(p.productId, rows, variants));
    SortBy(ToImages(unique, p.productId, p.name), ImageOrder)
  }

  /** `processProductImages(products, includeImages)`: one list per
      product; all empty when images are not wanted or the batch is
      empty. */
  function ProcessProductImages(products: seq<ProductRow>, rows: seq<ImageRow>, variants: seq<VariantRow>,
                                includeImages: bool): (r: seq<seq<Image>>)
    ensures |r| == |products|
    ensures !includeImages ==> forall i :: 0 <= i < |r| ==> r[i] == []
    ensures includeImages ==> forall i :: 0 <= i < |r| ==> r[i] == ImagesFor(products[i], rows, variants)
  {
    if !includeImages || |products| == 0 then seq(|products|, _ => [])
    else seq(|products|, i requires 0 <= i < |products| => ImagesFor(products[i], rows, variants))
  }

  /** A product's images are ordered by `order`, ascending. */
  lemma ImagesSortedByOrder(p: ProductRow, rows: seq<ImageRow>, variants: seq<VariantRow>)
    ensures var imgs := ImagesFor(p, rows, variants);
      forall i, j :: 0 <= i < j < |imgs| ==> imgs[i].order <= imgs[j].order
  {
    var unique := Dedup(SourceEntries(p.productId, rows, variants));
    var imgs := SortBy(ToImages(unique, p.productId, p.name), ImageOrder);
    SortBySorted(ToImages(unique, p.productId, p.name), ImageOrder);
    forall i, j | 0 <= i < j < |imgs|
      ensures imgs[i].order <= imgs[j].order
    {
      assert KeyLe(ImageOrder(imgs[i]), ImageOrder(imgs[j]));
      assert ImageOrder(imgs[i])[1..] == [] && ImageOrder(imgs[j])[1..] == [];
    }
  }

  /** A product's images are exactly its source entries, each resolved once:
      the final de-duplication removes nothing and the sort only reorders. */
  lemma ImagesAreResolvedSources(p: ProductRow, rows: seq<ImageRow>, variants: seq<VariantRow>)
    ensures var src := SourceEntries(p.productId, rows, variants);
      DistinctKeys(src)
      && multiset(ImagesFor(p, rows, variants)) == multiset(ToImages(src, p.productId, p.name))
  {
    DedupOfDistinct(SourceEntries(p.productId, rows, variants));
  }

  /** Every image is an entry from the product's sources with the URL
      `getImageUrl` gives it, the entry's own `id` and `order`, and its
      `alt` or else the product name; every URL starts with `/`. */
  lemma ImageFields(p: ProductRow, rows: seq<ImageRow>, variants: seq<VariantRow>)
    ensures var src := SourceEntries(p.productId, rows, variants);
      forall img :: img in ImagesFor(p, rows, variants) ==>
        exists c :: (c in src && Truthy(c.raw)
          && img.url == ResolveImageUrl(c.raw, p.productId).value
          && img.id == c.id && img.order == c.order
          && img.alt == (if c.alt == "" then p.name else c.alt)
          && StartsWith(img.url, "/"))
  {
    var src := SourceEntries(p.productId, rows, variants);
    ImagesAreResolvedSources(p, rows, variants);
    var imgs := ToImages(src, p.productId, p.name);
    forall img | img in ImagesFor(p, rows, variants)
      ensures exists c :: (c in src && Truthy(c.raw)
          && img.url == ResolveImageUrl(c.raw, p.productId).value
          && img.id == c.id && img.order == c.order
          && img.alt == (if c.alt == "" then p.name else c.alt)
          && StartsWith(img.url, "/"))
    {
      assert img in multiset(imgs);
      var k :| 0 <= k < |imgs| && imgs[k] == img;
      assert src[k] in src;
    }
  }

  /** Variant images are a fallback only: with any declared entry the
      sources are exactly the declared entries, and otherwise they are the
      variants' (with `order` 0 and `alt` ""). */
  lemma VariantImagesOnlyAsFallback(productId: nat, rows: seq<ImageRow>, variants: seq<VariantRow>)
    ensures var declared := DeclaredEntries(productId, rows);
      var src := SourceEntries(productId, rows, variants);
      (|declared| > 0 ==> src == declared)
      && (|declared| == 0 ==> src == FallbackEntries(productId, variants))
    ensures forall c :: c in FallbackEntries(productId, variants) ==>
      c.order == 0 && c.alt == ""
      && exists v :: v in variants && v.productId == productId && c == VariantCandidate(v)
  {
    var vrows := VariantImageRows(productId, variants);
    var vcands := VariantCandidates(vrows);
    forall c | c in FallbackEntries(productId, variants)
      ensures c.order == 0 && c.alt == ""
        && exists v :: v in variants && v.productId == productId && c == VariantCandidate(v)
    {
      assert c in multiset(Dedup(vcands));
      assert c in vcands;
      var k :| 0 <= k < |vcands| && vcands[k] == c;
      assert vrows[k] in multiset(variants);
    }
  }

  /** Every declared row of the product with a stored value other than
      NULL, "" or the text "null" is represented among its sources. (A
      NULL row that comes first claims the key "null", which is why that
      text is excluded.) */
  lemma DeclaredRowsRepresented(productId: nat, rows: seq<ImageRow>, variants: seq<VariantRow>, row: ImageRow)
    requires row in rows && row.productId == productId
    requires Truthy(row.imageUrl) && row.imageUrl != Path("null")
    ensures KeyOf(row.imageUrl) in Keys(SourceEntries(productId, rows, variants))
  {
    var own := DeclaredRows(productId, rows);
    var cands := DeclaredCandidates(own);
    FilterKeepsMatching(rows, (r: ImageRow) => r.productId == productId);
    assert row in multiset(own);
    var k :| 0 <= k < |own| && own[k] == row;
    assert cands[k] in cands;
    var key := KeyOf(row.imageUrl);
    assert key in Keys(cands);
    var d := Dedup(cands);
    assert key in Keys(d);
    var c :| c in d && KeyOf(c.raw) == key;
    if !Truthy(c.raw) {
      assert false;
    }
    FilterKeepsMatching(d, HasUrl);
    var declared := DeclaredEntries(productId, rows);
    var j :| 0 <= j < |d| && d[j] == c;
    assert c in multiset(declared);
    assert |declared| > 0;
  }

  /** Entries that all share one key de-duplicate to a single entry. */
  lemma DedupOfOneKey(cs: seq<Candidate>, k: UrlKey)
    requires |cs| > 0
    requires forall i :: 0 <= i < |cs| ==> KeyOf(cs[i].raw) == k
    ensures |Dedup(cs)| == 1
  {
    var d := Dedup(cs);
    assert cs[0] in cs;
    assert k in Keys(cs);
    assert forall i :: 0 <= i < |d| ==> d[i] in cs;
  }

  /** A product with no `product_images` row has no declared entry. */
  lemma NoDeclaredEntries(productId: nat, rows: seq<ImageRow>)
    requires forall i :: 0 <= i < |rows| ==> rows[i].productId != productId
    ensures DeclaredEntries(productId, rows) == []
  {
    var own := ImagesOf(productId, rows);
    assert forall r :: r in multiset(own) ==> r in multiset(rows);
  }

  /** Variants that all store the same non-empty value give one fallback entry. */
  lemma SharedVariantImageOneFallback(productId: nat, variants: seq<VariantRow>, v: VariantRow)
    requires v in variants && v.productId == productId && Truthy(v.imageUrl)
    requires forall i :: 0 <= i < |variants| && variants[i].productId == productId && variants[i].imageUrl != Absent
               ==> variants[i].imageUrl == v.imageUrl
    ensures |FallbackEntries(productId, variants)| == 1
  {
    var vrows := VariantImageRows(productId, variants);
    FilterKeepsMatching(variants, (w: VariantRow) => w.productId == productId && w.imageUrl != Absent);
    assert v in multiset(vrows);
    var vcands := VariantCandidates(vrows);
    forall i | 0 <= i < |vcands|
      ensures KeyOf(vcands[i].raw) == KeyOf(v.imageUrl)
    {
      assert vrows[i] in multiset(variants);
    }
    DedupOfOneKey(vcands, KeyOf(v.imageUrl));
    var d := Dedup(vcands);
    assert d[0] in vcands;
    assert HasUrl(d[0]);
    assert d[0] in d;
    var fallback := Filter(d, HasUrl);
    assert multiset(fallback)[d[0]] == multiset(d)[d[0]];
  }

  /** A product without declared images whose variants (with a non-NULL
      image) all store the same value gets exactly one image, however many
      variants there are. */
  lemma SharedVariantImageCountedOnce(p: ProductRow, rows: seq<ImageRow>, variants: seq<VariantRow>, v: VariantRow)
    requires forall i :: 0 <= i < |rows| ==> rows[i].productId != p.productId
    requires v in variants && v.productId == p.productId && Truthy(v.imageUrl)
    requires forall i :: 0 <= i < |variants| && variants[i].productId == p.productId && variants[i].imageUrl != Absent
               ==> variants[i].imageUrl == v.imageUrl
    ensures |ImagesFor(p, rows, variants)| == 1
  {
    NoDeclaredEntries(p.productId, rows);
    SharedVariantImageOneFallback(p.productId, variants, v);
    var src := SourceEntries(p.productId, rows, variants);
    assert |src| == 1;
    ImagesAreResolvedSources(p, rows, variants);
    assert |multiset(ImagesFor(p, rows, variants))| == |multiset(ToImages(src, p.productId, p.name))|;
  }

  /** Two declared rows holding two spellings of one file (`name` and
      `/uploads/name`) stay two entries, and both resolve to the same URL:
      de-duplication looks at the stored value, not at the resolved one. */
  lemma SpellingsNotMerged(productId: nat, rows: seq<ImageRow>, variants: seq<VariantRow>, a: ImageRow, b: ImageRow,
                           name: string)
    requires IsBareName(name) && name != "null"
    requires a in rows && b in rows && a.productId == productId && b.productId == productId
    requires a.imageUrl == Path(name) && b.imageUrl == Path(UploadsPrefix + name)
    ensures var src := SourceEntries(productId, rows, variants);
      exists i, j :: 0 <= i < j < |src|
        && ResolveImageUrl(src[i].raw, productId) == Some(UploadsPrefix + name)
        && ResolveImageUrl(src[j].raw, productId) == Some(UploadsPrefix + name)
  {
    var src := SourceEntries(productId, rows, variants);
    assert |name| > 0;
    assert UploadsPrefix + name != name by {
      assert |UploadsPrefix + name| > |name|;
    }
    assert UploadsPrefix + name != "null" by {
      assert |UploadsPrefix + name| > 4;
    }
    DeclaredRowsRepresented(productId, rows, variants, a);
    DeclaredRowsRepresented(productId, rows, variants, b);
    var ca :| ca in src && KeyOf(ca.raw) == TextKey(name);
    var cb :| cb in src && KeyOf(cb.raw) == TextKey(UploadsPrefix + name);
    assert ca.raw == Path(name) by {
      assert HasUrl(ca);
    }
    assert cb.raw == Path(UploadsPrefix + name) by {
      assert HasUrl(cb);
    }
    ResolveSpellingsAgree(name, productId);
    var ia :| 0 <= ia < |src| && src[ia] == ca;
    var ib :| 0 <= ib < |src| && src[ib] == cb;
    assert ia != ib;
    if ia < ib {
      assert 0 <= ia < ib < |src|;
    } else {
      assert 0 <= ib < ia < |src|;
    }
  }
}
