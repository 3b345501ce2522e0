/** Turning a stored `image_url` value into something a browser can fetch.

    Three resolvers live in the controller and they disagree:
    - `getImageUrl`, used by every listing, keeps one `/uploads/` prefix
      and sends blobs to the per-product image endpoint;
    - search and product detail always put `/uploads/` in front of a
      string and inline a blob as a base64 data URI;
    - `serveProductImage` answers the per-product image endpoint itself. */
module ImageUrls {
  import opened Wrappers
  import opened Text
  import opened Catalog

  const ImageEndpoint: string := "/api/products/image/"
  const UploadsPrefix: string := "/uploads/"

  /** A stored string that `getImageUrl` would complete to `/uploads/name`
      by adding a prefix: not empty, and starting with neither `/` nor
      `uploads/`. */
  predicate IsBareName(name: string) {
    name != "" && !StartsWith(name, "/") && !StartsWith(name, "uploads/")
  }

  /** `getImageUrl(rawImg, productId)`. Null for a falsy value; the image
      endpoint of the product for a blob; for a string, a URL that starts
      with `/` and ends with the stored string. */
  function ResolveImageUrl(raw: RawRef, productId: nat): (r: Option<string>)
    ensures r.None? <==> !Truthy(raw)
    ensures raw.Blob? ==> r == Some(ImageEndpoint + NatToString(productId))
    ensures r.Some? ==> StartsWith(r.value, "/")
    ensures raw.Path? && r.Some? ==> |raw.text| <= |r.value| && r.value[|r.value| - |raw.text|..] == raw.text
    ensures raw.Path? && StartsWith(raw.text, "/") ==> r == Some(raw.text)
    ensures raw.Path? && !StartsWith(raw.text, "/") && StartsWith(raw.text, "uploads/") ==> r == Some("/" + raw.text)
    ensures raw.Path? && IsBareName(raw.text) ==> r == Some(UploadsPrefix + raw.text)
  {
    match raw
    case Absent => None
    case Blob(_) => Some(ImageEndpoint + NatToString(productId))
    case Path(s) =>
      if s == "" then None
      else if StartsWith(s, "/") then Some(s)
      else if StartsWith(s, "uploads/") then Some("/" + s)
      else Some(UploadsPrefix + s)
  }

  /** `photo.jpg`, `uploads/photo.jpg` and `/uploads/photo.jpg` all resolve
      to `/uploads/photo.jpg`. */
  lemma ResolveSpellingsAgree(name: string, productId: nat)
    requires IsBareName(name)
    ensures ResolveImageUrl(Path(name), productId) == Some(UploadsPrefix + name)
    ensures ResolveImageUrl(Path("uploads/" + name), productId) == Some(UploadsPrefix + name)
    ensures ResolveImageUrl(Path(UploadsPrefix + name), productId) == Some(UploadsPrefix + name)
  {
    assert StartsWith("uploads/" + name, "uploads/");
    assert !StartsWith("uploads/" + name, "/") by {
      assert ("uploads/" + name)[0] == 'u';
    }
    assert "/" + ("uploads/" + name) == UploadsPrefix + name;
    assert StartsWith(UploadsPrefix + name, "/");
  }

  /** Resolving a resolved URL again changes nothing, whichever product asks. */
  lemma ResolveIdempotent(raw: RawRef, productId: nat, otherId: nat)
    requires Truthy(raw)
    ensures ResolveImageUrl(Path(ResolveImageUrl(raw, productId).value), otherId)
         == ResolveImageUrl(raw, productId)
  {
  }

  /** A blob's URL depends only on the product: it names the product, and
      two products never share one. */
  lemma BlobUrlsIdentifyProduct(a: seq<byte>, b: seq<byte>, p: nat, q: nat)
    ensures ResolveImageUrl(Blob(a), p) == ResolveImageUrl(Blob(b), q) <==> p == q
  {
    if ResolveImageUrl(Blob(a), p) == ResolveImageUrl(Blob(b), q) {
      var u, v := ImageEndpoint + NatToString(p), ImageEndpoint + NatToString(q);
      assert u[|ImageEndpoint|..] == NatToString(p) && v[|ImageEndpoint|..] == NatToString(q);
      NatToStringInjective(p, q);
    }
  }

  /** A URL handed to the client by search or detail: a path, or the blob
      inlined as `data:image/jpeg;base64,...` (the encoding itself is not
      modelled). */
  datatype ClientUrl = Url(path: string) | DataUri(bytes: seq<byte>)

  /** `${image_url}` for a string or NULL column value. */
  function TemplateText(raw: RawRef): string
    requires !raw.Blob?
  {
    match raw
    case Absent => "null"
    case Path(s) => s
  }

  /** The product-detail image URL: a blob becomes a data URI, anything
      else is printed after `/uploads/`, NULL included. */
  function DetailImageUrl(raw: RawRef): (r: ClientUrl)
    ensures raw.Blob? <==> r.DataUri?
    ensures raw.Blob? ==> r.bytes == raw.bytes
    ensures r.Url? ==> StartsWith(r.path, UploadsPrefix)
    ensures raw.Path? ==> r == Url(UploadsPrefix + raw.text)
    ensures raw == Absent ==> r == Url(UploadsPrefix + "null")
  {
    match raw
    case Blob(b) => DataUri(b)
    case _ => Url(UploadsPrefix + TemplateText(raw))
  }

  /** The search result's image: null for a falsy value, a data URI for a
      blob, `/uploads/` followed by the string otherwise. */
  function SearchImageUrl(raw: RawRef): (r: Option<ClientUrl>)
    ensures r.None? <==> !Truthy(raw)
    ensures raw.Blob? ==> r == Some(DataUri(raw.bytes))
    ensures r.Some? && r.value.Url? ==> StartsWith(r.value.path, UploadsPrefix)
    ensures raw.Path? && raw.text != "" ==> r == Some(Url(UploadsPrefix + raw.text))
  {
    match raw
    case Blob(b) => Some(DataUri(b))
    case Path(s) => if s == "" then None else Some(Url(UploadsPrefix + s))
    case Absent => None
  }

  /** Search and detail agree on every truthy value; on a falsy one search
      gives null while detail prints `/uploads/null` or `/uploads/`. */
  lemma SearchAgreesWithDetail(raw: RawRef)
    ensures Truthy(raw) ==> SearchImageUrl(raw) == Some(DetailImageUrl(raw))
    ensures raw == Absent ==> DetailImageUrl(raw) == Url("/uploads/null")
    ensures raw == Path("") ==> DetailImageUrl(raw) == Url("/uploads/")
  {
  }

  /** Search and detail agree with `getImageUrl` on bare names only: a
      string stored as `uploads/x` (the form the upload handler writes)
      comes out as `/uploads/uploads/x` there and `/uploads/x` here. */
  lemma PrefixingResolversDoubleUploads(name: string, productId: nat)
    requires IsBareName(name)
    ensures DetailImageUrl(Path(name)) == Url(ResolveImageUrl(Path(name), productId).value)
    ensures DetailImageUrl(Path("uploads/" + name)) == Url("/uploads/uploads/" + name)
    ensures ResolveImageUrl(Path("uploads/" + name), productId) == Some("/uploads/" + name)
  {
    ResolveSpellingsAgree(name, productId);
    assert UploadsPrefix + ("uploads/" + name) == "/uploads/uploads/" + name;
  }

  /** What `serveProductImage` answers. */
  datatype ServeOutcome =
    | ImageNotFound                   // 404 "Image not found"
    | SendBytes(bytes: seq<byte>)     // the blob, as image/jpeg
    | Redirect(location: string)      // an external URL
    | SendFile(relativePath: string)  // a file under the uploads directory
    | FileNotFound                    // 404 "Image file not found"

  /** `imageUrl.replace(/^(uploads\/|\/)/, "")`: removes one leading
      `uploads/`, or else one leading `/`. */
  function StripUploadsOrSlash(s: string): (r: string)
    ensures |r| <= |s| && r == s[|s| - |r|..]
    ensures StartsWith(s, "uploads/") ==> r == s[8..]
    ensures !StartsWith(s, "uploads/") && StartsWith(s, "/") ==> r == s[1..]
    ensures !StartsWith(s, "uploads/") && !StartsWith(s, "/") ==> r == s
  {
    if StartsWith(s, "uploads/") then s[8..]
    else if StartsWith(s, "/") then s[1..]
    else s
  }

  /** The path under the uploads directory a stored string names, by the
      same convention `getImageUrl` follows: an optional leading `/`, then
      an optional `uploads/`. */
  function UploadRelativePath(s: string): (r: string)
    ensures |r| <= |s| && r == s[|s| - |r|..]
    ensures StartsWith(s, "/") && StartsWith(s[1..], "uploads/") ==> r == s[9..]
    ensures StartsWith(s, "/") && !StartsWith(s[1..], "uploads/") ==> r == s[1..]
    ensures !StartsWith(s, "/") && StartsWith(s, "uploads/") ==> r == s[8..]
    ensures !StartsWith(s, "/") && !StartsWith(s, "uploads/") ==> r == s
  {
    var t := if StartsWith(s, "/") then s[1..] else s;
    if StartsWith(t, "uploads/") then t[8..] else t
  }

  /** The decision of `serveProductImage` for the product's first image
      row, given the files present and how the stored string is cleaned. */
  function ServeFrom(first: Option<ImageRow>, files: set<string>, clean: string -> string): (r: ServeOutcome)
    ensures r == ImageNotFound <==> first.None? || !Truthy(first.value.imageUrl)
    ensures r.SendBytes? <==> first.Some? && first.value.imageUrl.Blob?
    ensures r.SendBytes? ==> r.bytes == first.value.imageUrl.bytes
    ensures r.Redirect? <==> first.Some? && first.value.imageUrl.Path? && StartsWith(first.value.imageUrl.text, "http")
    ensures r.Redirect? ==> r.location == first.value.imageUrl.text
    ensures r.SendFile? ==> r.relativePath in files
    ensures first.Some? && first.value.imageUrl.Path? && Truthy(first.value.imageUrl)
            && !StartsWith(first.value.imageUrl.text, "http") ==>
      var c := clean(first.value.imageUrl.text);
      r == (if c in files then SendFile(c) else FileNotFound)
  {
    if first.None? || !Truthy(first.value.imageUrl) then ImageNotFound
    else
      match first.value.imageUrl
      case Blob(b) => SendBytes(b)
      case Path(s) =>
        if StartsWith(s, "http") then Redirect(s)
        else if clean(s) in files then SendFile(clean(s))
        else FileNotFound
  }

  /** `serveProductImage` as written: the first image by `sort_order`,
      with one of `uploads/` or `/` stripped from a local path. */
  function ServeProductImageAsWritten(rows: seq<ImageRow>, productId: nat, files: set<string>): (r: ServeOutcome)
    ensures r.SendFile? ==> r.relativePath in files
    ensures var first := FirstImageRow(rows, productId);
      && (r == ImageNotFound <==> first.None? || !Truthy(first.value.imageUrl))
      && (first.Some? && first.value.imageUrl.Blob? ==> r == SendBytes(first.value.imageUrl.bytes))
      && (first.Some? && first.value.imageUrl.Path? && Truthy(first.value.imageUrl)
          && !StartsWith(first.value.imageUrl.text, "http") ==>
            var c := StripUploadsOrSlash(first.value.imageUrl.text);
            r == (if c in files then SendFile(c) else FileNotFound))
      && (first.Some? && first.value.imageUrl.Path? && StartsWith(first.value.imageUrl.text, "http") ==>
            r == Redirect(first.value.imageUrl.text))
    ensures (forall i :: 0 <= i < |rows| ==> rows[i].productId != productId) ==> r == ImageNotFound
  {
    ServeFrom(FirstImageRow(rows, productId), files, StripUploadsOrSlash)
  }

  /** Stripping only one of the two prefixes sends `/uploads/photo.jpg` to
      `uploads/uploads/photo.jpg`, while `photo.jpg` and `uploads/photo.jpg`
      reach `uploads/photo.jpg`: the three spellings that `getImageUrl`
      treats as one file are not served as one. */
  lemma AsWrittenStripMissesSlashUploads(name: string)
    requires IsBareName(name)
    ensures StripUploadsOrSlash(name) == name
    ensures StripUploadsOrSlash("uploads/" + name) == name
    ensures StripUploadsOrSlash(UploadsPrefix + name) == "uploads/" + name
    ensures StripUploadsOrSlash(UploadsPrefix + name) != StripUploadsOrSlash(name)
  {
    assert ("uploads/" + name)[8..] == name;
    assert !StartsWith(UploadsPrefix + name, "uploads/") by {
      assert (UploadsPrefix + name)[0] == '/';
    }
    assert (UploadsPrefix + name)[1..] == "uploads/" + name;
  }

  /** `serveProductImage` with the stored path cleaned the way
      `getImageUrl` reads it. */
  function ServeProductImage(rows: seq<ImageRow>, productId: nat, files: set<string>): (r: ServeOutcome)
    ensures r.SendFile? ==> r.relativePath in files
    ensures var first := FirstImageRow(rows, productId);
      && (r == ImageNotFound <==> first.None? || !Truthy(first.value.imageUrl))
      && (first.Some? && first.value.imageUrl.Blob? ==> r == SendBytes(first.value.imageUrl.bytes))
      && (first.Some? && first.value.imageUrl.Path? && Truthy(first.value.imageUrl)
          && !StartsWith(first.value.imageUrl.text, "http") ==>
            var c := UploadRelativePath(first.value.imageUrl.text);
            r == (if c in files then SendFile(c) else FileNotFound))
      && (first.Some? && first.value.imageUrl.Path? && StartsWith(first.value.imageUrl.text, "http") ==>
            r == Redirect(first.value.imageUrl.text))
    ensures (forall i :: 0 <= i < |rows| ==> rows[i].productId != productId) ==> r == ImageNotFound
  {
    ServeFrom(FirstImageRow(rows, productId), files, UploadRelativePath)
  }

  /** The corrected cleaning agrees with `getImageUrl`: each spelling of a
      file that resolves to `/uploads/name` names the file `name`. */
  lemma UploadRelativePathMatchesResolve(name: string, productId: nat)
    requires IsBareName(name)
    ensures UploadRelativePath(name) == name
    ensures UploadRelativePath("uploads/" + name) == name
    ensures UploadRelativePath(UploadsPrefix + name) == name
  {
    ResolveSpellingsAgree(name, productId);
    assert ("uploads/" + name)[8..] == name;
    assert !StartsWith("uploads/" + name, "/") by {
      assert ("uploads/" + name)[0] == 'u';
    }
    assert (UploadsPrefix + name)[1..] == "uploads/" + name;
  }

  /** With the corrected cleaning, a product whose first image is stored
      under any of the three spellings is served the same way. */
  lemma ServeSpellingsAgree(row: ImageRow, name: string, files: set<string>)
    requires IsBareName(name) && !StartsWith(name, "http")
    ensures ServeFrom(Some(row.(imageUrl := Path(name))), files, UploadRelativePath)
         == ServeFrom(Some(row.(imageUrl := Path("uploads/" + name))), files, UploadRelativePath)
    ensures ServeFrom(Some(row.(imageUrl := Path(name))), files, UploadRelativePath)
         == ServeFrom(Some(row.(imageUrl := Path(UploadsPrefix + name))), files, UploadRelativePath)
  {
    var o := if name in files then SendFile(name) else FileNotFound;
    assert ServeFrom(Some(row.(imageUrl := Path(name))), files, UploadRelativePath) == o by {
      UploadRelativePathMatchesResolve(name, row.productId);
      ServeLocalFile(row, name, files);
    }
    assert ServeFrom(Some(row.(imageUrl := Path("uploads/" + name))), files, UploadRelativePath) == o by {
      UploadRelativePathMatchesResolve(name, row.productId);
      assert !StartsWith("uploads/" + name, "http") by {
        assert ("uploads/" + name)[0] == 'u';
      }
      ServeLocalFile(row, "uploads/" + name, files);
    }
    assert ServeFrom(Some(row.(imageUrl := Path(UploadsPrefix + name))), files, UploadRelativePath) == o by {
      UploadRelativePathMatchesResolve(name, row.productId);
      assert !StartsWith(UploadsPrefix + name, "http") by {
        assert (UploadsPrefix + name)[0] == '/';
      }
      ServeLocalFile(row, UploadsPrefix + name, files);
    }
  }

  /** A first image stored as a local path is served by its cleaned name. */
  lemma ServeLocalFile(row: ImageRow, s: string, files: set<string>)
    requires s != "" && !StartsWith(s, "http")
    ensures var c := UploadRelativePath(s);
      ServeFrom(Some(row.(imageUrl := Path(s))), files, UploadRelativePath)
      == (if c in files then SendFile(c) else FileNotFound)
  {
  }

  /** At the endpoint: a product whose first image is stored as
      `/uploads/name`, with `name` present under the uploads directory,
      gets 404 "Image file not found" from the code as written and the
      file from the corrected cleaning. */
  lemma AsWrittenEndpointMissesSlashUploads(rows: seq<ImageRow>, productId: nat, name: string)
    requires IsBareName(name)
    requires FirstImageRow(rows, productId).Some?
    requires FirstImageRow(rows, productId).value.imageUrl == Path(UploadsPrefix + name)
    ensures ServeProductImageAsWritten(rows, productId, {name}) == FileNotFound
    ensures ServeProductImage(rows, productId, {name}) == SendFile(name)
  {
    var stored := UploadsPrefix + name;
    assert !StartsWith(stored, "http") by {
      assert stored[0] == '/';
    }
    assert StripUploadsOrSlash(stored) !in {name} by {
      AsWrittenStripMissesSlashUploads(name);
      assert |"uploads/" + name| != |name|;
    }
    assert UploadRelativePath(stored) == name by {
      UploadRelativePathMatchesResolve(name, productId);
    }
  }
}
