/**
 * ProductServiceImpl: how a listing request is turned into a sort, a page
 * index and one of three queries; how base64 images are stored and their
 * URLs built; and the field rules of createProduct, updateProduct and
 * deleteProduct.
 */
module Products {
  import opened Wrappers
  import opened JavaStrings
  import opened ResultCodes
  import opened Catalog

  // ---------------------------------------------------------------------
  // Listing: sort, page index and query selection

  datatype Direction = Asc | Desc

  /** Sort.by(direction, property). */
  datatype SortOrder = SortOrder(direction: Direction, property: string)

  const DefaultSort: SortOrder := SortOrder(Desc, "createTime")

  /** The sort keys createSort accepts, compared in lower case. */
  const SortKeys: seq<string> := ["price", "sales", "createtime"]

  /** The Product entity's properties, spelled as the entity declares them. */
  const ProductProperties: set<string> := {
    "id", "name", "category", "brand", "seller", "Sellerid", "description", "price", "originalPrice",
    "stock", "status", "imageUrl", "images", "detail", "params", "specs", "sales", "comments",
    "createTime", "updateTime", "isFeatured" }

  /** ASC only for an order equal to "asc" ignoring case; null and anything else is DESC. */
  function RequestedDirection(order: Option<string>): (d: Direction)
    ensures d == Asc <==> order.Some? && ToLower(order.value) == "asc"
  {
    if EqualsIgnoreCaseOpt("asc", order) then Asc else Desc
  }

  /**
   * createSort: a blank sort or "default" gives createTime DESC; an
   * accepted key sorts by the caller's string in the requested direction;
   * anything else falls back to createTime DESC.
   */
  function CreateSort(sort: Option<string>, order: Option<string>): (r: SortOrder)
    ensures !HasTextOpt(sort) ==> r == DefaultSort
    ensures r == DefaultSort || (sort.Some? && r == SortOrder(RequestedDirection(order), sort.value))
  {
    if !HasTextOpt(sort) || EqualsIgnoreCaseOpt("default", sort) then DefaultSort
    else if ToLower(sort.value) in SortKeys then SortOrder(RequestedDirection(order), sort.value)
    else DefaultSort
  }

  /** The "default" test is subsumed: a text sort is honoured exactly when its lower case is a key. */
  lemma CreateSortByKey(sort: string, order: Option<string>)
    requires HasText(sort)
    ensures ToLower(sort) in SortKeys ==> CreateSort(Some(sort), order) == SortOrder(RequestedDirection(order), sort)
    ensures ToLower(sort) !in SortKeys ==> CreateSort(Some(sort), order) == DefaultSort
  {
    if EqualsIgnoreCase("default", sort) {
      assert |ToLower(sort)| == |ToLower("default")| == 7;
    }
  }

  lemma LowerCreatetime()
    ensures ToLower("createtime") == "createtime"
    ensures ToLower("createTime") == "createtime"
    ensures ToLower("Price") == "price"
  {
    assert ToLower("createtime") == "createtime";
    assert ToLower("createTime")[6] == 't';
    assert ToLower("Price")[0] == 'p';
  }

  /** As written, accepted spellings reach the repository that name no Product property. */
  lemma CreateSortNamesMissingProperty()
    ensures CreateSort(Some("createtime"), None).property !in ProductProperties
    ensures CreateSort(Some("Price"), Some("asc")) == SortOrder(Asc, "Price")
    ensures "Price" !in ProductProperties
  {
    CreatetimeKeepsSpelling();
    PriceKeepsSpelling();
  }

  lemma CreatetimeKeepsSpelling()
    ensures CreateSort(Some("createtime"), None) == SortOrder(Desc, "createtime")
  {
    LowerCreatetime();
    assert HasText("createtime") by { assert !IsWhitespace("createtime"[0]); }
    CreateSortByKey("createtime", None);
  }

  lemma PriceKeepsSpelling()
    ensures CreateSort(Some("Price"), Some("asc")) == SortOrder(Asc, "Price")
  {
    LowerCreatetime();
    assert HasText("Price") by { assert !IsWhitespace("Price"[0]); }
    assert ToLower("asc") == "asc";
    CreateSortByKey("Price", Some("asc"));
  }

  /** The entity property each accepted key stands for. */
  function CanonicalProperty(key: string): (p: string)
    ensures p in ProductProperties
  {
    if key == "createtime" then "createTime" else if key == "price" then "price" else "sales"
  }

  /** createSort with the accepted key mapped to its property name. */
  function CreateSortFixed(sort: Option<string>, order: Option<string>): (r: SortOrder)
    ensures r.property in ProductProperties
    ensures r.direction == CreateSort(sort, order).direction
    ensures ToLower(r.property) == ToLower(CreateSort(sort, order).property)
  {
    LowerCreatetime();
    if !HasTextOpt(sort) || EqualsIgnoreCaseOpt("default", sort) then DefaultSort
    else if ToLower(sort.value) in SortKeys then SortOrder(RequestedDirection(order), CanonicalProperty(ToLower(sort.value)))
    else DefaultSort
  }

  /** PageRequest.of's zero-based index for the one-based pageNum; non-positive pages read the first. */
  function PageIndex(pageNum: int): (i: nat)
    ensures pageNum >= 1 ==> i + 1 == pageNum
    ensures pageNum <= 1 ==> i == 0
  {
    if pageNum > 0 then pageNum - 1 else 0
  }

  /** The three repository queries getProducts can run, with the filters they receive. */
  datatype ProductQuery =
    | FeaturedQuery(keyword: Option<string>, categoryId: Option<int>, minPrice: Option<int>, maxPrice: Option<int>)
    | AdvancedSearch(keyword: Option<string>, categoryId: Option<int>, minPrice: Option<int>, maxPrice: Option<int>)
    | ByStatus(status: int)

  /** The keyword handed to a query: trimmed when it has text, otherwise null. */
  function SearchKeyword(keyword: Option<string>): (k: Option<string>)
    ensures k.Some? <==> HasTextOpt(keyword)
  {
    if HasTextOpt(keyword) then Some(Trim(keyword.value)) else None
  }

  /** A keyword with text, a category, a minimum price, or a positive maximum price (money in cents). */
  predicate HasFilters(keyword: Option<string>, categoryId: Option<int>, minPrice: Option<int>, maxPrice: Option<int>) {
    HasTextOpt(keyword) || categoryId.Some? || minPrice.Some? || (maxPrice.Some? && maxPrice.value > 0)
  }

  /**
   * The query getProducts runs: the featured query for type "featured" in
   * any case, else the advanced search when a filter is present, else all
   * products with status 1.
   */
  function SelectQuery(keyword: Option<string>, categoryId: Option<int>, minPrice: Option<int>, maxPrice: Option<int>,
                       kind: Option<string>): (q: ProductQuery)
    ensures q.FeaturedQuery? <==> kind.Some? && ToLower(kind.value) == "featured"
    ensures q.AdvancedSearch? <==> !q.FeaturedQuery? && HasFilters(keyword, categoryId, minPrice, maxPrice)
    ensures q.ByStatus? ==> q.status == 1
    ensures !q.ByStatus? ==> (q.keyword == SearchKeyword(keyword) && q.categoryId == categoryId
                              && q.minPrice == minPrice && q.maxPrice == maxPrice)
  {
    assert ToLower("featured") == "featured";
    if EqualsIgnoreCaseOpt("featured", kind) then FeaturedQuery(SearchKeyword(keyword), categoryId, minPrice, maxPrice)
    else if HasFilters(keyword, categoryId, minPrice, maxPrice) then AdvancedSearch(SearchKeyword(keyword), categoryId, minPrice, maxPrice)
    else ByStatus(1)
  }

  /** A zero or negative maximum price alone is no filter; a keyword reaches the query trimmed. */
  lemma QuerySelectionExamples(keyword: string)
    ensures SelectQuery(None, None, None, Some(0), None) == ByStatus(1)
    ensures SelectQuery(None, None, None, Some(1), Some("x")).AdvancedSearch?
    ensures SelectQuery(None, None, None, None, Some("FEATURED")) == FeaturedQuery(None, None, None, None)
    ensures HasText(keyword) ==> SelectQuery(Some(keyword), None, None, None, None).keyword == Some(Trim(keyword))
  {
    assert ToLower("FEATURED") == "featured";
    assert ToLower("x") != "featured";
  }

  /** The keyword a query receives is already trimmed. */
  lemma SearchKeywordIsTrimmed(keyword: Option<string>)
    ensures SearchKeyword(keyword).Some? ==> Trim(SearchKeyword(keyword).value) == SearchKeyword(keyword).value
  {
    if HasTextOpt(keyword) {
      TrimIdempotent(keyword.value);
    }
  }

  // ---------------------------------------------------------------------
  // Base64 images (saveBase64ImageAndGetUrl)

  datatype ImageFormat = Png | Jpeg | Gif | Webp

  function DataUriPrefix(f: ImageFormat): string {
    match f
    case Png => "data:image/png;base64,"
    case Jpeg => "data:image/jpeg;base64,"
    case Gif => "data:image/gif;base64,"
    case Webp => "data:image/webp;base64,"
  }

  function FormatExtension(f: ImageFormat): string {
    match f
    case Png => ".png"
    case Jpeg => ".jpg"
    case Gif => ".gif"
    case Webp => ".webp"
  }

  /** The extension used when no known data-URI header is present. */
  const DefaultExtension: string := ".jpg"

  /** The four headers differ at their twelfth character, so at most one matches. */
  lemma {:induction false} PrefixesExclusive(s: string, f: ImageFormat, g: ImageFormat)
    requires StartsWith(s, DataUriPrefix(f)) && StartsWith(s, DataUriPrefix(g))
    ensures f == g
  {
    assert s[11] == DataUriPrefix(f)[11];
    assert s[11] == DataUriPrefix(g)[11];
  }

  /** The header s starts with, tried in the order png, jpeg, gif, webp. */
  function MatchedFormat(s: string): (r: Option<ImageFormat>)
    ensures r.Some? ==> StartsWith(s, DataUriPrefix(r.value))
    ensures r.None? <==> forall f: ImageFormat :: !StartsWith(s, DataUriPrefix(f))
  {
    if StartsWith(s, DataUriPrefix(Png)) then Some(Png)
    else if StartsWith(s, DataUriPrefix(Jpeg)) then Some(Jpeg)
    else if StartsWith(s, DataUriPrefix(Gif)) then Some(Gif)
    else if StartsWith(s, DataUriPrefix(Webp)) then Some(Webp)
    else None
  }

  /** The payload to decode and the file extension. */
  function SplitDataUri(s: string): (r: (string, string))
    ensures MatchedFormat(s).None? ==> r == (s, DefaultExtension)
  {
    match MatchedFormat(s)
    case Some(f) => (s[|DataUriPrefix(f)|..], FormatExtension(f))
    case None => (s, DefaultExtension)
  }

  /** Stripping a known header gives back the payload behind it and the header's extension. */
  lemma DataUriRoundTrip(f: ImageFormat, payload: string)
    ensures SplitDataUri(DataUriPrefix(f) + payload) == (payload, FormatExtension(f))
  {
    var s := DataUriPrefix(f) + payload;
    assert s[..|DataUriPrefix(f)|] == DataUriPrefix(f);
    PrefixesExclusive(s, f, MatchedFormat(s).value);
    assert s[|DataUriPrefix(f)|..] == payload;
  }

  /** A string that does not begin with "data:" carries no header and is decoded whole. */
  lemma NoDataSchemeDecodedWhole(s: string)
    requires !StartsWith(s, "data:")
    ensures SplitDataUri(s) == (s, DefaultExtension)
  {
    forall f: ImageFormat ensures !StartsWith(s, DataUriPrefix(f)) {
      assert DataUriPrefix(f)[..5] == "data:";
    }
  }

  /**
   * What saveBase64ImageAndGetUrl relies on outside the code: the
   * configured public base URL and storage path, whether java.util.Base64's
   * decoder accepts a payload and the message of the IllegalArgumentException
   * it throws when it does not, whether the storage directory exists or can
   * be created, the random name (UUID) of the file in slot n, and the
   * message of the IOException writing that file throws (None when the
   * write succeeds).
   */
  datatype ImageStore = ImageStore(
    publicBaseUrl: string,
    storagePath: string,
    decodes: string -> bool,
    decodeError: string -> string,
    dirReady: bool,
    fileName: nat -> string,
    writeError: nat -> Option<string>)

  /** The basic Base64 alphabet of RFC 4648 (table 1) and its pad character. */
  predicate Base64Char(c: char) {
    ('A' <= c <= 'Z') || ('a' <= c <= 'z') || ('0' <= c <= '9') || c == '+' || c == '/' || c == '='
  }

  /** The decoder rejects every payload with a character outside the alphabet. */
  ghost predicate DecoderSound(env: ImageStore) {
    forall s :: env.decodes(s) ==> forall i :: 0 <= i < |s| ==> Base64Char(s[i])
  }

  /** ApiException(400, …) for a payload of the named field that does not decode. */
  function InvalidBase64(field: string, detail: string): Failure {
    Api(ApiException(400, "字段 " + field + " 的Base64数据无效: " + detail))
  }

  /** ApiException(500, …) when the storage directory is missing and cannot be created. */
  function NoStorageDirectory(path: string): Failure {
    Api(ApiException(500, "无法创建图片存储目录: " + path))
  }

  /** ApiException(500, …) when writing the named field's file throws an IOException. */
  function WriteFailed(field: string, detail: string): Failure {
    Api(ApiException(500, "字段 " + field + " 的文件保存操作失败: " + detail))
  }

  /** The field name updateProduct logs for its main image. */
  const MainImageField: string := "更新主图(imageUrl)"

  /** The field name updateProduct logs for entry i of the image list. */
  function ListImageField(i: nat): string {
    "更新附图列表[" + DecimalString(i) + "]"
  }

  /** The write of the file in slot n succeeds. */
  predicate Writable(env: ImageStore, slot: nat) {
    env.dirReady && env.writeError(slot).None?
  }

  /** The base URL with exactly one '/' appended unless it already ends in one. */
  function ResolvedBaseUrl(base: string): (r: string)
    ensures StartsWith(r, base) && EndsWith(r, "/")
    ensures |r| == |base| + (if EndsWith(base, "/") then 0 else 1)
  {
    if EndsWith(base, "/") then base else base + "/"
  }

  /**
   * Decodes and writes one image with text under the field name `field`;
   * the public URL of the written file. The payload is decoded before the
   * directory is checked, and the directory before the file is written.
   */
  function StoreImage(env: ImageStore, s: string, slot: nat, field: string): (r: Result<string, Failure>)
    requires HasText(s)
    ensures r.Err? <==> !env.decodes(SplitDataUri(s).0) || !Writable(env, slot)
    ensures !env.decodes(SplitDataUri(s).0) ==> r == Err(InvalidBase64(field, env.decodeError(SplitDataUri(s).0)))
    ensures env.decodes(SplitDataUri(s).0) && !env.dirReady ==> r == Err(NoStorageDirectory(env.storagePath))
    ensures env.decodes(SplitDataUri(s).0) && env.dirReady && env.writeError(slot).Some?
            ==> r == Err(WriteFailed(field, env.writeError(slot).value))
    ensures r.Ok? ==> r.value == ResolvedBaseUrl(env.publicBaseUrl) + env.fileName(slot) + SplitDataUri(s).1
  {
    var (payload, extension) := SplitDataUri(s);
    if !env.decodes(payload) then Err(InvalidBase64(field, env.decodeError(payload)))
    else if !env.dirReady then Err(NoStorageDirectory(env.storagePath))
    else match env.writeError(slot)
      case Some(detail) => Err(WriteFailed(field, detail))
      case None => Ok(ResolvedBaseUrl(env.publicBaseUrl) + env.fileName(slot) + extension)
  }

  /** saveBase64ImageAndGetUrl: null for a string without text, else the stored file's URL. */
  function SaveBase64Image(env: ImageStore, s: Option<string>, slot: nat, field: string): (r: Result<Option<string>, Failure>)
    ensures !HasTextOpt(s) <==> r == Ok(None)
    ensures HasTextOpt(s) ==> r == (var u :- StoreImage(env, s.value, slot, field); Ok(Some(u)))
  {
    if !HasTextOpt(s) then Ok(None)
    else
      var u :- StoreImage(env, s.value, slot, field);
      Ok(Some(u))
  }

  /** An entry updateProduct takes for an existing URL and keeps verbatim. */
  predicate IsUrlEntry(env: ImageStore, e: string) {
    StartsWith(e, env.publicBaseUrl) || StartsWith(e, "http")
  }

  /**
   * A stored image's URL is the base URL, one '/' unless the base ends in
   * one, the file name and the extension; it has text and reads as an
   * existing URL when sent back.
   */
  lemma StoredUrlShape(env: ImageStore, s: string, slot: nat, field: string)
    requires HasText(s) && StoreImage(env, s, slot, field).Ok?
    ensures var url := StoreImage(env, s, slot, field).value;
      var base := env.publicBaseUrl;
      StartsWith(url, base) && IsUrlEntry(env, url) && HasText(url)
      && (EndsWith(base, "/") ==> url == base + env.fileName(slot) + SplitDataUri(s).1)
      && (!EndsWith(base, "/") ==> url == base + "/" + env.fileName(slot) + SplitDataUri(s).1)
  {
    var base := env.publicBaseUrl;
    var rb := ResolvedBaseUrl(base);
    var name := env.fileName(slot);
    var ext := SplitDataUri(s).1;
    var url := rb + name + ext;
    assert url[..|base|] == rb[..|base|];
    assert ext[0] == '.' by {
      match MatchedFormat(s)
      case Some(f) =>
      case None =>
    }
    assert url[|rb| + |name|] == '.';
  }

  /** The entries that have text, in order. */
  function WithText(xs: seq<string>): (r: seq<string>)
    ensures |r| <= |xs|
    ensures forall y :: y in r ==> y in xs && HasText(y)
    ensures (forall k :: 0 <= k < |xs| ==> HasText(xs[k])) ==> r == xs
  {
    if xs == [] then []
    else (if HasText(xs[0]) then [xs[0]] else []) + WithText(xs[1..])
  }

  /** updateProduct's treatment of list entry i, whose file goes in slot i + 1. */
  function KeepOrStore(env: ImageStore, e: string, i: nat): (r: Result<seq<string>, Failure>)
    ensures !HasText(e) ==> r == Ok([])
    ensures HasText(e) && IsUrlEntry(env, e) ==> r == Ok([e])
    ensures HasText(e) && !IsUrlEntry(env, e)
            ==> (r.Err? <==> StoreImage(env, e, i + 1, ListImageField(i)).Err?)
                && (r.Err? ==> r.error == StoreImage(env, e, i + 1, ListImageField(i)).error)
    ensures r.Ok? ==> |r.value| == (if HasText(e) then 1 else 0)
    ensures r.Ok? ==> forall y :: y in r.value ==> HasText(y) && IsUrlEntry(env, y)
  {
    if !HasText(e) then Ok([])
    else if IsUrlEntry(env, e) then Ok([e])
    else
      var u :- StoreImage(env, e, i + 1, ListImageField(i));
      StoredUrlShape(env, e, i + 1, ListImageField(i));
      Ok([u])
  }

  /**
   * The image list of updateProduct: blank entries dropped, existing URLs
   * kept, other entries stored, in the given order; the first entry that
   * fails to store fails the whole update. The entries start at list
   * position `i`.
   */
  function MergeImages(env: ImageStore, entries: seq<string>, i: nat): (r: Result<seq<string>, Failure>)
    ensures r.Ok? ==> |r.value| == |WithText(entries)|
    ensures r.Ok? ==> forall y :: y in r.value ==> HasText(y) && IsUrlEntry(env, y)
    ensures (forall e :: e in entries && HasText(e) ==> IsUrlEntry(env, e)) ==> r == Ok(WithText(entries))
    decreases |entries|
  {
    if entries == [] then Ok([])
    else
      var head :- KeepOrStore(env, entries[0], i);
      var tail :- MergeImages(env, entries[1..], i + 1);
      assert forall e :: e in entries[1..] ==> e in entries;
      Ok(head + tail)
  }

  /** Sending the merged list back changes nothing: merging is idempotent. */
  lemma MergeImagesIdempotent(env: ImageStore, entries: seq<string>, i: nat, j: nat)
    requires MergeImages(env, entries, i).Ok?
    ensures MergeImages(env, MergeImages(env, entries, i).value, j) == MergeImages(env, entries, i)
  {
    var ys := MergeImages(env, entries, i).value;
    assert forall k :: 0 <= k < |ys| ==> HasText(ys[k]) by {
      forall k | 0 <= k < |ys| ensures HasText(ys[k]) { assert ys[k] in ys; }
    }
  }

  // ---------------------------------------------------------------------
  // Products: create, read, update, delete

  /**
   * The product table, the categories (id to name), the existing users, the
   * next id, and the products that order lines, cart lines or favorites
   * point at (their product_id columns are NOT NULL foreign keys).
   */
  datatype ProductState = ProductState(
    products: Products,
    categories: map<nat, string>,
    users: set<nat>,
    nextId: nat,
    referenced: set<nat>)

  /** ProductDTO as the service reads it; id, categoryName, sales and createTime are never read. */
  datatype ProductDto = ProductDto(
    name: Option<string>,
    categoryId: Option<nat>,
    description: Option<string>,
    price: Option<int>,
    originalPrice: Option<int>,
    stock: Option<int>,
    status: Option<int>,
    imageUrl: Option<string>,
    images: Option<seq<string>>,
    detail: Option<string>,
    isFeatured: Option<bool>,
    params: Option<seq<string>>,
    specs: Option<seq<string>>)

  /** ProductDTO as convertToDTO fills it. */
  datatype ProductView = ProductView(
    id: nat,
    name: string,
    categoryId: Option<nat>,
    categoryName: Option<string>,
    description: Option<string>,
    price: int,
    originalPrice: Option<int>,
    stock: int,
    status: Option<int>,
    imageUrl: string,
    images: seq<string>,
    detail: Option<string>,
    isFeatured: bool,
    params: seq<string>,
    specs: seq<string>,
    sales: Option<int>)

  /** convertToDTO: category id and name from the category, isFeatured null read as false, null lists as []. */
  function ToView(st: ProductState, p: Product): (v: ProductView)
    ensures v.id == p.id && v.isFeatured == (p.isFeatured == Some(true))
    ensures v.images == p.images.GetOr([]) && v.params == p.params.GetOr([]) && v.specs == p.specs.GetOr([])
  {
    ProductView(p.id, p.name, p.categoryId,
                if p.categoryId.Some? && p.categoryId.value in st.categories then Some(st.categories[p.categoryId.value]) else None,
                p.description, p.price, p.originalPrice, p.stock, p.status, p.imageUrl,
                p.images.GetOr([]), p.detail, p.isFeatured.GetOr(false), p.params.GetOr([]), p.specs.GetOr([]), p.sales)
  }

  function GetProductById(st: ProductState, id: nat): (r: Result<ProductView, Failure>)
    ensures r.Err? <==> id !in st.products
    ensures r.Err? ==> r.error == Fail(ProductNotExists)
    ensures r.Ok? ==> r.value == ToView(st, st.products[id])
  {
    if id !in st.products then Err(Fail(ProductNotExists)) else Ok(ToView(st, st.products[id]))
  }

  /** One multipart file: absent or empty, uploaded to a URL, or failing in the file service with a message. */
  datatype Upload = NoFile | Uploaded(url: string) | UploadFails(message: string)

  /** The URLs of the extra images that uploaded; failed ones are skipped. */
  function UploadedUrls(files: seq<Upload>): (r: seq<string>)
    ensures |r| <= |files|
    ensures forall k :: 0 <= k < |files| && files[k].Uploaded? ==> files[k].url in r
  {
    if files == [] then []
    else (if files[0].Uploaded? then [files[0].url] else []) + UploadedUrls(files[1..])
  }

  /** The main image: an uploaded file wins, else a DTO imageUrl with text, else VALIDATION_ERROR. */
  function MainImage(dto: ProductDto, main: Upload): (r: Result<string, Failure>)
    ensures main.Uploaded? ==> r == Ok(main.url)
    ensures main.UploadFails? ==> r == Err(FailWith(UploadFailed, "主图上传失败: " + main.message))
    ensures main.NoFile? ==> (r.Ok? <==> HasTextOpt(dto.imageUrl))
    ensures main.NoFile? && r.Err? ==> r.error == FailWith(ValidationError, "必须提供商品主图。")
  {
    match main
    case Uploaded(url) => Ok(url)
    case UploadFails(message) => Err(FailWith(UploadFailed, "主图上传失败: " + message))
    case NoFile =>
      if HasTextOpt(dto.imageUrl) then Ok(dto.imageUrl.value) else Err(FailWith(ValidationError, "必须提供商品主图。"))
  }

  /** createProduct's three-way choice for the extra images. */
  function CreateImages(dtoImages: Option<seq<string>>, uploaded: seq<string>): seq<string> {
    if dtoImages.Some? then
      if dtoImages.value != [] && uploaded == [] then dtoImages.value
      else if uploaded != [] then uploaded
      else []
    else if uploaded != [] then uploaded
    else []
  }

  /** The choice amounts to: uploaded files win, else the DTO's list, else none. */
  lemma CreateImagesRule(dtoImages: Option<seq<string>>, uploaded: seq<string>)
    ensures CreateImages(dtoImages, uploaded) == if uploaded != [] then uploaded else dtoImages.GetOr([])
  {
  }

  /** A non-empty list is kept; null and [] are stored as the empty array. */
  function ListOrEmpty(xs: Option<seq<string>>): (r: seq<string>)
    ensures xs.Some? ==> r == xs.value
    ensures xs.None? ==> r == []
  {
    if xs.Some? && xs.value != [] then xs.value else []
  }

  /**
   * A present id that exists; a missing id is VALIDATION_ERROR with the
   * message `required`, an unknown one is `missing` with the message
   * `prefix`, the id and " 不存在".
   */
  function Reference(id: Option<nat>, known: nat -> bool, missing: ResultCode, prefix: string, required: string)
    : (r: Result<nat, Failure>)
    ensures r.Ok? <==> id.Some? && known(id.value)
    ensures r.Ok? ==> r.value == id.value
    ensures id.None? ==> r == Err(FailWith(ValidationError, required))
    ensures id.Some? && !known(id.value) ==> r == Err(FailWith(missing, prefix + DecimalString(id.value) + " 不存在"))
  {
    if id.None? then Err(FailWith(ValidationError, required))
    else if !known(id.value) then Err(FailWith(missing, prefix + DecimalString(id.value) + " 不存在"))
    else Ok(id.value)
  }

  /** The VALIDATION_ERROR createProduct reports when the save breaks a constraint, with the database's message. */
  function SaveRejected(cause: string): Failure {
    FailWith(ValidationError, "保存商品失败，数据不符合要求: " + cause)
  }

  /**
   * createProduct: main image, then category, then seller are required; a
   * null name, price or stock fails the NOT NULL columns, which the
   * service reports as VALIDATION_ERROR with the database's message
   * `cause`. Status defaults to 1, isFeatured to false, sales to 0; params
   * and specs are stored as [] when absent.
   */
  function CreateProduct(st: ProductState, dto: ProductDto, sellerId: Option<nat>, main: Upload, others: seq<Upload>,
                         cause: string)
    : (r: Result<(ProductState, ProductView), Failure>)
    ensures MainImage(dto, main).Err? ==> r == Err(MainImage(dto, main).error)
    ensures MainImage(dto, main).Ok? && dto.categoryId.None? ==> r == Err(FailWith(ValidationError, "商品分类不能为空。"))
    ensures MainImage(dto, main).Ok? && dto.categoryId.Some? && dto.categoryId.value !in st.categories
      ==> r == Err(FailWith(CategoryNotExists, "分类ID: " + DecimalString(dto.categoryId.value) + " 不存在"))
    ensures MainImage(dto, main).Ok? && dto.categoryId.Some? && dto.categoryId.value in st.categories && sellerId.None?
      ==> r == Err(FailWith(ValidationError, "卖家ID不能为空。"))
    ensures MainImage(dto, main).Ok? && dto.categoryId.Some? && dto.categoryId.value in st.categories
            && sellerId.Some? && sellerId.value !in st.users
      ==> r == Err(FailWith(UserNotExists, "卖家用户ID: " + DecimalString(sellerId.value) + " 不存在"))
    ensures MainImage(dto, main).Ok? && dto.categoryId.Some? && dto.categoryId.value in st.categories
            && sellerId.Some? && sellerId.value in st.users && (dto.name.None? || dto.price.None? || dto.stock.None?)
      ==> r == Err(SaveRejected(cause))
    ensures r.Ok? <==> (MainImage(dto, main).Ok? && dto.name.Some? && dto.price.Some? && dto.stock.Some?
                        && dto.categoryId.Some? && dto.categoryId.value in st.categories
                        && sellerId.Some? && sellerId.value in st.users)
    ensures r.Ok? ==> var (st2, v) := r.value;
      st.nextId in st2.products && st2.products == st.products[st.nextId := st2.products[st.nextId]]
      && st2.nextId == st.nextId + 1 && st2.categories == st.categories && st2.users == st.users
      && st2.referenced == st.referenced && v == ToView(st2, st2.products[st.nextId])
      && st2.products[st.nextId].sellerId == sellerId
      && v.status == Some(dto.status.GetOr(1)) && v.isFeatured == dto.isFeatured.GetOr(false) && v.sales == Some(0)
      && v.imageUrl == MainImage(dto, main).value
      && v.images == (if UploadedUrls(others) != [] then UploadedUrls(others) else dto.images.GetOr([]))
  {
    var imageUrl :- MainImage(dto, main);
    var images := CreateImages(dto.images, UploadedUrls(others));
    CreateImagesRule(dto.images, UploadedUrls(others));
    var category :- Reference(dto.categoryId, c => c in st.categories, CategoryNotExists, "分类ID: ", "商品分类不能为空。");
    var seller :- Reference(sellerId, u => u in st.users, UserNotExists, "卖家用户ID: ", "卖家ID不能为空。");
    if dto.name.None? || dto.price.None? || dto.stock.None? then Err(SaveRejected(cause))
    else
      var p := Product(st.nextId, dto.name.value, Some(category), Some(seller), dto.description, dto.price.value,
                       dto.originalPrice, dto.stock.value, Some(dto.status.GetOr(1)), imageUrl, Some(images), dto.detail,
                       Some(ListOrEmpty(dto.params)), Some(ListOrEmpty(dto.specs)), Some(0), {}, Some(dto.isFeatured.GetOr(false)));
      var st2 := st.(products := st.products[st.nextId := p], nextId := st.nextId + 1);
      Ok((st2, ToView(st2, p)))
  }

  /** Ids are keys of their own rows and below the counter. */
  predicate IdsBelowNext(st: ProductState) {
    forall id :: id in st.products ==> st.products[id].id == id && id < st.nextId
  }

  /** A created product reads back as the view createProduct returned, and deleting it restores the table. */
  lemma CreateThenGetThenDelete(st: ProductState, dto: ProductDto, sellerId: Option<nat>, main: Upload, others: seq<Upload>,
                                cause: string)
    requires IdsBelowNext(st)
    requires CreateProduct(st, dto, sellerId, main, others, cause).Ok?
    requires st.nextId !in st.referenced
    ensures var (st2, v) := CreateProduct(st, dto, sellerId, main, others, cause).value;
      IdsBelowNext(st2) && GetProductById(st2, st.nextId) == Ok(v)
      && DeleteProduct(st2, st.nextId) == Ok(st.(nextId := st.nextId + 1))
  {
    var st2 := CreateProduct(st, dto, sellerId, main, others, cause).value.0;
    assert st2.products - {st.nextId} == st.products;
  }

  /** The category step of updateProduct: only a different id is looked up. */
  function UpdatedCategory(st: ProductState, current: Option<nat>, requested: Option<nat>): (r: Result<Option<nat>, Failure>)
    ensures requested.None? || requested == current ==> r == Ok(current)
    ensures r.Err? <==> requested.Some? && requested != current && requested.value !in st.categories
    ensures r.Err? ==> r.error == Fail(CategoryNotExists)
    ensures r.Ok? ==> r.value == if requested.Some? then requested else current
  {
    if requested.Some? && requested != current then
      if requested.value !in st.categories then Err(Fail(CategoryNotExists)) else Ok(requested)
    else Ok(current)
  }

  /** updateProduct's main image as written: any text is taken to be base64 and stored. */
  function UpdatedMainImage(env: ImageStore, current: string, requested: Option<string>): (r: Result<string, Failure>)
    ensures !HasTextOpt(requested) ==> r == Ok(current)
    ensures HasTextOpt(requested) ==> r == StoreImage(env, requested.value, 0, MainImageField)
  {
    if HasTextOpt(requested) then StoreImage(env, requested.value, 0, MainImageField) else Ok(current)
  }

  /** The image list step: a null list leaves the column as it is. */
  function UpdatedImages(env: ImageStore, current: Option<seq<string>>, requested: Option<seq<string>>)
    : (r: Result<Option<seq<string>>, Failure>)
    ensures requested.None? ==> r == Ok(current)
    ensures requested.Some? ==> (r.Ok? <==> MergeImages(env, requested.value, 0).Ok?)
    ensures requested.Some? && r.Ok? ==> r.value == Some(MergeImages(env, requested.value, 0).value)
  {
    if requested.None? then Ok(current)
    else
      var xs :- MergeImages(env, requested.value, 0);
      Ok(Some(xs))
  }

  /**
   * updateProduct as written. The bean copy overwrites name, description,
   * price, originalPrice, stock, status, detail and isFeatured with the
   * DTO's values, nulls included; id, sales, images, params, specs and the
   * category are skipped. A null in a NOT NULL column (name, price, stock,
   * isFeatured) fails the save.
   */
  function UpdateProduct(st: ProductState, env: ImageStore, id: nat, dto: ProductDto): (r: Result<(ProductState, ProductView), Failure>)
    ensures id !in st.products ==> r == Err(Fail(ProductNotExists))
    ensures id in st.products && UpdatedCategory(st, st.products[id].categoryId, dto.categoryId).Err?
      ==> r == Err(Fail(CategoryNotExists))
    ensures id in st.products && UpdatedCategory(st, st.products[id].categoryId, dto.categoryId).Ok?
            && UpdatedMainImage(env, st.products[id].imageUrl, dto.imageUrl).Err?
      ==> r == Err(UpdatedMainImage(env, st.products[id].imageUrl, dto.imageUrl).error)
    ensures id in st.products && UpdatedCategory(st, st.products[id].categoryId, dto.categoryId).Ok?
            && UpdatedMainImage(env, st.products[id].imageUrl, dto.imageUrl).Ok?
            && UpdatedImages(env, st.products[id].images, dto.images).Err?
      ==> r == Err(UpdatedImages(env, st.products[id].images, dto.images).error)
    ensures id in st.products && UpdatedCategory(st, st.products[id].categoryId, dto.categoryId).Ok?
            && UpdatedMainImage(env, st.products[id].imageUrl, dto.imageUrl).Ok?
            && UpdatedImages(env, st.products[id].images, dto.images).Ok?
            && (dto.name.None? || dto.price.None? || dto.stock.None? || dto.isFeatured.None?)
      ==> r == Err(ConstraintViolation)
    ensures r.Ok? <==> (id in st.products && UpdatedCategory(st, st.products[id].categoryId, dto.categoryId).Ok?
                        && UpdatedMainImage(env, st.products[id].imageUrl, dto.imageUrl).Ok?
                        && UpdatedImages(env, st.products[id].images, dto.images).Ok?
                        && dto.name.Some? && dto.price.Some? && dto.stock.Some? && dto.isFeatured.Some?)
    ensures r.Ok? ==> var (st2, v) := r.value;
      var p := st.products[id];
      id in st2.products && st2.products == st.products[id := st2.products[id]]
      && st2.nextId == st.nextId && st2.categories == st.categories && st2.referenced == st.referenced
      && v == ToView(st2, st2.products[id])
      && st2.products[id] == p.(name := dto.name.value, description := dto.description, price := dto.price.value,
           originalPrice := dto.originalPrice, stock := dto.stock.value, status := dto.status, detail := dto.detail,
           isFeatured := dto.isFeatured,
           categoryId := UpdatedCategory(st, p.categoryId, dto.categoryId).value,
           imageUrl := UpdatedMainImage(env, p.imageUrl, dto.imageUrl).value,
           images := UpdatedImages(env, p.images, dto.images).value,
           params := if dto.params.Some? then dto.params else p.params,
           specs := if dto.specs.Some? then dto.specs else p.specs)
  {
    if id !in st.products then Err(Fail(ProductNotExists))
    else
      var p := st.products[id];
      var category :- UpdatedCategory(st, p.categoryId, dto.categoryId);
      var imageUrl :- UpdatedMainImage(env, p.imageUrl, dto.imageUrl);
      var images :- UpdatedImages(env, p.images, dto.images);
      if dto.name.None? || dto.price.None? || dto.stock.None? || dto.isFeatured.None? then Err(ConstraintViolation)
      else
        var p2 := p.(name := dto.name.value, description := dto.description, price := dto.price.value,
                     originalPrice := dto.originalPrice, stock := dto.stock.value, status := dto.status, detail := dto.detail,
                     isFeatured := dto.isFeatured, categoryId := category, imageUrl := imageUrl, images := images,
                     params := if dto.params.Some? then dto.params else p.params,
                     specs := if dto.specs.Some? then dto.specs else p.specs);
        var st2 := st.(products := st.products[id := p2]);
        Ok((st2, ToView(st2, p2)))
  }

  /** As written, leaving isFeatured out of an otherwise complete update fails the save. */
  lemma UpdateWithoutFeaturedFails(st: ProductState, env: ImageStore, id: nat, dto: ProductDto)
    requires id in st.products
    requires dto.categoryId.None? && dto.imageUrl.None? && dto.images.None?
    requires dto.isFeatured.None?
    ensures UpdateProduct(st, env, id, dto) == Err(ConstraintViolation)
  {
  }

  /**
   * As written, sending back the stored main-image URL (which has a
   * character outside the Base64 alphabet, such as '.' or ':') fails the
   * update with 400.
   */
  lemma UpdateResendingImageUrlFails(st: ProductState, env: ImageStore, id: nat, dto: ProductDto, k: nat)
    requires DecoderSound(env) && id in st.products && dto.categoryId.None?
    requires dto.imageUrl.Some? && !StartsWith(dto.imageUrl.value, "data:")
    requires k < |dto.imageUrl.value| && !Base64Char(dto.imageUrl.value[k]) && !IsWhitespace(dto.imageUrl.value[k])
    ensures UpdateProduct(st, env, id, dto) == Err(InvalidBase64(MainImageField, env.decodeError(dto.imageUrl.value)))
  {
    var u := dto.imageUrl.value;
    NoDataSchemeDecodedWhole(u);
    assert HasText(u);
  }

  /** The main-image step with the list's test: an existing URL is kept, other text is stored. */
  function UpdatedMainImageFixed(env: ImageStore, current: string, requested: Option<string>): (r: Result<string, Failure>)
    ensures !HasTextOpt(requested) ==> r == Ok(current)
    ensures HasTextOpt(requested) && IsUrlEntry(env, requested.value) ==> r == Ok(requested.value)
    ensures r.Ok? ==> r.value == current || IsUrlEntry(env, r.value)
  {
    if !HasTextOpt(requested) then Ok(current)
    else if IsUrlEntry(env, requested.value) then Ok(requested.value)
    else
      var u :- StoreImage(env, requested.value, 0, MainImageField);
      StoredUrlShape(env, requested.value, 0, MainImageField);
      Ok(u)
  }

  /**
   * updateProduct with isFeatured left out of the bean copy (so a null
   * keeps the stored flag, as the later null test intends) and the main
   * image treated like the list entries.
   */
  function UpdateProductFixed(st: ProductState, env: ImageStore, id: nat, dto: ProductDto): (r: Result<(ProductState, ProductView), Failure>)
    ensures id !in st.products ==> r == Err(Fail(ProductNotExists))
    ensures r.Ok? <==> (id in st.products && UpdatedCategory(st, st.products[id].categoryId, dto.categoryId).Ok?
                        && UpdatedMainImageFixed(env, st.products[id].imageUrl, dto.imageUrl).Ok?
                        && UpdatedImages(env, st.products[id].images, dto.images).Ok?
                        && dto.name.Some? && dto.price.Some? && dto.stock.Some?)
    ensures r.Ok? ==> var (st2, v) := r.value;
      var p := st.products[id];
      id in st2.products && st2.products == st.products[id := st2.products[id]]
      && st2.nextId == st.nextId && st2.categories == st.categories && v == ToView(st2, st2.products[id])
      && st2.products[id].isFeatured == (if dto.isFeatured.Some? then dto.isFeatured else p.isFeatured)
      && st2.products[id].sales == p.sales && st2.products[id].sellerId == p.sellerId
  {
    if id !in st.products then Err(Fail(ProductNotExists))
    else
      var p := st.products[id];
      var category :- UpdatedCategory(st, p.categoryId, dto.categoryId);
      var imageUrl :- UpdatedMainImageFixed(env, p.imageUrl, dto.imageUrl);
      var images :- UpdatedImages(env, p.images, dto.images);
      if dto.name.None? || dto.price.None? || dto.stock.None? then Err(ConstraintViolation)
      else
        var p2 := p.(name := dto.name.value, description := dto.description, price := dto.price.value,
                     originalPrice := dto.originalPrice, stock := dto.stock.value, status := dto.status, detail := dto.detail,
                     isFeatured := if dto.isFeatured.Some? then dto.isFeatured else p.isFeatured,
                     categoryId := category, imageUrl := imageUrl, images := images,
                     params := if dto.params.Some? then dto.params else p.params,
                     specs := if dto.specs.Some? then dto.specs else p.specs);
        var st2 := st.(products := st.products[id := p2]);
        Ok((st2, ToView(st2, p2)))
  }

  /** The DTO an edit form sends back unchanged: the product's own view. */
  function ViewToDto(v: ProductView): (d: ProductDto)
    ensures d.imageUrl == Some(v.imageUrl) && d.images == Some(v.images) && d.isFeatured == Some(v.isFeatured)
  {
    ProductDto(Some(v.name), v.categoryId, v.description, Some(v.price), v.originalPrice, Some(v.stock), v.status,
               Some(v.imageUrl), Some(v.images), v.detail, Some(v.isFeatured), Some(v.params), Some(v.specs))
  }

  /** A stored product whose images are URLs and whose optional columns are filled, as createProduct leaves them. */
  predicate Settled(env: ImageStore, p: Product) {
    HasText(p.imageUrl) && IsUrlEntry(env, p.imageUrl)
    && p.images.Some? && (forall k :: 0 <= k < |p.images.value| ==> HasText(p.images.value[k]) && IsUrlEntry(env, p.images.value[k]))
    && p.isFeatured.Some? && p.params.Some? && p.specs.Some?
  }

  /** With the corrections, saving a product's own view back changes nothing. */
  lemma UpdateFixedOwnViewIsNoOp(st: ProductState, env: ImageStore, id: nat)
    requires id in st.products && Settled(env, st.products[id])
    ensures UpdateProductFixed(st, env, id, ViewToDto(ToView(st, st.products[id]))) == Ok((st, ToView(st, st.products[id])))
  {
    var p := st.products[id];
    var d := ViewToDto(ToView(st, p));
    var xs := p.images.value;
    assert forall e :: e in xs && HasText(e) ==> IsUrlEntry(env, e) by {
      forall e | e in xs && HasText(e) ensures IsUrlEntry(env, e) {
        var k :| 0 <= k < |xs| && xs[k] == e;
      }
    }
    assert MergeImages(env, xs, 0) == Ok(xs);
    assert UpdatedCategory(st, p.categoryId, d.categoryId) == Ok(p.categoryId);
    assert UpdatedMainImageFixed(env, p.imageUrl, d.imageUrl) == Ok(p.imageUrl);
    assert UpdatedImages(env, p.images, d.images) == Ok(p.images);
    assert st.products[id := p] == st.products;
  }

  /** With the corrections, leaving isFeatured out keeps the stored flag. */
  lemma UpdateFixedWithoutFeaturedKeepsFlag(st: ProductState, env: ImageStore, id: nat, dto: ProductDto)
    requires id in st.products && dto.categoryId.None? && dto.imageUrl.None? && dto.images.None?
    requires dto.name.Some? && dto.price.Some? && dto.stock.Some? && dto.isFeatured.None?
    ensures UpdateProductFixed(st, env, id, dto).Ok?
    ensures UpdateProductFixed(st, env, id, dto).value.0.products[id].isFeatured == st.products[id].isFeatured
  {
  }

  /**
   * deleteProduct: an unknown id gives PRODUCT_NOT_EXISTS. The product's
   * comments go with it (cascade with orphan removal), but a product that
   * an order line, a cart line or a favorite still points at violates that
   * row's foreign key, and the delete fails.
   */
  function DeleteProduct(st: ProductState, id: nat): (r: Result<ProductState, Failure>)
    ensures id !in st.products ==> r == Err(Fail(ProductNotExists))
    ensures id in st.products && id in st.referenced ==> r == Err(ConstraintViolation)
    ensures r.Ok? <==> id in st.products && id !in st.referenced
    ensures r.Ok? ==> r.value == st.(products := st.products - {id}) && GetProductById(r.value, id).Err?
  {
    if id !in st.products then Err(Fail(ProductNotExists))
    else if id in st.referenced then Err(ConstraintViolation)
    else Ok(st.(products := st.products - {id}))
  }
}
