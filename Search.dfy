/**
 * The catalogue search (lib/search.ts): the product data flattened into one
 * list of search rows, one per product of every category and size (or one per
 * image where a size lists no products), cached on first use, and a
 * case-insensitive substring filter over each row's joined fields.
 */
module Search {
  import opened Wrappers
  import opened Seqs
  import opened Text
  import opened Catalog
  import opened ImageMapping

  /** One row of the search index. */
  datatype SearchResult = SearchResult(
    id: string,
    title: string,
    category: string,
    diameter: string,
    image: Option<string>,
    partNumber: Option<string>,
    oemReference: Option<string>,
    model: Option<string>)

  // ------------------------------------------------------------- one row

  /** `categoryKey.replace('_', '-')`: the first underscore becomes a dash. */
  function CategoryName(key: string): string {
    ReplaceFirst(key, "_", "-")
  }

  /** A key without an underscore is kept; otherwise exactly its first
      underscore becomes a dash. */
  lemma CategoryNameSpec(key: string)
    ensures (forall i :: 0 <= i < |key| ==> key[i] != '_') ==> CategoryName(key) == key
    ensures forall i :: 0 <= i < |key| && key[i] == '_' && (forall j :: 0 <= j < i ==> key[j] != '_') ==>
      CategoryName(key) == key[..i] + "-" + key[i + 1..]
  {
    forall i | 0 <= i < |key|
      ensures OccursAt(key, "_", i) <==> key[i] == '_'
    {
      assert key[i..i + 1] == [key[i]];
    }
    if forall i :: 0 <= i < |key| ==> key[i] != '_' {
      assert IndexOf(key, "_") == None;
    }
  }

  /** `` `${category} ${diameter}mm` ``. */
  function FallbackTitle(category: string, diameter: string): string {
    category + " " + diameter + "mm"
  }

  /** `x || fallback` where `x` may be undefined: the empty string is falsy. */
  function OrElse(x: Option<string>, fallback: string): (r: string)
    ensures fallback != "" ==> r != ""
    ensures x.Some? && x.value != "" ==> r == x.value
    ensures !(x.Some? && x.value != "") ==> r == fallback
  {
    if x.Some? && x.value != "" then x.value else fallback
  }

  /** `` `${category}-${diameter}-${idx}` ``. */
  function EntryId(category: string, diameter: string, idx: nat): string {
    category + "-" + diameter + "-" + NatToString(idx)
  }

  /** `images[idx]?.path || images[0]?.path`: the image at the product's own
      position when its path is non-empty, else the first image's path, else none. */
  function ImageFor(images: seq<ImageInfo>, idx: nat): (r: Option<string>)
    ensures r.None? <==> images == []
    ensures idx < |images| && images[idx].path != "" ==> r == Some(images[idx].path)
    ensures images != [] && !(idx < |images| && images[idx].path != "") ==> r == Some(images[0].path)
  {
    if idx < |images| && images[idx].path != "" then Some(images[idx].path)
    else if images != [] then Some(images[0].path)
    else None
  }

  /** The row pushed for the `idx`-th product of a size. */
  function ProductEntry(category: string, diameter: string, p: Product, idx: nat,
                        images: seq<ImageInfo>): SearchResult {
    SearchResult(
      EntryId(category, diameter, idx),
      OrElse(p.partNumber, FallbackTitle(category, diameter)),
      category, diameter,
      ImageFor(images, idx),
      p.partNumber, p.oemCrossReference, p.modelApplication)
  }

  /** The row pushed for the `idx`-th image of a size that lists no products. */
  function ImageEntry(category: string, diameter: string, image: ImageInfo, idx: nat): SearchResult {
    SearchResult(
      EntryId(category, diameter, idx),
      OrElse(Some(image.alt), FallbackTitle(category, diameter)),
      category, diameter,
      Some(image.path),
      None, None, None)
  }

  // ------------------------------------------------------------- flattening

  /** One row per product, each with its position. */
  function ProductEntries(category: string, diameter: string, products: seq<Product>,
                          images: seq<ImageInfo>): seq<SearchResult> {
    seq(|products|, i requires 0 <= i < |products| => ProductEntry(category, diameter, products[i], i, images))
  }

  /** One row per image, each with its position. */
  function ImageEntries(category: string, diameter: string, images: seq<ImageInfo>): seq<SearchResult> {
    seq(|images|, i requires 0 <= i < |images| => ImageEntry(category, diameter, images[i], i))
  }

  /** The rows of one size: one per product, then one per image when the
      size lists no products and has images. */
  function SizeEntries(category: string, diameter: string, products: seq<Product>,
                       images: seq<ImageInfo>): seq<SearchResult> {
    ProductEntries(category, diameter, products, images)
    + if |products| == 0 && |images| > 0 then ImageEntries(category, diameter, images) else []
  }

  lemma ProductEntriesSnoc(category: string, diameter: string, products: seq<Product>,
                           images: seq<ImageInfo>, idx: nat)
    requires idx < |products|
    ensures ProductEntries(category, diameter, products[..idx + 1], images)
      == ProductEntries(category, diameter, products[..idx], images)
         + [ProductEntry(category, diameter, products[idx], idx, images)]
  {
  }

  lemma ImageEntriesSnoc(category: string, diameter: string, images: seq<ImageInfo>, k: nat)
    requires k < |images|
    ensures ImageEntries(category, diameter, images[..k + 1])
      == ImageEntries(category, diameter, images[..k]) + [ImageEntry(category, diameter, images[k], k)]
  {
  }

  /** `getProductImages` as the flattening sees it: the images of a category
      name and a size key. */
  type ImagesOf = (string, string) -> seq<ImageInfo>

  /** The rows of the first sizes of one category, in key order. */
  function CategoryEntries(category: string, sizes: seq<SizeGroup>, imagesOf: ImagesOf): seq<SearchResult>
    decreases |sizes|
  {
    if sizes == [] then []
    else
      var last := sizes[|sizes| - 1];
      CategoryEntries(category, sizes[..|sizes| - 1], imagesOf)
        + SizeEntries(category, last.diameter, last.products, imagesOf(category, last.diameter))
  }

  /** The rows of the first categories of the data, in key order. */
  function FlattenWith(data: ProductData, imagesOf: ImagesOf): seq<SearchResult>
    decreases |data|
  {
    if data == [] then []
    else
      var last := data[|data| - 1];
      FlattenWith(data[..|data| - 1], imagesOf) + CategoryEntries(CategoryName(last.key), last.sizes, imagesOf)
  }

  /** What `flattenProducts` returns for the data. */
  function Flatten(data: ProductData): seq<SearchResult> {
    FlattenWith(data, ProductImages)
  }

  /** `flattenProducts`. */
  method FlattenProducts(data: ProductData) returns (results: seq<SearchResult>)
    ensures results == Flatten(data)
  {
    results := FlattenLoop(data, ProductImages);
  }

  lemma CategoryEntriesStep(category: string, sizes: seq<SizeGroup>, j: nat, imagesOf: ImagesOf)
    requires j < |sizes|
    ensures CategoryEntries(category, sizes[..j + 1], imagesOf)
      == CategoryEntries(category, sizes[..j], imagesOf)
         + SizeEntries(category, sizes[j].diameter, sizes[j].products, imagesOf(category, sizes[j].diameter))
  {
    assert sizes[..j + 1][..j] == sizes[..j];
  }

  lemma FlattenStep(data: ProductData, i: nat, imagesOf: ImagesOf)
    requires i < |data|
    ensures FlattenWith(data[..i + 1], imagesOf)
      == FlattenWith(data[..i], imagesOf) + CategoryEntries(CategoryName(data[i].key), data[i].sizes, imagesOf)
  {
    assert data[..i + 1][..i] == data[..i];
  }

  /** The nested `forEach` over categories and sizes of `flattenProducts`,
      with `getProductImages` passed in as `imagesOf`. */
  method FlattenLoop(data: ProductData, imagesOf: ImagesOf) returns (results: seq<SearchResult>)
    ensures results == FlattenWith(data, imagesOf)
  {
    results := [];
    var i := 0;
    while i < |data|
      invariant i <= |data|
      invariant results == FlattenWith(data[..i], imagesOf)
    {
      var category := CategoryName(data[i].key);
      FlattenStep(data, i, imagesOf);
      results := PushCategory(results, category, data[i].sizes, imagesOf);
      i := i + 1;
    }
    assert data[..i] == data;
  }

  /** The outer `forEach` body: push the rows of every size of one category. */
  method PushCategory(results: seq<SearchResult>, category: string, sizes: seq<SizeGroup>,
                      imagesOf: ImagesOf) returns (out: seq<SearchResult>)
    ensures out == results + CategoryEntries(category, sizes, imagesOf)
  {
    out := results;
    var j := 0;
    while j < |sizes|
      invariant j <= |sizes|
      invariant out == results + CategoryEntries(category, sizes[..j], imagesOf)
    {
      var diameter := sizes[j].diameter;
      var images := imagesOf(category, diameter);
      CategoryEntriesStep(category, sizes, j, imagesOf);
      AppendAssoc(results, CategoryEntries(category, sizes[..j], imagesOf),
                  SizeEntries(category, diameter, sizes[j].products, images));
      out := PushSize(out, category, diameter, sizes[j].products, images);
      j := j + 1;
    }
    assert sizes[..j] == sizes;
  }

  /** The body of the inner `forEach`: push the rows of one size. */
  method PushSize(results: seq<SearchResult>, category: string, diameter: string,
                  products: seq<Product>, images: seq<ImageInfo>) returns (out: seq<SearchResult>)
    ensures out == results + SizeEntries(category, diameter, products, images)
  {
    out := PushProducts(results, category, diameter, products, images);
    if |products| == 0 && |images| > 0 {
      out := PushImages(out, category, diameter, images);
    }
  }

  /** `products.forEach((product, idx) => results.push(...))`. */
  method PushProducts(results: seq<SearchResult>, category: string, diameter: string,
                      products: seq<Product>, images: seq<ImageInfo>) returns (out: seq<SearchResult>)
    ensures out == results + ProductEntries(category, diameter, products, images)
  {
    out := results;
    var idx := 0;
    while idx < |products|
      invariant idx <= |products|
      invariant out == results + ProductEntries(category, diameter, products[..idx], images)
    {
      ProductEntriesSnoc(category, diameter, products, images, idx);
      out := out + [ProductEntry(category, diameter, products[idx], idx, images)];
      idx := idx + 1;
    }
    assert products[..idx] == products;
  }

  /** `images.forEach((image, idx) => results.push(...))`. */
  method PushImages(results: seq<SearchResult>, category: string, diameter: string,
                    images: seq<ImageInfo>) returns (out: seq<SearchResult>)
    ensures out == results + ImageEntries(category, diameter, images)
  {
    out := results;
    var k := 0;
    while k < |images|
      invariant k <= |images|
      invariant out == results + ImageEntries(category, diameter, images[..k])
    {
      ImageEntriesSnoc(category, diameter, images, k);
      out := out + [ImageEntry(category, diameter, images[k], k)];
      k := k + 1;
    }
    assert images[..k] == images;
  }

  /** A size with products gives exactly one row per product, carrying that
      product's fields, its position in the id and the image chosen by
      `ImageFor`, titled by its part number or, when that is missing or
      empty, by the category and size; a size without products gives exactly
      one row per image, titled by the image's alt text or that fallback. */
  lemma SizeEntriesShape(category: string, diameter: string, products: seq<Product>, images: seq<ImageInfo>)
    ensures var rows := SizeEntries(category, diameter, products, images);
      && (|products| > 0 ==>
            |rows| == |products|
            && forall i :: 0 <= i < |rows| ==>
                 (rows[i].id == EntryId(category, diameter, i)
                  && rows[i].partNumber == products[i].partNumber
                  && rows[i].oemReference == products[i].oemCrossReference
                  && rows[i].model == products[i].modelApplication
                  && rows[i].image == ImageFor(images, i)
                  && rows[i].title == (if products[i].partNumber.Some? && products[i].partNumber.value != ""
                                       then products[i].partNumber.value
                                       else FallbackTitle(category, diameter))))
      && (|products| == 0 ==>
            |rows| == |images|
            && forall i :: 0 <= i < |rows| ==>
                 (rows[i].id == EntryId(category, diameter, i)
                  && rows[i].image == Some(images[i].path)
                  && rows[i].partNumber.None?
                  && rows[i].title == (if images[i].alt != "" then images[i].alt
                                       else FallbackTitle(category, diameter))))
      && forall i :: 0 <= i < |rows| ==>
           rows[i].category == category && rows[i].diameter == diameter && rows[i].title != ""
  {
  }

  /** Every row of a category carries the category's name, a non-empty title
      and the key of one of the category's sizes. */
  lemma {:induction false} CategoryEntriesShape(category: string, sizes: seq<SizeGroup>, imagesOf: ImagesOf)
    ensures forall r :: r in CategoryEntries(category, sizes, imagesOf) ==>
      && r.category == category && r.title != ""
      && exists k :: 0 <= k < |sizes| && r.diameter == sizes[k].diameter
    decreases |sizes|
  {
    if sizes != [] {
      var n := |sizes| - 1;
      var last := sizes[n];
      CategoryEntriesShape(category, sizes[..n], imagesOf);
      SizeEntriesShape(category, last.diameter, last.products, imagesOf(category, last.diameter));
      forall r | r in CategoryEntries(category, sizes, imagesOf)
        ensures r.category == category && r.title != ""
        ensures exists k :: 0 <= k < |sizes| && r.diameter == sizes[k].diameter
      {
        if r in CategoryEntries(category, sizes[..n], imagesOf) {
          var k :| 0 <= k < n && r.diameter == sizes[..n][k].diameter;
          assert r.diameter == sizes[k].diameter;
        } else {
          var rows := SizeEntries(category, last.diameter, last.products, imagesOf(category, last.diameter));
          assert r in rows;
          var i :| 0 <= i < |rows| && rows[i] == r;
          assert r.diameter == sizes[n].diameter;
        }
      }
    }
  }

  /** Every row of the flattened list has a non-empty title, belongs to the
      dash-form name of one of the data's category keys and to one of that
      category's size keys. */
  lemma {:induction false} FlattenShape(data: ProductData, imagesOf: ImagesOf)
    ensures forall r :: r in FlattenWith(data, imagesOf) ==>
      r.title != "" && exists c :: 0 <= c < |data| && r.category == CategoryName(data[c].key)
    decreases |data|
  {
    if data != [] {
      var n := |data| - 1;
      FlattenShape(data[..n], imagesOf);
      CategoryEntriesShape(CategoryName(data[n].key), data[n].sizes, imagesOf);
      forall r | r in FlattenWith(data, imagesOf)
        ensures r.title != "" && exists c :: 0 <= c < |data| && r.category == CategoryName(data[c].key)
      {
        if r in FlattenWith(data[..n], imagesOf) {
          var c :| 0 <= c < n && r.category == CategoryName(data[..n][c].key);
          assert r.category == CategoryName(data[c].key);
        } else {
          assert r.category == CategoryName(data[n].key);
        }
      }
    }
  }

  // ------------------------------------------------------------- searching

  /** `.filter(Boolean)` on optional strings: the defined, non-empty ones, in order. */
  function Present(fields: seq<Option<string>>): (r: seq<string>)
    ensures |r| <= |fields|
    ensures forall k :: 0 <= k < |r| ==> r[k] != ""
    ensures forall k :: 0 <= k < |fields| && fields[k].Some? && fields[k].value != "" ==> fields[k].value in r
  {
    if fields == [] then []
    else
      (if fields[0].Some? && fields[0].value != "" then [fields[0].value] else [])
      + Present(fields[1..])
  }

  /** The strings as defined optional values. */
  function Somes(r: seq<string>): seq<Option<string>> {
    seq(|r|, i requires 0 <= i < |r| => Some(r[i]))
  }

  /** One field further. */
  lemma PresentCons(fields: seq<Option<string>>)
    requires fields != []
    ensures fields[0].Some? && fields[0].value != "" ==> Present(fields) == [fields[0].value] + Present(fields[1..])
    ensures !(fields[0].Some? && fields[0].value != "") ==> Present(fields) == Present(fields[1..])
  {
  }

  /** `.filter(Boolean)` keeps exactly the defined, non-empty field values. */
  lemma {:induction false} PresentMembers(fields: seq<Option<string>>)
    ensures forall v :: v in Present(fields) <==> v != "" && Some(v) in fields
    decreases |fields|
  {
    if fields != [] {
      PresentMembers(fields[1..]);
      PresentCons(fields);
      assert forall x :: x in fields <==> x == fields[0] || x in fields[1..];
    }
  }

  /** `.filter(Boolean)` keeps every occurrence: a non-empty value remains as
      often as it is a field, and the empty string never does. */
  lemma PresentCount(fields: seq<Option<string>>)
    ensures forall v :: multiset(Present(fields))[v] == if v == "" then 0 else multiset(fields)[Some(v)]
  {
    forall v {
      PresentCountOf(fields, v);
    }
  }

  /** The count of one value. */
  lemma {:induction false} PresentCountOf(fields: seq<Option<string>>, v: string)
    ensures multiset(Present(fields))[v] == if v == "" then 0 else multiset(fields)[Some(v)]
    decreases |fields|
  {
    if fields != [] {
      var h, rest := fields[0], Present(fields[1..]);
      PresentCountOf(fields[1..], v);
      PresentCons(fields);
      MultisetCons(fields);
      if h.Some? && h.value != "" {
        MultisetCons(Present(fields));
        assert multiset(Present(fields))[v] == (if h.value == v then 1 else 0) + multiset(rest)[v];
      }
    }
  }

  /** `.filter(Boolean)` keeps the fields in their order. */
  lemma {:induction false} PresentInOrder(fields: seq<Option<string>>)
    ensures IsSubsequence(Somes(Present(fields)), fields)
    decreases |fields|
  {
    if fields != [] {
      var rest := Present(fields[1..]);
      PresentInOrder(fields[1..]);
      PresentCons(fields);
      var a := Somes(Present(fields));
      if fields[0].Some? && fields[0].value != "" {
        assert a[0] == fields[0];
        assert a[1..] == Somes(rest);
        SubsequenceCons(a, fields);
      } else {
        assert a == Somes(rest);
        SubsequenceSkip(a, fields);
      }
    }
  }

  /** The fields a row is searched by, in the order they are joined. */
  function Fields(r: SearchResult): seq<Option<string>> {
    [Some(r.title), r.partNumber, r.oemReference, r.model, Some(r.category), Some(r.diameter)]
  }

  /** The lower-cased, space-joined non-empty fields of a row. */
  function SearchableText(r: SearchResult): string {
    LowerStr(JoinWithSpace(Present(Fields(r))))
  }

  /** The searchable text is lower case, so a query matches it only through
      its lower-cased form. */
  lemma SearchableTextLower(r: SearchResult)
    ensures IsLowerCase(SearchableText(r))
  {
    var t := SearchableText(r);
    forall i | 0 <= i < |t| ensures Lower(t[i]) == t[i] {
      var c := JoinWithSpace(Present(Fields(r)))[i];
      assert t[i] == Lower(c);
    }
  }

  /** The filter callback of `searchProducts`. */
  function Matches(lowerQuery: string): SearchResult -> bool {
    r => Contains(SearchableText(r), lowerQuery)
  }

  /** What `searchProducts(query)` returns for the flattened list `products`. */
  function Search(products: seq<SearchResult>, query: string): seq<SearchResult> {
    if Trim(query) == [] then [] else Filter(products, Matches(LowerStr(query)))
  }

  /** A query of nothing but whitespace finds nothing. */
  lemma SearchBlankQuery(products: seq<SearchResult>, query: string)
    requires AllSpace(query)
    ensures Search(products, query) == []
  {
    TrimEmpty(query);
  }

  /** Any other query finds exactly the rows whose searchable text contains
      the lower-cased (untrimmed) query, each as often as it occurs, in list
      order, and no more rows than the list has. */
  lemma SearchSpec(products: seq<SearchResult>, query: string)
    requires !AllSpace(query)
    ensures var found := Search(products, query);
      && |found| <= |products|
      && IsSubsequence(found, products)
      && (forall r :: r in found <==> r in products && Contains(SearchableText(r), LowerStr(query)))
      && forall r :: multiset(found)[r] == if Contains(SearchableText(r), LowerStr(query)) then multiset(products)[r] else 0
  {
    TrimEmpty(query);
    FilterSpec(products, Matches(LowerStr(query)));
    FilterCount(products, Matches(LowerStr(query)));
  }

  /** Lower-casing leaves a string all-whitespace exactly when it was. */
  lemma AllSpaceLower(s: string)
    ensures AllSpace(LowerStr(s)) <==> AllSpace(s)
  {
    forall i | 0 <= i < |s|
      ensures IsSpace(LowerStr(s)[i]) <==> IsSpace(s[i])
    {
      LowerKeepsSpace(s[i]);
    }
  }

  /** Queries that differ only in letter case find the same rows. */
  lemma SearchCaseInsensitive(products: seq<SearchResult>, q1: string, q2: string)
    requires LowerStr(q1) == LowerStr(q2)
    ensures Search(products, q1) == Search(products, q2)
  {
    AllSpaceLower(q1);
    AllSpaceLower(q2);
    TrimEmpty(q1);
    TrimEmpty(q2);
  }

  /** A row is found by any query (not all whitespace) that occurs, ignoring
      case, in one of its non-empty fields. */
  lemma SearchFindsField(products: seq<SearchResult>, r: SearchResult, query: string, k: nat)
    requires r in products && !AllSpace(query)
    requires k < |Fields(r)| && Fields(r)[k].Some? && Fields(r)[k].value != ""
    requires Contains(LowerStr(Fields(r)[k].value), LowerStr(query))
    ensures r in Search(products, query)
  {
    var v := Fields(r)[k].value;
    var parts := Present(Fields(r));
    assert v in parts;
    var m :| 0 <= m < |parts| && parts[m] == v;
    JoinContainsPart(parts, m);
    ContainsLower(JoinWithSpace(parts), v);
    ContainsTrans(SearchableText(r), LowerStr(v), LowerStr(query));
    SearchSpec(products, query);
  }

  // ------------------------------------------------------------- the cache

  /** The module state of lib/search.ts: the product data and the
      `cachedProducts` slot, empty until the first non-blank search. */
  class ProductSearch {
    const data: ProductData
    var cachedProducts: Option<seq<SearchResult>>

    /** A filled slot holds the flattened data. */
    ghost predicate Valid()
      reads this
    {
      cachedProducts.Some? ==> cachedProducts.value == Flatten(data)
    }

    constructor(data: ProductData)
      ensures this.data == data && cachedProducts == None && Valid()
    {
      this.data := data;
      cachedProducts := None;
    }

    /** `getCachedProducts`: flatten on the first call only; every later call
        returns the stored list. */
    method GetCachedProducts() returns (products: seq<SearchResult>)
      requires Valid()
      modifies this
      ensures Valid()
      ensures products == Flatten(data)
      ensures cachedProducts == Some(products)
      ensures old(cachedProducts).Some? ==> products == old(cachedProducts).value
    {
      if cachedProducts.None? {
        var flat := FlattenProducts(data);
        cachedProducts := Some(flat);
      }
      products := cachedProducts.value;
    }

    /** `searchProducts`: a blank query returns at once without touching the
        cache; any other query fills the cache and filters it. */
    method SearchProducts(query: string) returns (results: seq<SearchResult>)
      requires Valid()
      modifies this
      ensures Valid()
      ensures results == Search(Flatten(data), query)
      ensures AllSpace(query) ==> cachedProducts == old(cachedProducts)
      ensures !AllSpace(query) ==> cachedProducts == Some(Flatten(data))
    {
      TrimEmpty(query);
      if Trim(query) == [] {
        return [];
      }
      var products := GetCachedProducts();
      var lowerQuery := LowerStr(query);
      results := Filter(products, Matches(lowerQuery));
    }
  }
}
