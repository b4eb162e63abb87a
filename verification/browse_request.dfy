/** `BrowseRequest.getEndpoint`: the API path of a browse request. */
module BrowseRequests {
  import opened Wrappers
  import opened Strings

  const ProductsPart: string := "/products"

  /** `getEndpoint`: `/brands/{brand}` when there is a brand, then
      `/categories/{category}` when there is a category, then `/products`. */
  function Endpoint(brandId: Option<string>, categoryId: Option<string>): (r: string)
    ensures EndsWith(r, ProductsPart)
    ensures brandId.Some? ==> StartsWith(r, "/brands/" + brandId.value)
    ensures categoryId.Some? ==> EndsWith(r, "/categories/" + categoryId.value + ProductsPart)
    ensures brandId.None? && categoryId.None? ==> r == ProductsPart
  {
    var brandPart := if brandId.Some? then "/brands/" + brandId.value else "";
    var categoryPart := if categoryId.Some? then "/categories/" + categoryId.value else "";
    var r := brandPart + categoryPart + ProductsPart;
    assert r[|r| - |ProductsPart|..] == ProductsPart;
    assert r[..|brandPart|] == brandPart;
    assert r[|r| - |categoryPart + ProductsPart|..] == categoryPart + ProductsPart;
    r
  }

  /** An id that can stand alone as a path segment. */
  predicate Segment(id: string) {
    id != [] && '/' !in id
  }

  /** The segments of the endpoint read back the brand and the category:
      `brands`, the brand, `categories`, the category, `products`, each part
      present only when its id is. */
  lemma EndpointSegments(brandId: Option<string>, categoryId: Option<string>)
    requires brandId.Some? ==> Segment(brandId.value)
    requires categoryId.Some? ==> Segment(categoryId.value)
    ensures Split(Endpoint(brandId, categoryId), {'/'})
      == (if brandId.Some? then ["brands", brandId.value] else [])
       + (if categoryId.Some? then ["categories", categoryId.value] else [])
       + ["products"]
  {
    EndpointIsPath(brandId, categoryId);
    Words();
    PathSegments(brandId, categoryId, "brands", "categories", "products");
  }

  /** The endpoint, with the words of its parts as parameters. */
  function Path(brandId: Option<string>, categoryId: Option<string>, brands: string, categories: string, products: string): string {
    (if brandId.Some? then "/" + brands + "/" + brandId.value else "")
    + (if categoryId.Some? then "/" + categories + "/" + categoryId.value else "")
    + "/" + products
  }

  lemma EndpointIsPath(brandId: Option<string>, categoryId: Option<string>)
    ensures Endpoint(brandId, categoryId) == Path(brandId, categoryId, "brands", "categories", "products")
  {
    Literals();
    var brandPart := if brandId.Some? then "/brands/" + brandId.value else "";
    var categoryPart := if categoryId.Some? then "/categories/" + categoryId.value else "";
    assert Endpoint(brandId, categoryId) == brandPart + categoryPart + ProductsPart;
    if brandId.Some? {
      Regroup("/brands/", "brands", brandId.value);
    }
    if categoryId.Some? {
      Regroup("/categories/", "categories", categoryId.value);
    }
  }

  lemma Literals()
    ensures "/brands/" == "/" + "brands" + "/"
    ensures "/categories/" == "/" + "categories" + "/"
    ensures ProductsPart == "/" + "products"
  {
  }

  lemma Regroup(literal: string, word: string, id: string)
    requires literal == "/" + word + "/"
    ensures literal + id == "/" + word + "/" + id
  {
  }

  lemma Words()
    ensures Segment("brands") && Segment("categories") && Segment("products")
  {
  }

  /** The same, for any words in place of `brands`, `categories` and `products`. */
  lemma PathSegments(brandId: Option<string>, categoryId: Option<string>, brands: string, categories: string, products: string)
    requires brandId.Some? ==> Segment(brandId.value)
    requires categoryId.Some? ==> Segment(categoryId.value)
    requires Segment(brands) && Segment(categories) && Segment(products)
    ensures Split(Path(brandId, categoryId, brands, categories, products), {'/'})
      == (if brandId.Some? then [brands, brandId.value] else [])
       + (if categoryId.Some? then [categories, categoryId.value] else [])
       + [products]
  {
    var brandPart := if brandId.Some? then "/" + brands + "/" + brandId.value else "";
    var categoryPart := if categoryId.Some? then "/" + categories + "/" + categoryId.value else "";
    var tail := categoryPart + "/" + products;
    TailSegments(categoryId, categories, products);
    assert brandPart + categoryPart + "/" + products == brandPart + tail;
    if brandId.Some? {
      PairSegments(brands, brandId.value, tail);
    } else {
      assert brandPart + tail == tail;
    }
  }

  lemma TailSegments(categoryId: Option<string>, categories: string, products: string)
    requires categoryId.Some? ==> Segment(categoryId.value)
    requires Segment(categories) && Segment(products)
    ensures Split((if categoryId.Some? then "/" + categories + "/" + categoryId.value else "") + "/" + products, {'/'})
      == (if categoryId.Some? then [categories, categoryId.value] else []) + [products]
  {
    var last := "/" + products;
    SplitSlashed(products, []);
    assert "/" + products + [] == last;
    assert Split(last, {'/'}) == [products];
    if categoryId.Some? {
      PairSegments(categories, categoryId.value, last);
      assert "/" + categories + "/" + categoryId.value + "/" + products == "/" + categories + "/" + categoryId.value + last;
    } else {
      assert "" + "/" + products == last;
    }
  }

  /** `/word/id` followed by more `/`-led text. */
  lemma PairSegments(word: string, id: string, rest: string)
    requires Segment(word) && Segment(id)
    requires rest == [] || rest[0] == '/'
    ensures Split("/" + word + "/" + id + rest, {'/'}) == [word, id] + Split(rest, {'/'})
  {
    var r1 := "/" + id + rest;
    assert r1[0] == '/';
    calc {
      Split("/" + word + "/" + id + rest, {'/'});
      { assert "/" + word + "/" + id + rest == "/" + word + r1; }
      Split("/" + word + r1, {'/'});
      { SplitSlashed(word, r1); }
      [word] + Split(r1, {'/'});
      { SplitSlashed(id, rest); }
      [word] + ([id] + Split(rest, {'/'}));
      [word, id] + Split(rest, {'/'});
    }
  }

  /** `/x` followed by more `/`-led text splits into `x` and the rest. */
  lemma SplitSlashed(x: string, rest: string)
    requires Segment(x)
    requires rest == [] || rest[0] == '/'
    ensures Split("/" + x + rest, {'/'}) == [x] + Split(rest, {'/'})
  {
    var s := "/" + x + rest;
    assert s[1..] == x + rest;
    if rest == [] {
      assert x + rest == x;
      SplitSingle(x, {'/'});
    } else {
      assert rest == [rest[0]] + rest[1..];
      assert x + rest == x + ['/'] + rest[1..];
      SplitCons(x, '/', rest[1..], {'/'});
    }
  }
}
