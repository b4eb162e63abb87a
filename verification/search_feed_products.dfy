/** `SearchFeedProducts`: the products a feed has collected, bucketed by
    locale, and the ids of the products that failed. */
module SearchFeedProductsModel {
  import opened Wrappers
  import opened Locales

  /** The fields of a product the buckets look at: its id and its skus. */
  datatype Product = Product(id: Option<string>, skus: Option<seq<string>>)

  /** The buckets; a key may be null, as a `HashMap` key may. */
  type Buckets = map<Option<Locale>, seq<Product>>

  /** The first product in `products` with the id, if any. */
  function FirstWithId(products: seq<Product>, id: string): (r: Option<Product>)
    ensures r.None? <==> forall k :: 0 <= k < |products| ==> products[k].id != Some(id)
    ensures r.Some? ==> exists k :: (0 <= k < |products| && products[k] == r.value && r.value.id == Some(id)
      && forall j :: 0 <= j < k ==> products[j].id != Some(id))
  {
    if products == [] then None
    else if products[0].id == Some(id) then Some(products[0])
    else
      var r := FirstWithId(products[1..], id);
      assert forall k :: 0 <= k < |products| - 1 ==> products[1..][k] == products[k + 1];
      r
  }

  /** The sku count of one product: a null sku list counts 0. */
  function Skus(p: Product): nat {
    if p.skus.None? then 0 else |p.skus.value|
  }

  /** The sku count of a bucket. */
  function SkuCount(products: seq<Product>): nat {
    if products == [] then 0 else SkuCount(products[..|products| - 1]) + Skus(products[|products| - 1])
  }

  function Length(products: seq<Product>): nat {
    |products|
  }

  /** The sum of `f` over the buckets, whatever the order of the keys. */
  ghost function SumBy(m: Buckets, f: seq<Product> -> nat): nat
    decreases |m.Keys|
  {
    if m.Keys == {} then 0
    else
      var l :| l in m.Keys;
      assert (m - {l}).Keys == m.Keys - {l};
      f(m[l]) + SumBy(m - {l}, f)
  }

  /** Any bucket may be taken out first. */
  lemma {:induction false} SumByRemove(m: Buckets, l: Option<Locale>, f: seq<Product> -> nat)
    requires l in m
    ensures SumBy(m, f) == f(m[l]) + SumBy(m - {l}, f)
    decreases |m.Keys|, 1
  {
    assert m.Keys != {};
    var l' :| l' in m.Keys && SumBy(m, f) == f(m[l']) + SumBy(m - {l'}, f);
    if l' != l {
      SumBySwap(m, l', l, f);
    }
  }

  /** Taking out `a` first or `b` first leaves the same sum. */
  lemma {:induction false} SumBySwap(m: Buckets, a: Option<Locale>, b: Option<Locale>, f: seq<Product> -> nat)
    requires a in m && b in m && a != b
    ensures f(m[a]) + SumBy(m - {a}, f) == f(m[b]) + SumBy(m - {b}, f)
    decreases |m.Keys|, 0
  {
    RemoveKey(m, a);
    RemoveKey(m, b);
    RemoveBoth(m, a, b);
    SumByRemove(m - {a}, b, f);
    SumByRemove(m - {b}, a, f);
  }

  lemma RemoveKey(m: Buckets, a: Option<Locale>)
    requires a in m
    ensures (m - {a}).Keys == m.Keys - {a}
    ensures |(m - {a}).Keys| < |m.Keys|
  {
    assert (m - {a}).Keys == m.Keys - {a};
  }

  /** Two buckets taken out in either order leave the same buckets. */
  lemma RemoveBoth(m: Buckets, a: Option<Locale>, b: Option<Locale>)
    requires a in m && b in m && a != b
    ensures b in m - {a} && (m - {a})[b] == m[b]
    ensures a in m - {b} && (m - {b})[a] == m[a]
    ensures m - {a} - {b} == m - {b} - {a}
  {
  }

  /** Replacing one bucket changes the sum by the difference of that bucket. */
  lemma SumByUpdate(m: Buckets, l: Option<Locale>, v: seq<Product>, f: seq<Product> -> nat)
    ensures SumBy(m[l := v], f) + (if l in m then f(m[l]) else 0) == SumBy(m, f) + f(v)
  {
    SumByRemove(m[l := v], l, f);
    if l in m {
      SumByRemove(m, l, f);
      assert m[l := v] - {l} == m - {l};
    } else {
      assert m[l := v] - {l} == m;
    }
  }

  lemma {:induction false} SumByEmptyBuckets(m: Buckets, f: seq<Product> -> nat)
    requires forall l :: l in m ==> f(m[l]) == 0
    ensures SumBy(m, f) == 0
    decreases |m.Keys|
  {
    if m.Keys != {} {
      var l :| l in m.Keys;
      SumByRemove(m, l, f);
      assert (m - {l}).Keys == m.Keys - {l};
      SumByEmptyBuckets(m - {l}, f);
    }
  }

  /** The buckets after `add`: the product appended to its locale's bucket,
      which is created when missing. */
  function Added(m: Buckets, locale: Option<Locale>, product: Product): (r: Buckets)
    ensures r.Keys == m.Keys + {locale}
    ensures r[locale] == (if locale in m then m[locale] else []) + [product]
    ensures forall l :: l in m && l != locale ==> r[l] == m[l]
  {
    m[locale := (if locale in m then m[locale] else []) + [product]]
  }

  /** Adding a product adds one to the product count. */
  lemma AddCountsOne(m: Buckets, locale: Option<Locale>, product: Product)
    ensures SumBy(Added(m, locale, product), Length) == SumBy(m, Length) + 1
  {
    SumByUpdate(m, locale, Added(m, locale, product)[locale], Length);
  }

  /** A product added to a bucket without its id is what `getProduct` finds. */
  lemma AddThenFind(m: Buckets, locale: Option<Locale>, product: Product, id: string)
    requires product.id == Some(id)
    requires locale in m ==> FirstWithId(m[locale], id).None?
    ensures FirstWithId(Added(m, locale, product)[locale], id) == Some(product)
  {
    var before := if locale in m then m[locale] else [];
    var after := before + [product];
    assert forall j :: 0 <= j < |before| ==> before[j].id != Some(id);
    assert after[|before|] == product;
    var r := FirstWithId(after, id);
    assert r.Some?;
    var k :| 0 <= k < |after| && after[k] == r.value && r.value.id == Some(id)
      && forall j :: 0 <= j < k ==> after[j].id != Some(id);
    assert k == |before|;
  }

  class SearchFeedProducts {
    var productsByLocale: Buckets
    /** Failures are counted once per product id, whatever the locales. */
    var failedProducts: set<Option<string>>

    constructor()
      ensures productsByLocale == map[] && failedProducts == {}
    {
      productsByLocale := map[];
      failedProducts := {};
    }

    /** `getProduct`: the first product with the id in the locale's bucket;
        null for a null locale, a null id or a missing bucket. */
    method GetProduct(locale: Option<Locale>, productId: Option<string>) returns (r: Option<Product>)
      ensures locale.None? || productId.None? || locale !in productsByLocale ==> r == None
      ensures locale.Some? && productId.Some? && locale in productsByLocale ==>
        r == FirstWithId(productsByLocale[locale], productId.value)
    {
      if locale.None? || productId.None? || locale !in productsByLocale {
        return None;
      }
      var products := productsByLocale[locale];
      for i := 0 to |products|
        invariant forall k :: 0 <= k < i ==> products[k].id != productId
      {
        if productId == products[i].id {
          assert FirstWithId(products, productId.value).Some?;
          return Some(products[i]);
        }
      }
      return None;
    }

    method Add(locale: Option<Locale>, product: Product)
      modifies this
      ensures productsByLocale == Added(old(productsByLocale), locale, product)
      ensures failedProducts == old(failedProducts)
    {
      var products := if locale in productsByLocale then productsByLocale[locale] else [];
      productsByLocale := productsByLocale[locale := products + [product]];
    }

    function GetLocales(): (r: set<Option<Locale>>)
      reads this
      ensures r == productsByLocale.Keys
    {
      productsByLocale.Keys
    }

    /** `getProducts`: the locale's bucket, null for a locale never added. */
    function GetProducts(locale: Option<Locale>): (r: Option<seq<Product>>)
      reads this
      ensures r.None? <==> locale !in productsByLocale
      ensures r.Some? ==> r.value == productsByLocale[locale]
    {
      if locale in productsByLocale then Some(productsByLocale[locale]) else None
    }

    /** `getFailedProducts`. */
    function GetFailedProducts(): (r: set<Option<string>>)
      reads this
      ensures r == failedProducts
    {
      failedProducts
    }

    /** `getProductCount`: the products over every locale. */
    method GetProductCount() returns (count: nat)
      ensures count == SumBy(productsByLocale, Length)
    {
      count := 0;
      var rest := productsByLocale;
      while rest != map[]
        invariant forall l :: l in rest ==> l in productsByLocale && rest[l] == productsByLocale[l]
        invariant count + SumBy(rest, Length) == SumBy(productsByLocale, Length)
        decreases |rest.Keys|
      {
        var l :| l in rest;
        SumByRemove(rest, l, Length);
        count := count + |productsByLocale[l]|;
        assert (rest - {l}).Keys == rest.Keys - {l};
        rest := rest - {l};
      }
      assert rest.Keys == {};
    }

    /** `getSkuCount`: the skus of the locale's bucket; a missing bucket is
        iterated as null. */
    method GetSkuCount(locale: Option<Locale>) returns (r: Result<nat>)
      ensures locale !in productsByLocale ==> r == Err(NullPointer)
      ensures locale in productsByLocale ==> r == Ok(SkuCount(productsByLocale[locale]))
    {
      if locale !in productsByLocale {
        return Err(NullPointer);
      }
      var products := productsByLocale[locale];
      var count := 0;
      for i := 0 to |products|
        invariant count == SkuCount(products[..i])
      {
        assert products[..i + 1][..i] == products[..i];
        if products[i].skus.Some? {
          count := count + |products[i].skus.value|;
        }
      }
      assert products[..|products|] == products;
      return Ok(count);
    }

    /** `getMaxSkuCount`: the largest sku count of a locale, 0 with no locales. */
    method GetMaxSkuCount() returns (maxCount: nat)
      ensures forall l :: l in productsByLocale ==> SkuCount(productsByLocale[l]) <= maxCount
      ensures maxCount == 0 || exists l :: l in productsByLocale && maxCount == SkuCount(productsByLocale[l])
    {
      maxCount := 0;
      var rest := productsByLocale.Keys;
      while rest != {}
        invariant rest <= productsByLocale.Keys
        invariant forall l :: l in productsByLocale && l !in rest ==> SkuCount(productsByLocale[l]) <= maxCount
        invariant maxCount == 0 || exists l :: l in productsByLocale && maxCount == SkuCount(productsByLocale[l])
        decreases |rest|
      {
        var l :| l in rest;
        var count := GetSkuCount(l);
        if count.value > maxCount {
          maxCount := count.value;
        }
        rest := rest - {l};
      }
    }

    /** `clear`: every bucket emptied, its locale kept; the failures forgotten. */
    method Clear()
      modifies this
      ensures productsByLocale.Keys == old(productsByLocale.Keys)
      ensures forall l :: l in productsByLocale ==> productsByLocale[l] == []
      ensures failedProducts == {}
    {
      var rest := productsByLocale.Keys;
      while rest != {}
        invariant rest <= productsByLocale.Keys && productsByLocale.Keys == old(productsByLocale.Keys)
        invariant forall l :: l in productsByLocale && l !in rest ==> productsByLocale[l] == []
        decreases |rest|
      {
        var l :| l in rest;
        productsByLocale := productsByLocale[l := []];
        rest := rest - {l};
      }
      failedProducts := {};
    }

    method AddFailure(product: Product)
      modifies this
      ensures failedProducts == old(failedProducts) + {product.id}
      ensures productsByLocale == old(productsByLocale)
    {
      failedProducts := failedProducts + {product.id};
    }

    method ClearFailures()
      modifies this
      ensures failedProducts == {}
      ensures productsByLocale == old(productsByLocale)
    {
      failedProducts := {};
    }
  }

  /** After `clear` the product count is 0. */
  lemma ClearedCountsNothing(m: Buckets)
    requires forall l :: l in m ==> m[l] == []
    ensures SumBy(m, Length) == 0
  {
    SumByEmptyBuckets(m, Length);
  }
}
