/** `ProductService.getUrl4Endpoint`: the URL of one endpoint of the product
    API, from the configured host, endpoint paths and preview flag. */
module ProductServices {
  import opened Wrappers
  import opened Strings

  /** `ProductService.Endpoint`. */
  datatype Endpoint = Brands | Rules | Products | Categories | Facets | ProductContent

  const IdPlaceholder: string := "${id}"
  const PreviewSuffix: string := "?preview=true"

  /** `name()`. */
  function Name(e: Endpoint): string {
    match e
    case Brands => "BRANDS"
    case Rules => "RULES"
    case Products => "PRODUCTS"
    case Categories => "CATEGORIES"
    case Facets => "FACETS"
    case ProductContent => "PRODUCT_CONTENT"
  }

  /** The key of the endpoint in the endpoint map: its name in lower case. */
  function Key(e: Endpoint): (r: string)
    ensures r == ToLower(Name(e))
  {
    match e
    case Brands => "brands"
    case Rules => "rules"
    case Products => "products"
    case Categories => "categories"
    case Facets => "facets"
    case ProductContent => "product_content"
  }

  /** `getUrl4Endpoint(endpoint, id)`. The endpoint map must be set (a null
      map throws a NullPointerException) and must hold the endpoint (else an illegal
      argument named after it). The host, which may be null, is prefixed to
      the endpoint path. An id fills the `${id}` placeholder when there is
      one and is appended after a `/` otherwise; without an id the `/${id}`
      placeholder is dropped. Preview adds `?preview=true`. */
  function Url4Endpoint(endpoints: Option<map<string, string>>, host: Option<string>, preview: bool,
                        endpoint: Endpoint, id: Option<string>): (r: Result<string>)
    ensures endpoints.None? ==> r == Err(NullPointer)
    ensures endpoints.Some? && Key(endpoint) !in endpoints.value ==> r == Err(IllegalArgument(Name(endpoint)))
    ensures r.Ok? <==> endpoints.Some? && Key(endpoint) in endpoints.value
    ensures r.Ok? && preview ==> EndsWith(r.value, PreviewSuffix)
  {
    if endpoints.None? then Err(NullPointer)
    else if Key(endpoint) !in endpoints.value then Err(IllegalArgument(Name(endpoint)))
    else
      var url := Text(host) + endpoints.value[Key(endpoint)];
      var filled :=
        if id.Some? then
          if Contains(url, IdPlaceholder) then Replace(url, IdPlaceholder, id.value) else url + "/" + id.value
        else Replace(url, "/" + IdPlaceholder, "");
      var suffix := if preview then PreviewSuffix else "";
      assert (filled + suffix)[|filled + suffix| - |suffix|..] == suffix;
      Ok(filled + suffix)
  }

  function Suffix(preview: bool): string {
    if preview then PreviewSuffix else ""
  }

  /** No `$` in `s`: no placeholder can start inside it. */
  predicate Plain(s: string) {
    forall k :: 0 <= k < |s| ==> s[k] != '$'
  }

  lemma PlainPrefix(a: string, rest: string, target: string)
    requires Plain(a) && target != [] && (target[0] == '$' || (|target| > 1 && target[1] == '$' && (rest == [] || rest[0] != '$')))
    ensures forall k :: 0 <= k < |a| ==> !OccursAt(a + rest, target, k)
  {
    forall k | 0 <= k < |a| ensures !OccursAt(a + rest, target, k) {
      assert k + 1 < |a| ==> (a + rest)[k + 1] == a[k + 1];
      assert k + 1 == |a| && rest != [] ==> (a + rest)[k + 1] == rest[0];
    }
  }

  /** An endpoint path with the placeholder gets the id in its place, host
      and the rest of the path kept. */
  lemma IdFillsPlaceholder(endpoints: map<string, string>, host: Option<string>, preview: bool, endpoint: Endpoint,
                           id: string, before: string, after: string)
    requires Key(endpoint) in endpoints && endpoints[Key(endpoint)] == before + IdPlaceholder + after
    requires Plain(Text(host) + before) && Plain(after)
    ensures Url4Endpoint(Some(endpoints), host, preview, endpoint, Some(id))
      == Ok(Text(host) + before + id + after + Suffix(preview))
  {
    var a, t := Text(host) + before, IdPlaceholder;
    var url := Text(host) + endpoints[Key(endpoint)];
    assert url == a + t + after;
    PlainPrefix(a, t + after, t);
    PlainAbsent(after, t);
    ReplaceOnce(a, t, after, id);
  }

  /** Without an id the `/${id}` placeholder is dropped. */
  lemma NoIdDropsPlaceholder(endpoints: map<string, string>, host: Option<string>, preview: bool, endpoint: Endpoint,
                             before: string, after: string)
    requires Key(endpoint) in endpoints && endpoints[Key(endpoint)] == before + "/" + IdPlaceholder + after
    requires Plain(Text(host) + before) && Plain(after)
    ensures Url4Endpoint(Some(endpoints), host, preview, endpoint, None)
      == Ok(Text(host) + before + after + Suffix(preview))
  {
    var url := Text(host) + endpoints[Key(endpoint)];
    assert Replace(url, "/" + IdPlaceholder, "") == Text(host) + before + after by {
      var a, t := Text(host) + before, "/" + IdPlaceholder;
      assert url == a + t + after;
      PlainPrefix(a, t + after, t);
      PlainAbsent(after, t);
      ReplaceOnce(a, t, after, "");
      assert a + "" + after == Text(host) + before + after;
    }
    UrlWithoutId(endpoints, host, preview, endpoint);
  }

  /** Without an id the URL is the host and path with `/${id}` removed. */
  lemma UrlWithoutId(endpoints: map<string, string>, host: Option<string>, preview: bool, endpoint: Endpoint)
    requires Key(endpoint) in endpoints
    ensures Url4Endpoint(Some(endpoints), host, preview, endpoint, None)
      == Ok(Replace(Text(host) + endpoints[Key(endpoint)], "/" + IdPlaceholder, "") + Suffix(preview))
  {
  }

  /** An endpoint path without a placeholder gets the id appended after `/`,
      and is kept as it is when there is no id. */
  lemma NoPlaceholder(endpoints: map<string, string>, host: Option<string>, preview: bool, endpoint: Endpoint, id: Option<string>)
    requires Key(endpoint) in endpoints && Plain(Text(host) + endpoints[Key(endpoint)])
    ensures id.Some? ==>
      Url4Endpoint(Some(endpoints), host, preview, endpoint, id)
      == Ok(Text(host) + endpoints[Key(endpoint)] + "/" + id.value + Suffix(preview))
    ensures id.None? ==>
      Url4Endpoint(Some(endpoints), host, preview, endpoint, id)
      == Ok(Text(host) + endpoints[Key(endpoint)] + Suffix(preview))
  {
    var url := Text(host) + endpoints[Key(endpoint)];
    PlainAbsent(url, IdPlaceholder);
    PlainAbsent(url, "/" + IdPlaceholder);
    ReplaceAbsent(url, "/" + IdPlaceholder, "");
  }

  /** A string without `$` holds neither placeholder. */
  lemma PlainAbsent(s: string, target: string)
    requires Plain(s) && (target == IdPlaceholder || target == "/" + IdPlaceholder)
    ensures !Contains(s, target)
  {
    forall k | 0 <= k && k + |target| <= |s| ensures !OccursAt(s, target, k) {
      var j := if target == IdPlaceholder then 0 else 1;
      assert s[k..k + |target|][j] == s[k + j];
    }
  }
}
