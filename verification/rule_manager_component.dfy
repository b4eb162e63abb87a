/** The helpers of `RuleManagerComponent`, the Solr search component that
    looks up the business rules matching a request: the names of the rule and
    facet cores, the exact-match test on rule queries, the filter queries
    sent to the rules core, and the sort order of the augmented request. */
module RuleManagerComponents {
  import opened Wrappers
  import opened Strings

  const Wildcard: string := "__all__"
  const FieldCategory: string := "category"
  const FieldSiteId: string := "siteId"
  const FieldBrandId: string := "brandId"
  const FieldSubTarget: string := "subTarget"
  const FieldCatalogId: string := "catalogId"
  const FieldIsToos: string := "isToos"
  const SubTargetOutlet: string := "Outlet"
  const SubTargetRetail: string := "Retail"
  /** The filter query of a closeout (outlet) search. */
  const CloseoutFilter: string := "isCloseout:true"
  /** Rules fetched per page from the rules core. */
  const PageSize: int := 40

  // ---------------------------------------------------------------------
  // Core names

  /** Where the instance starts in the lower-cased core name: its first
      `public`, else its first `preview`, else -1. */
  function InstanceStart(lower: string): (r: int)
    ensures r == -1 <==> !Contains(lower, "public") && !Contains(lower, "preview")
    ensures r != -1 ==> OccursAt(lower, "public", r) || OccursAt(lower, "preview", r)
    ensures Contains(lower, "public") ==>
      OccursAt(lower, "public", r) && forall k :: 0 <= k < r ==> !OccursAt(lower, "public", k)
    ensures !Contains(lower, "public") && Contains(lower, "preview") ==>
      OccursAt(lower, "preview", r) && forall k :: 0 <= k < r ==> !OccursAt(lower, "preview", k)
  {
    if Contains(lower, "public") then IndexOf(lower, "public") else IndexOf(lower, "preview")
  }

  /** `getCoreName(core, baseName, hasLocale)`: the base name followed by the
      core name from its first `public` (else its first `preview`), in any
      case; without the locale the last three characters (`_fr`) are cut.
      Null when the core name holds neither. */
  function CoreName(coreName: string, baseName: string, hasLocale: bool): (r: Option<string>)
    ensures r.None? <==> !Contains(ToLower(coreName), "public") && !Contains(ToLower(coreName), "preview")
    ensures r.Some? ==> StartsWith(r.value, baseName)
    ensures r.Some? && hasLocale ==> EndsWith(coreName, r.value[|baseName|..])
    ensures r.Some? && hasLocale ==>
      StartsWith(ToLower(r.value[|baseName|..]), "public") || StartsWith(ToLower(r.value[|baseName|..]), "preview")
    ensures r.Some? && !hasLocale ==> |r.value| >= |baseName| + 3
    ensures r.Some? && hasLocale ==> r.value == baseName + coreName[InstanceStart(ToLower(coreName))..]
  {
    var suffixStart := InstanceStart(ToLower(coreName));
    if suffixStart < 0 then None
    else
      var r := if hasLocale then baseName + coreName[suffixStart..]
               else baseName + coreName[suffixStart..|coreName| - 3];
      assert r[..|baseName|] == baseName;
      assert hasLocale ==> r[|baseName|..] == coreName[suffixStart..];
      assert ToLower(coreName[suffixStart..])[..6] == ToLower(coreName)[suffixStart..suffixStart + 6];
      assert |coreName| >= suffixStart + 7 ==>
        ToLower(coreName[suffixStart..])[..7] == ToLower(coreName)[suffixStart..suffixStart + 7];
      Some(r)
  }

  /** The name without the locale is the name with it, less its last three
      characters. */
  lemma CoreNameWithoutLocale(coreName: string, baseName: string)
    requires CoreName(coreName, baseName, true).Some?
    ensures CoreName(coreName, baseName, false).Some?
    ensures CoreName(coreName, baseName, true).value
      == CoreName(coreName, baseName, false).value + coreName[|coreName| - 3..]
  {
    var start := InstanceStart(ToLower(coreName));
    assert 0 <= start && start + 6 <= |coreName|;
    assert CoreName(coreName, baseName, true) == Some(baseName + coreName[start..]);
    assert CoreName(coreName, baseName, false) == Some(baseName + coreName[start..|coreName| - 3]);
    CutLast(baseName, coreName, start, 3);
  }

  lemma CutLast(prefix: string, s: string, start: nat, n: nat)
    requires start + n <= |s|
    ensures prefix + s[start..] == prefix + s[start..|s| - n] + s[|s| - n..]
  {
    assert s[start..] == s[start..|s| - n] + s[|s| - n..];
  }

  /** The first occurrence, when none comes before it. */
  lemma FirstOccurrence(s: string, t: string, n: int)
    requires OccursAt(s, t, n) && forall k :: 0 <= k < n ==> !OccursAt(s, t, k)
    ensures Contains(s, t) && IndexOf(s, t) == n
  {
  }

  /** A word whose only `p` is its first character does not occur in
      `a + t + r` at a position inside `a` when `a` does not hold it and `t`
      starts with `p`. */
  lemma NotInPrefix(a: string, t: string, r: string, w: string, k: int)
    requires !Contains(a, w) && t != [] && t[0] == 'p'
    requires forall j :: 0 < j < |w| ==> w[j] != 'p'
    requires 0 <= k < |a|
    ensures !OccursAt(a + t + r, w, k)
  {
    var s := a + t + r;
    if k + |w| <= |a| {
      assert s[k..k + |w|] == a[k..k + |w|];
      assert !OccursAt(a, w, k);
    } else if k + |w| <= |s| {
      var j := |a| - k;
      assert s[k..k + |w|][j] == s[|a|] == 'p';
      assert w[j] != 'p';
    }
  }

  /** An occurrence past `a + t` is an occurrence in `r`. */
  lemma InSuffix(a: string, t: string, r: string, w: string, k: int)
    requires OccursAt(a + t + r, w, k) && k >= |a| + |t|
    ensures OccursAt(r, w, k - |a| - |t|)
  {
    var s := a + t + r;
    assert s[k..k + |w|] == r[k - |a| - |t|..k - |a| - |t| + |w|];
  }

  /** `public` occurs nowhere in `lp + "preview" + lr` when neither `lp` nor
      `lr` holds it. */
  lemma NoPublicAroundPreview(lp: string, lr: string)
    requires !Contains(lp, "public") && !Contains(lr, "public")
    ensures !Contains(lp + "preview" + lr, "public")
  {
    var s := lp + "preview" + lr;
    forall k | 0 <= k < |s| ensures !OccursAt(s, "public", k) {
      if k < |lp| {
        NotInPrefix(lp, "preview", lr, "public", k);
      } else if k >= |lp| + 7 {
        if OccursAt(s, "public", k) {
          InSuffix(lp, "preview", lr, "public", k);
        }
      } else if k + 6 <= |s| {
        if k == |lp| {
          assert s[k..k + 6][1] == s[k + 1] == 'r';
        } else {
          assert s[k..k + 6][0] == s[k] == "preview"[k - |lp|];
        }
      }
    }
  }

  lemma CoreNameAt(coreName: string, baseName: string, start: nat, suffix: string)
    requires InstanceStart(ToLower(coreName)) == start <= |coreName| && coreName[start..] == suffix
    ensures CoreName(coreName, baseName, true) == Some(baseName + suffix)
  {
  }

  lemma ConcatSlice(a: string, b: string, c: string, d: string)
    ensures (a + b + c)[|a|..] == b + c
    ensures d + (b + c) == d + b + c
  {
  }

  lemma LowerConcat(a: string, b: string, c: string)
    ensures ToLower(a + b + c) == ToLower(a) + ToLower(b) + ToLower(c)
  {
  }

  /** The instance after a prefix that does not hold it is found right
      after the prefix. */
  lemma InstanceAfterPrefix(lp: string, target: string, lr: string)
    requires target == "public" || target == "preview"
    requires !Contains(lp, target)
    requires target == "preview" ==> !Contains(lp, "public") && !Contains(lr, "public")
    ensures InstanceStart(lp + target + lr) == |lp|
  {
    var lower := lp + target + lr;
    forall k | 0 <= k < |lp| ensures !OccursAt(lower, target, k) {
      NotInPrefix(lp, target, lr, target, k);
    }
    assert lower[|lp|..|lp| + |target|] == target;
    FirstOccurrence(lower, target, |lp|);
    if target == "preview" {
      NoPublicAroundPreview(lp, lr);
    }
  }

  /** A core named `<prefix>Public<rest>` or `<prefix>Preview<rest>` gives the
      base name followed by the instance and the rest (`productPublic_fr`
      gives `rulePublic_fr` for the base name `rule`), when the prefix holds
      no earlier instance word in any case and, for `Preview`, the rest holds
      no `public`. */
  lemma InstanceCoreName(prefix: string, instance: string, rest: string, baseName: string)
    requires instance == "Public" || instance == "Preview"
    requires !Contains(ToLower(prefix), ToLower(instance))
    requires instance == "Preview" ==> !Contains(ToLower(prefix), "public") && !Contains(ToLower(rest), "public")
    ensures CoreName(prefix + instance + rest, baseName, true) == Some(baseName + instance + rest)
  {
    var coreName := prefix + instance + rest;
    var target := if instance == "Public" then "public" else "preview";
    assert ToLower(instance) == target;
    LowerConcat(prefix, instance, rest);
    InstanceAfterPrefix(ToLower(prefix), target, ToLower(rest));
    ConcatSlice(prefix, instance, rest, baseName);
    CoreNameAt(coreName, baseName, |prefix|, instance + rest);
  }

  // ---------------------------------------------------------------------
  // Exact matches

  /** `isExactMatch`: the rule query is between brackets. */
  function IsExactMatch(query: Option<string>): (r: bool)
    ensures r <==> query.Some? && |query.value| >= 2 && query.value[0] == '[' && query.value[|query.value| - 1] == ']'
  {
    if query.Some? && StartsWith(query.value, "[") && EndsWith(query.value, "]") then
      var q := query.value;
      assert q[..1][0] == q[0] && q[|q| - 1..][0] == q[|q| - 1];
      true
    else
      assert query.Some? && |query.value| >= 2 ==>
        query.value[..1] == [query.value[0]] && query.value[|query.value| - 1..] == [query.value[|query.value| - 1]];
      false
  }

  /** `filterExactMatch(q, rule)`: a bracketed rule query matches only a `q`
      equal to it without the brackets, ignoring case; any other rule query
      matches every `q`. */
  function FilterExactMatch(q: string, ruleQuery: Option<string>): (r: bool)
    ensures !IsExactMatch(ruleQuery) ==> r
    ensures IsExactMatch(ruleQuery) ==> (r <==> ToLower(ruleQuery.value[1..|ruleQuery.value| - 1]) == ToLower(q))
  {
    if IsExactMatch(ruleQuery) then
      var targetQuery := ToLower(ruleQuery.value[1..|ruleQuery.value| - 1]);
      targetQuery == ToLower(q)
    else true
  }

  lemma LowerOfUpper(s: string)
    ensures ToLower(ToUpper(s)) == ToLower(s)
  {
  }

  /** A bracketed rule query matches its own text in any case, and no text
      of another length. */
  lemma ExactMatchOfBracketed(q: string, target: string)
    ensures FilterExactMatch(q, Some("[" + target + "]")) <==> ToLower(q) == ToLower(target)
    ensures FilterExactMatch(ToUpper(target), Some("[" + target + "]"))
    ensures |q| != |target| ==> !FilterExactMatch(q, Some("[" + target + "]"))
  {
    var b := "[" + target + "]";
    assert b[1..|b| - 1] == target;
    LowerOfUpper(target);
  }

  // ---------------------------------------------------------------------
  // Filter queries

  /** `field:value`. */
  function Clause(field: string, value: string): string {
    field + ":" + value
  }

  /** The rules for any value of the field or for one of `values`: the
      wildcard clause and one clause per value, joined by ` OR `. */
  function AnyOf(field: string, values: seq<string>): (r: string)
    ensures StartsWith(r, Clause(field, Wildcard))
  {
    var clauses := [Clause(field, Wildcard)] + seq(|values|, k requires 0 <= k < |values| => Clause(field, values[k]));
    JoinHead(clauses, " OR ");
    Join(clauses, " OR ")
  }

  /** One more value adds one more clause at the end. */
  lemma AnyOfSnoc(field: string, values: seq<string>, value: string)
    ensures AnyOf(field, values + [value]) == AnyOf(field, values) + " OR " + Clause(field, value)
  {
    var before := [Clause(field, Wildcard)] + seq(|values|, k requires 0 <= k < |values| => Clause(field, values[k]));
    var after := [Clause(field, Wildcard)] + seq(|values| + 1, k requires 0 <= k < |values| + 1 => Clause(field, (values + [value])[k]));
    assert after == before + [Clause(field, value)];
    JoinSnoc(before, Clause(field, value), " OR ");
  }

  /** The one-value filter written out. */
  lemma AnyOfOne(field: string, value: string)
    ensures AnyOf(field, [value]) == Clause(field, Wildcard) + " OR " + Clause(field, value)
  {
    AnyOfSnoc(field, [], value);
    assert [] + [value] == [value];
  }

  /** `StringUtils.isNotBlank`. */
  predicate NotBlank(s: Option<string>) {
    s.Some? && !IsBlank(s.value)
  }

  /** `getCategoryFilter`: rules for any category, or for the request's
      category token when it is not blank. */
  function CategoryFilter(categoryToken: Option<string>): (r: string)
    ensures !NotBlank(categoryToken) ==> r == AnyOf(FieldCategory, [])
    ensures NotBlank(categoryToken) ==> r == AnyOf(FieldCategory, [categoryToken.value])
  {
    var filter := Clause(FieldCategory, Wildcard);
    if NotBlank(categoryToken) then
      AnyOfOne(FieldCategory, categoryToken.value);
      filter + " OR " + Clause(FieldCategory, categoryToken.value)
    else filter
  }

  /** `getBrandFilter`: rules for any brand, or for the request's brand when
      it is not blank. */
  function BrandFilter(brandId: Option<string>): (r: string)
    ensures !NotBlank(brandId) ==> r == AnyOf(FieldBrandId, [])
    ensures NotBlank(brandId) ==> r == AnyOf(FieldBrandId, [brandId.value])
  {
    var filter := Clause(FieldBrandId, Wildcard);
    if NotBlank(brandId) then
      AnyOfOne(FieldBrandId, brandId.value);
      filter + " OR " + Clause(FieldBrandId, brandId.value)
    else filter
  }

  /** `getSiteFilter`: rules for any site or for one of the request's sites,
      blank ones included. */
  method SiteFilter(sites: Option<seq<string>>) returns (r: string)
    ensures r == AnyOf(FieldSiteId, sites.GetOr([]))
  {
    r := Clause(FieldSiteId, Wildcard);
    if sites.None? {
      return;
    }
    var values := sites.value;
    for i := 0 to |values|
      invariant r == AnyOf(FieldSiteId, values[..i])
    {
      AnyOfSnoc(FieldSiteId, values[..i], values[i]);
      assert values[..i + 1] == values[..i] + [values[i]];
      r := r + " OR " + Clause(FieldSiteId, values[i]);
    }
    assert values[..|values|] == values;
  }

  /** `getSubTargetFilter`: rules for any sub-target or for the request's:
      outlet or retail. */
  function SubTargetFilter(isOutletPage: bool): (r: string)
    ensures r == AnyOf(FieldSubTarget, [if isOutletPage then SubTargetOutlet else SubTargetRetail])
  {
    var subTarget := if isOutletPage then SubTargetOutlet else SubTargetRetail;
    AnyOfOne(FieldSubTarget, subTarget);
    Clause(FieldSubTarget, Wildcard) + " OR " + Clause(FieldSubTarget, subTarget)
  }

  /** Some filter query of the request selects closeouts. */
  predicate IsOutlet(filterQueries: Option<seq<string>>) {
    filterQueries.Some? && exists k :: 0 <= k < |filterQueries.value| && StartsWith(filterQueries.value[k], CloseoutFilter)
  }

  /** `isOutletRequest`: the first filter query selecting closeouts ends the
      search; without filter queries the request is not an outlet one. */
  method IsOutletRequest(filterQueries: Option<seq<string>>) returns (r: bool)
    ensures r <==> IsOutlet(filterQueries)
  {
    if filterQueries.None? {
      return false;
    }
    var fqs := filterQueries.value;
    for i := 0 to |fqs|
      invariant forall k :: 0 <= k < i ==> !StartsWith(fqs[k], CloseoutFilter)
    {
      if StartsWith(fqs[i], CloseoutFilter) {
        return true;
      }
    }
    return false;
  }

  /** `RuleManagerComponent.PageType`. */
  datatype PageType = Search | Category | Rule

  function PageTypeName(t: PageType): string {
    match t
    case Search => "search"
    case Category => "category"
    case Rule => "rule"
  }

  /** The message `Enum.valueOf` gives for a value no page type has. */
  const NoPageType: string := "No enum constant org.apache.solr.handler.component.RuleManagerComponent.PageType."

  /** `getPageType`: null without the parameter; a value that names no page
      type is an illegal argument. */
  function GetPageType(pageType: Option<string>): (r: Result<Option<PageType>>)
    ensures pageType.None? ==> r == Ok(None)
    ensures r.Ok? && r.value.Some? ==> pageType == Some(PageTypeName(r.value.value))
    ensures forall t :: pageType == Some(PageTypeName(t)) ==> r == Ok(Some(t))
    ensures pageType.Some? && r.Err? ==> r == Err(IllegalArgument(NoPageType + pageType.value))
  {
    if pageType.None? then Ok(None)
    else if pageType.value == "search" then Ok(Some(Search))
    else if pageType.value == "category" then Ok(Some(Category))
    else if pageType.value == "rule" then Ok(Some(Rule))
    else Err(IllegalArgument(NoPageType + pageType.value))
  }

  /** `getTargetFilter`: search pages need a non-empty `q`, which is
      escaped and boosted; other pages select the category page rules.
      `escape` stands for `ClientUtils.escapeQueryChars`. */
  function TargetFilter(pageType: PageType, q: Option<string>, escape: string -> string): (r: Result<string>)
    ensures r.Err? <==> pageType == Search && (q.None? || q.value == [])
    ensures r.Ok? && pageType == Search ==>
      r.value == "(target:allpages OR target:searchpages) AND ((" + escape(q.value) + ")^2 OR query:__all__)"
    ensures pageType != Search ==> r == Ok("target:allpages OR target:categorypages")
  {
    if pageType == Search then
      if q.None? || q.value == [] then Err(IOError("Cannot process search request because the 'q' param is empty."))
      else Ok("(target:allpages OR target:searchpages) AND ((" + escape(q.value) + ")^2 OR query:__all__)")
    else Ok("target:allpages OR target:categorypages")
  }

  /** The filter on rule start and end dates, rounded to the day. */
  const DateFilter: string :=
    "-(((startDate:[* TO *]) AND -(startDate:[* TO NOW/DAY+1DAY])) OR (endDate:[* TO *] AND -endDate:[NOW/DAY+1DAY TO *]))"

  /** The request parameters the rules query reads. */
  datatype Request = Request(
    catalogId: Option<string>,
    q: Option<string>,
    categoryFilter: Option<string>,
    siteIds: Option<seq<string>>,
    brandId: Option<string>,
    filterQueries: Option<seq<string>>)

  datatype Order = Asc | Desc
  datatype SortClause = SortClause(field: string, order: Order)

  /** The query sent to the rules core. */
  datatype RulesQuery = RulesQuery(
    query: string,
    rows: int,
    fields: seq<string>,
    sorts: seq<SortClause>,
    filterQueries: seq<string>)

  /** The rules query for a request: none without a catalog; otherwise all
      rules, filtered by target, category, site, brand, sub-target, catalog
      and date, in that order, sorted by priority, score and id. */
  function RulesQueryOf(request: Request, pageType: PageType, escape: string -> string): (r: Result<Option<RulesQuery>>)
    ensures request.catalogId.None? ==> r == Ok(None)
    ensures request.catalogId.Some? ==> (r.Err? <==> TargetFilter(pageType, request.q, escape).Err?)
    ensures r.Ok? && r.value.Some? ==> r.value.value.query == "*:*" && r.value.value.rows == PageSize
    ensures r.Ok? && r.value.Some? ==> (
      var fq := r.value.value.filterQueries;
      && |fq| == 7
      && fq[0] == TargetFilter(pageType, request.q, escape).value
      && fq[1] == AnyOf(FieldCategory, if NotBlank(request.categoryFilter) then [request.categoryFilter.value] else [])
      && fq[2] == AnyOf(FieldSiteId, request.siteIds.GetOr([]))
      && fq[3] == AnyOf(FieldBrandId, if NotBlank(request.brandId) then [request.brandId.value] else [])
      && fq[4] == AnyOf(FieldSubTarget, [if IsOutlet(request.filterQueries) then SubTargetOutlet else SubTargetRetail])
      && fq[5] == AnyOf(FieldCatalogId, [request.catalogId.value])
      && fq[6] == DateFilter)
  {
    if request.catalogId.None? then Ok(None)
    else
      match TargetFilter(pageType, request.q, escape)
      case Err(e) => Err(e)
      case Ok(target) =>
        AnyOfOne(FieldCatalogId, request.catalogId.value);
        Ok(Some(RulesQuery("*:*", PageSize,
          ["id", "boostFunction", "facetField", "combineMode", "query", "category"],
          [SortClause("sortPriority", Asc), SortClause("score", Asc), SortClause("id", Asc)],
          [target,
           CategoryFilter(request.categoryFilter),
           AnyOf(FieldSiteId, request.siteIds.GetOr([])),
           BrandFilter(request.brandId),
           SubTargetFilter(IsOutlet(request.filterQueries)),
           Clause(FieldCatalogId, Wildcard) + " OR " + Clause(FieldCatalogId, request.catalogId.value),
           DateFilter])))
  }

  /** `getRulesQuery`. */
  method GetRulesQuery(request: Request, pageType: PageType, escape: string -> string) returns (r: Result<Option<RulesQuery>>)
    ensures r == RulesQueryOf(request, pageType, escape)
  {
    if request.catalogId.None? {
      return Ok(None);
    }
    var target := TargetFilter(pageType, request.q, escape);
    if target.Err? {
      return Err(target.error);
    }
    var site := SiteFilter(request.siteIds);
    var isOutlet := IsOutletRequest(request.filterQueries);
    var catalog := Clause(FieldCatalogId, Wildcard) + " OR " + Clause(FieldCatalogId, request.catalogId.value);
    return Ok(Some(RulesQuery("*:*", PageSize,
      ["id", "boostFunction", "facetField", "combineMode", "query", "category"],
      [SortClause("sortPriority", Asc), SortClause("score", Asc), SortClause("id", Asc)],
      [target.value, CategoryFilter(request.categoryFilter), site, BrandFilter(request.brandId),
       SubTargetFilter(isOutlet), catalog, DateFilter])));
  }

  // ---------------------------------------------------------------------
  // Sort merge

  /** `SolrQuery.ORDER.valueOf`. */
  function ParseOrder(order: string): (r: Result<Order>)
    ensures r.Ok? <==> order == "asc" || order == "desc"
    ensures r == Ok(Asc) <==> order == "asc"
    ensures r.Err? ==> r.error == IllegalArgument("No enum constant org.apache.solr.client.solrj.SolrQuery.ORDER." + order)
  {
    if order == "asc" then Ok(Asc)
    else if order == "desc" then Ok(Desc)
    else Err(IllegalArgument("No enum constant org.apache.solr.client.solrj.SolrQuery.ORDER." + order))
  }

  function Fields(clauses: seq<SortClause>): (r: seq<string>)
    ensures |r| == |clauses| && forall k :: 0 <= k < |r| ==> r[k] == clauses[k].field
  {
    seq(|clauses|, k requires 0 <= k < |clauses| => clauses[k].field)
  }

  /** The incoming sort specs (`field order`, split on spaces) as clauses,
      in order: `score` and fields already seen are dropped. A spec without
      two parts fails on `parts[1]`, an order other than `asc` or `desc` on
      `ORDER.valueOf`, which is only reached for a field that is kept. */
  function IncomingSorts(sortFields: seq<string>): (r: Result<seq<SortClause>>)
    ensures r.Ok? ==> forall k :: 0 <= k < |r.value| ==> r.value[k].field != "score"
    ensures r.Ok? ==> Distinct(Fields(r.value))
    decreases |sortFields|
  {
    if sortFields == [] then Ok([])
    else
      match IncomingSorts(sortFields[..|sortFields| - 1])
      case Err(e) => Err(e)
      case Ok(clauses) =>
        var parts := Split(sortFields[|sortFields| - 1], {' '});
        if |parts| < 2 then Err(IndexOutOfBounds)
        else if parts[0] == "score" || parts[0] in Fields(clauses) then Ok(clauses)
        else
          match ParseOrder(parts[1])
          case Err(e) => Err(e)
          case Ok(order) =>
            var r := clauses + [SortClause(parts[0], order)];
            assert Fields(r) == Fields(clauses) + [parts[0]];
            Ok(r)
  }

  /** The field of a sort spec, and its order (empty when missing). */
  function SpecField(spec: string): string {
    var parts := Split(spec, {' '});
    if parts == [] then [] else parts[0]
  }

  function SpecOrder(spec: string): string {
    var parts := Split(spec, {' '});
    if |parts| < 2 then [] else parts[1]
  }

  /** When the merge succeeds, every spec had two parts. */
  lemma {:induction false} IncomingSortsParts(sortFields: seq<string>)
    requires IncomingSorts(sortFields).Ok?
    ensures forall j :: 0 <= j < |sortFields| ==> |Split(sortFields[j], {' '})| >= 2
    decreases |sortFields|
  {
    if sortFields != [] {
      var init := sortFields[..|sortFields| - 1];
      IncomingSortsParts(init);
      assert forall j :: 0 <= j < |init| ==> init[j] == sortFields[j];
    }
  }

  /** When the merge succeeds, every field other than `score` is sorted on. */
  lemma {:induction false} IncomingSortsCovers(sortFields: seq<string>)
    requires IncomingSorts(sortFields).Ok?
    ensures forall j :: 0 <= j < |sortFields| ==> |Split(sortFields[j], {' '})| >= 2
    ensures forall j :: 0 <= j < |sortFields| && SpecField(sortFields[j]) != "score" ==>
      SpecField(sortFields[j]) in Fields(IncomingSorts(sortFields).value)
    decreases |sortFields|
  {
    IncomingSortsParts(sortFields);
    if sortFields != [] {
      var init := sortFields[..|sortFields| - 1];
      IncomingSortsStep(sortFields);
      IncomingSortsCovers(init);
      var r := IncomingSorts(sortFields).value;
      forall j | 0 <= j < |sortFields| && SpecField(sortFields[j]) != "score"
        ensures SpecField(sortFields[j]) in Fields(r)
      {
        if j < |init| {
          assert sortFields[j] == init[j];
        }
      }
    }
  }

  /** A successful merge extends the merge of all specs but the last, and
      sorts on the last spec's field unless it is `score`. */
  lemma IncomingSortsStep(sortFields: seq<string>)
    requires sortFields != [] && IncomingSorts(sortFields).Ok?
    ensures IncomingSorts(sortFields[..|sortFields| - 1]).Ok?
    ensures forall f :: f in Fields(IncomingSorts(sortFields[..|sortFields| - 1]).value) ==> f in Fields(IncomingSorts(sortFields).value)
    ensures var last := sortFields[|sortFields| - 1];
      SpecField(last) != "score" ==> SpecField(last) in Fields(IncomingSorts(sortFields).value)
  {
    var init, last := sortFields[..|sortFields| - 1], sortFields[|sortFields| - 1];
    var clauses := IncomingSorts(init).value;
    var r := IncomingSorts(sortFields).value;
    var parts := Split(last, {' '});
    assert |parts| >= 2 && SpecField(last) == parts[0];
    if parts[0] == "score" || parts[0] in Fields(clauses) {
      assert r == clauses;
    } else {
      var clause := SortClause(parts[0], ParseOrder(parts[1]).value);
      assert r == clauses + [clause];
      FieldsSnoc(clauses, clause);
    }
  }

  lemma FieldsSnoc(clauses: seq<SortClause>, clause: SortClause)
    ensures Fields(clauses + [clause]) == Fields(clauses) + [clause.field]
  {
  }

  /** The first spec naming `field`, or -1. */
  function FieldIndex(specs: seq<string>, field: string): (r: int)
    ensures -1 <= r < |specs|
    ensures r >= 0 ==> SpecField(specs[r]) == field && forall i :: 0 <= i < r ==> SpecField(specs[i]) != field
    ensures r == -1 ==> forall i :: 0 <= i < |specs| ==> SpecField(specs[i]) != field
  {
    if specs == [] then -1
    else if SpecField(specs[0]) == field then 0
    else
      var r := FieldIndex(specs[1..], field);
      assert forall i :: 0 < i < |specs| ==> specs[i] == specs[1..][i - 1];
      if r < 0 then -1 else r + 1
  }

  /** Every clause comes from the first spec naming its field and has that
      spec's order. */
  predicate FromSpecs(specs: seq<string>, clauses: seq<SortClause>) {
    forall k :: 0 <= k < |clauses| ==>
      FieldIndex(specs, clauses[k].field) >= 0
      && ParseOrder(SpecOrder(specs[FieldIndex(specs, clauses[k].field)])) == Ok(clauses[k].order)
  }

  /** One more spec leaves the first spec of an already named field alone. */
  lemma FieldIndexSnoc(init: seq<string>, last: string, field: string)
    ensures FieldIndex(init, field) >= 0 ==> FieldIndex(init + [last], field) == FieldIndex(init, field)
    ensures FieldIndex(init, field) == -1 && SpecField(last) == field ==> FieldIndex(init + [last], field) == |init|
  {
    var specs := init + [last];
    var r, r' := FieldIndex(init, field), FieldIndex(specs, field);
    assert forall i :: 0 <= i < |init| ==> specs[i] == init[i];
    if r >= 0 {
      assert SpecField(specs[r]) == field;
    } else if SpecField(last) == field {
      assert SpecField(specs[|init|]) == field;
    }
  }

  lemma FromSpecsSnoc(init: seq<string>, last: string, clauses: seq<SortClause>)
    requires FromSpecs(init, clauses)
    ensures FromSpecs(init + [last], clauses)
  {
    var specs := init + [last];
    forall k | 0 <= k < |clauses|
      ensures FieldIndex(specs, clauses[k].field) >= 0
      ensures ParseOrder(SpecOrder(specs[FieldIndex(specs, clauses[k].field)])) == Ok(clauses[k].order)
    {
      FieldIndexSnoc(init, last, clauses[k].field);
      assert specs[FieldIndex(init, clauses[k].field)] == init[FieldIndex(init, clauses[k].field)];
    }
  }

  lemma FromSpecsAppend(init: seq<string>, last: string, clauses: seq<SortClause>, order: Order)
    requires FromSpecs(init, clauses)
    requires FieldIndex(init, SpecField(last)) == -1
    requires ParseOrder(SpecOrder(last)) == Ok(order)
    ensures FromSpecs(init + [last], clauses + [SortClause(SpecField(last), order)])
  {
    var specs, r := init + [last], clauses + [SortClause(SpecField(last), order)];
    FromSpecsSnoc(init, last, clauses);
    FieldIndexSnoc(init, last, SpecField(last));
    forall k | 0 <= k < |r|
      ensures FieldIndex(specs, r[k].field) >= 0
      ensures ParseOrder(SpecOrder(specs[FieldIndex(specs, r[k].field)])) == Ok(r[k].order)
    {
      if k < |clauses| {
        assert r[k] == clauses[k];
      }
    }
  }

  /** When the merge succeeds, every clause comes from the first spec naming
      its field, with that spec's order. */
  lemma {:induction false} IncomingSortsFromSpecs(sortFields: seq<string>)
    requires IncomingSorts(sortFields).Ok?
    ensures FromSpecs(sortFields, IncomingSorts(sortFields).value)
    decreases |sortFields|
  {
    if sortFields != [] {
      var init, last := sortFields[..|sortFields| - 1], sortFields[|sortFields| - 1];
      assert sortFields == init + [last];
      IncomingSortsFromSpecs(init);
      IncomingSortsCovers(init);
      var clauses := IncomingSorts(init).value;
      var parts := Split(last, {' '});
      if parts[0] == "score" || parts[0] in Fields(clauses) {
        FromSpecsSnoc(init, last, clauses);
      } else {
        forall i | 0 <= i < |init| ensures SpecField(init[i]) != SpecField(last) {
        }
        FromSpecsAppend(init, last, clauses, ParseOrder(parts[1]).value);
      }
    } else {
      assert IncomingSorts(sortFields) == Ok([]);
    }
  }

  /** The sort of the augmented request, boost rules aside: out-of-stock
      products last, then the incoming sorts, then score and index version
      as tie breakers. */
  function MergedSortOf(sortFields: Option<seq<string>>): (r: Result<seq<SortClause>>)
    ensures r.Ok? ==> |r.value| >= 3 && r.value[0] == SortClause(FieldIsToos, Asc)
    ensures r.Ok? ==> r.value[|r.value| - 2..] == [SortClause("score", Desc), SortClause("_version_", Desc)]
    ensures sortFields.None? ==> r == Ok([SortClause(FieldIsToos, Asc), SortClause("score", Desc), SortClause("_version_", Desc)])
    ensures sortFields.Some? ==> (r.Ok? <==> IncomingSorts(sortFields.value).Ok?)
    ensures sortFields.Some? && r.Ok? ==> r.value[1..|r.value| - 2] == IncomingSorts(sortFields.value).value
  {
    var incoming: Result<seq<SortClause>> := if sortFields.None? then Ok([]) else IncomingSorts(sortFields.value);
    match incoming
    case Err(e) => Err(e)
    case Ok(clauses) =>
      var r := [SortClause(FieldIsToos, Asc)] + clauses + [SortClause("score", Desc), SortClause("_version_", Desc)];
      assert r[1..|r| - 2] == clauses;
      assert clauses == [] ==> r == [SortClause(FieldIsToos, Asc), SortClause("score", Desc), SortClause("_version_", Desc)];
      Ok(r)
  }

  /** The sort merge of `prepare`; an exception abandons the request. */
  method MergeSorts(sortFields: Option<seq<string>>) returns (r: Result<seq<SortClause>>)
    ensures r == MergedSortOf(sortFields)
  {
    var sorts: seq<SortClause> := [];
    if sortFields.Some? {
      var specs := sortFields.value;
      var seen: set<string> := {};
      for i := 0 to |specs|
        invariant IncomingSorts(specs[..i]) == Ok(sorts)
        invariant forall f :: f in seen <==> f in Fields(sorts)
      {
        assert specs[..i + 1][..i] == specs[..i];
        var parts := Split(specs[i], {' '});
        if |parts| < 2 {
          IncomingSortsStops(specs, i + 1);
          return Err(IndexOutOfBounds);
        }
        var fieldName, order := parts[0], parts[1];
        if !(fieldName == "score" || fieldName in seen) {
          var parsed := ParseOrder(order);
          if parsed.Err? {
            IncomingSortsStops(specs, i + 1);
            return Err(parsed.error);
          }
          assert Fields(sorts + [SortClause(fieldName, parsed.value)]) == Fields(sorts) + [fieldName];
          sorts := sorts + [SortClause(fieldName, parsed.value)];
          seen := seen + {fieldName};
        }
      }
      assert specs[..|specs|] == specs;
    }
    return Ok([SortClause(FieldIsToos, Asc)] + sorts + [SortClause("score", Desc), SortClause("_version_", Desc)]);
  }

  /** Once a spec has failed, the later ones are not read. */
  lemma {:induction false} IncomingSortsStops(sortFields: seq<string>, i: nat)
    requires i <= |sortFields| && IncomingSorts(sortFields[..i]).Err?
    ensures IncomingSorts(sortFields) == IncomingSorts(sortFields[..i])
    decreases |sortFields| - i
  {
    if i < |sortFields| {
      var init := sortFields[..|sortFields| - 1];
      assert init[..i] == sortFields[..i];
      IncomingSortsStops(init, i);
    } else {
      assert sortFields[..i] == sortFields;
    }
  }
}
