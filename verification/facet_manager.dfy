/** `FacetManager`: the registry of the facets of a search, keyed by field
    name in insertion order, and the paths and bread crumbs the search
    response offers for selecting and unselecting facet values. */
module FacetManagers {
  import opened Wrappers
  import opened Strings
  import opened FilterQueries
  import opened Utils

  const CategoryField: string := "category"
  /** `SearchConstants.CATEGORY_SEPARATOR`. */
  const CategorySeparator: char := '.'
  const DefaultMinBuckets: int := 2

  /** The properties of a facet repository item the manager reads. */
  datatype Facet = Facet(
    fieldName: Option<string>,
    name: Option<string>,
    isMultiSelect: Option<bool>,
    minBuckets: Option<int>,
    uiType: Option<string>)

  class FacetManager {
    /** The keys of the `facetMap` LinkedHashMap, in insertion order. */
    var keys: seq<Option<string>>
    var facets: map<Option<string>, Facet>

    ghost predicate Valid()
      reads this
    {
      Distinct(keys) && forall n :: n in facets <==> n in keys
    }

    constructor()
      ensures Valid() && keys == [] && facets == map[]
    {
      keys := [];
      facets := map[];
    }

    /** `addFacet`: the facet is registered under its field name; a later
        facet for the same field replaces the earlier one and keeps its
        place. */
    method AddFacet(facet: Facet)
      requires Valid()
      modifies this
      ensures Valid()
      ensures facets == old(facets)[facet.fieldName := facet]
      ensures facet.fieldName in old(facets) ==> keys == old(keys)
      ensures facet.fieldName !in old(facets) ==> keys == old(keys) + [facet.fieldName]
    {
      var fieldName := facet.fieldName;
      if fieldName !in facets {
        keys := keys + [fieldName];
      }
      facets := facets[fieldName := facet];
    }

    /** `clear`. */
    method Clear()
      modifies this
      ensures Valid() && keys == [] && facets == map[]
    {
      keys := [];
      facets := map[];
    }

    /** `getFacetItem`: null for a field with no facet. */
    function GetFacetItem(fieldName: Option<string>): (r: Option<Facet>)
      reads this
      ensures r.Some? <==> fieldName in facets
      ensures r.Some? ==> r.value == facets[fieldName]
    {
      if fieldName in facets then Some(facets[fieldName]) else None
    }

    /** `facetFieldNames`: the field names, in the order they were first added. */
    function FacetFieldNames(): (r: seq<Option<string>>)
      reads this
      requires Valid()
      ensures Distinct(r) && forall n :: n in r <==> n in facets
    {
      keys
    }

    /** `getFacetName`: the facet's name, or the field name without a facet. */
    function FacetName(fieldName: string): (r: Option<string>)
      reads this
      ensures Some(fieldName) !in facets ==> r == Some(fieldName)
      ensures Some(fieldName) in facets ==> r == facets[Some(fieldName)].name
    {
      match GetFacetItem(Some(fieldName))
      case None => Some(fieldName)
      case Some(item) => item.name
    }

    /** `getFacetMinBuckets`: two unless the facet sets its own. */
    function FacetMinBuckets(fieldName: string): (r: int)
      reads this
      ensures Some(fieldName) in facets && facets[Some(fieldName)].minBuckets.Some? ==>
        r == facets[Some(fieldName)].minBuckets.value
      ensures !(Some(fieldName) in facets && facets[Some(fieldName)].minBuckets.Some?) ==> r == DefaultMinBuckets
    {
      var item := GetFacetItem(Some(fieldName));
      if item.Some? && item.value.minBuckets.Some? then item.value.minBuckets.value else DefaultMinBuckets
    }

    /** `isMultiSelectFacet`: only a facet flagged multi-select is. */
    function IsMultiSelectFacet(fieldName: string): (r: bool)
      reads this
      ensures r <==> Some(fieldName) in facets && facets[Some(fieldName)].isMultiSelect == Some(true)
    {
      var item := GetFacetItem(Some(fieldName));
      item.Some? && item.value.isMultiSelect == Some(true)
    }

    /** `getFacetUIType`: null without a facet. */
    function FacetUIType(fieldName: string): (r: Option<string>)
      reads this
      ensures Some(fieldName) !in facets ==> r == None
      ensures Some(fieldName) in facets ==> r == facets[Some(fieldName)].uiType
    {
      match GetFacetItem(Some(fieldName))
      case None => None
      case Some(item) => item.uiType
    }
  }

  /** Adding facets for fields already registered never reorders the
      registry, and the last facet added for a field is the one kept. */
  method AddFacetTwice(manager: FacetManager, first: Facet, second: Facet)
    requires manager.Valid() && first.fieldName == second.fieldName
    modifies manager
    ensures manager.Valid()
    ensures manager.GetFacetItem(first.fieldName) == Some(second)
    ensures first.fieldName in old(manager.facets) ==> manager.keys == old(manager.keys)
    ensures first.fieldName !in old(manager.facets) ==> manager.keys == old(manager.keys) + [first.fieldName]
  {
    manager.AddFacet(first);
    manager.AddFacet(second);
  }

  // ---------------------------------------------------------------------
  // Count names and paths

  /** `getCountName(count, prefix)`: the name without the prefix when it
      starts with it, else the name itself. */
  function CountName(name: string, prefix: Option<string>): (r: string)
    ensures prefix.Some? && StartsWith(name, prefix.value) ==> prefix.value + r == name
    ensures !(prefix.Some? && StartsWith(name, prefix.value)) ==> r == name
  {
    if prefix.Some? && StartsWith(name, prefix.value) then
      assert name == prefix.value + name[|prefix.value|..];
      name[|prefix.value|..]
    else name
  }

  /** Stripping the prefix a name was built with gives back the rest. */
  lemma CountNameOfPrefixed(prefix: string, rest: string)
    ensures CountName(prefix + rest, Some(prefix)) == rest
  {
    assert (prefix + rest)[..|prefix|] == prefix;
  }

  /** The filter a count stands for selects an applied filter of its own
      field with its value, or, for a category count, any category filter. */
  predicate Selects(fq: FilterQuery, name: string, fieldName: string) {
    (fq.fieldName == fieldName && UnescapedExpression(fq) == name)
    || (fieldName == CategoryField && fq.fieldName == CategoryField)
  }

  /** The last applied filter the count selects. */
  function SelectedFilter(fqs: seq<FilterQuery>, name: string, fieldName: string): (r: Option<FilterQuery>)
    ensures r.None? <==> forall k :: 0 <= k < |fqs| ==> !Selects(fqs[k], name, fieldName)
    ensures r.Some? ==> r.value in fqs && Selects(r.value, name, fieldName)
    ensures fqs != [] && Selects(fqs[|fqs| - 1], name, fieldName) ==> r == Some(fqs[|fqs| - 1])
  {
    if fqs == [] then None
    else
      var init, last := fqs[..|fqs| - 1], fqs[|fqs| - 1];
      assert forall k :: 0 <= k < |init| ==> init[k] == fqs[k];
      if Selects(last, name, fieldName) then Some(last) else SelectedFilter(init, name, fieldName)
  }

  /** `createPath(filterQueries, skip)` as a value. */
  function PathOf(filterQueries: Option<seq<FilterQuery>>, skip: Option<FilterQuery>): string {
    if filterQueries.None? then [] else Join(PathEntries(filterQueries.value, skip, None), [PathSeparator])
  }

  function Selected(filterQueries: Option<seq<FilterQuery>>, name: string, fieldName: string): Option<FilterQuery> {
    if filterQueries.None? then None else SelectedFilter(filterQueries.value, name, fieldName)
  }

  /** `getCountPath(name, fieldName, filterQuery, filterQueries)`: the path
      a facet count links to. A selected value of another facet than the
      category unselects it; otherwise the count's own filter is added after
      the applied ones (a selected category filter giving way to it). */
  function CountPathOf(name: string, fieldName: string, filterQuery: string, filterQueries: Option<seq<FilterQuery>>): (r: string)
    ensures Selected(filterQueries, name, fieldName).Some? && fieldName != CategoryField ==>
      r == PathOf(filterQueries, Selected(filterQueries, name, fieldName))
    ensures !(Selected(filterQueries, name, fieldName).Some? && fieldName != CategoryField) ==>
      var path := PathOf(filterQueries, Selected(filterQueries, name, fieldName));
      (IsBlank(path) ==> r == filterQuery) && (!IsBlank(path) ==> r == path + [PathSeparator] + filterQuery)
  {
    var selected := Selected(filterQueries, name, fieldName);
    var path := PathOf(filterQueries, selected);
    if selected.Some? && fieldName != CategoryField then path
    else if !IsBlank(path) then path + [PathSeparator] + filterQuery
    else filterQuery
  }

  /** `getCountPath`. */
  method GetCountPath(name: string, fieldName: string, filterQuery: string, filterQueries: Option<seq<FilterQuery>>)
    returns (r: string)
    ensures r == CountPathOf(name, fieldName, filterQuery, filterQueries)
  {
    var selectedFilterQuery: Option<FilterQuery> := None;
    if filterQueries.Some? {
      var fqs := filterQueries.value;
      for i := 0 to |fqs|
        invariant selectedFilterQuery == SelectedFilter(fqs[..i], name, fieldName)
      {
        assert fqs[..i + 1][..i] == fqs[..i];
        var query := fqs[i];
        if query.fieldName == fieldName && UnescapedExpression(query) == name {
          selectedFilterQuery := Some(query);
        } else if fieldName == CategoryField && query.fieldName == CategoryField {
          selectedFilterQuery := Some(query);
        }
      }
      assert fqs[..|fqs|] == fqs;
    }
    var path := CreatePath(filterQueries, selectedFilterQuery, None);
    if selectedFilterQuery.Some? && fieldName != CategoryField {
      return path;
    } else if !IsBlank(path) {
      return path + [PathSeparator] + filterQuery;
    } else {
      return filterQuery;
    }
  }

  /** Printed filters are never blank: they hold the `:` separator. */
  lemma {:induction false} PrintedNotBlank(fqs: seq<FilterQuery>)
    requires fqs != []
    ensures !IsBlank(Join(Printed(fqs), [PathSeparator]))
  {
    var parts := Printed(fqs);
    JoinHead(parts, [PathSeparator]);
    var j := Join(parts, [PathSeparator]);
    assert j[|fqs[0].fieldName|] == parts[0][|fqs[0].fieldName|] == Separator;
  }

  /** The filters without the one at `k`. */
  function Without(fqs: seq<FilterQuery>, k: int): seq<FilterQuery>
    requires 0 <= k < |fqs|
  {
    fqs[..k] + fqs[k + 1..]
  }

  /** The path skipping a filter that occurs once prints every other filter
      in order. */
  lemma {:induction false} PathWithout(fqs: seq<FilterQuery>, k: int)
    requires Distinct(fqs) && 0 <= k < |fqs|
    ensures PathEntries(fqs, Some(fqs[k]), None) == Printed(Without(fqs, k))
    decreases |fqs|
  {
    var tail := fqs[1..];
    assert forall i :: 0 <= i < |tail| ==> tail[i] == fqs[i + 1];
    if k == 0 {
      PathEntriesUnskipped(tail, Some(fqs[0]), None);
      assert Without(fqs, 0) == tail;
    } else {
      assert Distinct(tail);
      PathWithout(tail, k - 1);
      assert tail[k - 1] == fqs[k];
      assert Without(fqs, k) == [fqs[0]] + Without(tail, k - 1);
      assert Printed(Without(fqs, k)) == [ToString(fqs[0])] + Printed(Without(tail, k - 1));
    }
  }

  /** Clicking the count of a selected value (of a facet other than the
      category) unselects it: the path is the applied filters without it. */
  lemma CountPathUnselects(name: string, fieldName: string, filterQuery: string, fqs: seq<FilterQuery>, k: int)
    requires Distinct(fqs) && 0 <= k < |fqs| && fieldName != CategoryField
    requires Selects(fqs[k], name, fieldName)
    requires forall i :: 0 <= i < |fqs| && i != k ==> !Selects(fqs[i], name, fieldName)
    ensures CountPathOf(name, fieldName, filterQuery, Some(fqs)) == Join(Printed(Without(fqs, k)), [PathSeparator])
  {
    var selected := SelectedFilter(fqs, name, fieldName);
    assert selected == Some(fqs[k]) by {
      var i :| 0 <= i < |fqs| && fqs[i] == selected.value;
      assert i == k;
    }
    PathWithout(fqs, k);
  }

  /** Clicking the count of a value not selected adds its filter after the
      applied ones. */
  lemma CountPathAdds(name: string, fieldName: string, filterQuery: string, fqs: seq<FilterQuery>)
    requires forall i :: 0 <= i < |fqs| ==> !Selects(fqs[i], name, fieldName)
    ensures fqs == [] ==> CountPathOf(name, fieldName, filterQuery, Some(fqs)) == filterQuery
    ensures fqs != [] ==> CountPathOf(name, fieldName, filterQuery, Some(fqs)) == Join(Printed(fqs) + [filterQuery], [PathSeparator])
  {
    PathEntriesUnskipped(fqs, None, None);
    if fqs != [] {
      PrintedNotBlank(fqs);
      JoinSnoc(Printed(fqs), filterQuery, [PathSeparator]);
    }
  }

  /** Without applied filters a count links to its own filter. */
  lemma CountPathOfNone(name: string, fieldName: string, filterQuery: string)
    ensures CountPathOf(name, fieldName, filterQuery, None) == filterQuery
  {
  }

  // ---------------------------------------------------------------------
  // Bread crumbs

  datatype BreadCrumb = BreadCrumb(fieldName: string, expression: string, path: string)

  /** Each category preceded by the separator, as the buffer accumulates them. */
  function Dotted(categories: seq<string>): (r: string)
    ensures categories != [] ==> r != [] && r[0] == CategorySeparator
  {
    if categories == [] then []
    else Dotted(categories[..|categories| - 1]) + [CategorySeparator] + categories[|categories| - 1]
  }

  /** The separator and the base path, when the base path is not blank. */
  function BaseSuffix(basePath: string): string {
    if IsBlank(basePath) then [] else [PathSeparator] + basePath
  }

  /** The path that unselects the category at depth `k` (counted from the
      first category after the catalog): its parent's category filter, at
      level `k`, followed by the other applied filters. */
  function UnselectPath(categories: seq<string>, k: nat, basePath: string): string
    requires 2 + k < |categories|
  {
    var parent := if k == 0 then [] else "category:" + NatToString(k) + [CategorySeparator] + categories[1] + Dotted(categories[2..k + 2]);
    parent + BaseSuffix(basePath)
  }

  /** The crumbs of a category filter `level.catalog.cat1.cat2...`: one per
      category after the catalog, none when there is no such category. */
  function CategoryCrumbs(fq: FilterQuery, basePath: string): (r: seq<BreadCrumb>)
    ensures |Split(fq.expression, {CategorySeparator})| <= 2 ==> r == []
    ensures |Split(fq.expression, {CategorySeparator})| > 2 ==> |r| == |Split(fq.expression, {CategorySeparator})| - 2
    ensures forall k :: 0 <= k < |r| ==> (r[k].fieldName == fq.fieldName
      && r[k].expression == Unescape(Split(fq.expression, {CategorySeparator})[k + 2]))
  {
    var categories := Split(fq.expression, {CategorySeparator});
    if |categories| <= 2 then [] else CrumbsFrom(fq.fieldName, categories, basePath)
  }

  /** One crumb per category after the level and the catalog. */
  function CrumbsFrom(fieldName: string, categories: seq<string>, basePath: string): (r: seq<BreadCrumb>)
    requires |categories| >= 2
    ensures |r| == |categories| - 2
    ensures forall k :: 0 <= k < |r| ==>
      r[k] == BreadCrumb(fieldName, Unescape(categories[k + 2]), UnselectPath(categories, k, basePath))
  {
    seq(|categories| - 2, k requires 0 <= k < |categories| - 2 =>
      BreadCrumb(fieldName, Unescape(categories[k + 2]), UnselectPath(categories, k, basePath)))
  }

  /** A separator followed by the join of the parts is the dotted parts. */
  lemma {:induction false} DottedJoin(first: string, categories: seq<string>)
    ensures first + Dotted(categories) == Join([first] + categories, [CategorySeparator])
    decreases |categories|
  {
    if categories != [] {
      var init := categories[..|categories| - 1];
      DottedJoin(first, init);
      assert [first] + categories == ([first] + init) + [categories[|categories| - 1]];
      JoinSnoc([first] + init, categories[|categories| - 1], [CategorySeparator]);
    }
  }

  /** The unselect path of a deeper category starts with the category filter
      of its parent: the level, the catalog and the categories above it,
      joined by the separator. The top category's unselect path has no
      category filter, only the separator and the base path. */
  lemma UnselectPathParent(categories: seq<string>, k: nat, basePath: string)
    requires 2 + k < |categories|
    ensures k > 0 ==> (UnselectPath(categories, k, basePath)
      == "category:" + Join([NatToString(k)] + categories[1..k + 2], [CategorySeparator]) + BaseSuffix(basePath))
    ensures k == 0 ==> UnselectPath(categories, k, basePath) == BaseSuffix(basePath)
  {
    if k > 0 {
      var level, sep, tail := NatToString(k), [CategorySeparator], categories[1..k + 2];
      var dotted := Dotted(categories[2..k + 2]);
      assert categories[1] + dotted == Join(tail, sep) by {
        DottedJoin(categories[1], categories[2..k + 2]);
        assert [categories[1]] + categories[2..k + 2] == tail;
      }
      JoinCons(level, tail, sep);
      Reassociate("category:", level, sep, categories[1], dotted, BaseSuffix(basePath));
    }
  }

  lemma Reassociate(p: string, a: string, sep: string, b: string, c: string, s: string)
    ensures p + a + sep + b + c + s == p + (a + sep + (b + c)) + s
  {
  }

  lemma JoinCons(first: string, rest: seq<string>, sep: string)
    requires rest != []
    ensures Join([first] + rest, sep) == first + sep + Join(rest, sep)
  {
    assert ([first] + rest)[1..] == rest;
  }

  /** One turn of the breadcrumb loop: the buffer of the categories above
      position `i` and the level counter give the unselect path of the
      category at `i`. */
  lemma UnselectPathStep(categories: seq<string>, i: nat, buffer: string, level: int, basePath: string)
    requires 2 <= i < |categories|
    requires buffer == Dotted(categories[2..i])
    requires level == if i == 2 then 1 else i - 2
    ensures |buffer| > 0 <==> i > 2
    ensures (if |buffer| > 0 then "category:" + NatToString(level) + [CategorySeparator] + categories[1] + buffer else [])
      + BaseSuffix(basePath) == UnselectPath(categories, i - 2, basePath)
  {
    if i == 2 {
      assert categories[2..i] == [];
    }
  }

  lemma TakeSnoc<T>(s: seq<T>, n: nat)
    requires n < |s|
    ensures s[..n + 1] == s[..n] + [s[n]]
  {
  }

  /** The buffer grows by the separator and the next category. */
  lemma DottedStep(categories: seq<string>, i: nat)
    requires 2 <= i < |categories|
    ensures Dotted(categories[2..i + 1]) == Dotted(categories[2..i]) + [CategorySeparator] + categories[i]
  {
    var t := categories[2..i + 1];
    assert t[..|t| - 1] == categories[2..i];
  }

  /** `createCategoryBreadCrumb`: appends the crumbs of a category filter
      to `breadCrumbs`, each unselect path built from a buffer of the
      categories above it and a level counter. */
  method CreateCategoryBreadCrumb(categoryFilterQuery: Option<FilterQuery>, filterQueries: Option<seq<FilterQuery>>,
                                  breadCrumbs: seq<BreadCrumb>) returns (r: seq<BreadCrumb>)
    ensures categoryFilterQuery.None? ==> r == breadCrumbs
    ensures categoryFilterQuery.Some? ==>
      r == breadCrumbs + CategoryCrumbs(categoryFilterQuery.value, PathOf(filterQueries, categoryFilterQuery))
  {
    if categoryFilterQuery.None? {
      return breadCrumbs;
    }
    var fq := categoryFilterQuery.value;
    var categories := Split(fq.expression, {CategorySeparator});
    if |categories| <= 2 {
      return breadCrumbs;
    }
    var basePath := CreatePath(filterQueries, categoryFilterQuery, None);
    r := AppendCategoryCrumbs(fq.fieldName, categories, basePath, breadCrumbs);
  }

  /** The loop of `createCategoryBreadCrumb`: for each category after the
      catalog, a crumb whose unselect path is built from a buffer of the
      categories above it and a level counter. */
  method AppendCategoryCrumbs(fieldName: string, categories: seq<string>, basePath: string,
                              breadCrumbs: seq<BreadCrumb>) returns (r: seq<BreadCrumb>)
    requires |categories| > 2
    ensures r == breadCrumbs + CrumbsFrom(fieldName, categories, basePath)
  {
    var catalogId := categories[1];
    var buffer: string := [];
    ghost var crumbs := CrumbsFrom(fieldName, categories, basePath);
    var level := 1;
    r := breadCrumbs;
    for i := 2 to |categories|
      invariant buffer == Dotted(categories[2..i])
      invariant level == if i == 2 then 1 else i - 2
      invariant r == breadCrumbs + crumbs[..i - 2]
    {
      var category := categories[i];
      UnselectPathStep(categories, i, buffer, level, basePath);
      var unselectPath: string := [];
      if |buffer| > 0 {
        unselectPath := "category:" + NatToString(level) + [CategorySeparator] + catalogId + buffer;
        level := level + 1;
      }
      ghost var parent := unselectPath;
      if !IsBlank(basePath) {
        unselectPath := unselectPath + [PathSeparator];
        unselectPath := unselectPath + basePath;
        assert unselectPath == parent + ([PathSeparator] + basePath);
      } else {
        assert unselectPath == parent + [];
      }
      var crumb := BreadCrumb(fieldName, Unescape(category), unselectPath);
      assert crumb == crumbs[i - 2];
      TakeSnoc(crumbs, i - 2);
      r := r + [crumb];
      DottedStep(categories, i);
      buffer := buffer + [CategorySeparator] + category;
    }
    assert crumbs[..|categories| - 2] == crumbs;
  }

  /** The crumbs of one applied filter: the category crumbs for a category
      filter, else one crumb whose path unselects the filter. */
  function CrumbsFor(fq: FilterQuery, all: seq<FilterQuery>): (r: seq<BreadCrumb>)
    ensures fq.fieldName != CategoryField ==> r == [BreadCrumb(fq.fieldName, UnescapedExpression(fq), PathOf(Some(all), Some(fq)))]
    ensures fq.fieldName == CategoryField ==> r == CategoryCrumbs(fq, PathOf(Some(all), Some(fq)))
  {
    if fq.fieldName == CategoryField then CategoryCrumbs(fq, PathOf(Some(all), Some(fq)))
    else [BreadCrumb(fq.fieldName, UnescapedExpression(fq), PathOf(Some(all), Some(fq)))]
  }

  /** The crumbs of the filters `fqs` among the applied filters `all`, in order. */
  function CrumbsOver(fqs: seq<FilterQuery>, all: seq<FilterQuery>): (r: seq<BreadCrumb>)
    ensures fqs == [] ==> r == []
  {
    if fqs == [] then []
    else CrumbsOver(fqs[..|fqs| - 1], all) + CrumbsFor(fqs[|fqs| - 1], all)
  }

  /** Each filter contributes its own crumbs, in the order of the filters. */
  lemma {:induction false} CrumbsOverConcat(a: seq<FilterQuery>, b: seq<FilterQuery>, all: seq<FilterQuery>)
    ensures CrumbsOver(a + b, all) == CrumbsOver(a, all) + CrumbsOver(b, all)
    decreases |b|
  {
    if b == [] {
      assert a + b == a;
    } else {
      var init, last := b[..|b| - 1], b[|b| - 1];
      var ab := a + b;
      assert ab[..|ab| - 1] == a + init;
      assert ab[|ab| - 1] == last;
      CrumbsOverConcat(a, init, all);
      CrumbsOverLast(ab, all);
      CrumbsOverLast(b, all);
      ConcatAssoc(CrumbsOver(a, all), CrumbsOver(init, all), CrumbsFor(last, all));
    }
  }

  lemma CrumbsOverLast(fqs: seq<FilterQuery>, all: seq<FilterQuery>)
    requires fqs != []
    ensures CrumbsOver(fqs, all) == CrumbsOver(fqs[..|fqs| - 1], all) + CrumbsFor(fqs[|fqs| - 1], all)
  {
  }

  lemma ConcatAssoc(x: seq<BreadCrumb>, y: seq<BreadCrumb>, z: seq<BreadCrumb>)
    ensures (x + y) + z == x + (y + z)
  {
  }

  /** One filter's crumbs are `CrumbsFor` it. */
  lemma CrumbsOverOne(fq: FilterQuery, all: seq<FilterQuery>)
    ensures CrumbsOver([fq], all) == CrumbsFor(fq, all)
  {
    assert [fq][..0] == [];
  }

  /** `getBreadCrumbs` as a value: none without applied filters. */
  function BreadCrumbsOf(filterQueries: Option<seq<FilterQuery>>): (r: seq<BreadCrumb>)
    ensures filterQueries.None? || filterQueries.value == [] ==> r == []
  {
    if filterQueries.None? then [] else CrumbsOver(filterQueries.value, filterQueries.value)
  }

  /** `getBreadCrumbs`. */
  method GetBreadCrumbs(filterQueries: Option<seq<FilterQuery>>) returns (crumbs: seq<BreadCrumb>)
    ensures crumbs == BreadCrumbsOf(filterQueries)
  {
    if filterQueries.None? || |filterQueries.value| == 0 {
      return [];
    }
    var fqs := filterQueries.value;
    crumbs := [];
    for i := 0 to |fqs|
      invariant crumbs == CrumbsOver(fqs[..i], fqs)
    {
      var filterQuery := fqs[i];
      assert fqs[..i + 1][..i] == fqs[..i];
      if filterQuery.fieldName == CategoryField {
        crumbs := CreateCategoryBreadCrumb(Some(filterQuery), filterQueries, crumbs);
      } else {
        var path := CreatePath(filterQueries, Some(filterQuery), None);
        crumbs := crumbs + [BreadCrumb(filterQuery.fieldName, UnescapedExpression(filterQuery), path)];
      }
    }
    assert fqs[..|fqs|] == fqs;
  }

  /** Without category filters there is one crumb per applied filter, in
      order, whose path is every other filter when the filters are distinct. */
  lemma {:induction false} CrumbsWithoutCategories(fqs: seq<FilterQuery>, all: seq<FilterQuery>)
    requires forall k :: 0 <= k < |fqs| ==> fqs[k].fieldName != CategoryField
    ensures |CrumbsOver(fqs, all)| == |fqs|
    ensures forall k :: 0 <= k < |fqs| ==>
      CrumbsOver(fqs, all)[k] == BreadCrumb(fqs[k].fieldName, UnescapedExpression(fqs[k]), PathOf(Some(all), Some(fqs[k])))
    decreases |fqs|
  {
    if fqs != [] {
      var init := fqs[..|fqs| - 1];
      CrumbsWithoutCategories(init, all);
      assert forall k :: 0 <= k < |init| ==> init[k] == fqs[k];
    }
  }

  /** Each crumb of a distinct list of non-category filters unselects its
      own filter and keeps the others in order. */
  lemma CrumbPathsUnselect(fqs: seq<FilterQuery>, k: int)
    requires Distinct(fqs) && 0 <= k < |fqs|
    requires forall i :: 0 <= i < |fqs| ==> fqs[i].fieldName != CategoryField
    ensures |BreadCrumbsOf(Some(fqs))| == |fqs|
    ensures BreadCrumbsOf(Some(fqs))[k].path == Join(Printed(Without(fqs, k)), [PathSeparator])
  {
    CrumbsWithoutCategories(fqs, fqs);
    PathWithout(fqs, k);
  }
}
