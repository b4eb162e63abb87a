/** `Utils`: filter paths, category prefixes and the names of range facets. */
module Utils {
  import opened Wrappers
  import opened Strings
  import opened FilterQueries

  const ResourceInRange: string := "inrange"
  const ResourceBefore: string := "before"
  const ResourceAfter: string := "after"

  // ---------------------------------------------------------------------
  // createPath

  /** The entries of the path `createPath` prints: every filter other than
      the skipped one, printed; the replacement, when there is one, where the
      skipped filter stood. */
  function PathEntries(fqs: seq<FilterQuery>, skip: Option<FilterQuery>, replacement: Option<string>): (r: seq<string>)
    ensures |r| <= |fqs|
  {
    if fqs == [] then []
    else
      var rest := PathEntries(fqs[1..], skip, replacement);
      if !EqualsFilter(fqs[0], skip) then [ToString(fqs[0])] + rest
      else if replacement.Some? then [replacement.value] + rest
      else rest
  }

  /** With a replacement, the path keeps one entry per filter and the
      replacement takes the skipped filter's place. */
  lemma {:induction false} PathEntriesReplaced(fqs: seq<FilterQuery>, skip: Option<FilterQuery>, replacement: string)
    ensures |PathEntries(fqs, skip, Some(replacement))| == |fqs|
    ensures forall k :: 0 <= k < |fqs| ==>
      PathEntries(fqs, skip, Some(replacement))[k] == (if Some(fqs[k]) == skip then replacement else ToString(fqs[k]))
    decreases |fqs|
  {
    if fqs != [] {
      PathEntriesReplaced(fqs[1..], skip, replacement);
      var r := PathEntries(fqs, skip, Some(replacement));
      var rest := PathEntries(fqs[1..], skip, Some(replacement));
      var head := if Some(fqs[0]) == skip then replacement else ToString(fqs[0]);
      assert r == [head] + rest;
      forall k | 1 <= k < |fqs|
        ensures r[k] == (if Some(fqs[k]) == skip then replacement else ToString(fqs[k]))
      {
        assert r[k] == rest[k - 1];
        assert fqs[k] == fqs[1..][k - 1];
      }
    }
  }

  /** Without the skipped filter in the list, the path prints every filter in order. */
  lemma {:induction false} PathEntriesUnskipped(fqs: seq<FilterQuery>, skip: Option<FilterQuery>, replacement: Option<string>)
    requires forall k :: 0 <= k < |fqs| ==> Some(fqs[k]) != skip
    ensures PathEntries(fqs, skip, replacement) == Printed(fqs)
    decreases |fqs|
  {
    if fqs != [] {
      assert Some(fqs[0]) != skip;
      PathEntriesUnskipped(fqs[1..], skip, replacement);
    }
  }

  /** `createPath`: null for no filters gives the empty string; otherwise
      the path entries joined by `|`, with no trailing separator. */
  method CreatePath(filterQueries: Option<seq<FilterQuery>>, skipFilter: Option<FilterQuery>, replacement: Option<string>)
    returns (r: string)
    ensures filterQueries.None? ==> r == []
    ensures filterQueries.Some? ==> r == Join(PathEntries(filterQueries.value, skipFilter, replacement), [PathSeparator])
  {
    if filterQueries.None? {
      return [];
    }
    var fqs := filterQueries.value;
    var b: string := [];
    var i := 0;
    while i < |fqs|
      invariant 0 <= i <= |fqs|
      invariant b == Terminated(PathEntries(fqs[..i], skipFilter, replacement), PathSeparator)
    {
      var filterQuery := fqs[i];
      ghost var done := PathEntries(fqs[..i], skipFilter, replacement);
      assert fqs[..i + 1] == fqs[..i] + [filterQuery];
      PathEntriesSnoc(fqs[..i], filterQuery, skipFilter, replacement);
      if !EqualsFilter(filterQuery, skipFilter) {
        TerminatedSnoc(done, ToString(filterQuery), PathSeparator);
        b := b + ToString(filterQuery) + [PathSeparator];
      } else if replacement.Some? {
        TerminatedSnoc(done, replacement.value, PathSeparator);
        b := b + replacement.value + [PathSeparator];
      } else {
        assert done + [] == done;
      }
      i := i + 1;
    }
    assert fqs[..i] == fqs;
    var entries := PathEntries(fqs, skipFilter, replacement);
    if |b| > 0 {
      TerminatedIsJoin(entries, PathSeparator);
      b := b[..|b| - 1];
    }
    r := b;
  }

  lemma {:induction false} PathEntriesSnoc(fqs: seq<FilterQuery>, fq: FilterQuery, skip: Option<FilterQuery>, replacement: Option<string>)
    ensures PathEntries(fqs + [fq], skip, replacement)
         == PathEntries(fqs, skip, replacement)
          + (if !EqualsFilter(fq, skip) then [ToString(fq)] else if replacement.Some? then [replacement.value] else [])
    decreases |fqs|
  {
    if fqs == [] {
      assert fqs + [fq] == [fq];
      assert [fq][1..] == [];
    } else {
      var t := fqs + [fq];
      assert t[1..] == fqs[1..] + [fq];
      assert t[0] == fqs[0];
      PathEntriesSnoc(fqs[1..], fq, skip, replacement);
      var tail := if !EqualsFilter(fq, skip) then [ToString(fq)] else if replacement.Some? then [replacement.value] else [];
      var rest := PathEntries(fqs[1..], skip, replacement);
      if !EqualsFilter(fqs[0], skip) {
        assert PathEntries(t, skip, replacement) == [ToString(fqs[0])] + (rest + tail);
      } else if replacement.Some? {
        assert PathEntries(t, skip, replacement) == [replacement.value] + (rest + tail);
      }
    }
  }

  // ---------------------------------------------------------------------
  // buildPath

  function Reverse(s: seq<string>): (r: seq<string>)
    ensures |r| == |s|
  {
    if s == [] then [] else Reverse(s[1..]) + [s[0]]
  }

  /** The category prefix of a path that runs from a category up to its
      catalog: the catalog first, then the categories below the root
      category, outermost first, separated by dots. With only a category and
      its catalog, the catalog is followed by a dot. */
  function CategoryPrefix(path: seq<string>): string {
    var n := |path|;
    if n == 0 then []
    else if n == 1 then path[0]
    else if n == 2 then path[1] + "."
    else Join([path[n - 1]] + Reverse(path[..n - 2]), ".")
  }

  /** What has been kept once every level above `level` is processed. */
  function Kept(path: seq<string>, level: nat): seq<string>
    requires level < |path| - 1
  {
    var n := |path|;
    if level >= n - 2 then [path[n - 1]] else [path[n - 1]] + Reverse(path[level + 1..n - 2])
  }

  /** `buildPath`: walks the path from the catalog down, leaving out the root
      category just below the catalog. */
  method BuildPath(categoryPath: seq<string>) returns (prefix: string)
    ensures prefix == CategoryPrefix(categoryPath)
  {
    var n := |categoryPath|;
    prefix := [];
    var level := n - 1;
    while level >= 0
      invariant -1 <= level <= n - 1
      invariant level == n - 1 ==> prefix == []
      invariant 0 <= level < n - 1 ==> prefix == Join(Kept(categoryPath, level), ".") + "."
      invariant level == -1 ==> prefix == CategoryPrefix(categoryPath)
    {
      if level != n - 2 {
        if level == n - 1 && level > 0 {
          assert Kept(categoryPath, level - 1) == [categoryPath[n - 1]];
        } else if level > 0 {
          assert Join(Kept(categoryPath, level - 1), ".") == Join(Kept(categoryPath, level), ".") + "." + categoryPath[level] by {
            var k := Kept(categoryPath, level);
            assert categoryPath[level..n - 2] == [categoryPath[level]] + categoryPath[level + 1..n - 2];
            assert Kept(categoryPath, level - 1) == k + [categoryPath[level]];
            JoinSnoc(k, categoryPath[level], ".");
          }
        } else if n >= 3 {
          assert CategoryPrefix(categoryPath) == Join(Kept(categoryPath, 0), ".") + "." + categoryPath[0] by {
            var k := Kept(categoryPath, 0);
            var below := categoryPath[..n - 2];
            assert below[1..] == categoryPath[1..n - 2];
            assert Reverse(below) == Reverse(categoryPath[1..n - 2]) + [categoryPath[0]];
            assert k + [categoryPath[0]] == [categoryPath[n - 1]] + Reverse(below);
            JoinSnoc(k, categoryPath[0], ".");
          }
        }
        prefix := prefix + categoryPath[level];
        if level != 0 {
          prefix := prefix + ".";
        }
      } else if level > 0 {
        assert categoryPath[level..n - 2] == [];
      } else {
        assert Join([categoryPath[1]], ".") == categoryPath[1];
      }
      level := level - 1;
    }
  }

  /** The prefix of a category below a root category lists the catalog, then
      the path below the root, and no trailing dot. */
  lemma CategoryPrefixShape(path: seq<string>)
    requires |path| >= 3
    ensures StartsWith(CategoryPrefix(path), path[|path| - 1] + ".")
    ensures EndsWith(CategoryPrefix(path), path[0])
  {
    var n := |path|;
    var parts := [path[n - 1]] + Reverse(path[..n - 2]);
    assert parts[1..] == Reverse(path[..n - 2]);
    assert Reverse(path[..n - 2])[n - 3] == path[0];
    JoinLast(parts, ".");
    assert CategoryPrefix(path) == path[n - 1] + "." + Join(parts[1..], ".");
  }

  // ---------------------------------------------------------------------
  // Range names

  /** `keys[k]` is the first of `keys` the resource bundle holds. */
  predicate FirstHeld(resources: map<string, string>, keys: seq<string>, k: int) {
    0 <= k < |keys| && keys[k] in resources && forall j :: 0 <= j < k ==> keys[j] !in resources
  }

  /** The first of `keys` the resource bundle holds. */
  function Lookup(resources: map<string, string>, keys: seq<string>): (r: Option<string>)
    ensures r.None? <==> forall k :: 0 <= k < |keys| ==> keys[k] !in resources
    ensures r.Some? ==> exists k :: FirstHeld(resources, keys, k) && resources[keys[k]] == r.value
  {
    if keys == [] then None
    else if keys[0] in resources then
      assert FirstHeld(resources, keys, 0);
      Some(resources[keys[0]])
    else
      var r := Lookup(resources, keys[1..]);
      assert forall k :: 1 <= k < |keys| ==> keys[k] == keys[1..][k - 1];
      assert r.Some? ==> exists k :: FirstHeld(resources, keys, k) && resources[keys[k]] == r.value by {
        if r.Some? {
          var k :| FirstHeld(resources, keys[1..], k) && resources[keys[1..][k]] == r.value;
          assert FirstHeld(resources, keys, k + 1) by {
            forall j | 0 <= j < k + 1 ensures keys[j] !in resources {
              if j > 0 { assert keys[j] == keys[1..][j - 1]; }
            }
          }
        }
      }
      r
  }

  /** The resource keys tried for a range name, most specific first. */
  function ResourceKeys(fieldName: string, key: string, value1: Option<string>, value2: Option<string>): seq<string> {
    var resourceKey := "facet.range." + fieldName + "." + key;
    [resourceKey + "." + Text(value1), resourceKey + "." + Text(value2), resourceKey]
  }

  /** `getRangeName(fieldName, key, value1, value2, defaultName)`, the resource
      bundle given as a map. */
  function RangeName(resources: map<string, string>, fieldName: string, key: string,
                     value1: Option<string>, value2: Option<string>, defaultName: Option<string>): string
  {
    var resource := Lookup(resources, ResourceKeys(fieldName, key, value1, value2));
    if resource.None? && defaultName.Some? then defaultName.value
    else
      var template := resource.GetOr("${v1}-${v2}");
      Replace(Replace(template, "${v1}", value1.GetOr("")), "${v2}", value2.GetOr(""))
  }

  /** Without a resource the name is the default when one is given, else
      `value1-value2`. */
  lemma RangeNameWithoutResource(resources: map<string, string>, fieldName: string, key: string,
                                 value1: string, value2: string, defaultName: Option<string>)
    requires forall k :: k in ResourceKeys(fieldName, key, Some(value1), Some(value2)) ==> k !in resources
    requires '$' !in value1
    ensures defaultName.Some? ==> RangeName(resources, fieldName, key, Some(value1), Some(value2), defaultName) == defaultName.value
    ensures defaultName.None? ==> RangeName(resources, fieldName, key, Some(value1), Some(value2), defaultName) == value1 + "-" + value2
  {
    var keys := ResourceKeys(fieldName, key, Some(value1), Some(value2));
    assert forall k :: 0 <= k < |keys| ==> keys[k] in keys;
    assert Lookup(resources, keys).None?;
    if defaultName.None? {
      DefaultTemplate(value1, value2);
    }
  }

  /** The template `${v1}-${v2}` filled in gives `value1-value2`. */
  lemma DefaultTemplate(value1: string, value2: string)
    requires '$' !in value1
    ensures Replace(Replace("${v1}-${v2}", "${v1}", value1), "${v2}", value2) == value1 + "-" + value2
  {
    calc {
      Replace("${v1}-${v2}", "${v1}", value1);
      { assert "${v1}-${v2}" == "${v1}" + "-${v2}";
        ReplaceHead("${v1}", "-${v2}", value1); }
      value1 + Replace("-${v2}", "${v1}", value1);
      { NoFirstPlaceholderAfter(value1); }
      value1 + "-${v2}";
    }
    calc {
      Replace(value1 + "-${v2}", "${v2}", value2);
      { assert value1 + "-${v2}" == (value1 + "-") + "${v2}";
        ReplaceSkip(value1 + "-", "${v2}", "${v2}", value2); }
      (value1 + "-") + Replace("${v2}", "${v2}", value2);
      { assert "${v2}" == "${v2}" + [];
        ReplaceHead("${v2}", [], value2); }
      value1 + "-" + value2;
    }
  }

  /** `-${v2}` holds no `${v1}`. */
  lemma NoFirstPlaceholderAfter(value1: string)
    ensures Replace("-${v2}", "${v1}", value1) == "-${v2}"
  {
    assert "-${v2}" == "-" + "${v2}";
    ReplaceSkip("-", "${v2}", "${v1}", value1);
    assert "${v2}"[..5][3] != "${v1}"[3];
    assert "${v2}"[1..] == "{v2}";
    ReplaceShort("{v2}", "${v1}", value1);
  }

  /** The range key: `before` for an open lower bound, `after` for an open upper bound. */
  function RangeKey(lower: string, upper: string): string {
    if lower == "*" then ResourceBefore
    else if upper == "*" then ResourceAfter
    else ResourceInRange
  }

  /** The characters `StringUtils.split(s, " TO ")` splits on. */
  const ToChars: set<char> := {' ', 'T', 'O'}

  predicate Bracketed(expression: string) {
    |expression| >= 2 && StartsWith(expression, "[") && EndsWith(expression, "]")
  }

  /** `getRangeName(fieldName, expression)` as written: the inside of the
      brackets is split on every space, `T` and `O`. */
  function GetRangeName(resources: map<string, string>, fieldName: string, expression: string): (r: string)
    ensures !Bracketed(expression) ==> r == expression
  {
    // a one-character expression cannot both start with `[` and end with `]`
    if Bracketed(expression) then
      var parts := Split(expression[1..|expression| - 1], ToChars);
      if |parts| == 2 then
        RangeName(resources, fieldName, RangeKey(parts[0], parts[1]), Some(parts[0]), Some(parts[1]), None)
      else expression
    else expression
  }

  /** Bounds without spaces, `T` or `O` split apart at ` TO `. */
  lemma SplitBounds(lower: string, upper: string)
    requires lower != [] && upper != []
    requires forall k :: 0 <= k < |lower| ==> lower[k] !in ToChars
    requires forall k :: 0 <= k < |upper| ==> upper[k] !in ToChars
    ensures Split(lower + " TO " + upper, ToChars) == [lower, upper]
  {
    var s1 := [' '] + upper;
    var s2 := ['O'] + s1;
    var s3 := ['T'] + s2;
    assert lower + " TO " + upper == lower + [' '] + s3;
    SplitCons(lower, ' ', s3, ToChars);
    SplitSkip('T', s2);
    SplitSkip('O', s1);
    SplitSkip(' ', upper);
    SplitSingle(upper, ToChars);
  }

  lemma SplitSkip(c: char, rest: string)
    requires c in ToChars
    ensures Split([c] + rest, ToChars) == Split(rest, ToChars)
  {
    assert ([c] + rest)[1..] == rest;
  }

  /** The inside of a bracketed range. */
  lemma Inside(lower: string, upper: string)
    ensures Bracketed("[" + lower + " TO " + upper + "]")
    ensures var e := "[" + lower + " TO " + upper + "]"; e[1..|e| - 1] == lower + " TO " + upper
  {
  }

  /** Bounds without spaces, `T` or `O` are named as the range they bound. */
  lemma GetRangeNameOfBounds(resources: map<string, string>, fieldName: string, lower: string, upper: string)
    requires lower != [] && upper != []
    requires forall k :: 0 <= k < |lower| ==> lower[k] !in ToChars
    requires forall k :: 0 <= k < |upper| ==> upper[k] !in ToChars
    ensures GetRangeName(resources, fieldName, "[" + lower + " TO " + upper + "]")
         == RangeName(resources, fieldName, RangeKey(lower, upper), Some(lower), Some(upper), None)
  {
    Inside(lower, upper);
    SplitBounds(lower, upper);
  }

  /** `StringUtils.splitByWholeSeparator(s, sep)`: the non-empty pieces between
      whole occurrences of `sep`. */
  function SplitWhole(s: string, sep: string): (r: seq<string>)
    requires sep != []
    decreases |s|
  {
    var k := IndexOf(s, sep);
    if k == -1 then (if s == [] then [] else [s])
    else (if k == 0 then [] else [s[..k]]) + SplitWhole(s[k + |sep|..], sep)
  }

  /** `getRangeName(fieldName, expression)` splitting on the whole ` TO `. */
  function GetRangeNameCorrected(resources: map<string, string>, fieldName: string, expression: string): (r: string)
    ensures !Bracketed(expression) ==> r == expression
  {
    if Bracketed(expression) then
      var parts := SplitWhole(expression[1..|expression| - 1], " TO ");
      if |parts| == 2 then
        RangeName(resources, fieldName, RangeKey(parts[0], parts[1]), Some(parts[0]), Some(parts[1]), None)
      else expression
    else expression
  }

  lemma NoSpaceNoSeparator(s: string)
    requires ' ' !in s
    ensures IndexOf(s, " TO ") == -1
  {
    forall k | 0 <= k && k + 4 <= |s| ensures !OccursAt(s, " TO ", k) {
      assert s[k..k + 4][0] == s[k] != ' ';
    }
  }

  /** Splitting on the whole separator reads back any bounds without spaces. */
  lemma SplitWholeBounds(lower: string, upper: string)
    requires lower != [] && upper != []
    requires ' ' !in lower && ' ' !in upper
    ensures SplitWhole(lower + " TO " + upper, " TO ") == [lower, upper]
  {
    var s := lower + " TO " + upper;
    var n := |lower|;
    assert s[n..n + 4] == " TO ";
    assert OccursAt(s, " TO ", n);
    forall k | 0 <= k < n ensures !OccursAt(s, " TO ", k) {
      assert s[k] == lower[k] != ' ';
      assert s[k..k + 4][0] == s[k];
    }
    assert IndexOf(s, " TO ") == n;
    assert s[..n] == lower;
    assert s[n + 4..] == upper;
    NoSpaceNoSeparator(upper);
  }

  /** With the whole separator, every range of space-free bounds is named. */
  lemma GetRangeNameCorrectedOfBounds(resources: map<string, string>, fieldName: string, lower: string, upper: string)
    requires lower != [] && upper != []
    requires ' ' !in lower && ' ' !in upper
    ensures GetRangeNameCorrected(resources, fieldName, "[" + lower + " TO " + upper + "]")
         == RangeName(resources, fieldName, RangeKey(lower, upper), Some(lower), Some(upper), None)
  {
    Inside(lower, upper);
    SplitWholeBounds(lower, upper);
  }

  /** A lower bound with an `O` inside splits into two tokens. */
  lemma SplitAroundO(a: string, b: string, upper: string)
    requires a != [] && b != [] && upper != []
    requires forall k :: 0 <= k < |a| ==> a[k] !in ToChars
    requires forall k :: 0 <= k < |b| ==> b[k] !in ToChars
    requires forall k :: 0 <= k < |upper| ==> upper[k] !in ToChars
    ensures Split(a + "O" + b + " TO " + upper, ToChars) == [a, b, upper]
  {
    assert a + "O" + b + " TO " + upper == a + ['O'] + (b + " TO " + upper);
    SplitCons(a, 'O', b + " TO " + upper, ToChars);
    SplitBounds(b, upper);
  }

  lemma SplitNow()
    ensures Split("NOW TO *", ToChars) == ["N", "W", "*"]
  {
    assert "NOW TO *" == "N" + "O" + "W" + " TO " + "*";
    SplitAroundO("N", "W", "*");
  }

  /** A lower bound holding an `O` splits into three tokens, and the range
      is returned as it is. */
  lemma GetRangeNameOfOBound(resources: map<string, string>, fieldName: string, a: string, b: string, upper: string)
    requires a != [] && b != [] && upper != []
    requires forall k :: 0 <= k < |a| ==> a[k] !in ToChars
    requires forall k :: 0 <= k < |b| ==> b[k] !in ToChars
    requires forall k :: 0 <= k < |upper| ==> upper[k] !in ToChars
    ensures var e := "[" + (a + "O" + b) + " TO " + upper + "]";
      GetRangeName(resources, fieldName, e) == e
  {
    Inside(a + "O" + b, upper);
    assert a + "O" + b + " TO " + upper == (a + "O" + b) + " TO " + upper;
    SplitAroundO(a, b, upper);
  }

  /** A date bound such as `NOW` holds an `O`: as written, the range
      `[NOW TO *]` splits into three tokens and is returned as it is. */
  lemma RangeNameOfNowSplitsApart(resources: map<string, string>, fieldName: string)
    ensures Split("NOW TO *", ToChars) == ["N", "W", "*"]
    ensures GetRangeName(resources, fieldName, "[NOW TO *]") == "[NOW TO *]"
  {
    assert "[NOW TO *]" == "[" + "NOW" + " TO " + "*" + "]";
    assert "NOW" + " TO " + "*" == "NOW TO *";
    Inside("NOW", "*");
    SplitNow();
  }

  /** Splitting on the whole separator names `[NOW TO *]` an `after` range. */
  lemma RangeNameOfNowCorrected(resources: map<string, string>, fieldName: string)
    ensures GetRangeNameCorrected(resources, fieldName, "[NOW TO *]")
         == RangeName(resources, fieldName, ResourceAfter, Some("NOW"), Some("*"), None)
  {
    assert "[NOW TO *]" == "[" + "NOW" + " TO " + "*" + "]";
    GetRangeNameCorrectedOfBounds(resources, fieldName, "NOW", "*");
  }

  // ---------------------------------------------------------------------
  // findFilterExpressionByName

  /** The expression of the last filter named `name`, if any. */
  function LastExpression(fqs: seq<FilterQuery>, name: string): (r: Option<string>)
    ensures r.None? <==> forall k :: 0 <= k < |fqs| ==> fqs[k].fieldName != name
    ensures r.Some? ==> exists k :: (0 <= k < |fqs| && fqs[k] == FilterQuery(name, r.value)
      && forall j :: k < j < |fqs| ==> fqs[j].fieldName != name)
  {
    if fqs == [] then None
    else if fqs[|fqs| - 1].fieldName == name then
      assert fqs[|fqs| - 1] == FilterQuery(name, fqs[|fqs| - 1].expression);
      Some(fqs[|fqs| - 1].expression)
    else
      var r := LastExpression(fqs[..|fqs| - 1], name);
      LastExpressionStep(fqs, name, r);
      r
  }

  /** A last filter of another name leaves the answer for the others standing. */
  lemma LastExpressionStep(fqs: seq<FilterQuery>, name: string, r: Option<string>)
    requires fqs != [] && fqs[|fqs| - 1].fieldName != name
    requires var init := fqs[..|fqs| - 1];
      && (r.None? <==> forall k :: 0 <= k < |init| ==> init[k].fieldName != name)
      && (r.Some? ==> exists k :: (0 <= k < |init| && init[k] == FilterQuery(name, r.value)
        && forall j :: k < j < |init| ==> init[j].fieldName != name))
    ensures r.None? <==> forall k :: 0 <= k < |fqs| ==> fqs[k].fieldName != name
    ensures r.Some? ==> exists k :: (0 <= k < |fqs| && fqs[k] == FilterQuery(name, r.value)
      && forall j :: k < j < |fqs| ==> fqs[j].fieldName != name)
  {
    var init := fqs[..|fqs| - 1];
    assert forall k :: 0 <= k < |init| ==> init[k] == fqs[k];
    if r.Some? {
      var k :| 0 <= k < |init| && init[k] == FilterQuery(name, r.value)
        && forall j :: k < j < |init| ==> init[j].fieldName != name;
      assert fqs[k] == FilterQuery(name, r.value);
      assert forall j :: k < j < |fqs| ==> fqs[j].fieldName != name;
    }
  }

  /** `findFilterExpressionByName`: parses the path and keeps the expression of
      the last filter with the given field name. A null path fails with a
      NullPointerException (the parsed array is iterated), a malformed one with the
      parser's error. */
  function FilterExpressionByName(path: Option<string>, name: string): (r: Result<Option<string>>)
    ensures path.None? ==> r == Err(NullPointer)
    ensures r.Ok? ==> ParsePath(path).Ok? && ParsePath(path).value.Some?
    ensures r.Ok? ==> r.value == LastExpression(ParsePath(path).value.value, name)
    ensures r.Err? ==> path.None? || ParsePath(path).Err?
  {
    match ParsePath(path)
    case Err(e) => Err(e)
    case Ok(None) => Err(NullPointer)
    case Ok(Some(fqs)) => Ok(LastExpression(fqs, name))
  }

  method FindFilterExpressionByName(path: Option<string>, name: string) returns (r: Result<Option<string>>)
    ensures r == FilterExpressionByName(path, name)
  {
    var parsed := ParseFilterQueries(path);
    if parsed.Err? {
      return Err(parsed.error);
    }
    if parsed.value.None? {
      return Err(NullPointer);
    }
    var expression := FindLastExpression(parsed.value.value, name);
    return Ok(expression);
  }

  /** The loop of `findFilterExpressionByName`: a later filter with the name
      overrides an earlier one. */
  method FindLastExpression(fqs: seq<FilterQuery>, name: string) returns (expression: Option<string>)
    ensures expression == LastExpression(fqs, name)
  {
    expression := None;
    for i := 0 to |fqs|
      invariant expression == LastExpression(fqs[..i], name)
    {
      assert fqs[..i + 1][..i] == fqs[..i];
      if fqs[i].fieldName == name {
        expression := Some(fqs[i].expression);
      }
    }
    assert fqs[..|fqs|] == fqs;
  }
}
