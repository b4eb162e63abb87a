# opencommercesearch core, modelled in Dafny

OpenCommerceSearch is an e-commerce search layer built on Solr. This project
models the parts of it that hold its own logic:

- the relevance scoring of the relevancy tool: DCG, ideal DCG, NDCG, the join
  of ordered results with sparse judgements, and the case and site means;
- the string encoders and parsers used by search:
  - `FilterQuery` (`field:expression` filters, pipe-separated paths,
    unescaping);
  - `Utils` (paths and range names);
  - `RulesBuilder` (rule expressions to boolean filters);
  - the helpers of `RuleManagerComponent` (core names, exact matches, rule
    filters, sort merging);
  - the URLs of `ProductService`, `BaseRequest` and `BrowseRequest`;
  - the count paths and breadcrumbs of `FacetManager`;
- the small stateful structures:
  - `MergedSolrParams`, a multimap over defaults with removal tombstones;
  - the facet registries of `FacetHandler` and `FacetManager`;
  - the category tree of `CategoryGraphBuilder`;
  - the per-locale product buckets of `SearchFeedProducts`;
  - the locale stack of `FeedLocaleService`;
  - the range cache and hit counters of `SequentialDataLoaderService`.

There is one Dafny module per source file. The shared pieces live in two
helper modules:

- `Wrappers`: `Option`, `Result` and the Java exceptions as values;
- `Strings`: the Java and commons-lang string operations the code relies on.
  - `StringUtils.split` splits on any of the given characters and drops
    empty tokens.
  - `String.split` keeps interior empty tokens and drops trailing ones.
  - `compareTo` is taken as the lexicographic order of characters.

A class whose methods update fields in place is a Dafny `class`:

- Each method states its new state in `ensures`.
- Loops are methods with invariants, proved against a specification function.
- The properties the code promises are lemmas about those functions.
- A Java `null` is `None`.
- A thrown exception is an `Err` of `Result`.
- A `LinkedHashMap` is a sequence of keys beside a map. The class invariant
  says the keys are distinct and the same as the map's keys.

Where the documentation or the tests disagree with the code, the model
follows the code:

- The javadoc of `addFacet`, in both `FacetHandler` and `FacetManager`, says
  the first facet for a field wins. The code keeps the later one, in the
  first one's position.
- A `FacetManager` test expects `getCountPath` to replace a selected filter
  in place. The code removes it.
- A `RuleManagerComponent` test pins an older sort order than the merge in
  `prepare` produces.

`SequentialDataLoaderService` is generic in a `Comparable` key type `K`. The
model fixes `K` to `string`, ordered by `compareTo` as above (`LexLessEq`).

Two constants come from `SearchConstants`, which is not part of this model.
They are taken as used by the code and its tests:

- the closeout field `isCloseout`;
- the category separator `.`.

## Model

| member | source | states |
|---|---|---|
| FilterQueries.Parse | opencommercesearch-common/src/main/java/org/opencommercesearch/FilterQuery.java:58-65 | null fails with a NullPointerException; a string parses exactly when its `:` split has two tokens, which become the field and the expression; otherwise an IllegalArgumentException naming the string |
| FilterQueries.ParsePrint | opencommercesearch-common/src/main/java/org/opencommercesearch/FilterQuery.java:88-90 | a well-formed filter printed as `field:expression` parses back to itself |
| FilterQueries.ParseNeedsSeparator | opencommercesearch-common/src/main/java/org/opencommercesearch/FilterQuery.java:58-62 | a string without `:` fails with the IllegalArgumentException |
| FilterQueries.ParseRejectsThreeTokens | opencommercesearch-common/src/main/java/org/opencommercesearch/FilterQuery.java:58-62 | `a:b:c` has three tokens and fails |
| FilterQueries.EqualsFilter | opencommercesearch-common/src/main/java/org/opencommercesearch/FilterQuery.java:93-99 | equal exactly when the other filter is present with the same field name and expression |
| FilterQueries.ParseEach | opencommercesearch-common/src/main/java/org/opencommercesearch/FilterQuery.java:81-85 | on success one filter per segment, the k-th parsed from the k-th segment; a failure comes from some malformed segment |
| FilterQueries.ParseEachStops | opencommercesearch-common/src/main/java/org/opencommercesearch/FilterQuery.java:81-85 | the first malformed segment's exception is the result, whatever follows it |
| FilterQueries.ParseEachSnoc | opencommercesearch-common/src/main/java/org/opencommercesearch/FilterQuery.java:81-85 | parsing one more well-formed segment appends its filter to the parsed ones |
| FilterQueries.ParseFilterQueries | opencommercesearch-common/src/main/java/org/opencommercesearch/FilterQuery.java:72-86 | the loop gives the same result as splitting the path on the pipe character and parsing segment by segment; a null path gives null |
| FilterQueries.Printed | opencommercesearch-common/src/main/java/org/opencommercesearch/FilterQuery.java:88-90 | one printed form per filter, in order |
| FilterQueries.ParsePathPrinted | opencommercesearch-common/src/main/java/org/opencommercesearch/FilterQuery.java:72-90 | joining the printed forms of well-formed filters with the pipe character and parsing the result gives back those filters, in order |
| FilterQueries.UnescapeFrom | opencommercesearch-common/src/main/java/org/opencommercesearch/FilterQuery.java:108-130 | unescaping never lengthens the string |
| FilterQueries.UnescapeQueryChars | opencommercesearch-common/src/main/java/org/opencommercesearch/FilterQuery.java:108-130 | the StringBuilder loop computes the unescaped string as written |
| FilterQueries.Unescape | opencommercesearch-common/src/main/java/org/opencommercesearch/FilterQuery.java:108-130 | `unescapeQueryChars` as written: never longer, changed exactly when the string holds an escape, and the identity without a backslash |
| FilterQueries.UnescapeChangesOnlyEscapes | opencommercesearch-common/src/main/java/org/opencommercesearch/FilterQuery.java:111-125 | a string with an escape (backslash before a special character) gets shorter; one without is returned unchanged |
| FilterQueries.UnescapeDropsOnlyBackslashes | opencommercesearch-common/src/main/java/org/opencommercesearch/FilterQuery.java:117-125 | every character other than a backslash keeps its number of occurrences |
| FilterQueries.Escape | opencommercesearch-common/src/main/java/org/opencommercesearch/FilterQuery.java:121-123 | escaping (a backslash before each special character) never shortens a string |
| FilterQueries.UnescapeLosesEscapedBackslash | opencommercesearch-common/src/main/java/org/opencommercesearch/FilterQuery.java:117-125 | the escaped form of `\:` unescapes to `:` as written: the escaped backslash is lost |
| FilterQueries.UnescapeCorrected | opencommercesearch-common/src/main/java/org/opencommercesearch/FilterQuery.java:108-130 | the unescaping meant, which skips the escaped character; never lengthens the string |
| FilterQueries.UnescapeEscapeRoundTrip | opencommercesearch-common/src/main/java/org/opencommercesearch/FilterQuery.java:108-130 | unescaping the escaped form of any string gives the string back |
| FilterQueries.UnescapedExpression | opencommercesearch-common/src/main/java/org/opencommercesearch/FilterQuery.java:50-52 | the expression unescaped as written: never longer, changed exactly when it holds an escape, unchanged without a backslash |
| FilterQueries.ParseEachAll | opencommercesearch-common/src/main/java/org/opencommercesearch/FilterQuery.java:81-85 | segments that each parse to the matching filter parse, together, to all of those filters |
| FilterQueries.UnescapeNoBackslash | opencommercesearch-common/src/main/java/org/opencommercesearch/FilterQuery.java:111-116 | the corrected unescaping is the identity on strings without a backslash |
| Utils.PathEntries | opencommercesearch-common/src/main/java/org/opencommercesearch/Utils.java:56-62 | at most one entry per filter |
| Utils.PathEntriesReplaced | opencommercesearch-common/src/main/java/org/opencommercesearch/Utils.java:59-61 | with a replacement, one entry per filter, the replacement taking the skipped filter's position and every other filter printed in place |
| Utils.PathEntriesUnskipped | opencommercesearch-common/src/main/java/org/opencommercesearch/Utils.java:56-58 | when no filter equals the skipped one, the entries are the printed filters in order |
| Utils.PathEntriesSnoc | opencommercesearch-common/src/main/java/org/opencommercesearch/Utils.java:56-62 | one more filter adds its printed form, the replacement when it is the skipped filter, or nothing |
| Utils.CreatePath | opencommercesearch-common/src/main/java/org/opencommercesearch/Utils.java:49-67 | a null array gives the empty string; otherwise the entries joined by the pipe character, with no trailing separator |
| Utils.Reverse | opencommercesearch-common/src/main/java/org/opencommercesearch/Utils.java:187-196 | reversal keeps the length |
| Utils.BuildPath | opencommercesearch-common/src/main/java/org/opencommercesearch/Utils.java:185-198 | the loop from the last level down gives the category prefix: the levels in reverse, the one at size-2 omitted, joined by `.`; with exactly two levels the result is the catalog level followed by a trailing `.` |
| Utils.CategoryPrefixShape | opencommercesearch-common/src/main/java/org/opencommercesearch/Utils.java:185-198 | with three or more levels the prefix starts with the last level and a `.`, and ends with the first level |
| Utils.Lookup | opencommercesearch-common/src/main/java/org/opencommercesearch/Utils.java:77-90 | none exactly when no key is in the bundle; otherwise the value the bundle holds under the first key it holds |
| Utils.RangeNameWithoutResource | opencommercesearch-common/src/main/java/org/opencommercesearch/Utils.java:90-99 | with no resource found the name is the default name, or `value1-value2` when there is none |
| Utils.GetRangeName | opencommercesearch-common/src/main/java/org/opencommercesearch/Utils.java:102-116 | an expression not of the form `[...]` is returned unchanged |
| Utils.SplitBounds | opencommercesearch-common/src/main/java/org/opencommercesearch/Utils.java:104 | bounds free of ` `, `T` and `O` split apart around ` TO ` |
| Utils.GetRangeNameOfBounds | opencommercesearch-common/src/main/java/org/opencommercesearch/Utils.java:102-116 | for such bounds the key is `before` when the lower bound is `*`, else `after` when the upper is `*`, else `inrange` |
| Utils.GetRangeNameOfOBound | opencommercesearch-common/src/main/java/org/opencommercesearch/Utils.java:104-115 | as written, a lower bound holding an `O` splits into three parts and the expression is returned unchanged |
| Utils.RangeNameOfNowSplitsApart | opencommercesearch-common/src/main/java/org/opencommercesearch/Utils.java:102-116 | as written, `[NOW TO *]` splits into `N`, `W`, `*` and is returned unchanged |
| Utils.GetRangeNameCorrected | opencommercesearch-common/src/main/java/org/opencommercesearch/Utils.java:102-116 | the range name meant, splitting on the whole ` TO `; an expression not of the form `[...]` is returned unchanged |
| Utils.SplitWholeBounds | opencommercesearch-common/src/main/java/org/opencommercesearch/Utils.java:104 | bounds without spaces split apart on the whole separator ` TO ` |
| Utils.GetRangeNameCorrectedOfBounds | opencommercesearch-common/src/main/java/org/opencommercesearch/Utils.java:102-116 | for bounds without spaces, the corrected name chooses the `before`/`after`/`inrange` key from the bounds |
| Utils.RangeNameOfNowCorrected | opencommercesearch-common/src/main/java/org/opencommercesearch/Utils.java:102-116 | the corrected name of `[NOW TO *]` uses the `after` key with bounds `NOW` and `*` |
| Utils.LastExpression | opencommercesearch-common/src/main/java/org/opencommercesearch/Utils.java:133-143 | none iff no filter has the name; otherwise the expression of the last filter with that name |
| Utils.FilterExpressionByName | opencommercesearch-common/src/main/java/org/opencommercesearch/Utils.java:133-143 | a null path fails with a NullPointerException, as does a malformed path fail; otherwise the last expression of the name in the parsed path |
| Utils.FindFilterExpressionByName | opencommercesearch-common/src/main/java/org/opencommercesearch/Utils.java:133-143 | the loop over the parsed path computes the specification above |
| Utils.FindLastExpression | opencommercesearch-common/src/main/java/org/opencommercesearch/Utils.java:136-140 | the loop keeps the last expression whose field name matches |
| MergedParams.Put | opencommercesearch-solr/src/main/java/org/apache/solr/common/params/MergedSolrParams.java:58-60 | the name gets the values, no other name changes, and a new name goes last in key order |
| MergedParams.Delete | opencommercesearch-solr/src/main/java/org/apache/solr/common/params/MergedSolrParams.java:52-55 | the name has no local values afterwards and no other name changes |
| MergedParams.SetValues | opencommercesearch-solr/src/main/java/org/apache/solr/common/params/MergedSolrParams.java:52-61 | a null array or a single null removes the name; otherwise the values replace the old ones; other names and the removed set are unchanged |
| MergedParams.AddValues | opencommercesearch-solr/src/main/java/org/apache/solr/common/params/MergedSolrParams.java:83-99 | with old values, the new ones (one null for a null or empty array) are appended after them; without, the array is stored as it is |
| MergedParams.Cleared | opencommercesearch-solr/src/main/java/org/apache/solr/common/params/MergedSolrParams.java:123-127 | every local value goes and the removed names stay removed |
| MergedParams.MatchFrom | opencommercesearch-solr/src/main/java/org/apache/solr/common/params/MergedSolrParams.java:136-138 | the first index whose value equals the one sought, or none; reaching a null member first throws a NullPointerException |
| MergedParams.DefaultGet | opencommercesearch-solr/src/main/java/org/apache/solr/common/params/MergedSolrParams.java:167 | a default value exists only when the name has a non-empty default array, and it is the first one |
| MergedParams.GetOf | opencommercesearch-solr/src/main/java/org/apache/solr/common/params/MergedSolrParams.java:156-169 | the first local value; with none, the default unless the name was removed (then null); a removed name with an empty array fails |
| MergedParams.GetParamsOf | opencommercesearch-solr/src/main/java/org/apache/solr/common/params/MergedSolrParams.java:172-185 | the local values followed by the defaults; null only when both sides are missing or empty |
| MergedParams.SetThenGet | opencommercesearch-solr/src/main/java/org/apache/solr/common/params/MergedSolrParams.java:52-61 | after setting values, `get` returns the first and `getParams` lists them before the defaults |
| MergedParams.SetNullFallsBack | opencommercesearch-solr/src/main/java/org/apache/solr/common/params/MergedSolrParams.java:52-57 | after setting null, `get` falls back to the default unless the name was removed, and `getParams` gives the defaults |
| MergedParams.AddKeepsOrder | opencommercesearch-solr/src/main/java/org/apache/solr/common/params/MergedSolrParams.java:83-99 | after adding values, `getParams` lists the old values, the added ones and then the defaults |
| MergedParams.RemoveValueDeletesFirst | opencommercesearch-solr/src/main/java/org/apache/solr/common/params/MergedSolrParams.java:134-153 | removing a present value deletes its first occurrence only and records the name as removed; an absent value changes nothing |
| MergedParams.RemoveOnlyValueHidesDefault | opencommercesearch-solr/src/main/java/org/apache/solr/common/params/MergedSolrParams.java:134-169 | removing the only value drops the name, and `get` then returns null whatever the defaults hold |
| MergedParams.RemoveValueNullMember | opencommercesearch-solr/src/main/java/org/apache/solr/common/params/MergedSolrParams.java:136-138 | a null member reached before a match throws a NullPointerException |
| MergedParams.ClearKeepsTombstones | opencommercesearch-solr/src/main/java/org/apache/solr/common/params/MergedSolrParams.java:123-169 | after `clear`, a name that was removed still hides its default |
| MergedParams.MergedSolrParams.constructor | opencommercesearch-solr/src/main/java/org/apache/solr/common/params/MergedSolrParams.java:42-46 | no local values and nothing removed, over the given defaults |
| MergedParams.MergedSolrParams.Set | opencommercesearch-solr/src/main/java/org/apache/solr/common/params/MergedSolrParams.java:52-61 | the new contents are `SetValues` of the old ones |
| MergedParams.MergedSolrParams.Add | opencommercesearch-solr/src/main/java/org/apache/solr/common/params/MergedSolrParams.java:83-99 | the new contents are `AddValues` of the old ones |
| MergedParams.MergedSolrParams.Remove | opencommercesearch-solr/src/main/java/org/apache/solr/common/params/MergedSolrParams.java:116-119 | returns the old local values and deletes the name |
| MergedParams.MergedSolrParams.Clear | opencommercesearch-solr/src/main/java/org/apache/solr/common/params/MergedSolrParams.java:123-127 | the new contents are `Cleared` of the old ones |
| MergedParams.MergedSolrParams.RemoveValue | opencommercesearch-solr/src/main/java/org/apache/solr/common/params/MergedSolrParams.java:134-153 | the loop does what `RemoveValueOf` specifies, and on an exception nothing changes |
| MergedParams.MergedSolrParams.Get | opencommercesearch-solr/src/main/java/org/apache/solr/common/params/MergedSolrParams.java:156-169 | returns `GetOf` of the defaults and the contents |
| MergedParams.MergedSolrParams.GetParams | opencommercesearch-solr/src/main/java/org/apache/solr/common/params/MergedSolrParams.java:172-185 | returns `GetParamsOf` of the defaults and the contents |
| RulesBuilder.ParseRule | opencommercesearch-common/src/main/java/org/opencommercesearch/RulesBuilder.java:186 | a null type fails with a NullPointerException; a parsed rule's name is the upper-cased type; a type whose upper-cased form names no rule fails |
| RulesBuilder.NotAName | opencommercesearch-common/src/main/java/org/opencommercesearch/RulesBuilder.java:58-108 | a string outside the nine enum names is the name of no rule |
| RulesBuilder.ParseName | opencommercesearch-common/src/main/java/org/opencommercesearch/RulesBuilder.java:186 | every rule's name, and its lower-case form, parses back to the rule |
| RulesBuilder.GetOperator | opencommercesearch-common/src/main/java/org/opencommercesearch/RulesBuilder.java:226-233 | `ANDNOT` becomes `AND NOT`; any other operator, null included, is kept |
| RulesBuilder.CleanValue | opencommercesearch-common/src/main/java/org/opencommercesearch/RulesBuilder.java:113-116 | the value is trimmed and loses one trailing comma, if any |
| RulesBuilder.SplitSpaces | opencommercesearch-common/src/main/java/org/opencommercesearch/RulesBuilder.java:98 | a value without a space is its own only part |
| RulesBuilder.Pieces | opencommercesearch-common/src/main/java/org/opencommercesearch/RulesBuilder.java:98 | at least one piece, none holding a space |
| RulesBuilder.DropTrailingEmpty | opencommercesearch-common/src/main/java/org/opencommercesearch/RulesBuilder.java:98 | a prefix of the parts, ending in a non-empty part, after which only empty parts were dropped |
| RulesBuilder.SplitPrice | opencommercesearch-common/src/main/java/org/opencommercesearch/RulesBuilder.java:98-100 | `min max` splits into the two bounds |
| RulesBuilder.RuleFilter | opencommercesearch-common/src/main/java/org/opencommercesearch/RulesBuilder.java:58-108 | every rule but PRICE gives a filter; PRICE fails with an index error exactly when its value has fewer than two parts |
| RulesBuilder.PriceFilterReadsBack | opencommercesearch-common/src/main/java/org/opencommercesearch/RulesBuilder.java:96-102 | the PRICE filter of `min max` parses as field `salePrice<country>` with expression `[min TO max]` |
| RulesBuilder.RangeFilterReadsBack | opencommercesearch-common/src/main/java/org/opencommercesearch/RulesBuilder.java:96-102 | a range filter `field:[lo TO hi]` with no colon in its parts parses back to its field and its bracketed range |
| RulesBuilder.PctOffFilterReadsBack | opencommercesearch-common/src/main/java/org/opencommercesearch/RulesBuilder.java:59-63 | the PCT_OFF filter parses as field `discountPercent<country>` with expression `[v TO 100]` |
| RulesBuilder.ExpressionFilter | opencommercesearch-common/src/main/java/org/opencommercesearch/RulesBuilder.java:185-190 | a null type or a null value fails with a NullPointerException, and an unknown type with the parse error |
| RulesBuilder.Advance | opencommercesearch-common/src/main/java/org/opencommercesearch/RulesBuilder.java:192-213 | one loop step: the builder's text grows by the step's parts and ends with the rule's filter, a step up adds one to the nesting and a step down takes one off |
| RulesBuilder.RunSnoc | opencommercesearch-common/src/main/java/org/opencommercesearch/RulesBuilder.java:183-215 | running one more expression is one more step after the run so far, unless that failed |
| RulesBuilder.Closing | opencommercesearch-common/src/main/java/org/opencommercesearch/RulesBuilder.java:217-219 | `n` closing parentheses, none for a non-positive `n` |
| RulesBuilder.AppendExpression | opencommercesearch-common/src/main/java/org/opencommercesearch/RulesBuilder.java:192-213 | the loop body computes `Advance` |
| RulesBuilder.CloseNesting | opencommercesearch-common/src/main/java/org/opencommercesearch/RulesBuilder.java:217-219 | the loop appends one `)` per open nesting |
| RulesBuilder.BuildFilter | opencommercesearch-common/src/main/java/org/opencommercesearch/RulesBuilder.java:166-224 | the method computes `BuildFilterOf`: the category, ` OR `, the parenthesised expressions with their nesting closed, trimmed |
| RulesBuilder.RunErr | opencommercesearch-common/src/main/java/org/opencommercesearch/RulesBuilder.java:183-190 | after a failing expression, the rest of the loop does not change the failure |
| RulesBuilder.TrimBalance | opencommercesearch-common/src/main/java/org/opencommercesearch/RulesBuilder.java:223 | trimming keeps the net count of parentheses |
| RulesBuilder.AdvanceBalance | opencommercesearch-common/src/main/java/org/opencommercesearch/RulesBuilder.java:192-213 | a step's net count of parentheses rises by exactly its change of nesting, when its operator and filter have net count zero |
| RulesBuilder.RunBalance | opencommercesearch-common/src/main/java/org/opencommercesearch/RulesBuilder.java:183-215 | the text the loop appends changes the net count of parentheses by exactly the change of nesting |
| RulesBuilder.RunNesting | opencommercesearch-common/src/main/java/org/opencommercesearch/RulesBuilder.java:183-215 | with levels of at least 1, the first at most 2 and each moving by at most one, the open nesting is the current level less one and never negative |
| RulesBuilder.CategoryAlone | opencommercesearch-common/src/main/java/org/opencommercesearch/RulesBuilder.java:169-171 | a category with no expressions gives `(ancestorCategoryId:id)` |
| RulesBuilder.HeadBalance | opencommercesearch-common/src/main/java/org/opencommercesearch/RulesBuilder.java:169-177 | the category part has net count zero, and the part before the first expression has net count one |
| RulesBuilder.ExpressionsBalance | opencommercesearch-common/src/main/java/org/opencommercesearch/RulesBuilder.java:177-220 | the expressions with their closing parentheses have a net count one below the start's (net count only, not the order of the parentheses) |
| RulesBuilder.BuildFilterBalanced | opencommercesearch-common/src/main/java/org/opencommercesearch/RulesBuilder.java:166-224 | with levels moving by one and values and operators of net count zero, the filter has net count zero: as many `(` as `)` (not that no prefix closes more than it opened) |
| Ndcg.DcgConcat | opencommercesearch-relevancy-tool/app/scripts/services/ndcgservice.js:23-28 | the DCG sum over two lists in a row is the sum over the first plus the sum over the second, positions continuing |
| Ndcg.DcgNonNegative | opencommercesearch-relevancy-tool/app/scripts/services/ndcgservice.js:23-28 | with non-negative scores and a gain that vanishes at 0, the DCG sum is non-negative |
| Ndcg.Insert | opencommercesearch-relevancy-tool/app/scripts/services/ndcgservice.js:40-45 | inserting a score keeps every score and adds exactly that one |
| Ndcg.InsertSorted | opencommercesearch-relevancy-tool/app/scripts/services/ndcgservice.js:40-45 | inserting into a list sorted best first keeps it sorted |
| Ndcg.SortDesc | opencommercesearch-relevancy-tool/app/scripts/services/ndcgservice.js:40-45 | the comparator `scoreB - scoreA` orders best first: the result is sorted descending and a permutation of the input |
| Ndcg.Exchange | opencommercesearch-relevancy-tool/app/scripts/services/ndcgservice.js:27 | putting the higher score at the earlier position never lowers the sum of two adjacent terms |
| Ndcg.InsertRaisesDcg | opencommercesearch-relevancy-tool/app/scripts/services/ndcgservice.js:27-45 | placing a score at its sorted position gives at least the DCG of placing it first |
| Ndcg.SortDescMaximises | opencommercesearch-relevancy-tool/app/scripts/services/ndcgservice.js:32-53 | no order of the scores has a higher DCG than the best-first order |
| Ndcg.SortDescStep | opencommercesearch-relevancy-tool/app/scripts/services/ndcgservice.js:32-53 | moving the head into its best-first place in a best-first tail never lowers the DCG |
| Ndcg.IdealList | opencommercesearch-relevancy-tool/app/scripts/services/ndcgservice.js:37-51 | `limit` entries: the first `min(limit, n)` judgements sorted best first, then `missingScore` padding |
| Ndcg.DcgWithinIdeal | opencommercesearch-relevancy-tool/app/scripts/services/ndcgservice.js:16-54 | with no more judgements than the limit, the DCG lies between 0 and the ideal DCG |
| Ndcg.NdcgBounds | opencommercesearch-relevancy-tool/app/scripts/services/ndcgservice.js:55-66 | under the same conditions, the NDCG lies between 0 and 1 |
| Ndcg.JoinJudgements | opencommercesearch-relevancy-tool/app/scripts/services/ndcgservice.js:216-222 | one score per result, in order: the judged score, or `missingScore` for an unjudged product |
| Ndcg.QueryScoreBounds | opencommercesearch-relevancy-tool/app/scripts/services/ndcgservice.js:216-231 | a query with no judgements scores 0; when the numerics are monotone, there are at most `limit` results and every judged score is non-negative, the query score lies between 0 and 1 |
| Ndcg.Put | opencommercesearch-relevancy-tool/app/scripts/services/ndcgservice.js:239 | the written entry is present and every entry under another key survives |
| Ndcg.SiteRecords | opencommercesearch-relevancy-tool/app/scripts/services/ndcgservice.js:272-275 | only records of the site, no more than there are entries |
| Ndcg.CaseRecords | opencommercesearch-relevancy-tool/app/scripts/services/ndcgservice.js:155-162 | only records of the case, no more than there were |
| Ndcg.OtherRecords | opencommercesearch-relevancy-tool/app/scripts/services/ndcgservice.js:155-162 | only records of other cases |
| Ndcg.TotalAppend | opencommercesearch-relevancy-tool/app/scripts/services/ndcgservice.js:155-162 | one more record adds its value to the total |
| Ndcg.CaseRecordsAppend | opencommercesearch-relevancy-tool/app/scripts/services/ndcgservice.js:155-162 | one more record joins the case's records exactly when it belongs to the case |
| Ndcg.TotalWithin | opencommercesearch-relevancy-tool/app/scripts/services/ndcgservice.js:282-287 | values within [lo, hi] give a total within count*lo and count*hi |
| Ndcg.MeanWithin | opencommercesearch-relevancy-tool/app/scripts/services/ndcgservice.js:289-291 | values within [lo, hi] give a mean within [lo, hi] |
| Ndcg.SiteSplitsByCase | opencommercesearch-relevancy-tool/app/scripts/services/ndcgservice.js:155-162 | the site's records are the case's records plus the others, in count and in total |
| Ndcg.TallyCase | opencommercesearch-relevancy-tool/app/scripts/services/ndcgservice.js:152-162 | the loop counts the case's records and sums their values |
| Ndcg.TallySite | opencommercesearch-relevancy-tool/app/scripts/services/ndcgservice.js:279-287 | the loop counts the site's records and sums their values |
| Ndcg.QueryStepsOfCase | opencommercesearch-relevancy-tool/app/scripts/services/ndcgservice.js:79-90 | one query update per query of the case, all in the first phase |
| Ndcg.QuerySteps | opencommercesearch-relevancy-tool/app/scripts/services/ndcgservice.js:77-92 | every query update belongs to the first phase |
| Ndcg.CaseStepsOfSite | opencommercesearch-relevancy-tool/app/scripts/services/ndcgservice.js:99-107 | one case update per case of the site, in order |
| Ndcg.CaseSteps | opencommercesearch-relevancy-tool/app/scripts/services/ndcgservice.js:98-108 | every case update belongs to the second phase |
| Ndcg.SiteSteps | opencommercesearch-relevancy-tool/app/scripts/services/ndcgservice.js:114-118 | one site update per site, in order |
| Ndcg.QueryPhaseSettles | opencommercesearch-relevancy-tool/app/scripts/services/ndcgservice.js:94 | every query update settles, a missing parameter giving no promise at all, so the first phase always completes |
| Ndcg.NdcgService.constructor | opencommercesearch-relevancy-tool/app/scripts/services/ndcgservice.js:11-13 | the service starts with the configured result limit |
| Ndcg.NdcgService.SetResultLimit | opencommercesearch-relevancy-tool/app/scripts/services/ndcgservice.js:308-310 | the result limit becomes the given one |
| Ndcg.NdcgService.GetResultLimit | opencommercesearch-relevancy-tool/app/scripts/services/ndcgservice.js:311-313 | returns the result limit |
| Ndcg.NdcgService.Dcg | opencommercesearch-relevancy-tool/app/scripts/services/ndcgservice.js:16-31 | no judgements give 0; otherwise the loop computes the rounded DCG sum |
| Ndcg.NdcgService.Idcg | opencommercesearch-relevancy-tool/app/scripts/services/ndcgservice.js:32-54 | the DCG of the ideal list for the current result limit |
| Ndcg.NdcgService.Ndcg | opencommercesearch-relevancy-tool/app/scripts/services/ndcgservice.js:55-66 | 0 when the ideal DCG is 0; otherwise the rounded ratio of DCG to ideal DCG |
| Ndcg.NdcgService.UpdateSite | opencommercesearch-relevancy-tool/app/scripts/services/ndcgservice.js:268-307 | the site score becomes the rounded mean of the site's scores; with no scores the update never settles |
| Ndcg.NdcgService.UpdateCase | opencommercesearch-relevancy-tool/app/scripts/services/ndcgservice.js:129-196 | nothing happens without both ids; otherwise the case score becomes the rounded mean of its scores, followed by the site rollup when asked |
| Ndcg.NdcgService.UpdateQuery | opencommercesearch-relevancy-tool/app/scripts/services/ndcgservice.js:197-267 | nothing is written when a parameter is missing; otherwise the query's NDCG is written under the query and in the scores, then the case rollup when asked |
| Ndcg.NdcgService.RunStepOn | opencommercesearch-relevancy-tool/app/scripts/services/ndcgservice.js:80-115 | one update of the plan, run on the store |
| Ndcg.NdcgService.RunPhaseOn | opencommercesearch-relevancy-tool/app/scripts/services/ndcgservice.js:94-125 | the updates of one phase run in turn; the phase completes only when every update settles |
| Ndcg.NdcgService.UpdateAll | opencommercesearch-relevancy-tool/app/scripts/services/ndcgservice.js:67-128 | the query phase, then the case phase once every query update settled, then the site phase likewise |
| CategoryGraphs.Replace | opencommercesearch-atg-common/src/main/java/org/opencommercesearch/CategoryGraphBuilder.java:86 | the node at the position becomes the new one and every sibling and ancestor field stays as it was |
| CategoryGraphs.Search | opencommercesearch-atg-common/src/main/java/org/opencommercesearch/CategoryGraphBuilder.java:117-131 | none exactly when no node has the id; otherwise a node with the id, the root itself when it has the id, else inside the first child whose subtree has it, where the rest of the position is that child's own search result: the first match in preorder |
| CategoryGraphs.SearchFrom | opencommercesearch-atg-common/src/main/java/org/opencommercesearch/CategoryGraphBuilder.java:123-130 | the loop over the children from `i`: none exactly when none of them holds the id, otherwise a node inside the first one that does |
| CategoryGraphs.NamedReplace | opencommercesearch-atg-common/src/main/java/org/opencommercesearch/CategoryGraphBuilder.java:81-89 | replacing a node by a named one keeps every child named |
| CategoryGraphs.Insert | opencommercesearch-atg-common/src/main/java/org/opencommercesearch/CategoryGraphBuilder.java:114 | inserting a child keeps every child and adds that one: the same multiset plus the new child |
| CategoryGraphs.InsertSorted | opencommercesearch-atg-common/src/main/java/org/opencommercesearch/CategoryGraphBuilder.java:114 | inserting into a list sorted by id keeps it sorted |
| CategoryGraphs.SortById | opencommercesearch-atg-common/src/main/java/org/opencommercesearch/CategoryGraphBuilder.java:114 | the children sorted by id, a permutation of the input |
| CategoryGraphs.InsertWithKey | opencommercesearch-atg-common/src/main/java/org/opencommercesearch/CategoryGraphBuilder.java:114 | inserting a child puts it after every child with the same id |
| CategoryGraphs.SortByIdStable | opencommercesearch-atg-common/src/main/java/org/opencommercesearch/CategoryGraphBuilder.java:114 | the sort is stable, as `Collections.sort` is: the children with a given id keep their relative order |
| CategoryGraphs.WithKeyConcat | opencommercesearch-atg-common/src/main/java/org/opencommercesearch/CategoryGraphBuilder.java:114 | the children with a given id, taken from two lists joined, are those of the first list followed by those of the second |
| CategoryGraphs.NamedSorted | opencommercesearch-atg-common/src/main/java/org/opencommercesearch/CategoryGraphBuilder.java:114 | sorting the children keeps every child named |
| CategoryGraphs.SizeReplace | opencommercesearch-atg-common/src/main/java/org/opencommercesearch/CategoryGraphBuilder.java:81-89 | replacing a node changes the tree's size by the difference of the two nodes' sizes |
| CategoryGraphs.SizeAllSorted | opencommercesearch-atg-common/src/main/java/org/opencommercesearch/CategoryGraphBuilder.java:114 | sorting the children keeps the number of nodes |
| CategoryGraphs.CarriesReplace | opencommercesearch-atg-common/src/main/java/org/opencommercesearch/CategoryGraphBuilder.java:106-113 | a node carried by the replacement is carried by the tree |
| CategoryGraphs.CarriesLeafReplace | opencommercesearch-atg-common/src/main/java/org/opencommercesearch/CategoryGraphBuilder.java:106-113 | the labelled leaf survives when its subtree is put back into the tree |
| CategoryGraphs.CarriesSorted | opencommercesearch-atg-common/src/main/java/org/opencommercesearch/CategoryGraphBuilder.java:114 | sorting the children keeps every labelled node |
| CategoryGraphs.ToInt32 | opencommercesearch-atg-common/src/main/java/org/opencommercesearch/CategoryGraphBuilder.java:106 | the `(int)` cast of a long: in the 32-bit range, congruent modulo 2^32, and unchanged when it fits |
| CategoryGraphs.LeafId | opencommercesearch-atg-common/src/main/java/org/opencommercesearch/CategoryGraphBuilder.java:108-112 | the name after its last `.`, or the whole name when it has none; never holds a `.` |
| CategoryGraphs.PlaceLeaf | opencommercesearch-atg-common/src/main/java/org/opencommercesearch/CategoryGraphBuilder.java:94-115 | a node labelled with the leaf id, the count and the path exists; the children end sorted by id; a new node is added exactly when no node had the name; the parent keeps its id unless it is the named node itself, which takes the leaf id |
| CategoryGraphs.RecursiveAdd | opencommercesearch-atg-common/src/main/java/org/opencommercesearch/CategoryGraphBuilder.java:63-92 | no segment left changes nothing; otherwise at most one node per remaining segment is added, none removed, and the named leaf ends labelled; the node keeps its id unless it is itself the named node, relabelled with the leaf id |
| CategoryGraphs.AddPathOf | opencommercesearch-atg-common/src/main/java/org/opencommercesearch/CategoryGraphBuilder.java:54-61 | the tree keeps every non-root node named |
| CategoryGraphs.NoCategoryPathUnchanged | opencommercesearch-atg-common/src/main/java/org/opencommercesearch/CategoryGraphBuilder.java:55-56 | a path without a `categoryPath` filter leaves the tree and throws nothing |
| CategoryGraphs.RootIdIsFirstSegment | opencommercesearch-atg-common/src/main/java/org/opencommercesearch/CategoryGraphBuilder.java:57-58 | the root's id becomes the first segment of the last `categoryPath` expression, also when the filter's name is that segment |
| CategoryGraphs.LeafIsPlaced | opencommercesearch-atg-common/src/main/java/org/opencommercesearch/CategoryGraphBuilder.java:54-115 | with a named filter and a path of two or more segments, nothing is thrown and the leaf is in the tree with the filter's count and path |
| CategoryGraphs.IntermediateFound | opencommercesearch-atg-common/src/main/java/org/opencommercesearch/CategoryGraphBuilder.java:78-89 | an intermediate segment that search finds adds no node of its own |
| CategoryGraphs.SegmentIsLeafId | opencommercesearch-atg-common/src/main/java/org/opencommercesearch/CategoryGraphBuilder.java:108-112 | a segment without `.` is its own leaf id |
| CategoryGraphs.IntermediateMissing | opencommercesearch-atg-common/src/main/java/org/opencommercesearch/CategoryGraphBuilder.java:81-87 | an intermediate segment that search misses becomes a new last child with that id |
| CategoryGraphs.CategoryGraphBuilder.constructor | opencommercesearch-atg-common/src/main/java/org/opencommercesearch/CategoryGraphBuilder.java:45-48 | the root has no id and no children |
| CategoryGraphs.CategoryGraphBuilder.CategoryGraphList | opencommercesearch-atg-common/src/main/java/org/opencommercesearch/CategoryGraphBuilder.java:50-52 | every node of the list has an id |
| CategoryGraphs.CategoryGraphBuilder.AddPath | opencommercesearch-atg-common/src/main/java/org/opencommercesearch/CategoryGraphBuilder.java:54-61 | the new tree and the exception thrown are those of `AddPathOf` on the old tree |
| FeedLocaleServices.LocaleOf | opencommercesearch-common/src/main/java/org/opencommercesearch/service/localeservice/FeedLocaleService.java:70-75 | the top of the stack, or `Locale.US` when the stack is empty |
| FeedLocaleServices.KeyLocale | opencommercesearch-common/src/main/java/org/opencommercesearch/service/localeservice/FeedLocaleService.java:94-97 | a key yields a locale exactly when splitting it on `_` gives two or more parts |
| FeedLocaleServices.SupportedOf | opencommercesearch-common/src/main/java/org/opencommercesearch/service/localeservice/FeedLocaleService.java:90-99 | no more locales than keys, each one built from some key |
| FeedLocaleServices.SupportedOfAll | opencommercesearch-common/src/main/java/org/opencommercesearch/service/localeservice/FeedLocaleService.java:90-99 | when every key has two parts, one locale per key, in order |
| FeedLocaleServices.SupportedOfSkips | opencommercesearch-common/src/main/java/org/opencommercesearch/service/localeservice/FeedLocaleService.java:95 | a key with fewer than two parts adds no locale |
| FeedLocaleServices.KeyLocaleRoundTrip | opencommercesearch-common/src/main/java/org/opencommercesearch/service/localeservice/FeedLocaleService.java:94-96 | the key `language_country` of a lower-case language and an upper-case country gives back that locale |
| Locales.NewLocale | opencommercesearch-common/src/main/java/org/opencommercesearch/service/localeservice/FeedLocaleService.java:96 | the `Locale` constructor keeps the lengths, lower-cases the language and upper-cases the country |
| FeedLocaleServices.FeedLocaleService.constructor | opencommercesearch-common/src/main/java/org/opencommercesearch/service/localeservice/FeedLocaleService.java:40-43 | an empty stack, and no keys and no locales yet |
| FeedLocaleServices.FeedLocaleService.GetLocale | opencommercesearch-common/src/main/java/org/opencommercesearch/service/localeservice/FeedLocaleService.java:70-75 | the current locale is `LocaleOf` of the stack |
| FeedLocaleServices.FeedLocaleService.PushLocale | opencommercesearch-common/src/main/java/org/opencommercesearch/service/localeservice/FeedLocaleService.java:58-60 | the locale goes on top of the stack and becomes the current locale; nothing else changes |
| FeedLocaleServices.FeedLocaleService.PopLocale | opencommercesearch-common/src/main/java/org/opencommercesearch/service/localeservice/FeedLocaleService.java:62-67 | an empty stack gives null and stays empty; otherwise the top is returned and removed |
| FeedLocaleServices.FeedLocaleService.GetSupportedLocaleKeys | opencommercesearch-common/src/main/java/org/opencommercesearch/service/localeservice/FeedLocaleService.java:45-48 | the keys, or a NullPointerException when none were set |
| FeedLocaleServices.FeedLocaleService.SetSupportedLocaleKeys | opencommercesearch-common/src/main/java/org/opencommercesearch/service/localeservice/FeedLocaleService.java:50-56 | the keys are stored and the locale cache is rebuilt from them |
| FeedLocaleServices.FeedLocaleService.BuildLocaleCache | opencommercesearch-common/src/main/java/org/opencommercesearch/service/localeservice/FeedLocaleService.java:90-99 | the cache becomes the locales of the keys; the stack and the keys stay |
| FeedLocaleServices.FeedLocaleService.GetSupportedLocales | opencommercesearch-common/src/main/java/org/opencommercesearch/service/localeservice/FeedLocaleService.java:77-84 | the cached locales, or none when there is no cache |
| FeedLocaleServices.FeedLocaleService.GetSupportedLocaleCount | opencommercesearch-common/src/main/java/org/opencommercesearch/service/localeservice/FeedLocaleService.java:86-88 | the number of supported locales |
| FeedLocaleServices.FeedLocaleService.IsSupportedLocale | opencommercesearch-common/src/main/java/org/opencommercesearch/service/localeservice/FeedLocaleService.java:101-108 | true exactly when a cached locale has that language and country; no cache throws a NullPointerException |
| FeedLocaleServices.PushThenPop | opencommercesearch-common/src/main/java/org/opencommercesearch/service/localeservice/FeedLocaleService.java:58-67 | a pop after a push returns the pushed locale and restores the stack and the current locale |
| SearchFeedProductsModel.FirstWithId | opencommercesearch-atg-common/src/main/java/org/opencommercesearch/feed/SearchFeedProducts.java:42-46 | none exactly when no product has the id; otherwise the first product that has it |
| SearchFeedProductsModel.SumByRemove | opencommercesearch-atg-common/src/main/java/org/opencommercesearch/feed/SearchFeedProducts.java:78-80 | the sum over the buckets is one bucket's share plus the sum over the rest, whatever the key order |
| SearchFeedProductsModel.SumByUpdate | opencommercesearch-atg-common/src/main/java/org/opencommercesearch/feed/SearchFeedProducts.java:78-80 | replacing a bucket changes the sum by the difference of the two buckets' shares |
| SearchFeedProductsModel.SumByEmptyBuckets | opencommercesearch-atg-common/src/main/java/org/opencommercesearch/feed/SearchFeedProducts.java:78-80 | buckets that all count zero sum to zero |
| SearchFeedProductsModel.Added | opencommercesearch-atg-common/src/main/java/org/opencommercesearch/feed/SearchFeedProducts.java:53-62 | the product goes last in its locale's bucket, created empty when missing; no other bucket changes |
| SearchFeedProductsModel.AddCountsOne | opencommercesearch-atg-common/src/main/java/org/opencommercesearch/feed/SearchFeedProducts.java:53-83 | adding a product raises the product count by one |
| SearchFeedProductsModel.AddThenFind | opencommercesearch-atg-common/src/main/java/org/opencommercesearch/feed/SearchFeedProducts.java:37-62 | a product added to a bucket that held no product with its id is what `getProduct` then finds |
| SearchFeedProductsModel.ClearedCountsNothing | opencommercesearch-atg-common/src/main/java/org/opencommercesearch/feed/SearchFeedProducts.java:76-109 | after `clear` empties every bucket, the product count is 0 |
| SearchFeedProductsModel.SearchFeedProducts.constructor | opencommercesearch-atg-common/src/main/java/org/opencommercesearch/feed/SearchFeedProducts.java:27-29 | no buckets and no failures |
| SearchFeedProductsModel.SearchFeedProducts.GetProduct | opencommercesearch-atg-common/src/main/java/org/opencommercesearch/feed/SearchFeedProducts.java:37-51 | null for a null locale or id or a missing bucket; otherwise the first product of the bucket with the id |
| SearchFeedProductsModel.SearchFeedProducts.Add | opencommercesearch-atg-common/src/main/java/org/opencommercesearch/feed/SearchFeedProducts.java:53-62 | the buckets become `Added` of the old ones; the failures stay |
| SearchFeedProductsModel.SearchFeedProducts.GetLocales | opencommercesearch-atg-common/src/main/java/org/opencommercesearch/feed/SearchFeedProducts.java:64-66 | the locales that have a bucket |
| SearchFeedProductsModel.SearchFeedProducts.GetProducts | opencommercesearch-atg-common/src/main/java/org/opencommercesearch/feed/SearchFeedProducts.java:68-70 | the locale's bucket, null exactly when the locale has none |
| SearchFeedProductsModel.SearchFeedProducts.GetFailedProducts | opencommercesearch-atg-common/src/main/java/org/opencommercesearch/feed/SearchFeedProducts.java:115-117 | the ids of the failed products |
| SearchFeedProductsModel.SearchFeedProducts.GetProductCount | opencommercesearch-atg-common/src/main/java/org/opencommercesearch/feed/SearchFeedProducts.java:76-83 | the loop sums the bucket sizes over every locale |
| SearchFeedProductsModel.SearchFeedProducts.GetSkuCount | opencommercesearch-atg-common/src/main/java/org/opencommercesearch/feed/SearchFeedProducts.java:85-93 | the skus of the locale's products, a product without skus counting 0; a missing bucket throws a NullPointerException |
| SearchFeedProductsModel.SearchFeedProducts.GetMaxSkuCount | opencommercesearch-atg-common/src/main/java/org/opencommercesearch/feed/SearchFeedProducts.java:95-101 | no locale has more skus than the result, and the result is 0 or some locale's sku count |
| SearchFeedProductsModel.SearchFeedProducts.Clear | opencommercesearch-atg-common/src/main/java/org/opencommercesearch/feed/SearchFeedProducts.java:104-109 | every bucket is emptied but kept, and the failures are cleared |
| SearchFeedProductsModel.SearchFeedProducts.AddFailure | opencommercesearch-atg-common/src/main/java/org/opencommercesearch/feed/SearchFeedProducts.java:111-113 | the product's id joins the failures; the buckets stay |
| SearchFeedProductsModel.SearchFeedProducts.ClearFailures | opencommercesearch-atg-common/src/main/java/org/opencommercesearch/feed/SearchFeedProducts.java:119-121 | no failures remain; the buckets stay |
| BaseRequests.Entries | opencommercesearch-sdk-java/src/main/java/org/opencommercesearch/client/request/BaseRequest.java:85-93 | one `name=value` entry per parameter with a value, in insertion order; none exactly when every value is null |
| BaseRequests.EntriesSnoc | opencommercesearch-sdk-java/src/main/java/org/opencommercesearch/client/request/BaseRequest.java:85-93 | one more name adds its entry when its value is not null |
| BaseRequests.EntriesAllSet | opencommercesearch-sdk-java/src/main/java/org/opencommercesearch/client/request/BaseRequest.java:85-93 | with every value set, the k-th entry is the k-th name, `=` and its encoded value |
| BaseRequests.QueryString | opencommercesearch-sdk-java/src/main/java/org/opencommercesearch/client/request/BaseRequest.java:78-103 | the query string meant: the entries joined by `&`, empty exactly when every value is null |
| BaseRequests.QueryStringSplits | opencommercesearch-sdk-java/src/main/java/org/opencommercesearch/client/request/BaseRequest.java:78-103 | with names and encoded values free of `&`, splitting the query string on `&` gives back the entries |
| BaseRequests.EntriesFree | opencommercesearch-sdk-java/src/main/java/org/opencommercesearch/client/request/BaseRequest.java:85-93 | under the same conditions every entry is non-empty and free of `&` |
| BaseRequests.JoinFields | opencommercesearch-sdk-java/src/main/java/org/opencommercesearch/client/request/BaseRequest.java:109-116 | fields that are non-empty and free of `,` join into a string that splits back at `,` into exactly the same fields, in order |
| BaseRequests.BaseRequest.constructor | opencommercesearch-sdk-java/src/main/java/org/opencommercesearch/client/request/BaseRequest.java:25 | no parameters |
| BaseRequests.BaseRequest.SetParam | opencommercesearch-sdk-java/src/main/java/org/opencommercesearch/client/request/BaseRequest.java:33-35 | the value replaces any earlier one; a new name goes last |
| BaseRequests.BaseRequest.GetParam | opencommercesearch-sdk-java/src/main/java/org/opencommercesearch/client/request/BaseRequest.java:43-45 | the stored value, null for a name never set |
| BaseRequests.BaseRequest.AddParam | opencommercesearch-sdk-java/src/main/java/org/opencommercesearch/client/request/BaseRequest.java:63-70 | a first value is set as it is; a later value is appended after the separator; a later null changes nothing; a new name goes last in key order, an existing one keeps its place |
| BaseRequests.BaseRequest.GetQueryString | opencommercesearch-sdk-java/src/main/java/org/opencommercesearch/client/request/BaseRequest.java:78-103 | empty with no parameters; the joined entries when some value is set; an index error when every value is null |
| BaseRequests.BaseRequest.SetFields | opencommercesearch-sdk-java/src/main/java/org/opencommercesearch/client/request/BaseRequest.java:109-116 | a null array throws; otherwise the joined fields replace the `fields` parameter, which goes last in key order when new and keeps its place otherwise |
| BaseRequests.BaseRequest.AddField | opencommercesearch-sdk-java/src/main/java/org/opencommercesearch/client/request/BaseRequest.java:122-124 | `addParam` on `fields` with the `,` separator; `fields` goes last in key order when new and keeps its place otherwise |
| BaseRequests.BaseRequest.SetSite | opencommercesearch-sdk-java/src/main/java/org/opencommercesearch/client/request/BaseRequest.java:130-132 | the `site` parameter becomes the given one, last in key order when new and in its place otherwise |
| BaseRequests.NullOnlyParamQueryString | opencommercesearch-sdk-java/src/main/java/org/opencommercesearch/client/request/BaseRequest.java:78-103 | a request whose only parameter is null has no entries, so the query string meant is empty |
| ProductServices.Key | opencommercesearch-atg-common/src/main/java/org/opencommercesearch/api/ProductService.java:104 | the endpoint's key is its name in lower case |
| ProductServices.Url4Endpoint | opencommercesearch-atg-common/src/main/java/org/opencommercesearch/api/ProductService.java:103-122 | no endpoint map throws a NullPointerException; a missing key throws an illegal argument naming the endpoint; otherwise a URL that ends in `?preview=true` when previewing |
| ProductServices.IdFillsPlaceholder | opencommercesearch-atg-common/src/main/java/org/opencommercesearch/api/ProductService.java:110-113 | with an id, the `${id}` placeholder is replaced by the id between the host and the preview suffix |
| ProductServices.NoIdDropsPlaceholder | opencommercesearch-atg-common/src/main/java/org/opencommercesearch/api/ProductService.java:117-118 | without an id, the `/${id}` segment is removed |
| ProductServices.NoPlaceholder | opencommercesearch-atg-common/src/main/java/org/opencommercesearch/api/ProductService.java:110-120 | without a placeholder, an id is appended after `/`, and no id leaves the URL as it is, before the preview suffix |
| ProductServices.PlainAbsent | opencommercesearch-atg-common/src/main/java/org/opencommercesearch/api/ProductService.java:112 | a string without `$` contains neither placeholder |
| BrowseRequests.Endpoint | opencommercesearch-sdk-java/src/main/java/org/opencommercesearch/client/request/BrowseRequest.java:34-47 | ends in `/products`; starts with `/brands/<brand>` when there is a brand and ends with `/categories/<category>/products` when there is a category; just `/products` with neither |
| BrowseRequests.EndpointSegments | opencommercesearch-sdk-java/src/main/java/org/opencommercesearch/client/request/BrowseRequest.java:34-47 | for ids without `/`, the endpoint splits on `/` into `brands`, the brand, `categories`, the category and `products`, each pair present only with its id |
| BrowseRequests.EndpointIsPath | opencommercesearch-sdk-java/src/main/java/org/opencommercesearch/client/request/BrowseRequest.java:38-46 | the endpoint is the general path with the words `brands`, `categories` and `products` |
| BrowseRequests.PathSegments | opencommercesearch-sdk-java/src/main/java/org/opencommercesearch/client/request/BrowseRequest.java:38-46 | the general path splits back into its words and ids, whatever the words, when none holds `/` |
| FacetHandlers.Get | opencommercesearch-solr/src/main/java/org/opencommercesearch/FacetHandler.java:67 | the value of the first field with the name, none when the document has no such field |
| FacetHandlers.Values | opencommercesearch-solr/src/main/java/org/opencommercesearch/FacetHandler.java:131 | exactly the values of the fields with the name (order and repetitions: `ValuesConcat`, `ValuesOne`) |
| FacetHandlers.ValuesConcat | opencommercesearch-solr/src/main/java/org/opencommercesearch/FacetHandler.java:131 | the values of two runs of fields are those of the first followed by those of the second, repetitions kept |
| FacetHandlers.ValuesOne | opencommercesearch-solr/src/main/java/org/opencommercesearch/FacetHandler.java:131 | a single field gives its value exactly when it has the name, else nothing |
| FacetHandlers.BooleanFromField | opencommercesearch-solr/src/main/java/org/opencommercesearch/FacetHandler.java:178-180 | true exactly for `t` or `T` |
| FacetHandlers.Visible | opencommercesearch-solr/src/main/java/org/opencommercesearch/FacetHandler.java:253-257 | exactly the fields whose name is not ignored (order and repetitions: `VisibleConcat`, `VisibleOne`) |
| FacetHandlers.KeepConcat | opencommercesearch-solr/src/main/java/org/opencommercesearch/FacetHandler.java:253-257 | keeping the fields of two runs keeps those of the first followed by those of the second |
| FacetHandlers.VisibleConcat | opencommercesearch-solr/src/main/java/org/opencommercesearch/FacetHandler.java:253-257 | the fields of two runs are handed back run by run, in order, repetitions kept |
| FacetHandlers.VisibleOne | opencommercesearch-solr/src/main/java/org/opencommercesearch/FacetHandler.java:253-257 | a single field is handed back exactly when its name is not ignored |
| FacetHandlers.KeepMembers | opencommercesearch-solr/src/main/java/org/opencommercesearch/FacetHandler.java:253-257 | a field is kept exactly when it is in the document and its name is not dropped |
| FacetHandlers.VisibleKeepsAll | opencommercesearch-solr/src/main/java/org/opencommercesearch/FacetHandler.java:253-257 | a document without ignored fields is kept whole, in order |
| FacetHandlers.KeepAll | opencommercesearch-solr/src/main/java/org/opencommercesearch/FacetHandler.java:253-257 | a document with no dropped name is kept whole, in order |
| FacetHandlers.ParseFacetType | opencommercesearch-solr/src/main/java/org/opencommercesearch/FacetHandler.java:217 | a null type throws a NullPointerException; a type's own name parses to it; any other name throws an illegal argument with the message `No enum constant org.opencommercesearch.FacetHandler.FacetType.` followed by the name |
| FacetHandlers.SetParam | opencommercesearch-solr/src/main/java/org/opencommercesearch/FacetHandler.java:148-152 | a call `f.<field>.facet.<param>` only for a non-null value |
| FacetHandlers.LocalParams | opencommercesearch-solr/src/main/java/org/opencommercesearch/FacetHandler.java:68-73 | the `{!ex=...}` tag is present exactly for a multi-select facet |
| FacetHandlers.ParamNamesDiffer | opencommercesearch-solr/src/main/java/org/opencommercesearch/FacetHandler.java:150 | different parameter names give different full names |
| FacetHandlers.SetParamIsFieldParam | opencommercesearch-solr/src/main/java/org/opencommercesearch/FacetHandler.java:148-152 | every call `setParam` makes sets a parameter of that field |
| FacetHandlers.FieldParams | opencommercesearch-solr/src/main/java/org/opencommercesearch/FacetHandler.java:76-83 | at most four calls, all for the facet's field; `missing` is set exactly when the facet says so, and `limit` exactly when the facet has one |
| FacetHandlers.FieldParamsOf | opencommercesearch-solr/src/main/java/org/opencommercesearch/FacetHandler.java:76-83 | once the values are read: at most four calls for the field; `missing` exactly when asked for, `limit` exactly when given |
| FacetHandlers.FieldFacetCalls | opencommercesearch-solr/src/main/java/org/opencommercesearch/FacetHandler.java:65-85 | first the facet field, tagged when multi-select; then only parameters of that field, with `missing` and `limit` as above |
| FacetHandlers.Bound | opencommercesearch-solr/src/main/java/org/opencommercesearch/FacetHandler.java:89-91 | a missing bound is 0; otherwise `Integer.valueOf` of the value, which may fail |
| FacetHandlers.RangeCalls | opencommercesearch-solr/src/main/java/org/opencommercesearch/FacetHandler.java:100-114 | the numeric range facet first; a tagged `facet.range` exactly for a multi-select facet; `hardened` exactly when the facet says so; then `mincount` 1 and the include/other range parameters |
| FacetHandlers.RangeCallsOf | opencommercesearch-solr/src/main/java/org/opencommercesearch/FacetHandler.java:100-114 | once the name, tag and flag are read: the range facet first, a tagged `facet.range` exactly for a non-empty tag, `hardened` exactly when set, then the four fixed parameters |
| FacetHandlers.RangeFacetCalls | opencommercesearch-solr/src/main/java/org/opencommercesearch/FacetHandler.java:86-116 | succeeds exactly when the three bounds parse; a bad start bound gives its error; on success the calls for the parsed bounds |
| FacetHandlers.FacetQuery | opencommercesearch-solr/src/main/java/org/opencommercesearch/FacetHandler.java:135-139 | the trimmed query, escaped unless it starts with `[` or ends with `]` |
| FacetHandlers.QueryFacetCalls | opencommercesearch-solr/src/main/java/org/opencommercesearch/FacetHandler.java:121-144 | one facet query per configured query, in order, tagged and prefixed with the field name |
| FacetHandlers.FacetCalls | opencommercesearch-solr/src/main/java/org/opencommercesearch/FacetHandler.java:64-146 | dispatch on the facet type: a bad type fails, a date facet adds nothing, and each other type adds its own calls |
| FacetHandlers.ParamsOf | opencommercesearch-solr/src/main/java/org/opencommercesearch/FacetHandler.java:210-220 | no facets, no calls; an exception exactly when some facet fails, and then it is the first failure's |
| FacetHandlers.ParamsOfStops | opencommercesearch-solr/src/main/java/org/opencommercesearch/FacetHandler.java:215-219 | once a facet fails, the facets after it change nothing |
| FacetHandlers.FirstFailure | opencommercesearch-solr/src/main/java/org/opencommercesearch/FacetHandler.java:210-220 | no facets, no calls and no exception; no exception exactly when every facet succeeds; otherwise the exception of a facet with none failing before it |
| FacetHandlers.FirstFailureStops | opencommercesearch-solr/src/main/java/org/opencommercesearch/FacetHandler.java:215-219 | outcomes after the first failure do not change the result |
| FacetHandlers.CallsOf | opencommercesearch-solr/src/main/java/org/opencommercesearch/FacetHandler.java:210-220 | the loop over the facets makes the calls and stops at the exception `FirstFailure` gives |
| FacetHandlers.VisibleFields | opencommercesearch-solr/src/main/java/org/opencommercesearch/FacetHandler.java:251-257 | the loop keeps the fields `Visible` keeps, in order |
| FacetHandlers.FacetHandler.constructor | opencommercesearch-solr/src/main/java/org/opencommercesearch/FacetHandler.java:59 | no facets |
| FacetHandlers.FacetHandler.AddFacet | opencommercesearch-solr/src/main/java/org/opencommercesearch/FacetHandler.java:192-195 | the facet is stored under its field name, replacing an earlier one; a new name goes last |
| FacetHandlers.FacetHandler.Clear | opencommercesearch-solr/src/main/java/org/opencommercesearch/FacetHandler.java:200-204 | no facets remain |
| FacetHandlers.FacetHandler.GetFacetItem | opencommercesearch-solr/src/main/java/org/opencommercesearch/FacetHandler.java:239-241 | the facet stored under the name, or null |
| FacetHandlers.FacetHandler.GetFacets | opencommercesearch-solr/src/main/java/org/opencommercesearch/FacetHandler.java:247-263 | one entry per facet, in insertion order, each its visible fields |
| FacetHandlers.FacetHandler.SetParams | opencommercesearch-solr/src/main/java/org/opencommercesearch/FacetHandler.java:210-220 | the calls and the exception of `ParamsOf` over the facets in insertion order |
| SequentialDataLoaders.CacheOf | opencommercesearch-common/src/main/java/org/opencommercesearch/service/SequentialDataLoaderService.java:224-231 | an id is cached exactly when some row has it with a non-null item; the last row read wins |
| SequentialDataLoaders.LastId | opencommercesearch-common/src/main/java/org/opencommercesearch/service/SequentialDataLoaderService.java:218-230 | the upper bound after a load: the id of the last row read, or the requested id when none was read |
| SequentialDataLoaders.RowsInRange | opencommercesearch-common/src/main/java/org/opencommercesearch/service/SequentialDataLoaderService.java:215-230 | for rows returned in ascending order from the requested id, every row id lies between the requested id and the new upper bound |
| SequentialDataLoaders.CachedInRange | opencommercesearch-common/src/main/java/org/opencommercesearch/service/SequentialDataLoaderService.java:200-231 | after such a load every cached id lies within [minId, maxId] |
| SequentialDataLoaders.SequentialDataLoader.constructor | opencommercesearch-common/src/main/java/org/opencommercesearch/service/SequentialDataLoaderService.java:63-70 | no bounds, no cache, zero counters and a cache size of 1000 |
| SequentialDataLoaders.SequentialDataLoader.SetCacheSize | opencommercesearch-common/src/main/java/org/opencommercesearch/service/SequentialDataLoaderService.java:92-94 | the cache size becomes the given one; nothing else changes |
| SequentialDataLoaders.SequentialDataLoader.StartService | opencommercesearch-common/src/main/java/org/opencommercesearch/service/SequentialDataLoaderService.java:114-129 | a missing SQL query, then a missing repository, is reported in that order; on success both counters restart from zero |
| SequentialDataLoaders.SequentialDataLoader.CacheHitRatio | opencommercesearch-common/src/main/java/org/opencommercesearch/service/SequentialDataLoaderService.java:104-111 | 0 before any request, otherwise a percentage between 0 and 100, and 100 when every request hit |
| SequentialDataLoaders.SequentialDataLoader.Cached | opencommercesearch-common/src/main/java/org/opencommercesearch/service/SequentialDataLoaderService.java:150 | the cached item for the id, null when there is none |
| SequentialDataLoaders.SequentialDataLoader.GetItem | opencommercesearch-common/src/main/java/org/opencommercesearch/service/SequentialDataLoaderService.java:136-151 | every call counts a request; an id past an exhausted single-id range is a hit answered null; an id in range is a hit answered from the cache; any other id reloads from it, and an ascending load then covers it |
| SequentialDataLoaders.SequentialDataLoader.LoadData | opencommercesearch-common/src/main/java/org/opencommercesearch/service/SequentialDataLoaderService.java:200-247 | the cache becomes the rows' items, the lower bound the requested id and the upper bound the last id read; the counters stay |
| RuleManagerComponents.InstanceStart | opencommercesearch-solr/src/main/java/org/apache/solr/handler/component/RuleManagerComponent.java:310-316 | -1 exactly when the lower-cased name holds neither `public` nor `preview`; otherwise the first `public` when there is one, else the first `preview` |
| RuleManagerComponents.CoreName | opencommercesearch-solr/src/main/java/org/apache/solr/handler/component/RuleManagerComponent.java:308-324 | null exactly when the name holds neither instance word; otherwise the base name followed by the name from the `InstanceStart` position (first `public`, else first `preview`) on, less three trailing characters without locale |
| RuleManagerComponents.CoreNameWithoutLocale | opencommercesearch-solr/src/main/java/org/apache/solr/handler/component/RuleManagerComponent.java:318-323 | the name with locale is the name without locale followed by the core name's last three characters |
| RuleManagerComponents.CoreNameAt | opencommercesearch-solr/src/main/java/org/apache/solr/handler/component/RuleManagerComponent.java:318-319 | with locale, the suffix from the instance start follows the base name |
| RuleManagerComponents.InstanceAfterPrefix | opencommercesearch-solr/src/main/java/org/apache/solr/handler/component/RuleManagerComponent.java:314 | the instance word is found right after a prefix that does not hold it (nor `public`, for `preview` on either side) |
| RuleManagerComponents.InstanceCoreName | opencommercesearch-solr/src/main/java/org/apache/solr/handler/component/RuleManagerComponent.java:308-324 | `<prefix>Public<rest>` and `<prefix>Preview<rest>` give `<base>Public<rest>` and `<base>Preview<rest>` when the prefix holds no earlier instance word and, for `Preview`, the rest holds no `public` |
| RuleManagerComponents.NotInPrefix | opencommercesearch-solr/src/main/java/org/apache/solr/handler/component/RuleManagerComponent.java:314 | an instance word does not occur starting inside a prefix that does not hold it |
| RuleManagerComponents.NoPublicAroundPreview | opencommercesearch-solr/src/main/java/org/apache/solr/handler/component/RuleManagerComponent.java:314-316 | `public` is not found around a `preview` when neither side holds it |
| RuleManagerComponents.IsExactMatch | opencommercesearch-solr/src/main/java/org/apache/solr/handler/component/RuleManagerComponent.java:451-454 | true exactly for a non-null query that starts with `[` and ends with `]` |
| RuleManagerComponents.FilterExactMatch | opencommercesearch-solr/src/main/java/org/apache/solr/handler/component/RuleManagerComponent.java:437-445 | a rule without brackets always matches; a bracketed one matches exactly when its inside equals the query ignoring case |
| RuleManagerComponents.ExactMatchOfBracketed | opencommercesearch-solr/src/main/java/org/apache/solr/handler/component/RuleManagerComponent.java:437-445 | `[t]` matches exactly the queries equal to `t` ignoring case, the upper-cased `t` among them, and no query of another length |
| RuleManagerComponents.AnyOf | opencommercesearch-solr/src/main/java/org/apache/solr/handler/component/RuleManagerComponent.java:546-616 | every rules filter starts with the wildcard clause of its field |
| RuleManagerComponents.AnyOfSnoc | opencommercesearch-solr/src/main/java/org/apache/solr/handler/component/RuleManagerComponent.java:569-573 | one more value appends ` OR field:value` |
| RuleManagerComponents.AnyOfOne | opencommercesearch-solr/src/main/java/org/apache/solr/handler/component/RuleManagerComponent.java:549-553 | one value gives the wildcard clause, ` OR ` and the value's clause |
| RuleManagerComponents.CategoryFilter | opencommercesearch-solr/src/main/java/org/apache/solr/handler/component/RuleManagerComponent.java:546-556 | the wildcard alone for a blank token; with it, the token's clause too |
| RuleManagerComponents.BrandFilter | opencommercesearch-solr/src/main/java/org/apache/solr/handler/component/RuleManagerComponent.java:584-594 | the wildcard alone for a blank brand; with it, the brand's clause too |
| RuleManagerComponents.SiteFilter | opencommercesearch-solr/src/main/java/org/apache/solr/handler/component/RuleManagerComponent.java:564-576 | the loop gives the wildcard clause and one clause per site, none for a null array |
| RuleManagerComponents.SubTargetFilter | opencommercesearch-solr/src/main/java/org/apache/solr/handler/component/RuleManagerComponent.java:602-616 | the wildcard clause and the `Outlet` or `Retail` clause |
| RuleManagerComponents.IsOutletRequest | opencommercesearch-solr/src/main/java/org/apache/solr/handler/component/RuleManagerComponent.java:635-645 | true exactly when some filter query starts with `isCloseout:true` |
| RuleManagerComponents.GetPageType | opencommercesearch-solr/src/main/java/org/apache/solr/handler/component/RuleManagerComponent.java:351-354 | null without the parameter; a page type's name parses to it; any other value throws an illegal argument with the message `No enum constant org.apache.solr.handler.component.RuleManagerComponent.PageType.` followed by the value |
| RuleManagerComponents.TargetFilter | opencommercesearch-solr/src/main/java/org/apache/solr/handler/component/RuleManagerComponent.java:521-538 | a search page with an empty query fails; a search page targets all and search pages with the escaped query boosted; any other page all and category pages |
| RuleManagerComponents.RulesQueryOf | opencommercesearch-solr/src/main/java/org/apache/solr/handler/component/RuleManagerComponent.java:472-512 | no catalog, no query; the target filter's failure is the only error; otherwise `*:*`, the page size and the seven filters target, category, site, brand, sub-target, catalog and date, in order |
| RuleManagerComponents.GetRulesQuery | opencommercesearch-solr/src/main/java/org/apache/solr/handler/component/RuleManagerComponent.java:472-512 | the method builds the query `RulesQueryOf` specifies |
| RuleManagerComponents.ParseOrder | opencommercesearch-solr/src/main/java/org/apache/solr/handler/component/RuleManagerComponent.java:237 | only `asc` and `desc` parse; any other order throws an illegal argument with the message `No enum constant org.apache.solr.client.solrj.SolrQuery.ORDER.` followed by the order |
| RuleManagerComponents.Fields | opencommercesearch-solr/src/main/java/org/apache/solr/handler/component/RuleManagerComponent.java:236-238 | the field of every clause, in order |
| RuleManagerComponents.IncomingSorts | opencommercesearch-solr/src/main/java/org/apache/solr/handler/component/RuleManagerComponent.java:228-241 | the kept clauses never sort on `score` and name each field once |
| RuleManagerComponents.IncomingSortsParts | opencommercesearch-solr/src/main/java/org/apache/solr/handler/component/RuleManagerComponent.java:232-234 | when the merge succeeds every spec had a field and an order |
| RuleManagerComponents.IncomingSortsCovers | opencommercesearch-solr/src/main/java/org/apache/solr/handler/component/RuleManagerComponent.java:231-240 | when the merge succeeds every field but `score` is kept |
| RuleManagerComponents.FieldIndex | opencommercesearch-solr/src/main/java/org/apache/solr/handler/component/RuleManagerComponent.java:236-238 | the first spec naming the field, -1 when none does |
| RuleManagerComponents.FieldIndexSnoc | opencommercesearch-solr/src/main/java/org/apache/solr/handler/component/RuleManagerComponent.java:236-238 | a later spec never displaces the first spec of a field |
| RuleManagerComponents.FromSpecsSnoc | opencommercesearch-solr/src/main/java/org/apache/solr/handler/component/RuleManagerComponent.java:236-238 | one more spec keeps every kept clause tied to its first spec |
| RuleManagerComponents.FromSpecsAppend | opencommercesearch-solr/src/main/java/org/apache/solr/handler/component/RuleManagerComponent.java:236-238 | a clause kept for a new field is tied to its own spec |
| RuleManagerComponents.IncomingSortsFromSpecs | opencommercesearch-solr/src/main/java/org/apache/solr/handler/component/RuleManagerComponent.java:228-241 | every kept clause has the order of the first spec naming its field |
| RuleManagerComponents.IncomingSortsStops | opencommercesearch-solr/src/main/java/org/apache/solr/handler/component/RuleManagerComponent.java:231-235 | a malformed spec ends the merge with its error, whatever follows |
| RuleManagerComponents.MergedSortOf | opencommercesearch-solr/src/main/java/org/apache/solr/handler/component/RuleManagerComponent.java:220-257 | `isToos asc` first, then the incoming sorts, then `score desc` and `_version_ desc`; fails exactly when the incoming sorts do |
| RuleManagerComponents.MergeSorts | opencommercesearch-solr/src/main/java/org/apache/solr/handler/component/RuleManagerComponent.java:220-257 | the loop computes `MergedSortOf` |
| FacetManagers.FacetManager.constructor | opencommercesearch-common/src/main/java/org/opencommercesearch/FacetManager.java:51 | no facets; the map the code creates lazily starts out empty |
| FacetManagers.FacetManager.AddFacet | opencommercesearch-common/src/main/java/org/opencommercesearch/FacetManager.java:177-180 | the facet is stored under its field name, replacing an earlier one; a new name goes last in key order |
| FacetManagers.FacetManager.Clear | opencommercesearch-common/src/main/java/org/opencommercesearch/FacetManager.java:185-189 | no facets remain |
| FacetManagers.FacetManager.GetFacetItem | opencommercesearch-common/src/main/java/org/opencommercesearch/FacetManager.java:150-155 | the facet stored under the name, or null |
| FacetManagers.FacetManager.FacetFieldNames | opencommercesearch-common/src/main/java/org/opencommercesearch/FacetManager.java:160-165 | exactly the stored field names, each once |
| FacetManagers.FacetManager.FacetName | opencommercesearch-common/src/main/java/org/opencommercesearch/FacetManager.java:220-227 | the stored facet's name, or the field name itself when no facet has it |
| FacetManagers.FacetManager.FacetMinBuckets | opencommercesearch-common/src/main/java/org/opencommercesearch/FacetManager.java:247-257 | the stored facet's minimum number of buckets, or 2 when there is no facet or it has none |
| FacetManagers.FacetManager.IsMultiSelectFacet | opencommercesearch-common/src/main/java/org/opencommercesearch/FacetManager.java:267-274 | true exactly when a stored facet says it is multi-select |
| FacetManagers.FacetManager.FacetUIType | opencommercesearch-common/src/main/java/org/opencommercesearch/FacetManager.java:284-291 | the stored facet's UI type, or null without a facet |
| FacetManagers.AddFacetTwice | opencommercesearch-common/src/main/java/org/opencommercesearch/FacetManager.java:177-180 | of two facets for the same field the later one is kept, and the field keeps its first position |
| FacetManagers.CountName | opencommercesearch-common/src/main/java/org/opencommercesearch/FacetManager.java:305-312 | the name less the prefix when it starts with it; otherwise the name unchanged |
| FacetManagers.CountNameOfPrefixed | opencommercesearch-common/src/main/java/org/opencommercesearch/FacetManager.java:305-312 | a prefixed name gives back what follows the prefix |
| FacetManagers.SelectedFilter | opencommercesearch-common/src/main/java/org/opencommercesearch/FacetManager.java:323-333 | none exactly when no applied filter is selected by the count; otherwise a selected one, the last filter when it is selected |
| FacetManagers.CountPathOf | opencommercesearch-common/src/main/java/org/opencommercesearch/FacetManager.java:322-344 | a selected filter of a field other than `category` is removed from the path; otherwise the count's filter is appended to the path of the other filters, or is the whole path when that is blank |
| FacetManagers.GetCountPath | opencommercesearch-common/src/main/java/org/opencommercesearch/FacetManager.java:322-344 | the loop and the branches compute `CountPathOf` |
| FacetManagers.PrintedNotBlank | opencommercesearch-common/src/main/java/org/opencommercesearch/FacetManager.java:336-340 | the path of one or more filters is never blank |
| FacetManagers.PathWithout | opencommercesearch-common/src/main/java/org/opencommercesearch/FacetManager.java:336 | among distinct filters, skipping one leaves the printed others in order |
| FacetManagers.CountPathUnselects | opencommercesearch-common/src/main/java/org/opencommercesearch/FacetManager.java:322-338 | a count that selects exactly one applied filter links to the path without it |
| FacetManagers.CountPathAdds | opencommercesearch-common/src/main/java/org/opencommercesearch/FacetManager.java:322-343 | a count that selects none links to the applied filters followed by its own, or to its own alone |
| FacetManagers.CountPathOfNone | opencommercesearch-common/src/main/java/org/opencommercesearch/FacetManager.java:322-343 | without applied filters the count links to its own filter |
| FacetManagers.Dotted | opencommercesearch-common/src/main/java/org/opencommercesearch/FacetManager.java:413 | each category preceded by `.` |
| FacetManagers.CategoryCrumbs | opencommercesearch-common/src/main/java/org/opencommercesearch/FacetManager.java:380-414 | no crumbs for two segments or fewer; otherwise one per segment after the catalog, in order, with the filter's field and the segment unescaped as written |
| FacetManagers.DottedJoin | opencommercesearch-common/src/main/java/org/opencommercesearch/FacetManager.java:401-413 | a first segment followed by the dotted ones is the segments joined by `.` |
| FacetManagers.UnselectPathParent | opencommercesearch-common/src/main/java/org/opencommercesearch/FacetManager.java:399-410 | the k-th crumb links to its parent at level k under the catalog, followed by the pipe character and the other filters; the first links only to the other filters |
| FacetManagers.CrumbsFrom | opencommercesearch-common/src/main/java/org/opencommercesearch/FacetManager.java:392-414 | one crumb per category after the level and the catalog, in order, holding the category unescaped as written and its unselect path |
| FacetManagers.AppendCategoryCrumbs | opencommercesearch-common/src/main/java/org/opencommercesearch/FacetManager.java:386-414 | the loop over the categories, with its buffer and level counter, appends exactly `CrumbsFrom` |
| FacetManagers.CreateCategoryBreadCrumb | opencommercesearch-common/src/main/java/org/opencommercesearch/FacetManager.java:374-415 | no filter adds nothing; otherwise the loop appends the crumbs `CategoryCrumbs` gives for the path of the other filters |
| FacetManagers.CrumbsFor | opencommercesearch-common/src/main/java/org/opencommercesearch/FacetManager.java:352-361 | a category filter gives its category crumbs; any other filter one crumb with its expression unescaped as written and the path without it |
| FacetManagers.CrumbsOver | opencommercesearch-common/src/main/java/org/opencommercesearch/FacetManager.java:352-362 | no filters, no crumbs |
| FacetManagers.CrumbsOverConcat | opencommercesearch-common/src/main/java/org/opencommercesearch/FacetManager.java:352-362 | the crumbs of two runs of filters are the crumbs of the first run followed by those of the second: each filter contributes its own, in order |
| FacetManagers.CrumbsOverOne | opencommercesearch-common/src/main/java/org/opencommercesearch/FacetManager.java:352-361 | a single filter contributes exactly `CrumbsFor` it |
| FacetManagers.BreadCrumbsOf | opencommercesearch-common/src/main/java/org/opencommercesearch/FacetManager.java:346-364 | no filters, or an empty array, gives no crumbs (per-filter structure: `CrumbsOverConcat`, `CrumbsOverOne`, `CrumbsWithoutCategories`) |
| FacetManagers.GetBreadCrumbs | opencommercesearch-common/src/main/java/org/opencommercesearch/FacetManager.java:346-364 | the loop computes `BreadCrumbsOf` |
| FacetManagers.CrumbsWithoutCategories | opencommercesearch-common/src/main/java/org/opencommercesearch/FacetManager.java:352-361 | without category filters, one crumb per filter, in order |
| FacetManagers.CrumbPathsUnselect | opencommercesearch-common/src/main/java/org/opencommercesearch/FacetManager.java:346-364 | among distinct non-category filters, the k-th crumb links to the path without the k-th filter |

## Left out

- Ndcg.QueryScoreBounds: the bound to 1 assumes at most `limit` results. The code scores every result in the dcg (ndcgservice.js:37) but only the first `resultLimit` judgements in the ideal dcg (ndcgservice.js:62). With more results than the limit the score can exceed 1: with limit 1 and two results both judged 3, dcg is 7 + 7/log2(3), about 11.42, against an ideal 7, a score of about 1.63. The results come from a search that asks for at most `resultLimit` rows.

- Firebase reads and writes, promises and the `$q.all` fan-out of the relevancy tool: I/O and concurrency. `updateAll` is modelled as its three phases (queries, then cases, then the site) over an in-memory score store.
- Ndcg.NdcgService.Dcg: `Math.pow`, `Math.log` and `toFixed` are floating point, so the gain, the discount and the rounding are parameters (`Numerics`). The bounds are proved under the stated monotonicity of those parameters, not for IEEE doubles.
- Logging, `System.out` and debug output, everywhere: no effect on results.
- Ndcg.NdcgService.UpdateQuery: the result list comes from a search call, so it is a parameter.
- `ClientUtils.escapeQueryChars` is SolrJ code. The query facets of `FacetHandler` and the rule target filter of `RuleManagerComponent` take it as a parameter `escape`. `FilterQueries.Escape` writes out its documented character set only to state the unescaping round trip.
- The resource bundle of `Utils.getRangeName` is a map parameter. A key the map lacks is a missing resource, which `loadResource` reports as null.
- BaseRequests.BaseRequest.GetQueryString: `URLEncoder.encode` is a parameter.
- `MergedSolrParams`: the typed `set` overloads, `add(SolrParams)`, `getParameterNamesIterator` and `toString` are left out. They are conversions or views of the same state.
- `FeedLocaleService`: a null locale key is left out. Java `Locale` behaviour beyond language and country (legacy ISO codes, variants) is not modelled.
- SearchFeedProductsModel.SearchFeedProducts.GetProductCount: the counts are unbounded integers. Java's `int` overflow for more than 2^31-1 products is not modelled.
- `SearchFeedProducts`: a null product is not modelled, since a product is a value here. `getProduct` and `getSkuCount` would throw on a null product stored in a bucket.
- CategoryGraphs.CategoryGraphBuilder.AddPath: the tree is held as a value in the builder. The sharing of node objects between the tree and callers (aliasing) is not modelled.
- `CategoryGraph.compareTo` is taken as the order of ids, which is what the child-list sort uses.
- `FacetHandler`: the SolrJ `SolrQuery` calls of `setParams` are recorded as a sequence of `QueryCall` values rather than made.
- `SequentialDataLoaderService`: several parts are not modelled.
  - The SQL statement, the connection handling, `synchronized` and the logging are left out.
  - The result set of a query is a function parameter `source`.
  - The plain getters and setters are fields read directly.
- Strings.ParseInt: `Integer.valueOf` also accepts non-ASCII digits. The model accepts ASCII digits only.
- RulesBuilder.ParseRule, RuleManagerComponents.FilterExactMatch, RuleManagerComponents.CoreName, Locales.NewLocale: `toUpperCase` and `toLowerCase` are modelled on ASCII letters only (`Strings.ToUpper`, `Strings.ToLower`). Java's Unicode case mapping (for example of accented letters, or the Turkish dotless i) is not modelled.
- RulesBuilder.BuildFilter: a rule expression is a value whose `nestLevel` is an `int`. In the code, a missing nesting level makes the `(Integer)` unboxing throw a NullPointerException; that path is not modelled.
- RulesBuilder.ExpressionsBalance, RulesBuilder.BuildFilterBalanced: only the net count of parentheses (as many `(` as `)`) is proved. That no prefix of the filter closes more parentheses than it opened is not proved; it would also need the escaped rule values, which are a parameter, to be well nested.
- SequentialDataLoaders.SequentialDataLoader.GetItem: the result set is a total function `source`, so a failing SQL load (no connection, a failing statement) is not modelled. In the code such a failure is logged and swallowed; before the first successful load `cache` is still null, and `cache.get(id)` then throws a NullPointerException.
- SearchFeedProductsModel.SearchFeedProducts.GetSkuCount, SearchFeedProductsModel.SearchFeedProducts.GetMaxSkuCount: the sku counts are unbounded integers. Java's `int` sum wraps around past 2^31-1 skus, which is not modelled.
- `RuleManagerComponent`: several parts are I/O against Solr and are not modelled.
  - The rule-type `setParams`, `searchRules`, `setFilterQueries` and the debug output.
  - The `prepare` request flow around the sort merge, redirects and `getSearchHandler`.
- `FacetManager`: `setParams` and the `FacetType` dispatch go through ATG repository items and Solr queries, so they are left out.
- The `FacetField`, `Count` and `RangeFacet` overloads of the `FacetManager` getters are modelled through the field name they read.
- The lazily created `facetMap` of `FacetManager` is modelled as an empty map from the start.
- BaseRequests.BaseRequest.AddParam: the overload without a separator is the same operation with `,`.
- The other setters of `BrowseRequest` and `SearchRequest` only set plain parameters, which is `SetParam`.
- ProductServices.Url: the one-argument `getUrl4Endpoint(endpoint)` is the case without an id.

## Findings

| source | as written | input that shows it | evidently intended | confidence | as-written member | corrected member |
|---|---|---|---|---|---|---|
| opencommercesearch-common/src/main/java/org/opencommercesearch/FilterQuery.java:117-125 | a backslash followed by a special character is dropped, and the special character is then looked at again; an escaped backslash in front of an escaped special character is lost | `\\\:` (the escaped form of `\:`) unescapes to `:` | unescaping undoes `escapeQueryChars`, copying each escaped character as it is | not executed | FilterQueries.UnescapeLosesEscapedBackslash | FilterQueries.UnescapeCorrected |
| opencommercesearch-common/src/main/java/org/opencommercesearch/Utils.java:102-116 | `StringUtils.split(expr, " TO ")` splits on any of the characters space, `T` and `O`, so a bound holding `T` or `O` falls apart | `[NOW TO *]` splits into `N`, `W`, `*` and is returned unnamed | split on the whole separator ` TO `, naming `[NOW TO *]` an `after` range | not executed | Utils.RangeNameOfNowSplitsApart | Utils.GetRangeNameCorrected |
| opencommercesearch-sdk-java/src/main/java/org/opencommercesearch/client/request/BaseRequest.java:78-103 | with parameters that are all null the buffer stays empty, and `setLength(length - 1)` throws | one parameter `q` set to null | an empty query string | not executed | BaseRequests.NullOnlyParamQueryString | BaseRequests.QueryString |

The operations that use these pieces model the code as written. The corrected members carry the intended property:

- `FacetManager` breadcrumbs unescape with `Unescape`, the loop as written. `UnescapeEscapeRoundTrip` proves that `UnescapeCorrected` undoes escaping.
- `GetRangeNameCorrectedOfBounds` and `RangeNameOfNowCorrected` state the intended range names.
- `BaseRequest.GetQueryString` models the code as written. It returns `Err(IndexOutOfBounds)` exactly in the all-null case, and equals `QueryString` otherwise. `QueryStringSplits` proves the round trip for `QueryString`.
