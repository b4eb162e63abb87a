/** `RulesBuilder`: the Solr filter of a rule-based category, built from its
    rule expressions. Each expression names a rule type, a value, a boolean
    operator and a nesting level; a step up in level opens a parenthesis and a
    step down closes one. */
module RulesBuilder {
  import opened Wrappers
  import opened Strings
  import opened FilterQueries

  datatype Rule = PctOff | Category | Brand | Gender | ShowSale | PastSeason | Outlet | Price | Keyword

  /** The enum constant's name. */
  function Name(rule: Rule): string {
    match rule
    case PctOff => "PCT_OFF"
    case Category => "CATEGORY"
    case Brand => "BRAND"
    case Gender => "GENDER"
    case ShowSale => "SHOW_SALE"
    case PastSeason => "PAST_SEASON"
    case Outlet => "OUTLET"
    case Price => "PRICE"
    case Keyword => "KEYWORD"
  }

  /** `Rule.valueOf(type.toUpperCase())`: a null type fails with a
      NullPointerException, an unknown name with an IllegalArgumentException. */
  function ParseRule(ruleType: Option<string>): (r: Result<Rule>)
    ensures ruleType.None? ==> r == Err(NullPointer)
    ensures r.Ok? ==> ruleType.Some? && Name(r.value) == ToUpper(ruleType.value)
    ensures ruleType.Some? && r.Err? ==> forall rule: Rule :: Name(rule) != ToUpper(ruleType.value)
  {
    match ruleType
    case None => Err(NullPointer)
    case Some(t) =>
      var name := ToUpper(t);
      if name == "PCT_OFF" then Ok(PctOff)
      else if name == "CATEGORY" then Ok(Category)
      else if name == "BRAND" then Ok(Brand)
      else if name == "GENDER" then Ok(Gender)
      else if name == "SHOW_SALE" then Ok(ShowSale)
      else if name == "PAST_SEASON" then Ok(PastSeason)
      else if name == "OUTLET" then Ok(Outlet)
      else if name == "PRICE" then Ok(Price)
      else if name == "KEYWORD" then Ok(Keyword)
      else
        NotAName(name);
        Err(IllegalArgument("No enum constant org.opencommercesearch.RulesBuilder.Rule." + name))
  }

  lemma NotAName(name: string)
    requires name !in {"PCT_OFF", "CATEGORY", "BRAND", "GENDER", "SHOW_SALE", "PAST_SEASON", "OUTLET", "PRICE", "KEYWORD"}
    ensures forall rule: Rule :: Name(rule) != name
  {
    forall rule: Rule ensures Name(rule) != name {
      match rule
      case PctOff =>
      case Category =>
      case Brand =>
      case Gender =>
      case ShowSale =>
      case PastSeason =>
      case Outlet =>
      case Price =>
      case Keyword =>
    }
  }

  lemma ToUpperOfUpper(s: string)
    requires forall k :: 0 <= k < |s| ==> !('a' <= s[k] <= 'z')
    ensures ToUpper(s) == s
  {
  }

  /** Every rule is read back from its name, in any letter case. */
  lemma ParseName(rule: Rule)
    ensures ParseRule(Some(Name(rule))) == Ok(rule)
    ensures ParseRule(Some(ToLower(Name(rule)))) == Ok(rule)
  {
    var n := Name(rule);
    ToUpperOfUpper(n);
    assert ToUpper(ToLower(n)) == n;
  }

  /** `getOperator`: `ANDNOT` is rendered `AND NOT`; any other operator,
      null included, is kept. */
  function GetOperator(operator: Option<string>): (r: Option<string>)
    ensures operator == Some("ANDNOT") ==> r == Some("AND NOT")
    ensures operator != Some("ANDNOT") ==> r == operator
  {
    if operator == Some("ANDNOT") then Some("AND NOT") else operator
  }

  /** `Rule.toFilter(ruleItem, ...)`: the value trimmed, without one trailing comma. */
  function CleanValue(value: string): (r: string)
    ensures EndsWith(Trim(value), ",") ==> r + "," == Trim(value)
    ensures !EndsWith(Trim(value), ",") ==> r == Trim(value)
  {
    var v := Trim(value);
    if EndsWith(v, ",") then v[..|v| - 1] else v
  }

  /** `ruleValue.split(" ")` as Java's `String.split` does it: every space
      separates, trailing empty pieces are dropped, and a string without a
      space is its own only piece. */
  function SplitSpaces(s: string): (r: seq<string>)
    ensures ' ' !in s ==> r == [s]
  {
    if ' ' !in s then [s] else DropTrailingEmpty(Pieces(s))
  }

  /** The pieces between spaces, empty ones included. */
  function Pieces(s: string): (r: seq<string>)
    ensures |r| >= 1
    ensures forall i :: 0 <= i < |r| ==> ' ' !in r[i]
    decreases |s|
  {
    var k := IndexOf(s, " ");
    if k == -1 then
      assert forall i :: 0 <= i < |s| ==> s[i] != ' ' by {
        forall i | 0 <= i < |s| ensures s[i] != ' ' { OccursSpace(s, i); }
      }
      [s]
    else
      var head := s[..k];
      assert forall i :: 0 <= i < k ==> head[i] != ' ' by {
        forall i | 0 <= i < k ensures head[i] != ' ' { OccursSpace(s, i); }
      }
      [head] + Pieces(s[k + 1..])
  }

  lemma OccursSpace(s: string, i: int)
    requires 0 <= i < |s|
    ensures OccursAt(s, " ", i) <==> s[i] == ' '
  {
    assert s[i..i + 1] == [s[i]];
  }

  function DropTrailingEmpty(ps: seq<string>): (r: seq<string>)
    ensures |r| <= |ps| && r == ps[..|r|]
    ensures r == [] || r[|r| - 1] != []
    ensures forall i :: |r| <= i < |ps| ==> ps[i] == []
  {
    if ps == [] || ps[|ps| - 1] != [] then ps else DropTrailingEmpty(ps[..|ps| - 1])
  }

  lemma SplitPrice(min: string, max: string)
    requires ' ' !in min && ' ' !in max && max != []
    ensures SplitSpaces(min + " " + max) == [min, max]
  {
    var s := min + " " + max;
    FirstSpace(min, max);
    assert s[..|min|] == min;
    assert s[|min| + 1..] == max;
    NoSpacePiece(max);
    calc {
      Pieces(s);
      [min] + Pieces(max);
      [min, max];
    }
    assert ' ' in s by { assert s[|min|] == ' '; }
  }

  /** The first space of `min + " " + max` is the one between them. */
  lemma FirstSpace(min: string, max: string)
    requires ' ' !in min
    ensures IndexOf(min + " " + max, " ") == |min|
  {
    var s := min + " " + max;
    assert OccursAt(s, " ", |min|) by { assert s[|min|..|min| + 1] == " "; }
    forall i | 0 <= i < |min| ensures !OccursAt(s, " ", i) {
      OccursSpace(s, i);
      assert s[i] == min[i];
    }
  }

  /** A string without a space is a single piece. */
  lemma NoSpacePiece(s: string)
    requires ' ' !in s
    ensures Pieces(s) == [s]
  {
    forall i | 0 <= i < |s| ensures !OccursAt(s, " ", i) { OccursSpace(s, i); }
    assert IndexOf(s, " ") == -1;
  }

  /** `Rule.toFilter(ruleValue, locale, ...)` for the locale's country.
      Query syntax in gender and keyword values is escaped by `escape`;
      a price value needs a space-separated minimum and maximum. */
  function RuleFilter(rule: Rule, value: string, country: string, escape: string -> string): (r: Result<string>)
    ensures rule != Price ==> r.Ok?
    ensures rule == Price ==> (r.Ok? <==> |SplitSpaces(value)| >= 2)
    ensures r.Err? ==> r.error == IndexOutOfBounds
  {
    match rule
    case PctOff => Ok("discountPercent" + country + ":" + "[" + value + " TO 100]")
    case Category => Ok("ancestorCategoryId:" + value)
    case Brand => Ok("brandId:" + value)
    case Gender => Ok("gender:" + escape(value))
    case ShowSale => Ok("onsale" + country + ":" + value)
    case PastSeason => Ok("isPastSeason:" + value)
    case Outlet => Ok("isCloseout:" + value)
    case Price =>
      var parts := SplitSpaces(value);
      if |parts| < 2 then Err(IndexOutOfBounds)
      else Ok("salePrice" + country + ":[" + parts[0] + " TO " + parts[1] + "]")
    case Keyword => Ok("keyword:" + escape(value))
  }

  /** A price rule reads back as a filter on the country's sale price over the
      range from the minimum to the maximum. */
  lemma PriceFilterReadsBack(min: string, max: string, country: string, escape: string -> string)
    requires ' ' !in min && ' ' !in max && min != [] && max != []
    requires ':' !in country && ':' !in min && ':' !in max
    ensures RuleFilter(Price, min + " " + max, country, escape).Ok?
    ensures Parse(Some(RuleFilter(Price, min + " " + max, country, escape).value))
         == Ok(FilterQuery("salePrice" + country, "[" + min + " TO " + max + "]"))
  {
    SplitPrice(min, max);
    assert ':' !in "salePrice";
    RangeFilterReadsBack("salePrice" + country, min, max);
  }

  /** A range filter printed as `field:[lo TO hi]` parses back. */
  lemma RangeFilterReadsBack(field: string, lo: string, hi: string)
    requires field != [] && ':' !in field && ':' !in lo && ':' !in hi
    ensures Parse(Some(field + ":[" + lo + " TO " + hi + "]")) == Ok(FilterQuery(field, "[" + lo + " TO " + hi + "]"))
  {
    var e := "[" + lo + " TO " + hi + "]";
    assert ':' !in " TO " && ':' !in "[" && ':' !in "]";
    assert field + ":[" + lo + " TO " + hi + "]" == ToString(FilterQuery(field, e));
    ParsePrint(FilterQuery(field, e));
  }

  /** A percent-off rule reads back as a filter on the country's discount
      from the value up to 100. */
  lemma PctOffFilterReadsBack(value: string, country: string, escape: string -> string)
    requires ':' !in country && ':' !in value
    ensures Parse(Some(RuleFilter(PctOff, value, country, escape).value))
         == Ok(FilterQuery("discountPercent" + country, "[" + value + " TO 100]"))
  {
    var fq := FilterQuery("discountPercent" + country, "[" + value + " TO 100]");
    assert ToString(fq) == "discountPercent" + country + ":" + "[" + value + " TO 100]";
    ParsePrint(fq);
  }

  /** A rule expression as the repository stores it. */
  datatype Expression = Expression(ruleType: Option<string>, value: Option<string>, nestLevel: int, operator: Option<string>)

  /** `Rule.toFilter(ruleItem, ...)` with the rule type resolved first: a
      null value fails with a NullPointerException. */
  function ExpressionFilter(e: Expression, country: string, escape: string -> string): (r: Result<string>)
    ensures e.ruleType.None? ==> r == Err(NullPointer)
    ensures ParseRule(e.ruleType).Ok? && e.value.None? ==> r == Err(NullPointer)
    ensures ParseRule(e.ruleType).Err? ==> r == Err(ParseRule(e.ruleType).error)
  {
    match ParseRule(e.ruleType)
    case Err(err) => Err(err)
    case Ok(rule) =>
      match e.value
      case None => Err(NullPointer)
      case Some(v) => RuleFilter(rule, CleanValue(v), country, escape)
  }

  /** The state of the loop of `buildFilter`. */
  datatype Builder = Builder(filter: string, current: int, nesting: int, isFirst: bool)

  /** One iteration of the loop of `buildFilter`, once the expression's
      filter and operator are known: the operator joins it to the previous
      one on the same level, a step up opens a parenthesis, and a step down
      closes one before the operator. */
  function Advance(b: Builder, level: int, operator: string, ruleString: string): (r: Builder)
    ensures !r.isFirst && r.current == level
    ensures r.nesting == b.nesting + (if level > b.current then 1 else if level < b.current then -1 else 0)
    ensures StartsWith(r.filter, b.filter) && EndsWith(r.filter, ruleString)
    ensures b.isFirst && level == b.current ==> r.filter == b.filter + ruleString
  {
    var closing := level < b.current;
    var f1 := b.filter + (if !b.isFirst && !closing then " " + operator + " " else "");
    var f2 := f1 + (if level > b.current then "(" else "");
    var f3 := f2 + (if closing then ")" + " " + operator + " " else "");
    var n := b.nesting + (if level > b.current then 1 else if closing then -1 else 0);
    assert (f3 + ruleString)[..|b.filter|] == b.filter;
    assert (f3 + ruleString)[|f3|..] == ruleString;
    Builder(f3 + ruleString, level, n, false)
  }

  function Step(b: Builder, e: Expression, country: string, escape: string -> string): Result<Builder> {
    match ExpressionFilter(e, country, escape)
    case Err(err) => Err(err)
    case Ok(ruleString) => Ok(Advance(b, e.nestLevel, Text(GetOperator(e.operator)), ruleString))
  }

  /** The loop of `buildFilter` over the first expressions; the first failure
      stops it. */
  function Run(b: Builder, es: seq<Expression>, country: string, escape: string -> string): Result<Builder> {
    if es == [] then Ok(b)
    else
      match Run(b, es[..|es| - 1], country, escape)
      case Err(err) => Err(err)
      case Ok(b1) => Step(b1, es[|es| - 1], country, escape)
  }

  lemma RunSnoc(b: Builder, es: seq<Expression>, i: nat, country: string, escape: string -> string)
    requires i < |es|
    ensures Run(b, es[..i + 1], country, escape)
         == match Run(b, es[..i], country, escape)
            case Err(err) => Err(err)
            case Ok(b1) => Step(b1, es[i], country, escape)
  {
    assert es[..i + 1][..i] == es[..i];
  }

  /** `n` closing parentheses. */
  function Closing(n: int): (r: string)
    ensures |r| == if n > 0 then n else 0
    ensures forall k :: 0 <= k < |r| ==> r[k] == ')'
    decreases n
  {
    if n <= 0 then [] else Closing(n - 1) + ")"
  }

  /** The category part of the filter. */
  function Head(category: Option<string>): string {
    if category.Some? then "(" + "ancestorCategoryId:" + category.value + ")" else ""
  }

  /** The filter before the first expression. */
  function Start(category: Option<string>): string {
    Head(category) + (if category.Some? then " OR " else "") + "("
  }

  /** The expressions, each joined by its operator, with every open nesting
      and the outer parenthesis closed. */
  function Expressions(start: string, es: seq<Expression>, country: string, escape: string -> string): Result<string> {
    match Run(Builder(start, 1, 0, true), es, country, escape)
    case Err(err) => Err(err)
    case Ok(b) => Ok(b.filter + Closing(b.nesting) + ")")
  }

  /** `buildFilter(category, ruleExpressions, locale)`: the category, then
      ` OR ` and the parenthesised expressions; the result is trimmed. */
  function BuildFilterOf(category: Option<string>, es: seq<Expression>, country: string, escape: string -> string): Result<string> {
    if |es| == 0 then Ok(Trim(Head(category)))
    else
      match Expressions(Start(category), es, country, escape)
      case Err(err) => Err(err)
      case Ok(f) => Ok(Trim(f))
  }

  /** The body of the loop of `buildFilter` after the expression's filter
      and operator are known. */
  method AppendExpression(filter: string, currentNestLevel: int, nesting: int, isFirst: bool,
                          nestLevel: int, operator: string, ruleString: string)
    returns (filter': string, currentNestLevel': int, nesting': int, isFirst': bool)
    ensures Builder(filter', currentNestLevel', nesting', isFirst')
         == Advance(Builder(filter, currentNestLevel, nesting, isFirst), nestLevel, operator, ruleString)
  {
    filter', nesting' := filter, nesting;
    var isClosingLevel := nestLevel < currentNestLevel;
    if !isFirst && !isClosingLevel {
      filter' := filter' + " " + operator + " ";
    }
    if nestLevel > currentNestLevel {
      nesting' := nesting' + 1;
      filter' := filter' + "(";
    }
    if nestLevel < currentNestLevel {
      nesting' := nesting' - 1;
      filter' := filter' + ")";
      filter' := filter' + " " + operator + " ";
    }
    currentNestLevel' := nestLevel;
    filter' := filter' + ruleString;
    isFirst' := false;
  }

  /** The second loop of `buildFilter`: one closing parenthesis per open nesting. */
  method CloseNesting(filter: string, nesting: int) returns (r: string)
    ensures r == filter + Closing(nesting)
  {
    r := filter;
    var n := 0;
    while n < nesting
      invariant 0 <= n && (nesting > 0 ==> n <= nesting) && (nesting <= 0 ==> n == 0)
      invariant r == filter + Closing(n)
    {
      r := r + ")";
      n := n + 1;
    }
    assert n == if nesting > 0 then nesting else 0;
  }

  /** `buildFilter`, with its two loops. */
  method BuildFilter(category: Option<string>, es: seq<Expression>, country: string, escape: string -> string)
    returns (r: Result<string>)
    ensures r == BuildFilterOf(category, es, country, escape)
  {
    var filter := "";
    if category.Some? {
      filter := filter + "(" + "ancestorCategoryId:" + category.value + ")";
    }
    assert filter == Head(category);
    if |es| == 0 {
      return Ok(Trim(filter));
    }
    if category.Some? {
      filter := filter + " OR ";
    }
    filter := filter + "(";
    assert filter == Start(category);
    ghost var b0 := Builder(filter, 1, 0, true);
    var currentNestLevel := 1;
    var nesting := 0;
    var isFirst := true;
    var i := 0;
    while i < |es|
      invariant 0 <= i <= |es|
      invariant Run(b0, es[..i], country, escape) == Ok(Builder(filter, currentNestLevel, nesting, isFirst))
    {
      var e := es[i];
      RunSnoc(b0, es, i, country, escape);
      ghost var before := Builder(filter, currentNestLevel, nesting, isFirst);
      var rule := ParseRule(e.ruleType);
      if rule.Err? {
        RunErr(b0, es, i + 1, country, escape);
        return Err(rule.error);
      }
      var operator := Text(GetOperator(e.operator));
      if e.value.None? {
        RunErr(b0, es, i + 1, country, escape);
        return Err(NullPointer);
      }
      var ruleString := RuleFilter(rule.value, CleanValue(e.value.value), country, escape);
      assert ExpressionFilter(e, country, escape) == ruleString;
      if ruleString.Err? {
        RunErr(b0, es, i + 1, country, escape);
        return Err(ruleString.error);
      }
      ghost var after := Advance(before, e.nestLevel, operator, ruleString.value);
      filter, currentNestLevel, nesting, isFirst :=
        AppendExpression(filter, currentNestLevel, nesting, isFirst, e.nestLevel, operator, ruleString.value);
      assert after == Builder(filter, currentNestLevel, nesting, isFirst);
      i := i + 1;
    }
    assert es[..i] == es;
    filter := CloseNesting(filter, nesting);
    filter := filter + ")";
    assert Expressions(Start(category), es, country, escape) == Ok(filter);
    return Ok(Trim(filter));
  }

  /** Once an expression fails, the whole loop fails with its exception. */
  lemma {:induction false} RunErr(b: Builder, es: seq<Expression>, i: nat, country: string, escape: string -> string)
    requires i <= |es| && Run(b, es[..i], country, escape).Err?
    ensures Run(b, es, country, escape) == Run(b, es[..i], country, escape)
    decreases |es|
  {
    if i == |es| {
      assert es[..i] == es;
    } else {
      var init := es[..|es| - 1];
      assert init[..i] == es[..i];
      RunErr(b, init, i, country, escape);
    }
  }

  // ---------------------------------------------------------------------
  // Balanced parentheses

  /** The net count of parentheses: opening minus closing. Net zero says
      there are as many of each, not that no prefix closes more than it
      opened. */
  function Balance(s: string): int {
    if s == [] then 0
    else Balance(s[..|s| - 1]) + (if s[|s| - 1] == '(' then 1 else if s[|s| - 1] == ')' then -1 else 0)
  }

  lemma {:induction false} BalanceConcat(a: string, b: string)
    ensures Balance(a + b) == Balance(a) + Balance(b)
    decreases |b|
  {
    if b == [] {
      assert a + b == a;
    } else {
      assert (a + b)[..|a + b| - 1] == a + b[..|b| - 1];
      BalanceConcat(a, b[..|b| - 1]);
    }
  }

  /** Characters other than parentheses. */
  lemma {:induction false} BalanceOfSpace(s: string)
    requires forall k :: 0 <= k < |s| ==> s[k] <= ' '
    ensures Balance(s) == 0
    decreases |s|
  {
    if s != [] {
      BalanceOfSpace(s[..|s| - 1]);
    }
  }

  lemma {:induction false} BalanceCounts(s: string)
    ensures Balance(s) == multiset(s)['('] as int - multiset(s)[')'] as int
    decreases |s|
  {
    if s != [] {
      assert s == s[..|s| - 1] + [s[|s| - 1]];
      BalanceCounts(s[..|s| - 1]);
    }
  }

  lemma {:induction false} BalanceNoParens(s: string)
    requires '(' !in s && ')' !in s
    ensures Balance(s) == 0
    decreases |s|
  {
    if s != [] {
      assert s[..|s| - 1] + [s[|s| - 1]] == s;
      BalanceNoParens(s[..|s| - 1]);
    }
  }

  lemma TrimBalance(s: string)
    ensures Balance(Trim(s)) == Balance(s)
  {
    TrimStartBalance(s);
    TrimEndBalance(TrimStart(s));
  }

  lemma TrimStartBalance(s: string)
    ensures Balance(TrimStart(s)) == Balance(s)
  {
    var t := TrimStart(s);
    var spaces := s[..|s| - |t|];
    assert s == spaces + t;
    TrimStartDropsSpace(s);
    assert forall k :: 0 <= k < |spaces| ==> spaces[k] == s[k];
    BalanceOfSpace(spaces);
    BalanceConcat(spaces, t);
  }

  lemma TrimEndBalance(t: string)
    ensures Balance(TrimEnd(t)) == Balance(t)
  {
    var u := TrimEnd(t);
    var spaces := t[|u|..];
    assert t == u + spaces;
    TrimEndDropsSpace(t);
    assert forall k :: 0 <= k < |spaces| ==> spaces[k] == t[|u| + k];
    BalanceOfSpace(spaces);
    BalanceConcat(u, spaces);
  }

  lemma {:induction false} TrimStartDropsSpace(s: string)
    ensures forall k :: 0 <= k < |s| - |TrimStart(s)| ==> s[k] <= ' '
    decreases |s|
  {
    if s != [] && s[0] <= ' ' {
      TrimStartDropsSpace(s[1..]);
      forall k | 1 <= k < |s| - |TrimStart(s)| ensures s[k] <= ' ' {
        assert s[k] == s[1..][k - 1];
      }
    }
  }

  lemma {:induction false} TrimEndDropsSpace(s: string)
    ensures forall k :: |TrimEnd(s)| <= k < |s| ==> s[k] <= ' '
    decreases |s|
  {
    if s != [] && s[|s| - 1] <= ' ' {
      TrimEndDropsSpace(s[..|s| - 1]);
    }
  }

  /** The parts an expression adds besides the parentheses of its level have
      a net count of zero. */
  predicate PartsBalanced(e: Expression, country: string, escape: string -> string) {
    && Balance(Text(GetOperator(e.operator))) == 0
    && (ExpressionFilter(e, country, escape).Ok? ==> Balance(ExpressionFilter(e, country, escape).value) == 0)
  }

  /** One step adds the balance of its parts and of the parenthesis it
      opens or closes. */
  lemma AdvanceBalance(b: Builder, level: int, operator: string, ruleString: string)
    requires Balance(operator) == 0 && Balance(ruleString) == 0
    ensures Balance(Advance(b, level, operator, ruleString).filter) == Balance(b.filter) + Advance(b, level, operator, ruleString).nesting - b.nesting
  {
    var closing := level < b.current;
    var p1 := if !b.isFirst && !closing then " " + operator + " " else "";
    var p2 := if level > b.current then "(" else "";
    var p3 := if closing then ")" + " " + operator + " " else "";
    BalanceConcat(" " + operator, " ");
    BalanceConcat(" ", operator);
    BalanceConcat(")" + " " + operator, " ");
    BalanceConcat(")" + " ", operator);
    BalanceConcat(")", " ");
    assert Balance(p1) == 0;
    assert Balance(p2) == (if level > b.current then 1 else 0);
    assert Balance(p3) == (if closing then -1 else 0);
    BalanceConcat(b.filter, p1);
    BalanceConcat(b.filter + p1, p2);
    BalanceConcat(b.filter + p1 + p2, p3);
    BalanceConcat(b.filter + p1 + p2 + p3, ruleString);
    assert Advance(b, level, operator, ruleString).filter == b.filter + p1 + p2 + p3 + ruleString;
  }

  /** The loop opens a parenthesis exactly when `nesting` goes up and closes
      one exactly when it goes down. */
  lemma {:induction false} RunBalance(b: Builder, es: seq<Expression>, country: string, escape: string -> string)
    requires forall i :: 0 <= i < |es| ==> PartsBalanced(es[i], country, escape)
    ensures Run(b, es, country, escape).Ok? ==>
      Balance(Run(b, es, country, escape).value.filter) == Balance(b.filter) + Run(b, es, country, escape).value.nesting - b.nesting
    decreases |es|
  {
    if es != [] {
      var init := es[..|es| - 1];
      RunBalance(b, init, country, escape);
      var e := es[|es| - 1];
      assert PartsBalanced(e, country, escape);
      var r := Run(b, init, country, escape);
      var f := ExpressionFilter(e, country, escape);
      if r.Ok? && f.Ok? {
        AdvanceBalance(r.value, e.nestLevel, Text(GetOperator(e.operator)), f.value);
      }
    }
  }

  /** Levels that start at 1 or 2 and move by at most one, never below 1. */
  predicate StepsByOne(es: seq<Expression>) {
    && (forall i :: 0 <= i < |es| ==> es[i].nestLevel >= 1)
    && (es != [] ==> es[0].nestLevel <= 2)
    && (forall i :: 0 < i < |es| ==> -1 <= es[i].nestLevel - es[i - 1].nestLevel <= 1)
  }

  /** With levels moving by one, the open nesting is the current level less one. */
  lemma {:induction false} RunNesting(es: seq<Expression>, start: string, country: string, escape: string -> string)
    requires StepsByOne(es)
    ensures Run(Builder(start, 1, 0, true), es, country, escape).Ok? ==>
      var b := Run(Builder(start, 1, 0, true), es, country, escape).value;
      b.nesting == b.current - 1 && b.nesting >= 0 && (es != [] ==> b.current == es[|es| - 1].nestLevel)
    decreases |es|
  {
    if es != [] {
      var init, e := es[..|es| - 1], es[|es| - 1];
      assert forall i :: 0 <= i < |init| ==> init[i] == es[i];
      assert StepsByOne(init);
      RunNesting(init, start, country, escape);
      var r := Run(Builder(start, 1, 0, true), init, country, escape);
      var f := ExpressionFilter(e, country, escape);
      if r.Ok? && f.Ok? {
        assert init != [] ==> r.value.current == es[|es| - 2].nestLevel;
        assert -1 <= e.nestLevel - r.value.current <= 1;
        var b := Advance(r.value, e.nestLevel, Text(GetOperator(e.operator)), f.value);
        assert Run(Builder(start, 1, 0, true), es, country, escape) == Ok(b);
      }
    }
  }

  /** A category alone is the parenthesised category filter. */
  lemma CategoryAlone(categoryId: string, country: string, escape: string -> string)
    ensures BuildFilterOf(Some(categoryId), [], country, escape) == Ok("(ancestorCategoryId:" + categoryId + ")")
  {
    var s := "(ancestorCategoryId:" + categoryId + ")";
    assert "(" + "ancestorCategoryId:" + categoryId + ")" == s;
    assert s[0] == '(' && s[|s| - 1] == ')';
    assert TrimStart(s) == s;
    assert TrimEnd(s) == s;
  }

  /** The net counts of the literal pieces of a filter. */
  lemma LiteralBalances()
    ensures Balance(" OR ") == 0 && Balance("") == 0
    ensures Balance("(") == 1 && Balance(")") == -1
    ensures Balance("ancestorCategoryId:") == 0
  {
    BalanceNoParens(" OR ");
    BalanceNoParens("ancestorCategoryId:");
    BalanceCounts("(");
    BalanceCounts(")");
  }

  lemma HeadBalance(category: Option<string>)
    requires category.Some? ==> Balance(category.value) == 0
    ensures Balance(Head(category)) == 0
    ensures Balance(Start(category)) == 1
  {
    LiteralBalances();
    var mid := if category.Some? then " OR " else "";
    if category.Some? {
      var v := category.value;
      BalanceConcat("(", "ancestorCategoryId:");
      BalanceConcat("(" + "ancestorCategoryId:", v);
      BalanceConcat("(" + "ancestorCategoryId:" + v, ")");
      assert Head(category) == "(" + "ancestorCategoryId:" + v + ")";
    }
    BalanceConcat(Head(category), mid);
    BalanceConcat(Head(category) + mid, "(");
  }

  /** The expressions and the closing parentheses after them have a net count
      one below the start's: they close the one parenthesis it leaves open. */
  lemma ExpressionsBalance(start: string, es: seq<Expression>, country: string, escape: string -> string)
    requires StepsByOne(es)
    requires forall i :: 0 <= i < |es| ==> PartsBalanced(es[i], country, escape)
    ensures Expressions(start, es, country, escape).Ok? ==> Balance(Expressions(start, es, country, escape).value) == Balance(start) - 1
  {
    var run := Run(Builder(start, 1, 0, true), es, country, escape);
    RunBalance(Builder(start, 1, 0, true), es, country, escape);
    RunNesting(es, start, country, escape);
    if run.Ok? {
      var b := run.value;
      var c := Closing(b.nesting);
      ClosingBalance(b.nesting);
      BalanceConcat(b.filter, c);
      BalanceConcat(b.filter + c, ")");
    }
  }

  /** Expressions whose levels move by one, and whose values and operators
      have a net count of zero, give a filter whose net count of parentheses
      is zero. */
  lemma BuildFilterBalanced(category: Option<string>, es: seq<Expression>, country: string, escape: string -> string)
    requires category.Some? ==> Balance(category.value) == 0
    requires StepsByOne(es)
    requires forall i :: 0 <= i < |es| ==> PartsBalanced(es[i], country, escape)
    ensures BuildFilterOf(category, es, country, escape).Ok? ==> Balance(BuildFilterOf(category, es, country, escape).value) == 0
  {
    HeadBalance(category);
    TrimBalance(Head(category));
    if |es| > 0 {
      ExpressionsBalance(Start(category), es, country, escape);
      var f := Expressions(Start(category), es, country, escape);
      if f.Ok? {
        TrimBalance(f.value);
      }
    }
  }

  lemma {:induction false} ClosingBalance(n: int)
    ensures Balance(Closing(n)) == -(if n > 0 then n else 0)
    decreases n
  {
    if n > 0 {
      ClosingBalance(n - 1);
      BalanceConcat(Closing(n - 1), ")");
    }
  }
}
