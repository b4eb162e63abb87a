/** `FilterQuery`: a Solr filter `field:expression`, the parser of a
    `|`-separated filter path, and the unescaping of query syntax characters. */
module FilterQueries {
  import opened Wrappers
  import opened Strings

  /** The character between the field name and the expression. */
  const Separator: char := ':'

  /** The character between the filters of a path (`Utils.PATH_SEPARATOR`). */
  const PathSeparator: char := '|'

  datatype FilterQuery = FilterQuery(fieldName: string, expression: string)

  /** `new FilterQuery(filterQuery)`: exactly two `:`-separated tokens (empty
      tokens do not count), else an IllegalArgumentException; null fails with
      a NullPointerException. */
  function Parse(filterQuery: Option<string>): (r: Result<FilterQuery>)
    ensures filterQuery.None? ==> r == Err(NullPointer)
    ensures filterQuery.Some? ==> (r.Ok? <==> |Split(filterQuery.value, {Separator})| == 2)
    ensures filterQuery.Some? && r.Err? ==> r.error == IllegalArgument("Invalid filter query " + filterQuery.value)
    ensures r.Ok? ==> [r.value.fieldName, r.value.expression] == Split(filterQuery.value, {Separator})
    ensures r.Ok? ==> r.value.fieldName != [] && r.value.expression != []
    ensures r.Ok? ==> Separator !in r.value.fieldName && Separator !in r.value.expression
  {
    match filterQuery
    case None => Err(NullPointer)
    case Some(s) =>
      var parts := Split(s, {Separator});
      if |parts| != 2 then Err(IllegalArgument("Invalid filter query " + s))
      else
        assert forall k :: 0 <= k < |parts[0]| ==> parts[0][k] != Separator;
        assert forall k :: 0 <= k < |parts[1]| ==> parts[1][k] != Separator;
        Ok(FilterQuery(parts[0], parts[1]))
  }

  /** `toString`. */
  function ToString(fq: FilterQuery): string {
    fq.fieldName + [Separator] + fq.expression
  }

  /** A filter whose printed form the parsers read back. */
  predicate WellFormed(fq: FilterQuery) {
    && fq.fieldName != [] && fq.expression != []
    && Separator !in fq.fieldName && Separator !in fq.expression
  }

  /** Printing then parsing a filter gives it back. */
  lemma ParsePrint(fq: FilterQuery)
    requires WellFormed(fq)
    ensures Parse(Some(ToString(fq))) == Ok(fq)
  {
    SplitCons(fq.fieldName, Separator, fq.expression, {Separator});
    SplitSingle(fq.expression, {Separator});
  }

  /** A string without a colon is no filter. */
  lemma ParseNeedsSeparator(s: string)
    requires Separator !in s
    ensures Parse(Some(s)) == Err(IllegalArgument("Invalid filter query " + s))
  {
    if s != [] {
      SplitSingle(s, {Separator});
    }
  }

  /** A string with three colon-separated tokens is no filter either. */
  lemma ParseRejectsThreeTokens(a: string, b: string, c: string)
    requires WellFormed(FilterQuery(a, b)) && c != [] && Separator !in c
    ensures Parse(Some(a + [Separator] + b + [Separator] + c)).Err?
  {
    SplitCons(b, Separator, c, {Separator});
    assert a + [Separator] + b + [Separator] + c == a + [Separator] + (b + [Separator] + c);
    SplitCons(a, Separator, b + [Separator] + c, {Separator});
    SplitSingle(c, {Separator});
  }

  /** `equals`: false for null, else the field names and the expressions agree. */
  function EqualsFilter(fq: FilterQuery, other: Option<FilterQuery>): (r: bool)
    ensures r <==> other == Some(fq)
  {
    other.Some? && fq.fieldName == other.value.fieldName && fq.expression == other.value.expression
  }

  /** Each segment parsed in order; the first segment that fails decides the exception. */
  function ParseEach(segments: seq<string>): (r: Result<seq<FilterQuery>>)
    ensures r.Ok? ==> |r.value| == |segments|
    ensures r.Ok? ==> forall k :: 0 <= k < |segments| ==> Parse(Some(segments[k])) == Ok(r.value[k])
    ensures r.Err? ==> exists k :: 0 <= k < |segments| && Parse(Some(segments[k])).Err?
  {
    if segments == [] then Ok([])
    else
      match Parse(Some(segments[0]))
      case Err(e) => Err(e)
      case Ok(fq) =>
        match ParseEach(segments[1..])
        case Err(e) =>
          assert forall k :: 0 <= k < |segments| - 1 ==> segments[1..][k] == segments[k + 1];
          Err(e)
        case Ok(rest) =>
          var r := [fq] + rest;
          assert forall k :: 1 <= k < |segments| ==> segments[k] == segments[1..][k - 1] && r[k] == rest[k - 1];
          Ok(r)
  }

  /** What `parseFilterQueries` computes: null for null, else one filter
      per non-empty `|`-separated segment. */
  function ParsePath(filterQueries: Option<string>): Result<Option<seq<FilterQuery>>> {
    match filterQueries
    case None => Ok(None)
    case Some(s) =>
      match ParseEach(Split(s, {PathSeparator}))
      case Err(e) => Err(e)
      case Ok(fqs) => Ok(Some(fqs))
  }

  /** `parseFilterQueries`: splits the path and parses its segments one by one. */
  method ParseFilterQueries(filterQueries: Option<string>) returns (r: Result<Option<seq<FilterQuery>>>)
    ensures r == ParsePath(filterQueries)
    ensures filterQueries.None? ==> r == Ok(None)
    ensures r.Ok? && r.value.Some? ==> |r.value.value| == |Split(filterQueries.value, {PathSeparator})|
  {
    if filterQueries.None? {
      return Ok(None);
    }
    var segments := Split(filterQueries.value, {PathSeparator});
    var output: seq<FilterQuery> := [];
    var i := 0;
    while i < |segments|
      invariant 0 <= i <= |segments|
      invariant ParseEach(segments[..i]) == Ok(output)
    {
      var fq := Parse(Some(segments[i]));
      if fq.Err? {
        ParseEachStops(segments, i);
        return Err(fq.error);
      }
      ParseEachSnoc(segments[..i], segments[i], output);
      assert segments[..i + 1] == segments[..i] + [segments[i]];
      output := output + [fq.value];
      i := i + 1;
    }
    assert segments[..i] == segments;
    r := Ok(Some(output));
  }

  /** The first segment that fails to parse makes the whole path fail with its exception. */
  lemma {:induction false} ParseEachStops(segments: seq<string>, i: nat)
    requires i < |segments|
    requires ParseEach(segments[..i]).Ok?
    requires Parse(Some(segments[i])).Err?
    ensures ParseEach(segments) == Err(Parse(Some(segments[i])).error)
    decreases i
  {
    if i > 0 {
      assert segments[..i][0] == segments[0];
      assert Parse(Some(segments[0])).Ok?;
      assert segments[1..][..i - 1] == segments[..i][1..];
      assert ParseEach(segments[..i][1..]).Ok?;
      ParseEachStops(segments[1..], i - 1);
    }
  }

  lemma {:induction false} ParseEachSnoc(segments: seq<string>, last: string, parsed: seq<FilterQuery>)
    requires ParseEach(segments) == Ok(parsed)
    requires Parse(Some(last)).Ok?
    ensures ParseEach(segments + [last]) == Ok(parsed + [Parse(Some(last)).value])
    decreases |segments|
  {
    if segments == [] {
      var v := Parse(Some(last)).value;
      assert segments + [last] == [last];
      assert [last][0] == last && [last][1..] == [];
      assert ParseEach([last]) == Ok([v] + []);
      assert parsed == [];
      assert parsed + [v] == [v] + [];
    } else {
      assert Parse(Some(segments[0])) == Ok(parsed[0]);
      assert ParseEach(segments[1..]) == Ok(parsed[1..]);
      assert (segments + [last])[0] == segments[0];
      assert (segments + [last])[1..] == segments[1..] + [last];
      ParseEachSnoc(segments[1..], last, parsed[1..]);
      assert parsed + [Parse(Some(last)).value] == [parsed[0]] + (parsed[1..] + [Parse(Some(last)).value]);
    }
  }

  /** The path `createPath` prints for a list of filters. */
  function Printed(fqs: seq<FilterQuery>): (r: seq<string>)
    ensures |r| == |fqs| && forall k :: 0 <= k < |fqs| ==> r[k] == ToString(fqs[k])
  {
    if fqs == [] then [] else [ToString(fqs[0])] + Printed(fqs[1..])
  }

  /** Printing well-formed filters without `|` as a path and parsing it back
      gives the same filters in the same order. */
  lemma ParsePathPrinted(fqs: seq<FilterQuery>)
    requires forall k :: 0 <= k < |fqs| ==> WellFormed(fqs[k])
    requires forall k :: 0 <= k < |fqs| ==> PathSeparator !in fqs[k].fieldName && PathSeparator !in fqs[k].expression
    ensures ParsePath(Some(Join(Printed(fqs), [PathSeparator]))) == Ok(Some(fqs))
  {
    var parts := Printed(fqs);
    forall i | 0 <= i < |parts| ensures PathSeparator !in parts[i] {
      PrintedFree(fqs[i]);
    }
    SplitJoin(parts, PathSeparator);
    forall k | 0 <= k < |fqs| ensures Parse(Some(parts[k])) == Ok(fqs[k]) {
      ParsePrint(fqs[k]);
    }
    ParseEachAll(parts, fqs);
  }

  lemma PrintedFree(fq: FilterQuery)
    requires PathSeparator !in fq.fieldName && PathSeparator !in fq.expression
    ensures PathSeparator !in ToString(fq)
  {
  }

  lemma {:induction false} ParseEachAll(segments: seq<string>, fqs: seq<FilterQuery>)
    requires |segments| == |fqs|
    requires forall k :: 0 <= k < |fqs| ==> Parse(Some(segments[k])) == Ok(fqs[k])
    ensures ParseEach(segments) == Ok(fqs)
    decreases |segments|
  {
    if segments != [] {
      ParseEachAll(segments[1..], fqs[1..]);
      assert fqs == [fqs[0]] + fqs[1..];
    }
  }

  // ---------------------------------------------------------------------
  // Unescaping

  /** The characters of the query syntax that an escape may precede. */
  predicate Special(c: char) {
    || c == '\\' || c == '+' || c == '-' || c == '!' || c == '(' || c == ')' || c == ':' || c == '^'
    || c == '[' || c == ']' || c == '"' || c == '{' || c == '}' || c == '~' || c == '*'
    || c == '?' || c == '|' || c == '&' || c == ';' || c == '/' || IsWhitespace(c)
  }

  /** A backslash directly before a special character at position `i`. */
  predicate EscapeAt(s: string, i: int) {
    0 <= i && i + 1 < |s| && s[i] == '\\' && Special(s[i + 1])
  }

  /** What `unescapeQueryChars` appends for the characters from `i` on: a
      backslash before a special character is skipped, and the character after
      it is then looked at as if it stood on its own. */
  function UnescapeFrom(s: string, i: nat): (r: string)
    requires i <= |s|
    ensures |r| <= |s| - i
    decreases |s| - i
  {
    if i == |s| then []
    else if s[i] != '\\' then [s[i]] + UnescapeFrom(s, i + 1)
    else if EscapeAt(s, i) then UnescapeFrom(s, i + 1)
    else ['\\'] + UnescapeFrom(s, i + 1)
  }

  /** `unescapeQueryChars` as written. */
  method UnescapeQueryChars(s: string) returns (r: string)
    ensures r == UnescapeFrom(s, 0)
  {
    var sb: string := [];
    var i := 0;
    while i < |s|
      invariant 0 <= i <= |s|
      invariant sb + UnescapeFrom(s, i) == UnescapeFrom(s, 0)
    {
      var c := s[i];
      if c != '\\' {
        sb := sb + [c];
        i := i + 1;
        continue;
      }
      if i + 1 < |s| {
        c := s[i + 1];
        if Special(c) {
          i := i + 1;
          continue;
        }
      }
      sb := sb + ['\\'];
      i := i + 1;
    }
    r := sb;
  }

  /** Unescaping changes a string exactly when some backslash in it precedes
      a special character, and then it shortens it. */
  lemma {:induction false} UnescapeChangesOnlyEscapes(s: string, i: nat)
    requires i <= |s|
    ensures (exists j :: i <= j && EscapeAt(s, j)) ==> |UnescapeFrom(s, i)| < |s| - i
    ensures (forall j :: i <= j ==> !EscapeAt(s, j)) ==> UnescapeFrom(s, i) == s[i..]
    decreases |s| - i
  {
    if i < |s| {
      UnescapeChangesOnlyEscapes(s, i + 1);
      assert s[i..] == [s[i]] + s[i + 1..];
      if exists j :: i <= j && EscapeAt(s, j) {
        var j :| i <= j && EscapeAt(s, j);
        if j > i {
          assert exists j' :: i + 1 <= j' && EscapeAt(s, j');
        }
      }
    }
  }

  /** Unescaping only ever removes backslashes: every other character
      occurs as often after it as before. */
  lemma {:induction false} UnescapeDropsOnlyBackslashes(s: string, i: nat, c: char)
    requires i <= |s| && c != '\\'
    ensures multiset(UnescapeFrom(s, i))[c] == multiset(s[i..])[c]
    decreases |s| - i
  {
    if i < |s| {
      UnescapeDropsOnlyBackslashes(s, i + 1, c);
      var rest := UnescapeFrom(s, i + 1);
      assert s[i..] == [s[i]] + s[i + 1..];
      if s[i] != '\\' {
        assert UnescapeFrom(s, i) == [s[i]] + rest;
      } else if !EscapeAt(s, i) {
        assert UnescapeFrom(s, i) == ['\\'] + rest;
      }
    }
  }

  /** `ClientUtils.escapeQueryChars`: a backslash before every special character. */
  function Escape(s: string): (r: string)
    ensures |r| >= |s|
  {
    if s == [] then []
    else (if Special(s[0]) then ['\\', s[0]] else [s[0]]) + Escape(s[1..])
  }

  /** An escaped backslash in front of a special character does not survive
      unescaping: the escaped form of `\:` unescapes to `:`. */
  lemma UnescapeLosesEscapedBackslash()
    ensures Escape("\\:") == "\\\\\\:"
    ensures UnescapeFrom("\\\\\\:", 0) == ":"
  {
    var e := "\\\\\\:";
    assert Escape(":") == "\\:";
    assert Escape("\\:") == "\\\\" + Escape(":");
    assert EscapeAt(e, 0) && EscapeAt(e, 1) && EscapeAt(e, 2);
    assert UnescapeFrom(e, 3) == ":";
  }

  /** Unescaping that copies the escaped character as it is. */
  function UnescapeCorrected(s: string): (r: string)
    ensures |r| <= |s|
  {
    if s == [] then []
    else if EscapeAt(s, 0) then [s[1]] + UnescapeCorrected(s[2..])
    else [s[0]] + UnescapeCorrected(s[1..])
  }

  /** With the escaped character copied as it is, unescaping undoes escaping. */
  lemma {:induction false} UnescapeEscapeRoundTrip(s: string)
    ensures UnescapeCorrected(Escape(s)) == s
    decreases |s|
  {
    if s != [] {
      UnescapeEscapeRoundTrip(s[1..]);
      var e := Escape(s);
      if Special(s[0]) {
        assert e == ['\\', s[0]] + Escape(s[1..]);
        assert EscapeAt(e, 0);
        assert e[2..] == Escape(s[1..]);
      } else {
        assert e == [s[0]] + Escape(s[1..]);
        assert !EscapeAt(e, 0);
        assert e[1..] == Escape(s[1..]);
      }
    }
  }

  /** `unescapeQueryChars(s)` as written. */
  function Unescape(s: string): (r: string)
    ensures |r| <= |s|
    ensures (exists j :: EscapeAt(s, j)) <==> r != s
    ensures (forall k :: 0 <= k < |s| ==> s[k] != '\\') ==> r == s
  {
    UnescapeChangesOnlyEscapes(s, 0);
    assert s[0..] == s;
    UnescapeFrom(s, 0)
  }

  /** `getUnescapeExpression`: the expression unescaped as written. */
  function UnescapedExpression(fq: FilterQuery): (r: string)
    ensures |r| <= |fq.expression|
    ensures (exists j :: EscapeAt(fq.expression, j)) <==> r != fq.expression
    ensures (forall k :: 0 <= k < |fq.expression| ==> fq.expression[k] != '\\') ==> r == fq.expression
  {
    Unescape(fq.expression)
  }

  lemma {:induction false} UnescapeNoBackslash(s: string)
    ensures (forall k :: 0 <= k < |s| ==> s[k] != '\\') ==> UnescapeCorrected(s) == s
    decreases |s|
  {
    if s != [] {
      UnescapeNoBackslash(s[1..]);
    }
  }
}
