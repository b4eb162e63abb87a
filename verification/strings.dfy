/** The string operations of the Java platform and of commons-lang
    `StringUtils` that the modelled code relies on, written out over
    `seq<char>`.

    Case mapping is ASCII-only (see README, "Left out"). */
module Strings {
  import opened Wrappers

  predicate StartsWith(s: string, prefix: string) {
    |prefix| <= |s| && s[..|prefix|] == prefix
  }

  predicate EndsWith(s: string, suffix: string) {
    |suffix| <= |s| && s[|s| - |suffix|..] == suffix
  }

  /** `p` occurs in `s` at position `k`. */
  predicate OccursAt(s: string, p: string, k: int) {
    0 <= k && k + |p| <= |s| && s[k..k + |p|] == p
  }

  /** `String.indexOf(p, from)`: the first position at or after `from` where `p` occurs, or -1. */
  function IndexFrom(s: string, p: string, from: nat): (r: int)
    requires from <= |s|
    ensures r == -1 || (from <= r && OccursAt(s, p, r))
    ensures r == -1 ==> forall k :: from <= k ==> !OccursAt(s, p, k)
    ensures r != -1 ==> forall k :: from <= k < r ==> !OccursAt(s, p, k)
    decreases |s| - from
  {
    if |s| - from < |p| then -1
    else if s[from..from + |p|] == p then from
    else IndexFrom(s, p, from + 1)
  }

  /** `String.indexOf(p)`. */
  function IndexOf(s: string, p: string): (r: int)
    ensures r == -1 || OccursAt(s, p, r)
    ensures r == -1 <==> forall k :: !OccursAt(s, p, k)
    ensures r != -1 ==> forall k :: 0 <= k < r ==> !OccursAt(s, p, k)
  {
    IndexFrom(s, p, 0)
  }

  /** `String.contains(p)`. */
  predicate Contains(s: string, p: string) {
    IndexOf(s, p) != -1
  }

  /** `String.lastIndexOf(c)`. */
  function LastIndexOf(s: string, c: char): (r: int)
    ensures -1 <= r < |s|
    ensures r != -1 ==> s[r] == c && forall k :: r < k < |s| ==> s[k] != c
    ensures r == -1 ==> forall k :: 0 <= k < |s| ==> s[k] != c
  {
    if s == [] then -1
    else if s[|s| - 1] == c then |s| - 1
    else LastIndexOf(s[..|s| - 1], c)
  }

  /** `String.replace(target, replacement)` and `StringUtils.replace`: every
      occurrence of a non-empty `target`, found left to right without
      overlap, is replaced. */
  function Replace(s: string, target: string, replacement: string): string
    requires target != []
    decreases |s|
  {
    if |s| < |target| then s
    else if s[..|target|] == target then replacement + Replace(s[|target|..], target, replacement)
    else [s[0]] + Replace(s[1..], target, replacement)
  }

  lemma {:induction false} ReplaceAbsent(s: string, target: string, replacement: string)
    requires target != []
    requires !Contains(s, target)
    ensures Replace(s, target, replacement) == s
    decreases |s|
  {
    if |s| >= |target| {
      assert !OccursAt(s, target, 0);
      forall k ensures !OccursAt(s[1..], target, k) {
        if OccursAt(s[1..], target, k) {
          assert s[1..][k..k + |target|] == s[k + 1..k + 1 + |target|];
          assert OccursAt(s, target, k + 1);
        }
      }
      ReplaceAbsent(s[1..], target, replacement);
    }
  }

  /** An occurrence at the front is replaced and the scan resumes after it. */
  lemma ReplaceHead(target: string, rest: string, replacement: string)
    requires target != []
    ensures Replace(target + rest, target, replacement) == replacement + Replace(rest, target, replacement)
  {
    var s := target + rest;
    assert s[..|target|] == target;
    assert s[|target|..] == rest;
  }

  /** A prefix without the target's first character is copied unchanged. */
  lemma {:induction false} ReplaceSkip(a: string, rest: string, target: string, replacement: string)
    requires target != [] && target[0] !in a
    ensures Replace(a + rest, target, replacement) == a + Replace(rest, target, replacement)
    decreases |a|
  {
    if a != [] {
      var s := a + rest;
      assert s[0] == a[0] != target[0];
      assert s[1..] == a[1..] + rest;
      ReplaceSkip(a[1..], rest, target, replacement);
      if |s| < |target| {
        ReplaceShort(rest, target, replacement);
        ReplaceShort(a[1..] + rest, target, replacement);
      } else {
        assert s[..|target|][0] == s[0];
      }
    } else {
      assert a + rest == rest;
    }
  }

  lemma ReplaceShort(s: string, target: string, replacement: string)
    requires target != [] && |s| < |target|
    ensures Replace(s, target, replacement) == s
  {
  }

  /** Number of leading characters of `s` that are not separators. */
  function TokenLength(s: string, separators: set<char>): (n: nat)
    ensures n <= |s|
    ensures forall k :: 0 <= k < n ==> s[k] !in separators
    ensures n < |s| ==> s[n] in separators
  {
    if s == [] || s[0] in separators then 0 else 1 + TokenLength(s[1..], separators)
  }

  /** `StringUtils.split(s, separatorChars)`: the maximal runs of characters
      that are not in `separators`, in order. Adjacent separators produce no
      empty token. */
  function Split(s: string, separators: set<char>): (r: seq<string>)
    ensures forall i :: 0 <= i < |r| ==> r[i] != []
    ensures forall i, k :: 0 <= i < |r| && 0 <= k < |r[i]| ==> r[i][k] !in separators
    decreases |s|
  {
    if s == [] then []
    else if s[0] in separators then Split(s[1..], separators)
    else
      var n := TokenLength(s, separators);
      [s[..n]] + Split(s[n..], separators)
  }

  /** A token followed by a separator splits off as the first token. */
  lemma SplitCons(a: string, c: char, b: string, separators: set<char>)
    requires a != [] && c in separators
    requires forall k :: 0 <= k < |a| ==> a[k] !in separators
    ensures Split(a + [c] + b, separators) == [a] + Split(b, separators)
  {
    var s := a + [c] + b;
    TokenLengthPrefix(a, [c] + b, separators);
    assert s == a + ([c] + b);
    assert s[..|a|] == a;
    assert s[|a|..] == [c] + b;
    assert ([c] + b)[1..] == b;
  }

  lemma {:induction false} TokenLengthPrefix(a: string, rest: string, separators: set<char>)
    requires forall k :: 0 <= k < |a| ==> a[k] !in separators
    requires rest == [] || rest[0] in separators
    ensures TokenLength(a + rest, separators) == |a|
    decreases |a|
  {
    if a != [] {
      assert (a + rest)[1..] == a[1..] + rest;
      TokenLengthPrefix(a[1..], rest, separators);
    } else {
      assert a + rest == rest;
    }
  }

  /** A single token with no separator splits to itself. */
  lemma SplitSingle(a: string, separators: set<char>)
    requires a != []
    requires forall k :: 0 <= k < |a| ==> a[k] !in separators
    ensures Split(a, separators) == [a]
  {
    TokenLengthPrefix(a, [], separators);
    assert a + [] == a;
    assert a[..|a|] == a;
    assert a[|a|..] == [];
  }

  /** Joining tokens free of a separator character and splitting on that
      character gives the tokens back. */
  lemma {:induction false} SplitJoin(parts: seq<string>, c: char)
    requires forall i :: 0 <= i < |parts| ==> parts[i] != []
    requires forall i, k :: 0 <= i < |parts| && 0 <= k < |parts[i]| ==> parts[i][k] != c
    ensures Split(Join(parts, [c]), {c}) == parts
    decreases |parts|
  {
    if |parts| == 1 {
      SplitSingle(parts[0], {c});
    } else if |parts| > 1 {
      SplitJoin(parts[1..], c);
      SplitCons(parts[0], c, Join(parts[1..], [c]), {c});
      assert parts == [parts[0]] + parts[1..];
    }
  }

  /** `StringUtils.join(parts, sep)`. */
  function Join(parts: seq<string>, sep: string): string {
    if parts == [] then []
    else if |parts| == 1 then parts[0]
    else parts[0] + sep + Join(parts[1..], sep)
  }

  lemma {:induction false} JoinSnoc(parts: seq<string>, x: string, sep: string)
    requires parts != []
    ensures Join(parts + [x], sep) == Join(parts, sep) + sep + x
    decreases |parts|
  {
    if |parts| == 1 {
      assert (parts + [x])[1..] == [x];
    } else {
      assert (parts + [x])[1..] == parts[1..] + [x];
      JoinSnoc(parts[1..], x, sep);
    }
  }

  /** A join starts with its first part. */
  lemma {:induction false} JoinHead(parts: seq<string>, sep: string)
    requires parts != []
    ensures StartsWith(Join(parts, sep), parts[0])
  {
    if |parts| > 1 {
      assert Join(parts, sep) == parts[0] + (sep + Join(parts[1..], sep));
    }
  }

  lemma {:induction false} JoinLast(parts: seq<string>, sep: string)
    requires parts != []
    ensures EndsWith(Join(parts, sep), parts[|parts| - 1])
    decreases |parts|
  {
    if |parts| > 1 {
      JoinLast(parts[1..], sep);
      var j := Join(parts[1..], sep);
      var last := parts[|parts| - 1];
      assert Join(parts, sep) == parts[0] + sep + j;
      assert j[|j| - |last|..] == last;
      assert (parts[0] + sep + j)[|parts[0] + sep + j| - |last|..] == j[|j| - |last|..];
    }
  }

  /** `Character.isWhitespace`: Unicode space, line and paragraph separators
      other than the non-breaking ones, and the ASCII controls 9-13 and 28-31. */
  predicate IsWhitespace(c: char) {
    || c == ' ' || c == '\t' || c == '\n' || c == '\U{000B}' || c == '\U{000C}' || c == '\r'
    || ('\U{001C}' <= c <= '\U{001F}')
    || c == '\U{1680}' || ('\U{2000}' <= c <= '\U{2006}') || ('\U{2008}' <= c <= '\U{200A}')
    || c == '\U{2028}' || c == '\U{2029}' || c == '\U{205F}' || c == '\U{3000}'
  }

  /** `StringUtils.isBlank`: empty or whitespace only. */
  predicate IsBlank(s: string) {
    forall k :: 0 <= k < |s| ==> IsWhitespace(s[k])
  }

  /** `String.trim`: strips every leading and trailing character at or below U+0020. */
  function Trim(s: string): (r: string)
    ensures |r| <= |s|
    ensures r == [] || (r[0] > ' ' && r[|r| - 1] > ' ')
  {
    TrimEnd(TrimStart(s))
  }

  function TrimStart(s: string): (r: string)
    ensures |r| <= |s| && (r == [] || r[0] > ' ')
    ensures r == s[|s| - |r|..]
  {
    if s != [] && s[0] <= ' ' then TrimStart(s[1..]) else s
  }

  function TrimEnd(s: string): (r: string)
    ensures |r| <= |s| && (r == [] || r[|r| - 1] > ' ')
    ensures r == s[..|r|]
  {
    if s != [] && s[|s| - 1] <= ' ' then TrimEnd(s[..|s| - 1]) else s
  }

  function LowerChar(c: char): char {
    if 'A' <= c <= 'Z' then (c as int + 32) as char else c
  }

  function UpperChar(c: char): char {
    if 'a' <= c <= 'z' then (c as int - 32) as char else c
  }

  /** `String.toLowerCase` on ASCII letters. */
  function ToLower(s: string): (r: string)
    ensures |r| == |s| && forall k :: 0 <= k < |s| ==> r[k] == LowerChar(s[k])
  {
    seq(|s|, k requires 0 <= k < |s| => LowerChar(s[k]))
  }

  /** `String.toUpperCase` on ASCII letters. */
  function ToUpper(s: string): (r: string)
    ensures |r| == |s| && forall k :: 0 <= k < |s| ==> r[k] == UpperChar(s[k])
  {
    seq(|s|, k requires 0 <= k < |s| => UpperChar(s[k]))
  }

  /** Decimal rendering of a natural number (`String.valueOf(int)` for n >= 0). */
  function NatToString(n: nat): (r: string)
    ensures r != []
    decreases n
  {
    if n < 10 then [DigitChar(n)] else NatToString(n / 10) + [DigitChar(n % 10)]
  }

  function DigitChar(d: nat): char
    requires d < 10
  {
    ('0' as int + d) as char
  }

  /** The largest 32-bit signed integer. */
  const MaxInt: int := 0x7fff_ffff

  predicate AllDigits(s: string) {
    forall k :: 0 <= k < |s| ==> '0' <= s[k] <= '9'
  }

  /** The value of a run of decimal digits. */
  function DigitsValue(s: string): nat
    requires AllDigits(s)
  {
    if s == [] then 0 else DigitsValue(s[..|s| - 1]) * 10 + (s[|s| - 1] as int - '0' as int)
  }

  /** The message of the `NumberFormatException` that `Integer.valueOf(s)` throws. */
  function InputString(s: string): string {
    "For input string: \"" + s + "\""
  }

  /** `Integer.valueOf(s)` on ASCII digits: an optional `-` or `+` followed by
      at least one digit, within 32 bits; anything else is a number format
      error, which is an illegal argument. */
  function ParseInt(s: string): (r: Result<int>)
    ensures r.Ok? ==> -MaxInt - 1 <= r.value <= MaxInt
    ensures r.Ok? ==> s != [] && (r.value < 0 ==> s[0] == '-') && (s[0] == '-' ==> r.value <= 0)
    ensures r.Err? ==> r == Err(IllegalArgument(InputString(s)))
  {
    var negative := s != [] && s[0] == '-';
    var digits := if s != [] && (s[0] == '-' || s[0] == '+') then s[1..] else s;
    if digits == [] || !AllDigits(digits) then Err(IllegalArgument(InputString(s)))
    else
      var n: int := DigitsValue(digits);
      if negative && n <= MaxInt + 1 then Ok(-n)
      else if !negative && n <= MaxInt then Ok(n)
      else Err(IllegalArgument(InputString(s)))
  }

  lemma {:induction false} DigitsOfNat(n: nat)
    ensures AllDigits(NatToString(n)) && DigitsValue(NatToString(n)) == n
    decreases n
  {
    if n >= 10 {
      DigitsOfNat(n / 10);
      var s := NatToString(n);
      assert s[..|s| - 1] == NatToString(n / 10);
    }
  }

  /** `Integer.valueOf` reads back what `String.valueOf(int)` writes. */
  lemma ParseIntRoundTrip(n: int)
    requires -MaxInt - 1 <= n <= MaxInt
    ensures ParseInt(if n < 0 then "-" + NatToString(-n) else NatToString(n)) == Ok(n)
  {
    var m: nat := if n < 0 then -n else n;
    var digits := NatToString(m);
    DigitsOfNat(m);
    assert '0' <= digits[0] <= '9';
    if n < 0 {
      var s := "-" + digits;
      assert s[0] == '-' && s[1..] == digits;
    }
  }


  /** `a.compareTo(b) <= 0`: `a` is a prefix of `b`, or is smaller at the first
      position where they differ. */
  predicate LexLessEq(a: string, b: string) {
    a == [] || (b != [] && (a[0] < b[0] || (a[0] == b[0] && LexLessEq(a[1..], b[1..]))))
  }

  lemma {:induction false} LexLessEqTotal(a: string, b: string)
    ensures LexLessEq(a, b) || LexLessEq(b, a)
    decreases |a|
  {
    if a != [] && b != [] && a[0] == b[0] {
      LexLessEqTotal(a[1..], b[1..]);
    }
  }

  lemma {:induction false} LexLessEqTrans(a: string, b: string, c: string)
    requires LexLessEq(a, b) && LexLessEq(b, c)
    ensures LexLessEq(a, c)
    decreases |a|
  {
    if a != [] && a[0] == b[0] && b[0] == c[0] {
      LexLessEqTrans(a[1..], b[1..], c[1..]);
    }
  }

  /** Every entry followed by the separator, as a loop appending entry and
      separator to a buffer leaves it. */
  function Terminated(entries: seq<string>, sep: char): (r: string)
    ensures entries == [] <==> r == []
  {
    if entries == [] then [] else entries[0] + [sep] + Terminated(entries[1..], sep)
  }

  lemma {:induction false} TerminatedSnoc(entries: seq<string>, e: string, sep: char)
    ensures Terminated(entries + [e], sep) == Terminated(entries, sep) + e + [sep]
    decreases |entries|
  {
    if entries == [] {
      assert entries + [e] == [e];
    } else {
      assert (entries + [e])[1..] == entries[1..] + [e];
      TerminatedSnoc(entries[1..], e, sep);
    }
  }

  /** Dropping the last separator of the buffer leaves the entries joined by the separator. */
  lemma {:induction false} TerminatedIsJoin(entries: seq<string>, sep: char)
    requires entries != []
    ensures |Terminated(entries, sep)| > 0
    ensures Terminated(entries, sep)[..|Terminated(entries, sep)| - 1] == Join(entries, [sep])
    decreases |entries|
  {
    if |entries| == 1 {
      assert Terminated(entries[1..], sep) == [];
    } else {
      TerminatedIsJoin(entries[1..], sep);
      var t := Terminated(entries[1..], sep);
      assert Terminated(entries, sep) == entries[0] + [sep] + t;
      assert (entries[0] + [sep] + t)[..|entries[0]| + 1 + |t| - 1]
          == entries[0] + [sep] + t[..|t| - 1];
    }
  }

  /** A possibly null string as Java's string concatenation prints it. */
  function Text(v: Option<string>): string {
    match v
    case Some(s) => s
    case None => "null"
  }

  /** Text before the first occurrence of the target is copied as it is. */
  lemma {:induction false} ReplacePrefix(a: string, rest: string, target: string, replacement: string)
    requires target != []
    requires forall k :: 0 <= k < |a| ==> !OccursAt(a + rest, target, k)
    ensures Replace(a + rest, target, replacement) == a + Replace(rest, target, replacement)
    decreases |a|
  {
    if a == [] {
      assert a + rest == rest;
    } else if |a + rest| < |target| {
      ReplaceShort(a + rest, target, replacement);
      ReplaceShort(rest, target, replacement);
    } else {
      NoOccurrenceShifts(a, rest, target);
      ReplacePrefix(a[1..], rest, target, replacement);
      ReplaceSkipsHead(a, rest, target, replacement);
    }
  }

  lemma NoOccurrenceShifts(a: string, rest: string, target: string)
    requires a != []
    requires forall k :: 0 <= k < |a| ==> !OccursAt(a + rest, target, k)
    ensures forall k :: 0 <= k < |a| - 1 ==> !OccursAt(a[1..] + rest, target, k)
  {
    var s := a + rest;
    assert s[1..] == a[1..] + rest;
    forall k | 0 <= k < |a| - 1 ensures !OccursAt(a[1..] + rest, target, k) {
      if OccursAt(a[1..] + rest, target, k) {
        assert s[k + 1..k + 1 + |target|] == (a[1..] + rest)[k..k + |target|];
        assert OccursAt(s, target, k + 1);
      }
    }
  }

  lemma ReplaceSkipsHead(a: string, rest: string, target: string, replacement: string)
    requires target != [] && a != [] && |a + rest| >= |target|
    requires !OccursAt(a + rest, target, 0)
    ensures Replace(a + rest, target, replacement) == [a[0]] + Replace(a[1..] + rest, target, replacement)
  {
    assert (a + rest)[1..] == a[1..] + rest;
  }

  /** A single occurrence of the target, with none starting before it, is
      replaced and the rest kept. */
  lemma ReplaceOnce(a: string, target: string, b: string, replacement: string)
    requires target != []
    requires forall k :: 0 <= k < |a| ==> !OccursAt(a + (target + b), target, k)
    requires !Contains(b, target)
    ensures OccursAt(a + target + b, target, |a|)
    ensures Replace(a + target + b, target, replacement) == a + replacement + b
  {
    assert a + target + b == a + (target + b);
    assert (a + target + b)[|a|..|a| + |target|] == target;
    ReplacePrefix(a, target + b, target, replacement);
    ReplaceHead(target, b, replacement);
    ReplaceAbsent(b, target, replacement);
  }
}
