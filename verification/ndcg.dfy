/** The relevance scorer of the relevancy tool (`NdcgService`): discounted
    cumulative gain over a list of graded judgements, its ideal value, the
    normalised score, the join of one query's results with its judgements,
    and the rollup of stored query scores into case and site means.

    The remote database is a value (`Db`) that the update operations take
    and return; the floating-point operations are the parameter `Numerics`. */
module Ndcg {
  import opened Wrappers

  /** Score of a result nobody judged, and of the entries that pad the ideal list. */
  const MissingScore: real := 1.0

  /** `toFixed` digits of a DCG value; NDCG keeps one more. */
  const FractionalDigits: nat := 2

  /** `toFixed` digits of a case or site mean. */
  const MeanDigits: nat := 3

  /** The floating-point operations of the scorer: `gain(s)` is `2^s - 1`,
      `discount(i)` is `log2(i + 1)` and `round(k, x)` is
      `parseFloat(x.toFixed(k))`. */
  datatype Numerics = Numerics(gain: real -> real, discount: nat -> real, round: (nat, real) -> real)

  /** Every discount the scorer divides by is positive (`log2(i + 1) > 0` for `i >= 1`). */
  ghost predicate Defined(num: Numerics) {
    forall i: nat :: 1 <= i ==> num.discount(i) > 0.0
  }

  /** The shape of `2^s - 1` and `log2(i + 1)` that the ordering of DCG
      values relies on: gain is monotone and vanishes at 0, and the discount
      grows with the position. */
  ghost predicate Ordered(num: Numerics) {
    && Defined(num)
    && (forall i: nat, j: nat :: 1 <= i <= j ==> num.discount(i) <= num.discount(j))
    && (forall a: real, b: real :: a <= b ==> num.gain(a) <= num.gain(b))
    && num.gain(0.0) == 0.0
  }

  /** `Ordered`, and `toFixed` rounding is monotone and exact on 0 and 1. */
  ghost predicate Monotone(num: Numerics) {
    && Ordered(num)
    && (forall k: nat, a: real, b: real :: a <= b ==> num.round(k, a) <= num.round(k, b))
    && (forall k: nat :: num.round(k, 0.0) == 0.0 && num.round(k, 1.0) == 1.0)
  }

  // ---------------------------------------------------------------------
  // DCG

  /** The contribution of the entry at (1-based) position `i`. */
  function Term(num: Numerics, score: real, i: nat): real
    requires Defined(num) && 1 <= i
  {
    num.gain(score) / num.discount(i)
  }

  /** The unrounded DCG of `s` when its first entry sits at position `i`. */
  function DcgFrom(num: Numerics, s: seq<real>, i: nat): real
    requires Defined(num) && 1 <= i
    decreases |s|
  {
    if s == [] then 0.0 else Term(num, s[0], i) + DcgFrom(num, s[1..], i + 1)
  }

  /** What `dcg` returns for a list: 0 when it is empty, else the rounded sum. */
  function DcgOf(num: Numerics, s: seq<real>): real
    requires Defined(num)
  {
    if s == [] then 0.0 else num.round(FractionalDigits, DcgFrom(num, s, 1))
  }

  /** DCG is additive over concatenation, the second part shifted by the first's length. */
  lemma {:induction false} DcgConcat(num: Numerics, a: seq<real>, b: seq<real>, i: nat)
    requires Defined(num) && 1 <= i
    ensures DcgFrom(num, a + b, i) == DcgFrom(num, a, i) + DcgFrom(num, b, i + |a|)
    decreases |a|
  {
    if a == [] {
      assert a + b == b;
    } else {
      assert (a + b)[1..] == a[1..] + b;
      DcgConcat(num, a[1..], b, i + 1);
    }
  }

  /** A list of non-negative scores has a non-negative DCG. */
  lemma {:induction false} DcgNonNegative(num: Numerics, s: seq<real>, i: nat)
    requires Ordered(num) && 1 <= i
    requires forall k :: 0 <= k < |s| ==> s[k] >= 0.0
    ensures DcgFrom(num, s, i) >= 0.0
    decreases |s|
  {
    if s != [] {
      assert num.gain(s[0]) >= num.gain(0.0);
      assert num.discount(i) > 0.0;
      DcgNonNegative(num, s[1..], i + 1);
    }
  }

  // ---------------------------------------------------------------------
  // Sorting by descending score (`Array.prototype.sort` with `b - a`)

  predicate SortedDesc(s: seq<real>) {
    forall i, j :: 0 <= i < j < |s| ==> s[i] >= s[j]
  }

  /** Inserts `x` in front of the first entry it is not below. */
  function Insert(x: real, s: seq<real>): (r: seq<real>)
    ensures multiset(r) == multiset(s) + multiset{x}
    ensures |r| == |s| + 1
  {
    if s == [] || x >= s[0] then [x] + s
    else
      assert s == [s[0]] + s[1..];
      [s[0]] + Insert(x, s[1..])
  }

  /** Insertion keeps a list in descending order. */
  lemma {:induction false} InsertSorted(x: real, s: seq<real>)
    requires SortedDesc(s)
    ensures SortedDesc(Insert(x, s))
    decreases |s|
  {
    if s != [] && x < s[0] {
      TailSorted(s);
      InsertSorted(x, s[1..]);
      InsertBelow(x, s[1..], s[0]);
      ConsSorted(s[0], Insert(x, s[1..]));
    } else {
      ConsSorted(x, s);
    }
  }

  /** Inserting a value no larger than a bound of the list keeps the bound. */
  lemma {:induction false} InsertBelow(x: real, s: seq<real>, b: real)
    requires x <= b && forall k :: 0 <= k < |s| ==> s[k] <= b
    ensures forall k :: 0 <= k < |Insert(x, s)| ==> Insert(x, s)[k] <= b
    decreases |s|
  {
    if s != [] && x < s[0] {
      InsertBelow(x, s[1..], b);
      assert Insert(x, s) == [s[0]] + Insert(x, s[1..]);
    }
  }

  lemma TailSorted(s: seq<real>)
    requires SortedDesc(s) && s != []
    ensures SortedDesc(s[1..])
  {
    forall i, j | 0 <= i < j < |s| - 1 ensures s[1..][i] >= s[1..][j] {
      assert s[1..][i] == s[i + 1] && s[1..][j] == s[j + 1];
    }
  }

  /** A head no smaller than any entry of a descending tail gives a descending list. */
  lemma ConsSorted(h: real, t: seq<real>)
    requires SortedDesc(t) && forall k :: 0 <= k < |t| ==> t[k] <= h
    ensures SortedDesc([h] + t)
  {
    var r := [h] + t;
    forall i, j | 0 <= i < j < |r| ensures r[i] >= r[j] {
      assert r[j] == t[j - 1];
      if i > 0 {
        assert r[i] == t[i - 1];
      }
    }
  }

  /** The judgements ordered best first, as the engine's sort leaves them. */
  function SortDesc(s: seq<real>): (r: seq<real>)
    ensures multiset(r) == multiset(s) && |r| == |s|
    ensures SortedDesc(r)
  {
    if s == [] then []
    else
      assert s == [s[0]] + s[1..];
      var t := SortDesc(s[1..]);
      InsertSorted(s[0], t);
      Insert(s[0], t)
  }

  /** Moving the larger score forward never lowers the DCG of two adjacent positions. */
  lemma Exchange(num: Numerics, hi: real, lo: real, i: nat)
    requires Ordered(num) && 1 <= i && lo <= hi
    ensures Term(num, lo, i) + Term(num, hi, i + 1) <= Term(num, hi, i) + Term(num, lo, i + 1)
  {
    var gh, gl := num.gain(hi), num.gain(lo);
    var d0, d1 := num.discount(i), num.discount(i + 1);
    assert gl <= gh;
    assert 0.0 < d0 <= d1;
    var w0, w1 := 1.0 / d0, 1.0 / d1;
    assert d0 * w1 <= d1 * w1 == 1.0 == d0 * w0;
    assert w1 <= w0;
    assert (gh - gl) * (w0 - w1) >= 0.0;
    assert gl / d0 == gl * w0 && gh / d0 == gh * w0;
    assert gl / d1 == gl * w1 && gh / d1 == gh * w1;
  }

  /** Inserting into a descending list gains at least what putting the entry first would. */
  lemma {:induction false} InsertRaisesDcg(num: Numerics, x: real, t: seq<real>, i: nat)
    requires Ordered(num) && 1 <= i && SortedDesc(t)
    ensures Term(num, x, i) + DcgFrom(num, t, i + 1) <= DcgFrom(num, Insert(x, t), i)
    decreases |t|
  {
    if t == [] || x >= t[0] {
      assert ([x] + t)[1..] == t;
    } else {
      InsertRaisesDcg(num, x, t[1..], i + 1);
      Exchange(num, t[0], x, i);
      assert ([t[0]] + Insert(x, t[1..]))[1..] == Insert(x, t[1..]);
    }
  }

  /** The rearrangement inequality: no order of the scores beats best-first. */
  lemma {:induction false} SortDescMaximises(num: Numerics, s: seq<real>, i: nat)
    requires Ordered(num) && 1 <= i
    ensures DcgFrom(num, s, i) <= DcgFrom(num, SortDesc(s), i)
    decreases |s|
  {
    if s != [] {
      SortDescMaximises(num, s[1..], i + 1);
      SortDescStep(num, s, i);
    }
  }

  /** One step of the rearrangement inequality: the head inserted into the
      sorted tail gains at least what it gave in front of the tail. */
  lemma SortDescStep(num: Numerics, s: seq<real>, i: nat)
    requires Ordered(num) && 1 <= i && s != []
    requires DcgFrom(num, s[1..], i + 1) <= DcgFrom(num, SortDesc(s[1..]), i + 1)
    ensures DcgFrom(num, s, i) <= DcgFrom(num, SortDesc(s), i)
  {
    var t := SortDesc(s[1..]);
    InsertRaisesDcg(num, s[0], t, i);
    assert SortDesc(s) == Insert(s[0], t);
  }

  // ---------------------------------------------------------------------
  // The ideal list and NDCG

  function Min(a: nat, b: nat): nat {
    if a < b then a else b
  }

  /** The list `idcg` scores: the first `limit` judgements best first, padded
      with MissingScore up to `limit` entries. */
  function IdealList(s: seq<real>, limit: nat): (r: seq<real>)
    ensures |r| == limit
    ensures SortedDesc(r[..Min(limit, |s|)])
    ensures multiset(r[..Min(limit, |s|)]) == multiset(s[..Min(limit, |s|)])
    ensures forall k :: Min(limit, |s|) <= k < limit ==> r[k] == MissingScore
  {
    var upper := Min(limit, |s|);
    var sorted := SortDesc(s[..upper]);
    var r := sorted + seq(limit - upper, _ => MissingScore);
    assert r[..upper] == sorted;
    r
  }

  /** What `ndcg` returns: 0 when the ideal DCG is 0, else the rounded ratio. */
  function NdcgOf(num: Numerics, limit: nat, s: seq<real>): real
    requires Defined(num)
  {
    var idcg := DcgOf(num, IdealList(s, limit));
    if idcg == 0.0 then 0.0 else num.round(FractionalDigits + 1, DcgOf(num, s) / idcg)
  }

  lemma RatioWithinUnit(a: real, b: real)
    requires 0.0 <= a <= b && b != 0.0
    ensures 0.0 <= a / b <= 1.0
  {
    var q := a / b;
    assert q * b == a;
  }

  lemma IdealListWhole(s: seq<real>, limit: nat)
    requires |s| <= limit
    ensures IdealList(s, limit) == SortDesc(s) + seq(limit - |s|, _ => MissingScore)
  {
    assert s[..|s|] == s;
  }

  /** When every result fits in the limit and no score is negative, the
      unrounded DCG is non-negative and at most the ideal list's. */
  lemma DcgWithinIdeal(num: Numerics, limit: nat, s: seq<real>)
    requires Ordered(num) && |s| <= limit
    requires forall k :: 0 <= k < |s| ==> s[k] >= 0.0
    ensures 0.0 <= DcgFrom(num, s, 1) <= DcgFrom(num, IdealList(s, limit), 1)
  {
    var sorted := SortDesc(s);
    var pad := seq(limit - |s|, _ => MissingScore);
    IdealListWhole(s, limit);
    DcgNonNegative(num, pad, 1 + |sorted|);
    DcgNonNegative(num, s, 1);
    DcgConcat(num, sorted, pad, 1);
    SortDescMaximises(num, s, 1);
  }

  /** Under the same conditions the rounded DCG stays within the ideal DCG,
      and NDCG lies in [0, 1]. */
  lemma NdcgBounds(num: Numerics, limit: nat, s: seq<real>)
    requires Monotone(num) && |s| <= limit
    requires forall k :: 0 <= k < |s| ==> s[k] >= 0.0
    ensures 0.0 <= DcgOf(num, s) <= DcgOf(num, IdealList(s, limit))
    ensures 0.0 <= NdcgOf(num, limit, s) <= 1.0
  {
    var ideal := IdealList(s, limit);
    DcgWithinIdeal(num, limit, s);
    var top := DcgFrom(num, ideal, 1);
    var idcg := DcgOf(num, ideal);
    var dcg := DcgOf(num, s);
    assert 0.0 <= idcg by {
      if limit > 0 {
        assert num.round(FractionalDigits, 0.0) <= num.round(FractionalDigits, top);
      }
    }
    assert 0.0 <= dcg <= idcg by {
      if s != [] {
        assert num.round(FractionalDigits, 0.0) <= num.round(FractionalDigits, DcgFrom(num, s, 1));
        assert num.round(FractionalDigits, DcgFrom(num, s, 1)) <= num.round(FractionalDigits, top);
      }
    }
    if idcg != 0.0 {
      var q := dcg / idcg;
      RatioWithinUnit(dcg, idcg);
      assert num.round(FractionalDigits + 1, 0.0) <= num.round(FractionalDigits + 1, q);
      assert num.round(FractionalDigits + 1, q) <= num.round(FractionalDigits + 1, 1.0);
    }
  }

  // ---------------------------------------------------------------------
  // One query

  /** The graded list of one query: one entry per result, in order, holding
      the score judged for that product, or MissingScore. */
  function JoinJudgements(results: seq<string>, judgements: map<string, real>): (r: seq<real>)
    ensures |r| == |results|
    ensures forall k :: 0 <= k < |results| ==>
      r[k] == (if results[k] in judgements then judgements[results[k]] else MissingScore)
  {
    if results == [] then []
    else
      var id := results[0];
      [if id in judgements then judgements[id] else MissingScore] + JoinJudgements(results[1..], judgements)
  }

  /** The score `updateQuery` stores: 0 when nothing is judged, else the NDCG of the joined list. */
  function QueryScore(num: Numerics, limit: nat, judgements: map<string, real>, results: seq<string>): real
    requires Defined(num)
  {
    if |judgements| == 0 then 0.0 else NdcgOf(num, limit, JoinJudgements(results, judgements))
  }

  /** A query score is 0 without judgements, and within [0, 1] when the
      results fit in the limit and every judged score is non-negative. */
  lemma QueryScoreBounds(num: Numerics, limit: nat, judgements: map<string, real>, results: seq<string>)
    requires Monotone(num) && |results| <= limit
    requires forall id :: id in judgements ==> judgements[id] >= 0.0
    ensures |judgements| == 0 ==> QueryScore(num, limit, judgements, results) == 0.0
    ensures 0.0 <= QueryScore(num, limit, judgements, results) <= 1.0
  {
    if |judgements| != 0 {
      NdcgBounds(num, limit, JoinJudgements(results, judgements));
    }
  }

  // ---------------------------------------------------------------------
  // The stored scores and their means

  /** One entry of the `/scores` collection. */
  datatype ScoreRecord = ScoreRecord(siteId: string, caseId: string, val: real)
  datatype ScoreEntry = ScoreEntry(key: string, record: ScoreRecord)

  /** The part of the database the scorer reads and writes. */
  datatype Db = Db(
    scores: seq<ScoreEntry>,
    queryScores: map<(string, string, string), real>,
    caseScores: map<(string, string), real>,
    siteScores: map<string, real>)

  /** How the promise an update returns ends up: resolved, rejected, never
      settled, or not returned at all (the function returned `undefined`). */
  datatype Outcome = Resolved | Rejected | Pending | NoPromise

  /** A promise `$q.all` treats as done: resolved, or a plain `undefined`. */
  predicate Settled(o: Outcome) {
    o == Resolved || o == NoPromise
  }

  /** Writes `record` under `key`, replacing the entry already there. */
  function Put(entries: seq<ScoreEntry>, key: string, record: ScoreRecord): (r: seq<ScoreEntry>)
    ensures ScoreEntry(key, record) in r
    ensures forall e :: e in entries && e.key != key ==> e in r
  {
    if entries == [] then [ScoreEntry(key, record)]
    else if entries[0].key == key then [ScoreEntry(key, record)] + entries[1..]
    else [entries[0]] + Put(entries[1..], key, record)
  }

  /** The records `orderByChild('siteId').equalTo(siteId)` returns. */
  function SiteRecords(entries: seq<ScoreEntry>, siteId: string): (r: seq<ScoreRecord>)
    ensures forall k :: 0 <= k < |r| ==> r[k].siteId == siteId
    ensures |r| <= |entries|
  {
    if entries == [] then []
    else if entries[0].record.siteId == siteId then [entries[0].record] + SiteRecords(entries[1..], siteId)
    else SiteRecords(entries[1..], siteId)
  }

  /** The records of one case. */
  function CaseRecords(recs: seq<ScoreRecord>, caseId: string): (r: seq<ScoreRecord>)
    ensures forall k :: 0 <= k < |r| ==> r[k].caseId == caseId
    ensures |r| <= |recs|
  {
    if recs == [] then []
    else if recs[0].caseId == caseId then [recs[0]] + CaseRecords(recs[1..], caseId)
    else CaseRecords(recs[1..], caseId)
  }

  /** The records of every other case. */
  function OtherRecords(recs: seq<ScoreRecord>, caseId: string): (r: seq<ScoreRecord>)
    ensures forall k :: 0 <= k < |r| ==> r[k].caseId != caseId
  {
    if recs == [] then []
    else if recs[0].caseId != caseId then [recs[0]] + OtherRecords(recs[1..], caseId)
    else OtherRecords(recs[1..], caseId)
  }

  function Total(recs: seq<ScoreRecord>): real {
    if recs == [] then 0.0 else recs[0].val + Total(recs[1..])
  }

  function Mean(recs: seq<ScoreRecord>): real
    requires recs != []
  {
    Total(recs) / |recs| as real
  }

  lemma {:induction false} TotalAppend(recs: seq<ScoreRecord>, x: ScoreRecord)
    ensures Total(recs + [x]) == Total(recs) + x.val
    decreases |recs|
  {
    if recs == [] {
      assert recs + [x] == [x];
    } else {
      assert (recs + [x])[1..] == recs[1..] + [x];
      TotalAppend(recs[1..], x);
    }
  }

  lemma {:induction false} CaseRecordsAppend(recs: seq<ScoreRecord>, x: ScoreRecord, caseId: string)
    ensures CaseRecords(recs + [x], caseId) == CaseRecords(recs, caseId) + (if x.caseId == caseId then [x] else [])
    decreases |recs|
  {
    if recs == [] {
      assert recs + [x] == [x];
    } else {
      assert (recs + [x])[1..] == recs[1..] + [x];
      CaseRecordsAppend(recs[1..], x, caseId);
    }
  }

  lemma {:induction false} TotalWithin(recs: seq<ScoreRecord>, lo: real, hi: real)
    requires forall k :: 0 <= k < |recs| ==> lo <= recs[k].val <= hi
    ensures |recs| as real * lo <= Total(recs) <= |recs| as real * hi
    decreases |recs|
  {
    if recs != [] {
      TotalWithin(recs[1..], lo, hi);
    }
  }

  /** A mean lies between the smallest and the largest score averaged. */
  lemma MeanWithin(recs: seq<ScoreRecord>, lo: real, hi: real)
    requires recs != []
    requires forall k :: 0 <= k < |recs| ==> lo <= recs[k].val <= hi
    ensures lo <= Mean(recs) <= hi
  {
    TotalWithin(recs, lo, hi);
    QuotientWithin(Total(recs), |recs| as real, lo, hi);
  }

  lemma QuotientWithin(t: real, n: real, lo: real, hi: real)
    requires n > 0.0 && n * lo <= t <= n * hi
    ensures lo <= t / n <= hi
  {
    var q := t / n;
    assert q * n == t;
    assert (q - lo) * n == t - n * lo;
    assert (hi - q) * n == n * hi - t;
  }

  /** The site's records split into one case's and the rest's, in count and
      in total: the site mean weighs every query alike, whatever its case. */
  lemma {:induction false} SiteSplitsByCase(recs: seq<ScoreRecord>, caseId: string)
    ensures |recs| == |CaseRecords(recs, caseId)| + |OtherRecords(recs, caseId)|
    ensures Total(recs) == Total(CaseRecords(recs, caseId)) + Total(OtherRecords(recs, caseId))
    decreases |recs|
  {
    if recs != [] {
      SiteSplitsByCase(recs[1..], caseId);
    }
  }

  /** Tallies the records of one case, as `updateCase`'s loop does. */
  method TallyCase(recs: seq<ScoreRecord>, caseId: string) returns (count: nat, total: real)
    ensures count == |CaseRecords(recs, caseId)|
    ensures total == Total(CaseRecords(recs, caseId))
  {
    count, total := 0, 0.0;
    var i := 0;
    while i < |recs|
      invariant 0 <= i <= |recs|
      invariant count == |CaseRecords(recs[..i], caseId)|
      invariant total == Total(CaseRecords(recs[..i], caseId))
    {
      var score := recs[i];
      assert recs[..i + 1] == recs[..i] + [score];
      CaseRecordsAppend(recs[..i], score, caseId);
      if caseId == score.caseId {
        TotalAppend(CaseRecords(recs[..i], caseId), score);
      } else {
        assert CaseRecords(recs[..i], caseId) + [] == CaseRecords(recs[..i], caseId);
      }
      if caseId == score.caseId {
        count := count + 1;
        total := total + score.val;
      }
      i := i + 1;
    }
    assert recs[..|recs|] == recs;
  }

  /** Tallies every record of a site, as `updateSite`'s loop does. */
  method TallySite(recs: seq<ScoreRecord>) returns (count: nat, total: real)
    ensures count == |recs|
    ensures total == Total(recs)
  {
    count, total := 0, 0.0;
    var i := 0;
    while i < |recs|
      invariant 0 <= i <= |recs|
      invariant count == i
      invariant total == Total(recs[..i])
    {
      assert recs[..i + 1] == recs[..i] + [recs[i]];
      TotalAppend(recs[..i], recs[i]);
      count := count + 1;
      total := total + recs[i].val;
      i := i + 1;
    }
    assert recs[..|recs|] == recs;
  }

  // ---------------------------------------------------------------------
  // Updates as transitions of the database

  /** `updateSite`: with no stored score for the site its promise never
      settles; otherwise the site score becomes the rounded mean of them all. */
  function SiteRollup(num: Numerics, db: Db, siteId: string): (Outcome, Db) {
    var recs := SiteRecords(db.scores, siteId);
    if recs == [] then (Pending, db)
    else (Resolved, db.(siteScores := db.siteScores[siteId := num.round(MeanDigits, Mean(recs))]))
  }

  /** `updateCase`: missing ids return nothing; a site without scores never
      settles; otherwise the case score becomes the rounded mean of the case's
      scores when it has any, followed by the site rollup when asked for. */
  function CaseRollup(num: Numerics, db: Db, siteId: string, caseId: string, rollUp: bool): (Outcome, Db) {
    if siteId == [] || caseId == [] then (NoPromise, db)
    else
      var recs := SiteRecords(db.scores, siteId);
      if recs == [] then (Pending, db)
      else
        var cs := CaseRecords(recs, caseId);
        var db1 := if cs == [] then db
                   else db.(caseScores := db.caseScores[(siteId, caseId) := num.round(MeanDigits, Mean(cs))]);
        if rollUp then SiteRollup(num, db1, siteId) else (Resolved, db1)
  }

  /** The key of a query's entry in `/scores`. */
  function ScoreKey(siteId: string, caseId: string, queryId: string): string {
    siteId + "_" + caseId + "_" + queryId
  }

  /** `updateQuery`: missing parameters return nothing and write nothing;
      otherwise the query score is written twice (under the query and in
      `/scores`), followed by the case rollup when asked for. */
  function QueryRollup(num: Numerics, limit: nat, db: Db, siteId: string, caseId: string, queryId: string,
                       judgements: Option<map<string, real>>, results: Option<seq<string>>, rollUp: bool): (Outcome, Db)
    requires Defined(num)
  {
    if siteId == [] || caseId == [] || queryId == [] || judgements.None? || results.None? then (NoPromise, db)
    else
      var val := QueryScore(num, limit, judgements.value, results.value);
      var db1 := db.(queryScores := db.queryScores[(siteId, caseId, queryId) := val],
                     scores := Put(db.scores, ScoreKey(siteId, caseId, queryId), ScoreRecord(siteId, caseId, val)));
      if rollUp then CaseRollup(num, db1, siteId, caseId, true) else (Resolved, db1)
  }

  // ---------------------------------------------------------------------
  // updateAll: three phases

  datatype Query = Query(id: string, judgements: Option<map<string, real>>, results: Option<seq<string>>)
  datatype Case = Case(id: string, queries: seq<Query>)
  datatype Site = Site(id: string, cases: seq<Case>)

  /** One call `updateAll` makes; none of them rolls up. */
  datatype Step =
    | QueryStep(siteId: string, caseId: string, queryId: string, judgements: map<string, real>, results: Option<seq<string>>)
    | CaseStep(siteId: string, caseId: string)
    | SiteStep(siteId: string)
  {
    function Phase(): nat {
      match this
      case QueryStep(_, _, _, _, _) => 0
      case CaseStep(_, _) => 1
      case SiteStep(_) => 2
    }
  }

  function QueryStepsOfCase(siteId: string, c: Case, k: nat): (r: seq<Step>)
    requires k <= |c.queries|
    ensures |r| == |c.queries| - k
    ensures forall j :: 0 <= j < |r| ==> r[j].Phase() == 0
    decreases |c.queries| - k
  {
    if k == |c.queries| then []
    else
      var q := c.queries[k];
      [QueryStep(siteId, c.id, q.id, q.judgements.GetOr(map[]), q.results)] + QueryStepsOfCase(siteId, c, k + 1)
  }

  function QueryStepsOfCases(siteId: string, cases: seq<Case>): (r: seq<Step>)
    ensures forall j :: 0 <= j < |r| ==> r[j].Phase() == 0
  {
    if cases == [] then [] else QueryStepsOfCase(siteId, cases[0], 0) + QueryStepsOfCases(siteId, cases[1..])
  }

  /** Phase one: every query of every case of every site, in order. */
  function QuerySteps(sites: seq<Site>): (r: seq<Step>)
    ensures forall j :: 0 <= j < |r| ==> r[j].Phase() == 0
  {
    if sites == [] then [] else QueryStepsOfCases(sites[0].id, sites[0].cases) + QuerySteps(sites[1..])
  }

  function CaseStepsOfSite(siteId: string, cases: seq<Case>): (r: seq<Step>)
    ensures |r| == |cases|
    ensures forall j :: 0 <= j < |r| ==> r[j] == CaseStep(siteId, cases[j].id)
  {
    if cases == [] then [] else [CaseStep(siteId, cases[0].id)] + CaseStepsOfSite(siteId, cases[1..])
  }

  /** Phase two: every case of every site, in order. */
  function CaseSteps(sites: seq<Site>): (r: seq<Step>)
    ensures forall j :: 0 <= j < |r| ==> r[j].Phase() == 1
  {
    if sites == [] then [] else CaseStepsOfSite(sites[0].id, sites[0].cases) + CaseSteps(sites[1..])
  }

  /** Phase three: every site, in order. */
  function SiteSteps(sites: seq<Site>): (r: seq<Step>)
    ensures |r| == |sites|
    ensures forall j :: 0 <= j < |r| ==> r[j] == SiteStep(sites[j].id)
  {
    if sites == [] then [] else [SiteStep(sites[0].id)] + SiteSteps(sites[1..])
  }

  function RunStep(num: Numerics, limit: nat, db: Db, step: Step): (Outcome, Db)
    requires Defined(num)
  {
    match step
    case QueryStep(s, c, q, j, res) => QueryRollup(num, limit, db, s, c, q, Some(j), res, false)
    case CaseStep(s, c) => CaseRollup(num, db, s, c, false)
    case SiteStep(s) => SiteRollup(num, db, s)
  }

  /** Runs the steps of one phase in order; the flag says whether every one settled. */
  function RunPhase(num: Numerics, limit: nat, db: Db, steps: seq<Step>): (bool, Db)
    requires Defined(num)
    decreases |steps|
  {
    if steps == [] then (true, db)
    else
      var (allSettled, db1) := RunPhase(num, limit, db, steps[..|steps| - 1]);
      var (out, db2) := RunStep(num, limit, db1, steps[|steps| - 1]);
      (allSettled && Settled(out), db2)
  }

  /** One more step of a phase: the flag and the database carry on from the
      steps before it. */
  lemma RunPhaseSnoc(num: Numerics, limit: nat, db: Db, steps: seq<Step>, i: nat)
    requires Defined(num) && i < |steps|
    ensures var (allSettled, db1) := RunPhase(num, limit, db, steps[..i]);
            var (out, db2) := RunStep(num, limit, db1, steps[i]);
            RunPhase(num, limit, db, steps[..i + 1]) == (allSettled && Settled(out), db2)
  {
    assert steps[..i + 1][..i] == steps[..i];
  }

  /** `updateAll`: each phase starts only when every promise of the phase
      before it has settled, and the returned promise resolves only when the
      last phase settles too. */
  function RunAll(num: Numerics, limit: nat, db: Db, sites: seq<Site>): (Outcome, Db)
    requires Defined(num)
  {
    var (done1, db1) := RunPhase(num, limit, db, QuerySteps(sites));
    if !done1 then (Pending, db1)
    else
      var (done2, db2) := RunPhase(num, limit, db1, CaseSteps(sites));
      if !done2 then (Pending, db2)
      else
        var (done3, db3) := RunPhase(num, limit, db2, SiteSteps(sites));
        (if done3 then Resolved else Pending, db3)
  }

  /** Query updates without rollup always settle, so the case phase always runs. */
  lemma {:induction false} QueryPhaseSettles(num: Numerics, limit: nat, db: Db, steps: seq<Step>)
    requires Defined(num)
    requires forall j :: 0 <= j < |steps| ==> steps[j].Phase() == 0
    ensures RunPhase(num, limit, db, steps).0
    decreases |steps|
  {
    if steps != [] {
      QueryPhaseSettles(num, limit, db, steps[..|steps| - 1]);
    }
  }

  // ---------------------------------------------------------------------
  // The service

  class NdcgService {
    const num: Numerics
    var resultLimit: nat

    constructor (num: Numerics, resultLimit: nat)
      ensures this.num == num && this.resultLimit == resultLimit
    {
      this.num := num;
      this.resultLimit := resultLimit;
    }

    method SetResultLimit(limit: nat)
      modifies this
      ensures resultLimit == limit
    {
      resultLimit := limit;
    }

    method GetResultLimit() returns (limit: nat)
      ensures limit == resultLimit
    {
      limit := resultLimit;
    }

    /** `dcg`: 0 for an absent or empty list, else the rounded sum of the
        discounted gains accumulated position by position. */
    method Dcg(judgements: Option<seq<real>>) returns (r: real)
      requires Defined(num)
      ensures judgements.None? ==> r == 0.0
      ensures judgements.Some? ==> r == DcgOf(num, judgements.value)
    {
      if judgements.None? || |judgements.value| == 0 {
        return 0.0;
      }
      var s := judgements.value;
      var dcgVal := 0.0;
      var i := 1;
      while i <= |s|
        invariant 1 <= i <= |s| + 1
        invariant dcgVal == DcgFrom(num, s[..i - 1], 1)
      {
        var score := s[i - 1];
        assert s[..i] == s[..i - 1] + [score];
        DcgConcat(num, s[..i - 1], [score], 1);
        dcgVal := dcgVal + num.gain(score) / num.discount(i);
        i := i + 1;
      }
      assert s[..|s|] == s;
      r := num.round(FractionalDigits, dcgVal);
    }

    /** `idcg`: the DCG of the first `resultLimit` judgements sorted best
        first and padded with MissingScore to `resultLimit` entries. */
    method Idcg(judgements: seq<real>) returns (r: real)
      requires Defined(num)
      ensures r == DcgOf(num, IdealList(judgements, resultLimit))
    {
      var upper := Min(resultLimit, |judgements|);
      var sorted := SortDesc(judgements[..upper]);
      var i := |sorted|;
      while i < resultLimit
        invariant upper <= i <= resultLimit
        invariant sorted == SortDesc(judgements[..upper]) + seq(i - upper, _ => MissingScore)
      {
        sorted := sorted + [MissingScore];
        i := i + 1;
      }
      r := Dcg(Some(sorted));
    }

    /** `ndcg`: 0 when the ideal DCG is 0 (never a division by zero), else
        the DCG over the ideal DCG, rounded to one more digit. */
    method Ndcg(judgements: seq<real>) returns (r: real)
      requires Defined(num)
      ensures DcgOf(num, IdealList(judgements, resultLimit)) == 0.0 ==> r == 0.0
      ensures r == NdcgOf(num, resultLimit, judgements)
    {
      var idcgScore := Idcg(judgements);
      if idcgScore == 0.0 {
        return 0.0;
      }
      var dcgScore := Dcg(Some(judgements));
      r := num.round(FractionalDigits + 1, dcgScore / idcgScore);
    }

    /** `updateSite`, with the mean tallied by a loop. */
    method UpdateSite(db: Db, siteId: string) returns (out: Outcome, db': Db)
      ensures (out, db') == SiteRollup(num, db, siteId)
      ensures out == Pending <==> SiteRecords(db.scores, siteId) == []
    {
      var recs := SiteRecords(db.scores, siteId);
      if recs == [] {
        return Pending, db;
      }
      var siteQueryCount, siteTotalScore := TallySite(recs);
      var siteScore := num.round(MeanDigits, siteTotalScore / siteQueryCount as real);
      out, db' := Resolved, db.(siteScores := db.siteScores[siteId := siteScore]);
    }

    /** `updateCase`, with the case's mean tallied by a loop. */
    method UpdateCase(db: Db, siteId: string, caseId: string, rollUp: bool) returns (out: Outcome, db': Db)
      ensures (out, db') == CaseRollup(num, db, siteId, caseId, rollUp)
      ensures out == NoPromise <==> siteId == [] || caseId == []
    {
      if siteId == [] || caseId == [] {
        return NoPromise, db;
      }
      var recs := SiteRecords(db.scores, siteId);
      if recs == [] {
        return Pending, db;
      }
      var caseQueryCount, caseTotalScore := TallyCase(recs, caseId);
      db' := db;
      if caseQueryCount > 0 {
        var caseScore := num.round(MeanDigits, caseTotalScore / caseQueryCount as real);
        db' := db.(caseScores := db.caseScores[(siteId, caseId) := caseScore]);
      }
      if rollUp {
        out, db' := UpdateSite(db', siteId);
      } else {
        out := Resolved;
      }
    }

    /** `updateQuery`: joins the results with the judgements, scores them and
        writes the score, then rolls up when asked. */
    method UpdateQuery(db: Db, siteId: string, caseId: string, queryId: string,
                       judgements: Option<map<string, real>>, results: Option<seq<string>>, rollUp: bool)
      returns (out: Outcome, db': Db)
      requires Defined(num)
      ensures (out, db') == QueryRollup(num, resultLimit, db, siteId, caseId, queryId, judgements, results, rollUp)
      ensures out == NoPromise <==> (siteId == [] || caseId == [] || queryId == [] || judgements.None? || results.None?)
    {
      if siteId == [] || caseId == [] || queryId == [] || judgements.None? || results.None? {
        return NoPromise, db;
      }
      var resultJudgements := JoinJudgements(results.value, judgements.value);
      var val := Ndcg(resultJudgements);
      if |judgements.value| == 0 {
        val := 0.0;
      }
      db' := db.(queryScores := db.queryScores[(siteId, caseId, queryId) := val],
                 scores := Put(db.scores, ScoreKey(siteId, caseId, queryId), ScoreRecord(siteId, caseId, val)));
      if rollUp {
        out, db' := UpdateCase(db', siteId, caseId, true);
      } else {
        out := Resolved;
      }
    }

    method RunStepOn(db: Db, step: Step) returns (out: Outcome, db': Db)
      requires Defined(num)
      ensures (out, db') == RunStep(num, resultLimit, db, step)
    {
      match step
      case QueryStep(s, c, q, j, res) =>
        out, db' := UpdateQuery(db, s, c, q, Some(j), res, false);
      case CaseStep(s, c) =>
        out, db' := UpdateCase(db, s, c, false);
      case SiteStep(s) =>
        out, db' := UpdateSite(db, s);
    }

    /** Starts every step of one phase and reports whether all of them settled. */
    method RunPhaseOn(db: Db, steps: seq<Step>) returns (allSettled: bool, db': Db)
      requires Defined(num)
      ensures (allSettled, db') == RunPhase(num, resultLimit, db, steps)
    {
      allSettled, db' := true, db;
      var i := 0;
      while i < |steps|
        invariant 0 <= i <= |steps|
        invariant (allSettled, db') == RunPhase(num, resultLimit, db, steps[..i])
      {
        RunPhaseSnoc(num, resultLimit, db, steps, i);
        var out;
        out, db' := RunStepOn(db', steps[i]);
        allSettled := allSettled && Settled(out);
        i := i + 1;
      }
      assert steps[..|steps|] == steps;
    }

    /** `updateAll`: the query, case and site phases, each waiting for the one before. */
    method UpdateAll(db: Db, sites: seq<Site>) returns (out: Outcome, db': Db)
      requires Defined(num)
      ensures (out, db') == RunAll(num, resultLimit, db, sites)
    {
      var done;
      done, db' := RunPhaseOn(db, QuerySteps(sites));
      if !done {
        return Pending, db';
      }
      done, db' := RunPhaseOn(db', CaseSteps(sites));
      if !done {
        return Pending, db';
      }
      done, db' := RunPhaseOn(db', SiteSteps(sites));
      out := if done then Resolved else Pending;
    }
  }
}
