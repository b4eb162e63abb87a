/** `SequentialDataLoaderService`: items read from an SQL source in chunks
    of consecutive ids, cached in memory, with counters of the requests and
    of the requests the cache answered. Ids are strings compared with
    `compareTo`. */
module SequentialDataLoaders {
  import opened Wrappers
  import opened Strings

  /** One row of the result set: its `id` column and the item
      `processRecord` builds from it, which may be null. */
  datatype Row<V> = Row(id: string, item: Option<V>)

  /** The cache a load leaves: every row with an item, under its id; a later
      row with the same id replaces an earlier one. */
  function CacheOf<V>(rows: seq<Row<V>>): (r: map<string, V>)
    ensures forall k :: k in r <==> exists j :: 0 <= j < |rows| && rows[j].id == k && rows[j].item.Some?
    ensures rows != [] && rows[|rows| - 1].item.Some? ==> r[rows[|rows| - 1].id] == rows[|rows| - 1].item.value
  {
    if rows == [] then map[]
    else
      var init, last := rows[..|rows| - 1], rows[|rows| - 1];
      assert forall j :: 0 <= j < |rows| - 1 ==> init[j] == rows[j];
      if last.item.Some? then CacheOf(init)[last.id := last.item.value] else CacheOf(init)
  }

  /** The largest id after a load from `id`: the id of the last row read,
      or `id` itself when there was none. */
  function LastId<V>(id: string, rows: seq<Row<V>>): (r: string)
    ensures rows == [] ==> r == id
    ensures rows != [] ==> r == rows[|rows| - 1].id
  {
    if rows == [] then id else rows[|rows| - 1].id
  }

  /** The rows a query for `id` returns: ids ascending, none below `id`. */
  predicate FromId<V>(id: string, rows: seq<Row<V>>) {
    (forall j :: 0 <= j < |rows| ==> LexLessEq(id, rows[j].id))
    && (forall j :: 0 < j < |rows| ==> LexLessEq(rows[j - 1].id, rows[j].id))
  }

  /** Every id of an ascending load lies between the requested id and the
      largest id read. */
  lemma {:induction false} RowsInRange<V>(id: string, rows: seq<Row<V>>)
    requires FromId(id, rows)
    ensures LexLessEq(id, LastId(id, rows))
    ensures forall j :: 0 <= j < |rows| ==> LexLessEq(rows[j].id, LastId(id, rows))
  {
    LexLessEqTotal(id, id);
    if rows != [] {
      var init := rows[..|rows| - 1];
      assert forall j :: 0 <= j < |init| ==> init[j] == rows[j];
      RowsInRange(id, init);
      var last := rows[|rows| - 1].id;
      LexLessEqTotal(last, last);
      if init != [] {
        forall j | 0 <= j < |init| ensures LexLessEq(rows[j].id, last) {
          LexLessEqTrans(rows[j].id, LastId(id, init), last);
        }
      }
    }
  }

  /** After an ascending load every cached id lies in [minId, maxId]. */
  lemma CachedInRange<V>(id: string, rows: seq<Row<V>>)
    requires FromId(id, rows)
    ensures forall k :: k in CacheOf(rows) ==> LexLessEq(id, k) && LexLessEq(k, LastId(id, rows))
  {
    RowsInRange(id, rows);
  }

  class SequentialDataLoader<V> {
    /** The result set of the SQL query for an id and a batch size. */
    const source: (string, int) -> seq<Row<V>>
    var sqlQuery: Option<string>
    var hasRepository: bool
    var minId: Option<string>
    var maxId: Option<string>
    var cache: Option<map<string, V>>
    var requestCount: nat
    var cacheHitCount: nat
    var cacheSize: int

    /** Both bounds are set by every load, and a load leaves a cache behind;
        the cache never answers more requests than were made. */
    ghost predicate Valid()
      reads this
    {
      && (minId.Some? <==> maxId.Some?)
      && (maxId.Some? ==> cache.Some?)
      && cacheHitCount <= requestCount
    }

    constructor(source: (string, int) -> seq<Row<V>>)
      ensures Valid()
      ensures this.source == source && sqlQuery == None && !hasRepository
      ensures minId == None && maxId == None && cache == None
      ensures requestCount == 0 && cacheHitCount == 0 && cacheSize == 1000
    {
      this.source := source;
      sqlQuery := None;
      hasRepository := false;
      minId, maxId, cache := None, None, None;
      requestCount, cacheHitCount := 0, 0;
      cacheSize := 1000;
    }

    method SetCacheSize(size: int)
      modifies this
      ensures cacheSize == size
      ensures minId == old(minId) && maxId == old(maxId) && cache == old(cache)
      ensures requestCount == old(requestCount) && cacheHitCount == old(cacheHitCount)
      ensures sqlQuery == old(sqlQuery) && hasRepository == old(hasRepository)
    {
      cacheSize := size;
    }

    /** `doStartService`: the SQL query and the repository must be set; the
        counters start from zero. */
    method StartService() returns (error: Option<string>)
      requires Valid()
      modifies this
      ensures Valid()
      ensures sqlQuery.None? ==> error == Some("SQL query is required")
      ensures sqlQuery.Some? && !hasRepository ==> error == Some("Repository is required")
      ensures error.None? <==> sqlQuery.Some? && hasRepository
      ensures error.None? ==> requestCount == 0 && cacheHitCount == 0
      ensures error.Some? ==> requestCount == old(requestCount) && cacheHitCount == old(cacheHitCount)
      ensures minId == old(minId) && maxId == old(maxId) && cache == old(cache) && cacheSize == old(cacheSize)
      ensures sqlQuery == old(sqlQuery) && hasRepository == old(hasRepository)
    {
      if sqlQuery.None? {
        return Some("SQL query is required");
      }
      if !hasRepository {
        return Some("Repository is required");
      }
      requestCount, cacheHitCount := 0, 0;
      return None;
    }

    /** `getCacheHitRatio`: the percentage of requests the cache answered, 0
        before any request. */
    function CacheHitRatio(): (r: real)
      reads this
      ensures requestCount == 0 ==> r == 0.0
      ensures Valid() ==> 0.0 <= r <= 100.0
      ensures requestCount > 0 && cacheHitCount == requestCount ==> r == 100.0
    {
      if requestCount == 0 then 0.0
      else
        var ratio := cacheHitCount as real / requestCount as real;
        assert cacheHitCount <= requestCount ==> ratio <= 1.0;
        ratio * 100.0
    }

    /** The load went no further than one id, and `id` is past it: there is
        nothing more to read. */
    predicate PastOneIdRange(id: string)
      reads this
    {
      minId.Some? && minId == maxId && !LexLessEq(id, maxId.value)
    }

    /** `id` lies within the loaded range, bounds included. */
    predicate InRange(id: string)
      reads this
    {
      minId.Some? && maxId.Some? && LexLessEq(minId.value, id) && LexLessEq(id, maxId.value)
    }

    function Cached(id: string): (r: Option<V>)
      reads this
      ensures r.Some? <==> cache.Some? && id in cache.value
      ensures r.Some? ==> r.value == cache.value[id]
    {
      if cache.Some? && id in cache.value then Some(cache.value[id]) else None
    }

    /** `getItem`: every call is a request. An id past an exhausted one-id
        range is a hit answered with null; an id within the range is a hit
        answered from the cache; any other id reloads the cache from it. */
    method GetItem(id: string) returns (r: Option<V>)
      requires Valid()
      modifies this
      ensures Valid()
      ensures requestCount == old(requestCount) + 1
      ensures old(PastOneIdRange(id)) ==>
        r == None && cacheHitCount == old(cacheHitCount) + 1
        && cache == old(cache) && minId == old(minId) && maxId == old(maxId)
      ensures !old(PastOneIdRange(id)) && old(InRange(id)) ==>
        r == old(Cached(id)) && cacheHitCount == old(cacheHitCount) + 1
        && cache == old(cache) && minId == old(minId) && maxId == old(maxId)
      ensures !old(PastOneIdRange(id)) && !old(InRange(id)) ==>
        cacheHitCount == old(cacheHitCount)
        && cache == Some(CacheOf(source(id, cacheSize)))
        && minId == Some(id) && maxId == Some(LastId(id, source(id, cacheSize)))
        && r == Cached(id)
      ensures !old(PastOneIdRange(id)) && !old(InRange(id)) && FromId(id, source(id, cacheSize)) ==> InRange(id)
      ensures cacheSize == old(cacheSize) && sqlQuery == old(sqlQuery) && hasRepository == old(hasRepository)
    {
      requestCount := requestCount + 1;
      if minId.Some? && minId == maxId && !LexLessEq(id, maxId.value) {
        cacheHitCount := cacheHitCount + 1;
        return None;
      }
      if maxId.None? || !LexLessEq(minId.value, id) || !LexLessEq(id, maxId.value) {
        LoadData(id);
        if FromId(id, source(id, cacheSize)) {
          RowsInRange(id, source(id, cacheSize));
          LexLessEqTotal(id, id);
        }
      } else {
        cacheHitCount := cacheHitCount + 1;
      }
      r := Cached(id);
    }

    /** `loadData(stmt, id)`: the cache is emptied, the range restarts at
        `id`, and every row read is cached and moves the upper bound. */
    method LoadData(id: string)
      requires Valid()
      modifies this
      ensures Valid()
      ensures cache == Some(CacheOf(source(id, cacheSize)))
      ensures minId == Some(id) && maxId == Some(LastId(id, source(id, cacheSize)))
      ensures requestCount == old(requestCount) && cacheHitCount == old(cacheHitCount)
      ensures cacheSize == old(cacheSize) && sqlQuery == old(sqlQuery) && hasRepository == old(hasRepository)
    {
      var rows := source(id, cacheSize);
      var items: map<string, V> := map[];
      var last := id;
      for i := 0 to |rows|
        invariant items == CacheOf(rows[..i])
        invariant last == LastId(id, rows[..i])
      {
        assert rows[..i + 1][..i] == rows[..i];
        if rows[i].item.Some? {
          items := items[rows[i].id := rows[i].item.value];
        }
        last := rows[i].id;
      }
      assert rows[..|rows|] == rows;
      cache, minId, maxId := Some(items), Some(id), Some(last);
    }
  }
}
