/**
 * The table-meta cache shared by every dialect: a map from cache key to
 * TableMeta, filled on demand by getTableMeta and re-validated by refresh.
 *
 * The dialect supplies the two abstract operations as functions of the
 * connection: the cache key of a table name (None when deriving it throws an
 * unchecked exception) and the schema fetch (Failure when it throws an
 * SQLException). Within one call the database does not change, so the fetch
 * is a function of the connection and the name.
 */
module AbstractTableMetaCache {
  import opened Wrappers
  import opened JavaStrings
  import opened TableMetaTypes

  /** getCacheKey takes a nullable name (None is null): refresh passes the original name, which may be unset. */
  datatype Dialect<!C> = Dialect(
    cacheKey: (C, Option<string>, string) -> Option<string>,
    fetchSchema: (C, string) -> Result<TableMeta, FetchError>)

  /** The errors getTableMeta raises. */
  datatype CacheError =
    | IllegalArgument          // empty table name
    | CacheKeyFailed           // getCacheKey threw; the exception propagates
    | ShouldNeverHappen        // the fetch gave no TableMeta

  // ---------------------------------------------------------------------
  // What refresh does to one entry, and to the whole map

  /** The name refresh fetches a cached TableMeta under: its original name unless blank. */
  function FreshName(tm: TableMeta): (name: string)
  {
    match tm.originalTableName
    case None => tm.tableName
    case Some(original) => if IsBlank(original) then tm.tableName else original
  }

  /** The entry's key, recomputed from its original name, is the key it is stored under. */
  predicate Matches<C>(d: Dialect<C>, conn: C, resourceId: string, key: string, tm: TableMeta)
  {
    d.cacheKey(conn, tm.originalTableName, resourceId) == Some(key)
  }

  /** Refresh overwrites the entry: it matches and the latest fetch gave a different TableMeta. */
  predicate Replaces<C>(d: Dialect<C>, conn: C, resourceId: string, key: string, tm: TableMeta)
  {
    && Matches(d, conn, resourceId, key, tm)
    && d.fetchSchema(conn, FreshName(tm)).Success?
    && d.fetchSchema(conn, FreshName(tm)).value != tm
  }

  function RefreshedEntry<C>(d: Dialect<C>, conn: C, resourceId: string, key: string, tm: TableMeta): (entry: TableMeta)
  {
    if Replaces(d, conn, resourceId, key, tm) then d.fetchSchema(conn, FreshName(tm)).value else tm
  }

  /** Every entry's key can be recomputed without an exception. */
  predicate KeysDerivable<C>(d: Dialect<C>, conn: C, resourceId: string, m: map<string, TableMeta>)
  {
    forall k :: k in m ==> d.cacheKey(conn, m[k].originalTableName, resourceId).Some?
  }

  function Refreshed<C>(d: Dialect<C>, conn: C, resourceId: string, m: map<string, TableMeta>): (refreshed: map<string, TableMeta>)
  {
    map k | k in m :: RefreshedEntry(d, conn, resourceId, k, m[k])
  }

  function MatchedKeys<C>(d: Dialect<C>, conn: C, resourceId: string, m: map<string, TableMeta>): (matched: set<string>)
  {
    set k | k in m && Matches(d, conn, resourceId, k, m[k])
  }

  function ReplacedKeys<C>(d: Dialect<C>, conn: C, resourceId: string, m: map<string, TableMeta>): (replaced: set<string>)
  {
    set k | k in m && Replaces(d, conn, resourceId, k, m[k])
  }

  /**
   * Refresh keeps the key set, leaves every entry whose recomputed key differs
   * untouched, and changes exactly the replaced entries.
   */
  lemma RefreshOnlyReplacesMatched<C>(d: Dialect<C>, conn: C, resourceId: string, m: map<string, TableMeta>)
    ensures Refreshed(d, conn, resourceId, m).Keys == m.Keys
    ensures ReplacedKeys(d, conn, resourceId, m) <= MatchedKeys(d, conn, resourceId, m)
    ensures forall k :: k in m ==>
      (Refreshed(d, conn, resourceId, m)[k] != m[k] <==> k in ReplacedKeys(d, conn, resourceId, m))
  {
  }

  /** When no fetched TableMeta differs from the cached one, refresh leaves the map as it was. */
  lemma RefreshWithoutChangeIsIdentity<C>(d: Dialect<C>, conn: C, resourceId: string, m: map<string, TableMeta>)
    requires ReplacedKeys(d, conn, resourceId, m) == {}
    ensures Refreshed(d, conn, resourceId, m) == m
  {
    forall k | k in m
      ensures Refreshed(d, conn, resourceId, m)[k] == m[k]
    {
      assert k !in ReplacedKeys(d, conn, resourceId, m);
    }
  }

  /**
   * A fetch that reports the same names as the cached TableMeta it replaces
   * makes refresh idempotent: a second refresh finds nothing to replace.
   */
  predicate FetchKeepsNames<C>(d: Dialect<C>, conn: C, m: map<string, TableMeta>)
  {
    forall k :: k in m && d.fetchSchema(conn, FreshName(m[k])).Success? ==>
      var latest := d.fetchSchema(conn, FreshName(m[k])).value;
      latest.tableName == m[k].tableName && latest.originalTableName == m[k].originalTableName
  }

  lemma RefreshIdempotent<C>(d: Dialect<C>, conn: C, resourceId: string, m: map<string, TableMeta>)
    requires FetchKeepsNames(d, conn, m)
    ensures ReplacedKeys(d, conn, resourceId, Refreshed(d, conn, resourceId, m)) == {}
    ensures Refreshed(d, conn, resourceId, Refreshed(d, conn, resourceId, m)) == Refreshed(d, conn, resourceId, m)
  {
    var once := Refreshed(d, conn, resourceId, m);
    forall k | k in once
      ensures !Replaces(d, conn, resourceId, k, once[k])
    {
      if Replaces(d, conn, resourceId, k, m[k]) {
        var latest := d.fetchSchema(conn, FreshName(m[k])).value;
        assert once[k] == latest;
        assert FreshName(latest) == FreshName(m[k]);
      }
    }
    assert ReplacedKeys(d, conn, resourceId, once) == {};
    RefreshWithoutChangeIsIdentity(d, conn, resourceId, once);
  }

  // ---------------------------------------------------------------------
  // The cache

  class TableMetaCache {
    /** TABLE_META_CACHE, seen as a map without eviction. */
    var entries: map<string, TableMeta>
    /** The table names fetchSchema was called with, oldest first. */
    ghost var fetched: seq<string>

    constructor ()
      ensures entries == map[] && fetched == []
    {
      entries := map[];
      fetched := [];
    }

    /**
     * getTableMeta: rejects an empty name, returns the cached TableMeta of the
     * derived key without fetching, and on a miss fetches once and stores a
     * successful result; a failed fetch stores nothing and ends in
     * ShouldNeverHappen.
     */
    method GetTableMeta<C>(d: Dialect<C>, conn: C, tableName: string, resourceId: string)
      returns (r: Result<TableMeta, CacheError>)
      modifies this
      ensures tableName == "" ==>
        r == Failure(IllegalArgument) && entries == old(entries) && fetched == old(fetched)
      ensures tableName != "" && d.cacheKey(conn, Some(tableName), resourceId).None? ==>
        r == Failure(CacheKeyFailed) && entries == old(entries) && fetched == old(fetched)
      ensures tableName != "" && d.cacheKey(conn, Some(tableName), resourceId).Some? ==>
        var key := d.cacheKey(conn, Some(tableName), resourceId).value;
        if key in old(entries) then
          r == Success(old(entries)[key]) && entries == old(entries) && fetched == old(fetched)
        else
          && fetched == old(fetched) + [tableName]
          && match d.fetchSchema(conn, tableName)
             case Success(tm) => r == Success(tm) && entries == old(entries)[key := tm]
             case Failure(_) => r == Failure(ShouldNeverHappen) && entries == old(entries)
      ensures r.Success? ==>
        var key := d.cacheKey(conn, Some(tableName), resourceId).value;
        key in entries && entries[key] == r.value
    {
      if tableName == "" {
        return Failure(IllegalArgument);
      }
      var key := d.cacheKey(conn, Some(tableName), resourceId);
      if key.None? {
        return Failure(CacheKeyFailed);
      }
      if key.value in entries {
        return Success(entries[key.value]);
      }
      fetched := fetched + [tableName];
      var latest := d.fetchSchema(conn, tableName);
      if latest.Failure? {
        return Failure(ShouldNeverHappen);
      }
      entries := entries[key.value := latest.value];
      return Success(latest.value);
    }

    /**
     * refresh: visits every cached entry once; an entry whose key, recomputed
     * from its original name, is the key it is stored under is fetched again
     * and overwritten only when the latest TableMeta differs. A failed fetch
     * leaves the entry and the loop goes on. `changed` holds the overwritten
     * keys. A key derivation that throws ends the loop (ok is false); the
     * entries visited before it keep their refreshed value.
     */
    method Refresh<C>(d: Dialect<C>, conn: C, resourceId: string) returns (ok: bool, changed: set<string>)
      modifies this
      ensures entries.Keys == old(entries).Keys
      ensures ok <==> KeysDerivable(d, conn, resourceId, old(entries))
      ensures changed <= ReplacedKeys(d, conn, resourceId, old(entries))
      ensures forall k :: k in entries ==>
        entries[k] == if k in changed then RefreshedEntry(d, conn, resourceId, k, old(entries)[k]) else old(entries)[k]
      ensures ok ==> changed == ReplacedKeys(d, conn, resourceId, old(entries))
      ensures ok ==> entries == Refreshed(d, conn, resourceId, old(entries))
      ensures |fetched| >= |old(fetched)| && fetched[..|old(fetched)|] == old(fetched)
    {
      ghost var snapshot := entries;
      ghost var done: set<string> := {};
      var todo := entries.Keys;
      ok, changed := true, {};
      while todo != {}
        invariant todo == snapshot.Keys - done && done <= snapshot.Keys
        invariant entries == PartiallyRefreshed(d, conn, resourceId, snapshot, done)
        invariant forall k :: k in done ==> d.cacheKey(conn, snapshot[k].originalTableName, resourceId).Some?
        invariant forall k :: k in changed <==> k in done && Replaces(d, conn, resourceId, k, snapshot[k])
        invariant |fetched| >= |old(fetched)| && fetched[..|old(fetched)|] == old(fetched)
        decreases todo
      {
        var k :| k in todo;
        var tm := entries[k];
        var key := d.cacheKey(conn, tm.originalTableName, resourceId);
        if key.None? {
          ok := false;
          PartialView(d, conn, resourceId, snapshot, done, changed);
          return;
        }
        PartialStep(d, conn, resourceId, snapshot, done, k);
        if key.value == k {
          var replaced := RefetchEntry(d, conn, resourceId, k);
          if replaced {
            changed := changed + {k};
          }
        } else {
          assert entries[k := tm] == entries;
        }
        done := done + {k};
        todo := todo - {k};
      }
      PartialView(d, conn, resourceId, snapshot, done, changed);
    }

    /** One matched entry of refresh: fetched again, overwritten only when different. */
    method RefetchEntry<C>(d: Dialect<C>, conn: C, resourceId: string, key: string) returns (replaced: bool)
      requires key in entries && Matches(d, conn, resourceId, key, entries[key])
      modifies this
      ensures replaced <==> Replaces(d, conn, resourceId, key, old(entries)[key])
      ensures entries == old(entries)[key := RefreshedEntry(d, conn, resourceId, key, old(entries)[key])]
      ensures fetched == old(fetched) + [FreshName(old(entries)[key])]
    {
      var tm := entries[key];
      var freshTableName := FreshName(tm);
      fetched := fetched + [freshTableName];
      var latest := d.fetchSchema(conn, freshTableName);
      replaced := latest.Success? && latest.value != tm;
      if replaced {
        entries := entries[key := latest.value];
      } else {
        assert entries[key := tm] == entries;
      }
    }
  }

  /** The map after refresh has visited the keys in `done`. */
  function PartiallyRefreshed<C>(d: Dialect<C>, conn: C, resourceId: string, m: map<string, TableMeta>,
                                 done: set<string>): (partial: map<string, TableMeta>)
  {
    map k | k in m :: if k in done then RefreshedEntry(d, conn, resourceId, k, m[k]) else m[k]
  }

  /** What the map and the changed keys say once refresh has visited `done`. */
  lemma PartialView<C>(d: Dialect<C>, conn: C, resourceId: string, m: map<string, TableMeta>,
                       done: set<string>, changed: set<string>)
    requires done <= m.Keys
    requires forall k :: k in changed <==> k in done && Replaces(d, conn, resourceId, k, m[k])
    ensures changed <= ReplacedKeys(d, conn, resourceId, m)
    ensures forall k :: k in m ==> (PartiallyRefreshed(d, conn, resourceId, m, done)[k]
      == if k in changed then RefreshedEntry(d, conn, resourceId, k, m[k]) else m[k])
    ensures done == m.Keys ==> changed == ReplacedKeys(d, conn, resourceId, m)
    ensures done == m.Keys ==> PartiallyRefreshed(d, conn, resourceId, m, done) == Refreshed(d, conn, resourceId, m)
  {
  }

  lemma PartialStep<C>(d: Dialect<C>, conn: C, resourceId: string, m: map<string, TableMeta>,
                       done: set<string>, k: string)
    requires k in m && k !in done
    ensures PartiallyRefreshed(d, conn, resourceId, m, done + {k})
         == PartiallyRefreshed(d, conn, resourceId, m, done)[k := RefreshedEntry(d, conn, resourceId, k, m[k])]
  {
  }

  /** A second lookup of a name just loaded is a hit: same TableMeta, no second fetch. */
  method LookupTwice<C>(cache: TableMetaCache, d: Dialect<C>, conn: C, tableName: string, resourceId: string)
    returns (first: Result<TableMeta, CacheError>, second: Result<TableMeta, CacheError>)
    modifies cache
    ensures first.Success? ==> second == first
    ensures first.Success? ==> |cache.fetched| <= |old(cache.fetched)| + 1
  {
    first := cache.GetTableMeta(d, conn, tableName, resourceId);
    second := cache.GetTableMeta(d, conn, tableName, resourceId);
  }
}
