/** The module-level tables and the atomic sections that mutate them, in the program's own form. */
module JwksTables {
  import opened Wrappers
  import opened OrderedDict
  import opened JwksEngine
  import Budget = RefetchBudget

  class Tables {
    var cache: seq<Item<string, Cached>>
    var negative: seq<Item<string, real>>
    var forced: Budget.Table
    var table: seq<Item<string, LockId>>
    var locks: seq<Lock>

    constructor ()
      ensures cache == [] && negative == [] && forced == [] && table == [] && locks == []
    {
      cache, negative, forced, table, locks := [], [], [], [], [];
    }

    /** Store a fetched document, evicting the oldest entries while the cache is full. */
    method StoreDocument(domain: string, doc: Document, now: real)
      modifies this`cache
      ensures cache == CacheJwks(old(cache), domain, doc, now)
    {
      while |cache| >= CACHE_MAX
        invariant Room(cache, CACHE_MAX) == Room(old(cache), CACHE_MAX)
      {
        cache := cache[1..];
      }
      cache := Put(cache, CacheKey(domain), Cached(doc, now + CACHE_TTL));
    }

    /** Remember that no location served a key set. */
    method StoreFailure(domain: string, now: real)
      modifies this`negative
      ensures negative == NoteFailure(old(negative), domain, now)
    {
      while |negative| >= CACHE_MAX
        invariant Room(negative, CACHE_MAX) == Room(old(negative), CACHE_MAX)
      {
        negative := negative[1..];
      }
      negative := Put(negative, CacheKey(domain), now + NEGATIVE_TTL);
    }

    /** Check the zone's refetch budget and spend it before anything is awaited. */
    method SpendRefetch(domain: string, tick: real) returns (granted: bool)
      modifies this`forced
      ensures granted == Budget.Grants(old(forced), CacheKey(domain), tick)
      ensures forced == Budget.Reserve(old(forced), CacheKey(domain), tick)
    {
      var key := CacheKey(domain);
      var last := Get(forced, key);
      granted := last.None? || tick - last.value >= Budget.CACHE_TTL;
      if granted {
        while |forced| >= Budget.TABLE_MAX
          invariant Room(forced, Budget.TABLE_MAX) == Room(old(forced), Budget.TABLE_MAX)
        {
          forced := forced[1..];
        }
        forced := Pop(forced, key);
        forced := forced + [Item(key, tick)];
      }
    }

    /** Give up locks that are not locked, oldest first, until there is room for one more. */
    method EvictStale()
      requires Unique(table) && |table| >= CACHE_MAX
      modifies this`table
      ensures table == Remaining(old(table), locks, false)
    {
      var snapshot, known := table, locks;
      var i := 0;
      ghost var kept, rest := 0, snapshot;
      EvictionStarts(table, known);
      while i < |snapshot| && |table| >= CACHE_MAX
        invariant 0 <= i <= |snapshot| && rest == snapshot[i..]
        invariant Midway(snapshot, known, table, kept, rest)
      {
        var stale := snapshot[i];
        assert rest[0] == stale && rest[1..] == snapshot[i + 1..];
        EvictStep(snapshot, known, table, kept, rest);
        if Spared(known, stale.val, false) {
          kept := kept + 1;
        } else {
          table := Pop(table, stale.key);
        }
        i, rest := i + 1, rest[1..];
      }
      EvictionEnds(snapshot, known, table, kept, rest);
    }

    /** The single-flight lock of a zone; a full table gives up locks that are not locked. */
    method InflightLock(key: string) returns (l: LockId)
      requires Unique(table)
      modifies this`table, this`locks
      ensures table == WithLock(old(table), old(locks), key, |old(locks)|, false)
      ensures l == if Get(old(table), key).Some? then Get(old(table), key).value else |old(locks)|
      ensures locks == if Get(old(table), key).Some? then old(locks) else old(locks) + [Lock(key, None, [])]
    {
      var row := Get(table, key);
      if row.Some? {
        return row.value;
      }
      if |table| >= CACHE_MAX {
        EvictStale();
      }
      l := |locks|;
      locks := locks + [Lock(key, None, [])];
      table := table + [Item(key, l)];
    }
  }

  type Rows = seq<Item<string, LockId>>

  /** Having kept the first `kept` rows, with `rest` still to look at, what eviction has left to do yields
      the same table. */
  ghost predicate Midway(t0: Rows, locks: seq<Lock>, t: Rows, kept: nat, rest: Rows) {
    && CACHE_MAX - 1 <= |t| <= |t0| && CACHE_MAX <= |t0| && kept <= |t| && Unique(t)
    && t[kept..] == rest
    && Remaining(t0, locks, false) == t[..kept] + EvictIdle(rest, locks, |t| - CACHE_MAX + 1, false)
  }

  lemma EvictionStarts(t: Rows, locks: seq<Lock>)
    requires Unique(t) && |t| >= CACHE_MAX
    ensures Midway(t, locks, t, 0, t)
  {
    assert t[0..] == t && t[..0] == [];
  }

  lemma KeepStep(t0: Rows, locks: seq<Lock>, t: Rows, kept: nat, rest: Rows)
    requires Midway(t0, locks, t, kept, rest) && rest != [] && |t| >= CACHE_MAX && Spared(locks, rest[0].val, false)
    ensures Midway(t0, locks, t, kept + 1, rest[1..])
  {
    var left := EvictIdle(rest[1..], locks, |t| - CACHE_MAX + 1, false);
    assert t[kept] == rest[0] && t[kept + 1..] == rest[1..];
    assert t[..kept] + ([rest[0]] + left) == t[..kept + 1] + left;
  }

  lemma PopAt(t: Rows, kept: nat)
    requires Unique(t) && kept < |t|
    ensures Pop(t, t[kept].key) == t[..kept] + t[kept + 1..] && Unique(Pop(t, t[kept].key))
  {
    assert Index(t, t[kept].key) == kept;
  }

  lemma DropStep(t0: Rows, locks: seq<Lock>, t: Rows, kept: nat, rest: Rows)
    requires Midway(t0, locks, t, kept, rest) && rest != [] && |t| >= CACHE_MAX && !Spared(locks, rest[0].val, false)
    ensures Midway(t0, locks, Pop(t, rest[0].key), kept, rest[1..])
  {
    assert t[kept] == rest[0] && t[kept + 1..] == rest[1..];
    PopAt(t, kept);
    var t' := Pop(t, rest[0].key);
    assert t'[..kept] == t[..kept] && t'[kept..] == rest[1..];
  }

  lemma EvictStep(t0: Rows, locks: seq<Lock>, t: Rows, kept: nat, rest: Rows)
    requires Midway(t0, locks, t, kept, rest) && rest != [] && |t| >= CACHE_MAX
    ensures if Spared(locks, rest[0].val, false) then Midway(t0, locks, t, kept + 1, rest[1..])
            else Midway(t0, locks, Pop(t, rest[0].key), kept, rest[1..])
  {
    if Spared(locks, rest[0].val, false) {
      KeepStep(t0, locks, t, kept, rest);
    } else {
      DropStep(t0, locks, t, kept, rest);
    }
  }

  lemma EvictionEnds(t0: Rows, locks: seq<Lock>, t: Rows, kept: nat, rest: Rows)
    requires Midway(t0, locks, t, kept, rest) && (rest == [] || |t| < CACHE_MAX)
    ensures t == Remaining(t0, locks, false)
  {
    assert t == t[..kept] + t[kept..];
  }
}
