/** The window between a lock's release and the run of the waiter it wakes: a run in which an eviction
    falls into it, and two coroutines fetch one zone. */
module JwksRace {
  import opened Wrappers
  import opened Text
  import opened OrderedDict
  import opened JwksEngine
  import opened JwksLocks
  import opened JwksSafety
  import Budget = RefetchBudget

  // ---- runs, a step at a time ----

  lemma {:induction false} Extend(s: State, es: seq<Event>, e: Event)
    requires Legal(s, es) && Enabled(Run(s, es), e)
    ensures Legal(s, es + [e]) && Run(s, es + [e]) == Step(Run(s, es), e)
    decreases |es|
  {
    if es == [] {
      assert [] + [e] == [e] && [e][1..] == [];
    } else {
      assert (es + [e])[0] == es[0] && (es + [e])[1..] == es[1..] + [e];
      Extend(Step(s, es[0]), es[1..], e);
    }
  }

  // ---- the zones a run is about ----

  /** The zones called for. */
  function Named(es: seq<Event>): set<string> {
    set e | e in es && e.Call? :: CacheKey(e.domain)
  }

  lemma NamedMore(es: seq<Event>, e: Event)
    ensures Named(es + [e]) == Named(es) + (if e.Call? then {CacheKey(e.domain)} else {})
  {
    assert forall x :: x in es + [e] <==> x in es || x == e;
  }

  lemma NamedRest(es: seq<Event>)
    requires es != []
    ensures Named(es[1..]) <= Named(es)
    ensures es[0].Call? ==> CacheKey(es[0].domain) in Named(es)
  {}

  /** The lock table is about named zones only, and no lock was lost. */
  ghost predicate Within(s: State, names: set<string>) {
    Unique(s.table) && Keys(s.table) <= names && s.lost == {}
  }

  lemma RoomLeft(t: seq<Item<string, LockId>>, names: set<string>, key: string)
    requires Unique(t) && Keys(t) <= names && |names| <= CACHE_MAX && key in names && Get(t, key).None?
    ensures |t| < CACHE_MAX
  {
    KeysCount(t);
    assert Keys(t) <= names - {key};
    Budget.SubsetCount(Keys(t), names - {key});
  }

  lemma NothingEvicted(t: seq<Item<string, LockId>>, locks: seq<Lock>, careful: bool)
    requires |t| < CACHE_MAX
    ensures Remaining(t, locks, careful) == t && LostKeys(t, locks, careful) == {}
  {}

  lemma OpenedWithin(s: State, key: string, names: set<string>)
    requires Within(s, names) && |names| <= CACHE_MAX && key in names
    ensures Within(Opened(s, key), names)
  {
    if Get(s.table, key).None? {
      RoomLeft(s.table, names, key);
      NothingEvicted(s.table, s.locks, s.spareAwaited);
      var t := s.table + [Item(key, |s.locks|)];
      assert Index(s.table, key) == |s.table|;
      assert Keys(t) == Keys(s.table) + {key} by {
        forall i | 0 <= i < |s.table| ensures t[i] == s.table[i] {}
        assert t[|s.table|].key == key;
      }
    }
  }

  lemma CallTables(s: State, c: Coroutine, domain: string, now: real)
    requires RowIsLock(s, CacheKey(domain))
    ensures var s' := OnCall(s, c, domain, now);
      || (s'.table == s.table && s'.lost == s.lost)
      || (s'.table == Opened(s, CacheKey(domain)).table && s'.lost == Opened(s, CacheKey(domain)).lost)
  {
    QueuedTables(s, c, domain);
    EnterTables(Queued(s, c, domain), c, domain, LockFor(s, CacheKey(domain)), now);
  }

  lemma QueuedTables(s: State, c: Coroutine, domain: string)
    requires RowIsLock(s, CacheKey(domain))
    ensures var s', key := Queued(s, c, domain), CacheKey(domain);
      s'.table == Opened(s, key).table && s'.lost == Opened(s, key).lost && LockFor(s, key) < |s'.locks|
  {}

  lemma EnterTables(s: State, c: Coroutine, domain: string, l: LockId, now: real)
    requires l < |s.locks|
    ensures Enter(s, c, domain, l, now).table == s.table && Enter(s, c, domain, l, now).lost == s.lost
  {}

  lemma StepWithin(s: State, e: Event, names: set<string>)
    requires Within(s, names) && |names| <= CACHE_MAX && Enabled(s, e)
    requires e.Call? ==> CacheKey(e.domain) in names
    ensures Within(Step(s, e), names)
  {
    if e.Call? {
      CallTables(s, e.who, e.domain, e.now);
      OpenedWithin(s, CacheKey(e.domain), names);
    }
  }

  lemma {:induction false} RunWithin(s: State, es: seq<Event>, names: set<string>)
    requires Within(s, names) && |names| <= CACHE_MAX && Legal(s, es) && Named(es) <= names
    ensures Within(Run(s, es), names)
    decreases |es|
  {
    if es != [] {
      NamedRest(es);
      StepWithin(s, es[0], names);
      RunWithin(Step(s, es[0]), es[1..], names);
    }
  }

  // ---- filling the lock table ----

  /** Any number of different zones. */
  function Zone(k: nat): (z: string)
    ensures |z| == k + 1 && forall i :: 0 <= i < |z| ==> z[i] == 'a'
  {
    seq(k + 1, i => 'a')
  }

  lemma ZoneKey(k: nat)
    ensures CacheKey(Zone(k)) == Zone(k)
  {
    var z := Zone(k);
    assert z[|z| - 1] == 'a';
    LowerFixed(z);
  }

  function Rows(n: nat): seq<Item<string, LockId>> {
    seq(n, i requires 0 <= i < n => Item(Zone(i), i))
  }

  function Busy(n: nat): seq<Lock> {
    seq(n, i requires 0 <= i < n => Lock(Zone(i), Some(i), []))
  }

  /** Coroutines 0, 1, ..., n - 1 are each fetching a zone of their own. */
  function Filled(n: nat): State {
    var procs: map<Coroutine, Pc> := map c | 0 <= c < n :: Fetching(Zone(c), c, 0);
    Init(false).(table := Rows(n), locks := Busy(n), procs := procs)
  }

  lemma NotInRows(n: nat, k: nat)
    requires k >= n
    ensures Get(Rows(n), Zone(k)) == None
  {
    NoRow(Rows(n), Zone(k));
    forall x | x in Rows(n) ensures x.key != Zone(k) {
      assert |x.key| <= n;
    }
  }

  /** With empty caches a call that finds its lock free starts to fetch. */
  lemma CallEnters(s: State, c: Coroutine, domain: string)
    requires s.cache == [] && s.negative == [] && RowIsLock(s, CacheKey(domain))
    requires Free(Opened(s, CacheKey(domain)).locks[LockFor(s, CacheKey(domain))])
    ensures var key, l := CacheKey(domain), LockFor(s, CacheKey(domain));
      OnCall(s, c, domain, 0.0) == Goto(Acquire(Opened(s, key), c, l), c, Fetching(domain, l, 0))
  {
    var key, l := CacheKey(domain), LockFor(s, CacheKey(domain));
    var q := Queued(s, c, domain);
    EmptyCaches(q, key);
    assert q.negative == [] && Pop(q.negative, key) == [];
    assert q.procs[c := Fetching(domain, l, 0)] == s.procs[c := Fetching(domain, l, 0)];
  }

  lemma EmptyCaches(s: State, key: string)
    ensures s.cache == [] ==> !Fresh(s.cache, key, 0.0)
    ensures s.negative == [] ==> !Suppressed(s.negative, key, 0.0)
  {}

  /** What opening a zone's lock amounts to when the table has no row for it. */
  lemma OpenedNew(s: State, key: string)
    requires s.cache == [] && Get(s.table, key).None?
    ensures Opened(s, key) == s.(
      locks := s.locks + [Lock(key, None, [])],
      table := Remaining(s.table, s.locks, s.spareAwaited) + [Item(key, |s.locks|)],
      lost := s.lost + LostKeys(s.table, s.locks, s.spareAwaited))
  {
    assert Pop(s.cache, key) == [];
  }

  lemma NewEnters(s: State, c: Coroutine, key: string)
    requires s.cache == [] && s.negative == [] && Get(s.table, key).None? && CacheKey(key) == key
    ensures OnCall(s, c, key, 0.0) == s.(
      locks := s.locks + [Lock(key, Some(c), [])],
      table := Remaining(s.table, s.locks, s.spareAwaited) + [Item(key, |s.locks|)],
      lost := s.lost + LostKeys(s.table, s.locks, s.spareAwaited),
      procs := s.procs[c := Fetching(key, |s.locks|, 0)])
  {
    OpenedNew(s, key);
    CallEnters(s, c, key);
    var l := |s.locks|;
    assert (s.locks + [Lock(key, None, [])])[l := Lock(key, Some(c), [])] == s.locks + [Lock(key, Some(c), [])];
  }

  lemma FillStep(n: nat)
    requires n < CACHE_MAX
    ensures Enabled(Filled(n), Call(n, Zone(n), 0.0)) && Step(Filled(n), Call(n, Zone(n), 0.0)) == Filled(n + 1)
  {
    var s := Filled(n);
    ZoneKey(n);
    NotInRows(n, n);
    NewEnters(s, n, Zone(n));
    NothingEvicted(s.table, s.locks, false);
    assert Rows(n) + [Item(Zone(n), n)] == Rows(n + 1);
    assert Busy(n) + [Lock(Zone(n), Some(n), [])] == Busy(n + 1);
    assert s.procs[n := Fetching(Zone(n), n, 0)] == Filled(n + 1).procs;
  }

  function Zones(n: nat): set<string> {
    set i | 0 <= i < n :: Zone(i)
  }

  lemma {:induction false} ZonesCount(n: nat)
    ensures |Zones(n)| <= n
  {
    if n > 0 {
      ZonesCount(n - 1);
      assert Zones(n) == Zones(n - 1) + {Zone(n - 1)};
    }
  }

  lemma {:induction false} FillRun(n: nat) returns (es: seq<Event>)
    requires n <= CACHE_MAX
    ensures Legal(Init(false), es) && Run(Init(false), es) == Filled(n) && Named(es) <= Zones(n)
  {
    if n == 0 {
      es := [];
      assert Rows(0) == [] && Busy(0) == [];
      assert Filled(0).procs == map[];
    } else {
      es := FillRun(n - 1);
      FillStep(n - 1);
      Extend(Init(false), es, Call(n - 1, Zone(n - 1), 0.0));
      NamedMore(es, Call(n - 1, Zone(n - 1), 0.0));
      ZoneKey(n - 1);
      assert Zone(n - 1) in Zones(n);
      es := es + [Call(n - 1, Zone(n - 1), 0.0)];
    }
  }

  // ---- the race ----

  const N: nat := CACHE_MAX
  const WAITER: Coroutine := 600
  const NEWCOMER: Coroutine := 601
  const SECOND: Coroutine := 602

  /** A second caller queues behind the first, and the first is cancelled. */
  function Woken(s: State): State
    requires |s.locks| > 0
  {
    s.(locks := s.locks[0 := Lock(Zone(0), None, [WAITER])], procs := s.procs[WAITER := Waiting(Zone(0), 0)][0 := Idle])
  }

  lemma FirstRow(n: nat)
    requires n > 0
    ensures Get(Rows(n), Zone(0)) == Some(0)
  {
    assert Rows(n)[0] == Item(Zone(0), 0);
  }

  lemma Queues(s: State)
    requires s == Filled(N)
    ensures Enabled(s, Call(WAITER, Zone(0), 0.0))
    ensures Step(s, Call(WAITER, Zone(0), 0.0))
         == s.(locks := s.locks[0 := Lock(Zone(0), Some(0), [WAITER])], procs := s.procs[WAITER := Waiting(Zone(0), 0)])
  {
    ZoneKey(0);
    FirstRow(N);
    assert s.locks[0] == Lock(Zone(0), Some(0), []);
    EmptyCaches(s, Zone(0));
    assert Pop(s.cache, Zone(0)) == [];
    assert Opened(s, Zone(0)) == s;
    assert [] + [WAITER] == [WAITER];
  }

  lemma IsCancelled(s: State, s1: State)
    requires s == Filled(N)
    requires s1 == s.(locks := s.locks[0 := Lock(Zone(0), Some(0), [WAITER])], procs := s.procs[WAITER := Waiting(Zone(0), 0)])
    ensures Enabled(s1, Cancel(0, 0.0)) && Step(s1, Cancel(0, 0.0)) == Woken(s)
  {
    assert PcOf(s1, 0) == Fetching(Zone(0), 0, 0);
    assert s1.locks[0 := Lock(Zone(0), None, [WAITER])] == s.locks[0 := Lock(Zone(0), None, [WAITER])];
  }

  /** Of a full table whose other locks are all locked, the released one is evicted. */
  lemma FirstEvicted(t: seq<Item<string, LockId>>, locks: seq<Lock>)
    requires |t| == CACHE_MAX && !Spared(locks, t[0].val, false)
    ensures Remaining(t, locks, false) == t[1..]
  {
    assert EvictIdle(t[1..], locks, 0, false) == t[1..];
    assert EvictIdle(t, locks, 1, false) == t[1..];
  }

  lemma GoneFromRows(rows: seq<Item<string, LockId>>)
    requires rows == Rows(N)[1..] + [Item(Zone(N), N)]
    ensures Get(rows, Zone(0)).None?
  {
    forall i | 0 <= i < |rows| ensures rows[i].key == Zone(i + 1) {
      assert i < N - 1 ==> rows[i] == Rows(N)[i + 1];
    }
    AllLonger(rows);
  }

  lemma AllLonger(rows: seq<Item<string, LockId>>)
    requires forall i :: 0 <= i < |rows| ==> rows[i].key == Zone(i + 1)
    ensures Get(rows, Zone(0)).None?
  {
    NoRow(rows, Zone(0));
    forall x | x in rows ensures x.key != Zone(0) {
      var i :| 0 <= i < |rows| && rows[i] == x;
      assert |x.key| == i + 2;
    }
  }

  /** A full table, nothing cached, and the first zone's lock released with a waiter woken. */
  predicate InWindow(w: State) {
    && w.table == Rows(N) && |w.locks| == N && w.cache == [] && w.negative == [] && !w.spareAwaited
    && w.locks[0] == Lock(Zone(0), None, [WAITER])
    && PcOf(w, WAITER) == Waiting(Zone(0), 0) && PcOf(w, NEWCOMER).Idle? && PcOf(w, SECOND).Idle?
  }

  lemma WokenInWindow(s: State)
    requires s == Filled(N)
    ensures InWindow(Woken(s))
  {}

  /** The state after a call for one more zone has made room for its lock. */
  function Crowded(w: State): State {
    w.(locks := w.locks + [Lock(Zone(N), Some(NEWCOMER), [])],
       table := Rows(N)[1..] + [Item(Zone(N), N)],
       lost := w.lost + LostKeys(w.table, w.locks, false),
       procs := w.procs[NEWCOMER := Fetching(Zone(N), N, 0)])
  }

  lemma MakesRoom(w: State)
    requires InWindow(w)
    ensures Enabled(w, Call(NEWCOMER, Zone(N), 0.0)) && Step(w, Call(NEWCOMER, Zone(N), 0.0)) == Crowded(w)
  {
    ZoneKey(N);
    NotInRows(N, N);
    NewEnters(w, NEWCOMER, Zone(N));
    assert Rows(N)[0] == Item(Zone(0), 0);
    FirstEvicted(w.table, w.locks);
  }

  /** The first zone has a waiter on its old lock and no lock in the table. */
  predicate Detached(c: State) {
    && c.cache == [] && c.negative == [] && Get(c.table, Zone(0)).None?
    && |c.locks| > 0 && c.locks[0] == Lock(Zone(0), None, [WAITER])
    && PcOf(c, WAITER) == Waiting(Zone(0), 0) && PcOf(c, SECOND).Idle?
  }

  lemma CrowdedDetached(w: State)
    requires InWindow(w)
    ensures Detached(Crowded(w))
  {
    GoneFromRows(Crowded(w).table);
    assert Crowded(w).locks[0] == w.locks[0];
  }

  lemma FetchesAgain(c: State)
    requires Detached(c)
    ensures Enabled(c, Call(SECOND, Zone(0), 0.0))
    ensures var s' := Step(c, Call(SECOND, Zone(0), 0.0));
      && PcOf(s', SECOND) == Fetching(Zone(0), |c.locks|, 0) && PcOf(s', WAITER) == Waiting(Zone(0), 0)
      && |s'.locks| > 0 && s'.locks[0] == Lock(Zone(0), None, [WAITER]) && s'.cache == [] && s'.negative == []
  {
    ZoneKey(0);
    NewEnters(c, SECOND, Zone(0));
  }

  lemma FetchesToo(s: State)
    requires PcOf(s, WAITER) == Waiting(Zone(0), 0) && PcOf(s, SECOND).Fetching?
    requires |s.locks| > 0 && s.locks[0] == Lock(Zone(0), None, [WAITER]) && s.cache == [] && s.negative == []
    ensures Enabled(s, Granted(WAITER, 0.0))
    ensures var s' := Step(s, Granted(WAITER, 0.0));
      PcOf(s', WAITER) == Fetching(Zone(0), 0, 0) && PcOf(s', SECOND) == PcOf(s, SECOND)
  {
    GrantedAside(s, WAITER, 0.0);
    EmptyCaches(Take(s, WAITER, 0), CacheKey(Zone(0)));
  }

  /** With 512 zones in flight: the first zone's fetch is cancelled while a second caller waits for its
      lock, a call for one more zone evicts that lock, and before the waiter runs a third caller finds no
      lock and makes a new one. Then both fetch. */
  lemma RaceExample() returns (es: seq<Event>)
    ensures Legal(Init(false), es) && BothFetch(Run(Init(false), es), WAITER, SECOND) && |Named(es)| <= N + 1
  {
    var s := Filled(N);
    var init := Init(false);
    var e1, e2, e3 := Call(WAITER, Zone(0), 0.0), Cancel(0, 0.0), Call(NEWCOMER, Zone(N), 0.0);
    var e4, e5 := Call(SECOND, Zone(0), 0.0), Granted(WAITER, 0.0);
    es := FillRun(N);
    Queues(s);
    Extend(init, es, e1);
    IsCancelled(s, Run(init, es + [e1]));
    Extend(init, es + [e1], e2);
    WokenInWindow(s);
    MakesRoom(Woken(s));
    CrowdedDetached(Woken(s));
    Extend(init, es + [e1] + [e2], e3);
    FetchesAgain(Crowded(Woken(s)));
    Extend(init, es + [e1] + [e2] + [e3], e4);
    FetchesToo(Run(init, es + [e1] + [e2] + [e3] + [e4]));
    Extend(init, es + [e1] + [e2] + [e3] + [e4], e5);
    NamesOfRace(es, e1, e2, e3, e4, e5);
    es := es + [e1] + [e2] + [e3] + [e4] + [e5];
  }

  lemma NamesOfRace(es: seq<Event>, e1: Event, e2: Event, e3: Event, e4: Event, e5: Event)
    requires Named(es) <= Zones(N) && e1.Call? && e1.domain == Zone(0) && e2.Cancel?
    requires e3.Call? && e3.domain == Zone(N) && e4.Call? && e4.domain == Zone(0) && e5.Granted?
    ensures |Named(es + [e1] + [e2] + [e3] + [e4] + [e5])| <= N + 1
  {
    assert Zones(N) <= Zones(N + 1);
    NamedZone(es, e1, 0, N + 1);
    NamedZone(es + [e1], e2, 0, N + 1);
    NamedZone(es + [e1] + [e2], e3, N, N + 1);
    NamedZone(es + [e1] + [e2] + [e3], e4, 0, N + 1);
    NamedZone(es + [e1] + [e2] + [e3] + [e4], e5, 0, N + 1);
    ZonesCount(N + 1);
    Budget.SubsetCount(Named(es + [e1] + [e2] + [e3] + [e4] + [e5]), Zones(N + 1));
  }

  lemma NamedZone(es: seq<Event>, e: Event, k: nat, n: nat)
    requires Named(es) <= Zones(n) && k < n && (e.Call? ==> e.domain == Zone(k))
    ensures Named(es + [e]) <= Zones(n)
  {
    NamedMore(es, e);
    ZoneKey(k);
    assert Zone(k) in Zones(n);
  }

  /** Two different coroutines never fetch one zone at once. */
  ghost predicate AlwaysSingle(spareAwaited: bool) {
    forall es, c, d :: Legal(Init(spareAwaited), es) && BothFetch(Run(Init(spareAwaited), es), c, d) ==> c == d
  }

  predicate BothFetch(s: State, c: Coroutine, d: Coroutine) {
    PcOf(s, c).Fetching? && PcOf(s, d).Fetching? && CacheKey(PcOf(s, c).domain) == CacheKey(PcOf(s, d).domain)
  }

  /** What would help: one fetch a zone at any time, in every run, exactly if evictions spare the locks
      that are waited for, not only those that are locked. */
  lemma SingleFlightExactly(spareAwaited: bool)
    ensures AlwaysSingle(spareAwaited) <==> spareAwaited
  {
    if spareAwaited {
      forall es, c, d | Legal(Init(true), es) && BothFetch(Run(Init(true), es), c, d) ensures c == d {
        SingleFlight(true, es, c, d);
      }
    } else {
      var es := RaceExample();
      assert BothFetch(Run(Init(false), es), WAITER, SECOND);
    }
  }

  /** The same for the code as written, in runs that call for at most `n` different zones. */
  ghost predicate SingleUpTo(n: nat) {
    forall es, c, d :: Legal(Init(false), es) && |Named(es)| <= n && BothFetch(Run(Init(false), es), c, d) ==> c == d
  }

  lemma FewZonesSingle(es: seq<Event>, c: Coroutine, d: Coroutine)
    requires Legal(Init(false), es) && |Named(es)| <= CACHE_MAX && BothFetch(Run(Init(false), es), c, d)
    ensures c == d
  {
    RunWithin(Init(false), es, Named(es));
    SingleFlight(false, es, c, d);
  }

  /** One fetch a zone at any time, in every run that calls for at most `n` different zones, exactly if
      `n` is at most 512: the lock table then never evicts. */
  lemma SingleFlightUpToExactly(n: nat)
    ensures SingleUpTo(n) <==> n <= CACHE_MAX
  {
    if n <= CACHE_MAX {
      forall es, c, d | Legal(Init(false), es) && |Named(es)| <= n && BothFetch(Run(Init(false), es), c, d) ensures c == d {
        FewZonesSingle(es, c, d);
      }
    } else {
      var es := RaceExample();
      assert BothFetch(Run(Init(false), es), WAITER, SECOND);
    }
  }
}
