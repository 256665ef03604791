/** The key-set fetch engine: a positive cache, a negative cache, a table of per-zone locks and a
    budget of forced refetches, shared by any number of interleaved coroutines on one event loop.
    Everything between two awaits is one step. Releasing a lock wakes its first waiter and leaves the lock
    unlocked until that waiter runs; newcomers queue behind it. */
module JwksEngine {
  import opened Wrappers
  import opened Text
  import opened OrderedDict
  import Budget = RefetchBudget

  const CACHE_TTL: real := 3600.0
  const NEGATIVE_TTL: real := 30.0
  const CACHE_MAX: nat := 512
  const CANDIDATES: nat := 2

  type Coroutine = nat
  type LockId = nat

  /** A fetched document; which keys it holds is the verdict's concern. */
  datatype Document = Document(body: string, hasKeys: bool)

  datatype Cached = Cached(doc: Document, expiry: real)

  function CacheKey(domain: string): string {
    Lower(RStripDot(domain))
  }

  /** Candidate locations, the derived host before the zone apex. */
  function Url(domain: string, index: nat): string {
    (if index == 0 then "https://dns-aid." else "https://") + RStripDot(domain) + PATH
  }

  const PATH := "/.well-known/dns-aid-jwks.json"

  /** `key` is the zone a lock was made for. */
  datatype Lock = Lock(key: string, holder: Option<Coroutine>, queue: seq<Coroutine>)

  datatype Pc =
    | Idle
    | Waiting(domain: string, lock: LockId)
    | Fetching(domain: string, lock: LockId, index: nat)
    | Refetching(domain: string, index: nat)
    | Done(domain: string, result: Option<Document>)

  /** A document seen in a response, and where from. */
  datatype Served = Served(url: string, doc: Document)

  datatype State = State(
    cache: seq<Item<string, Cached>>,
    negative: seq<Item<string, real>>,
    forced: Budget.Table,
    table: seq<Item<string, LockId>>,
    locks: seq<Lock>,
    procs: map<Coroutine, Pc>,
    // what the eviction of locks spares besides locked ones: those waited for, or (as written) nothing
    spareAwaited: bool,
    // history, read by the properties only
    ticks: real,
    reserved: seq<Budget.Reservation>,
    served: set<Served>,
    lost: set<string>)

  /** What may happen next; `now` is the wall clock and `tick` the monotonic one. */
  datatype Event =
    | Call(who: Coroutine, domain: string, now: real)
    | Granted(who: Coroutine, now: real)
    | Reply(who: Coroutine, answer: Option<Document>, now: real)
    | Unmatched(who: Coroutine, tick: real, now: real)
    | RefetchReply(who: Coroutine, answer: Option<Document>, now: real)
    | Cancel(who: Coroutine, now: real)

  function Init(spareAwaited: bool): State {
    State([], [], [], [], [], map[], spareAwaited, 0.0, [], {}, {})
  }

  function PcOf(s: State, c: Coroutine): Pc {
    if c in s.procs then s.procs[c] else Idle
  }

  function Goto(s: State, c: Coroutine, pc: Pc): State {
    s.(procs := s.procs[c := pc])
  }

  // ---- the atomic sections ----

  predicate Fresh(cache: seq<Item<string, Cached>>, key: string, now: real) {
    var e := Get(cache, key);
    e.Some? && now < e.value.expiry
  }

  predicate Suppressed(negative: seq<Item<string, real>>, key: string, now: real) {
    var e := Get(negative, key);
    e.Some? && now < e.value
  }

  function CacheJwks(cache: seq<Item<string, Cached>>, domain: string, doc: Document, now: real): seq<Item<string, Cached>> {
    Put(Room(cache, CACHE_MAX), CacheKey(domain), Cached(doc, now + CACHE_TTL))
  }

  function NoteFailure(negative: seq<Item<string, real>>, domain: string, now: real): seq<Item<string, real>> {
    Put(Room(negative, CACHE_MAX), CacheKey(domain), now + NEGATIVE_TTL)
  }

  predicate Awaited(locks: seq<Lock>, l: LockId) {
    l < |locks| && locks[l].queue != []
  }

  /** Locks that are not evicted. The program asks whether a lock is locked, which one that has been
      released and whose waiter has not run yet is not. */
  predicate Spared(locks: seq<Lock>, l: LockId, spareAwaited: bool) {
    l < |locks| && (locks[l].holder.Some? || (spareAwaited && locks[l].queue != []))
  }

  /** Evict up to `n` locks that are not spared, oldest first. */
  function EvictIdle(t: seq<Item<string, LockId>>, locks: seq<Lock>, n: nat, spareAwaited: bool): seq<Item<string, LockId>> {
    if t == [] || n == 0 then t
    else if Spared(locks, t[0].val, spareAwaited) then [t[0]] + EvictIdle(t[1..], locks, n, spareAwaited)
    else EvictIdle(t[1..], locks, n - 1, spareAwaited)
  }

  /** The rows left when room is made for one more. */
  function Remaining(t: seq<Item<string, LockId>>, locks: seq<Lock>, spareAwaited: bool): seq<Item<string, LockId>> {
    if |t| >= CACHE_MAX then EvictIdle(t, locks, |t| - CACHE_MAX + 1, spareAwaited) else t
  }

  /** The lock table once `key` has an entry; `newLock` is the identity of a new lock. */
  function WithLock(t: seq<Item<string, LockId>>, locks: seq<Lock>, key: string, newLock: LockId, spareAwaited: bool)
    : seq<Item<string, LockId>>
  {
    if Get(t, key).Some? then t else Remaining(t, locks, spareAwaited) + [Item(key, newLock)]
  }

  /** The zones whose lock is evicted although somebody waits for it. */
  function LostKeys(t: seq<Item<string, LockId>>, locks: seq<Lock>, spareAwaited: bool): set<string> {
    set x | x in t && x !in Remaining(t, locks, spareAwaited) && Awaited(locks, x.val) :: x.key
  }

  function Release(s: State, l: LockId): State
    requires l < |s.locks|
  {
    s.(locks := s.locks[l := s.locks[l].(holder := None)])
  }

  /** Leave the critical section with a result. */
  function Finish(s: State, c: Coroutine, domain: string, l: LockId, result: Option<Document>): State
    requires l < |s.locks|
  {
    Goto(Release(s, l), c, Done(domain, result))
  }

  /** What runs once the zone's lock is held, up to the next await. */
  function Enter(s: State, c: Coroutine, domain: string, l: LockId, now: real): State
    requires l < |s.locks|
  {
    var key := CacheKey(domain);
    if Fresh(s.cache, key, now) then Finish(s, c, domain, l, Some(Get(s.cache, key).value.doc))
    else if Suppressed(s.negative, key, now) then Finish(s, c, domain, l, None)
    else Goto(s.(negative := Pop(s.negative, key)), c, Fetching(domain, l, 0))
  }

  // ---- steps ----

  /** The lock a coroutine is at, or would find in the table, is a lock object. */
  predicate RefersToLock(s: State, c: Coroutine) {
    PcOf(s, c).Waiting? || PcOf(s, c).Fetching? ==> PcOf(s, c).lock < |s.locks|
  }

  predicate RowIsLock(s: State, key: string) {
    Get(s.table, key).Some? ==> Get(s.table, key).value < |s.locks|
  }

  /** A released lock's first waiter has been woken. */
  predicate IsNext(k: Lock, c: Coroutine) {
    k.holder.None? && k.queue != [] && k.queue[0] == c
  }

  predicate Free(k: Lock) {
    k.holder.None? && k.queue == []
  }

  predicate Enabled(s: State, e: Event) {
    match e
    case Call(c, domain, _) => (PcOf(s, c).Idle? || PcOf(s, c).Done?) && RowIsLock(s, CacheKey(domain))
    case Granted(c, _) => PcOf(s, c).Waiting? && RefersToLock(s, c) && IsNext(s.locks[PcOf(s, c).lock], c)
    case Reply(c, _, _) => PcOf(s, c).Fetching? && RefersToLock(s, c)
    case Unmatched(c, tick, _) => PcOf(s, c).Done? && PcOf(s, c).result.Some? && s.ticks <= tick
    case RefetchReply(c, _, _) => PcOf(s, c).Refetching?
    case Cancel(c, _) => RefersToLock(s, c)
  }

  /** The lock that serves `key`; it is the next new object when the table has none. */
  function LockFor(s: State, key: string): LockId {
    var row := Get(s.table, key);
    if row.Some? then row.value else |s.locks|
  }

  function OpenLock(s: State, key: string): State {
    if Get(s.table, key).Some? then s
    else
      s.(locks := s.locks + [Lock(key, None, [])],
         table := WithLock(s.table, s.locks, key, |s.locks|, s.spareAwaited),
         lost := s.lost + LostKeys(s.table, s.locks, s.spareAwaited))
  }

  /** Take the lock if it is neither locked nor waited for, else queue for it. */
  function Acquire(s: State, c: Coroutine, l: LockId): State
    requires l < |s.locks|
  {
    var k := s.locks[l];
    s.(locks := s.locks[l := if Free(k) then k.(holder := Some(c)) else k.(queue := k.queue + [c])])
  }

  /** The zone's lock is in the table; an expired entry of the cache has been dropped. */
  function Opened(s: State, key: string): State {
    OpenLock(s.(cache := Pop(s.cache, key)), key)
  }

  function Queued(s: State, c: Coroutine, domain: string): State
    requires RowIsLock(s, CacheKey(domain))
  {
    var l := LockFor(s, CacheKey(domain));
    Goto(Acquire(Opened(s, CacheKey(domain)), c, l), c, Waiting(domain, l))
  }

  function OnCall(s: State, c: Coroutine, domain: string, now: real): State
    requires RowIsLock(s, CacheKey(domain))
  {
    var key, l := CacheKey(domain), LockFor(s, CacheKey(domain));
    if Fresh(s.cache, key, now) then Goto(s, c, Done(domain, Some(Get(s.cache, key).value.doc)))
    else if Free(Opened(s, key).locks[l]) then Enter(Queued(s, c, domain), c, domain, l, now)
    else Queued(s, c, domain)
  }

  /** The woken waiter leaves the queue and locks the lock. */
  function Take(s: State, c: Coroutine, l: LockId): State
    requires l < |s.locks| && IsNext(s.locks[l], c)
  {
    s.(locks := s.locks[l := s.locks[l].(holder := Some(c), queue := s.locks[l].queue[1..])])
  }

  function OnGranted(s: State, c: Coroutine, now: real): State
    requires Enabled(s, Granted(c, now))
  {
    var Waiting(domain, l) := PcOf(s, c);
    Enter(Take(s, c, l), c, domain, l, now)
  }

  function OnReply(s: State, c: Coroutine, answer: Option<Document>, now: real): State
    requires PcOf(s, c).Fetching? && PcOf(s, c).lock < |s.locks|
  {
    var Fetching(domain, l, index) := PcOf(s, c);
    match answer
    case Some(doc) =>
      Finish(s.(cache := CacheJwks(s.cache, domain, doc, now), served := s.served + {Served(Url(domain, index), doc)}),
             c, domain, l, answer)
    case None =>
      if index + 1 < CANDIDATES then Goto(s, c, Fetching(domain, l, index + 1))
      else Finish(s.(negative := NoteFailure(s.negative, domain, now)), c, domain, l, None)
  }

  function OnUnmatched(s: State, c: Coroutine, tick: real): State
    requires PcOf(s, c).Done?
  {
    var domain := PcOf(s, c).domain;
    var key := CacheKey(domain);
    var s1 := s.(
      ticks := tick,
      forced := Budget.Reserve(s.forced, key, tick),
      reserved := Budget.Logged(s.reserved, s.forced, key, tick));
    if Budget.Grants(s.forced, key, tick) then Goto(s1, c, Refetching(domain, 0)) else s1
  }

  function OnRefetchReply(s: State, c: Coroutine, answer: Option<Document>, now: real): State
    requires PcOf(s, c).Refetching?
  {
    var Refetching(domain, index) := PcOf(s, c);
    match answer
    case Some(doc) =>
      Goto(s.(cache := if doc.hasKeys then CacheJwks(s.cache, domain, doc, now) else s.cache,
              served := s.served + {Served(Url(domain, index), doc)}),
           c, Done(domain, answer))
    case None =>
      Goto(s, c, if index + 1 < CANDIDATES then Refetching(domain, index + 1) else Done(domain, None))
  }

  function Without(q: seq<Coroutine>, c: Coroutine): seq<Coroutine> {
    if q == [] then [] else if q[0] == c then Without(q[1..], c) else [q[0]] + Without(q[1..], c)
  }

  /** Cancellation at an await: a holder's lock is released on the way out, a waiter leaves its queue, and
      if it had been woken the next one is. */
  function OnCancel(s: State, c: Coroutine): State
    requires PcOf(s, c).Waiting? || PcOf(s, c).Fetching? ==> PcOf(s, c).lock < |s.locks|
  {
    var pc := PcOf(s, c);
    if !pc.Waiting? && !pc.Fetching? then Goto(s, c, Idle)
    else if s.locks[pc.lock].holder == Some(c) then Goto(Release(s, pc.lock), c, Idle)
    else
      Goto(s.(locks := s.locks[pc.lock := s.locks[pc.lock].(queue := Without(s.locks[pc.lock].queue, c))]), c, Idle)
  }

  function Step(s: State, e: Event): State
    requires Enabled(s, e)
  {
    match e
    case Call(c, domain, now) => OnCall(s, c, domain, now)
    case Granted(c, now) => OnGranted(s, c, now)
    case Reply(c, answer, now) => OnReply(s, c, answer, now)
    case Unmatched(c, tick, _) => OnUnmatched(s, c, tick)
    case RefetchReply(c, answer, now) => OnRefetchReply(s, c, answer, now)
    case Cancel(c, _) => OnCancel(s, c)
  }

  /** Every event can happen when its turn comes. */
  ghost predicate Legal(s: State, es: seq<Event>)
    decreases |es|
  {
    es == [] || (Enabled(s, es[0]) && Legal(Step(s, es[0]), es[1..]))
  }

  ghost function Run(s: State, es: seq<Event>): State
    requires Legal(s, es)
    decreases |es|
  {
    if es == [] then s else Run(Step(s, es[0]), es[1..])
  }
}
