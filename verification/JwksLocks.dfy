/** The discipline of the key-set fetcher's locks, which every step keeps. */
module JwksLocks {
  import opened Wrappers
  import opened OrderedDict
  import opened JwksEngine

  // ---- what a step leaves alone ----

  /** The budget and every other coroutine are as before. */
  ghost predicate Aside(s: State, s': State, c: Coroutine) {
    && s'.forced == s.forced && s'.reserved == s.reserved && s'.ticks == s.ticks && s'.spareAwaited == s.spareAwaited
    && forall d :: d != c ==> PcOf(s', d) == PcOf(s, d)
  }

  lemma EnterAside(s: State, c: Coroutine, domain: string, l: LockId, now: real)
    requires l < |s.locks|
    ensures Aside(s, Enter(s, c, domain, l, now), c)
  {}

  lemma QueuedAside(s: State, c: Coroutine, domain: string)
    requires RowIsLock(s, CacheKey(domain))
    ensures Aside(s, Queued(s, c, domain), c)
  {}

  lemma CallAside(s: State, c: Coroutine, domain: string, now: real)
    requires RowIsLock(s, CacheKey(domain))
    ensures Aside(s, OnCall(s, c, domain, now), c)
  {
    QueuedAside(s, c, domain);
    EnterAside(Queued(s, c, domain), c, domain, LockFor(s, CacheKey(domain)), now);
  }

  lemma GrantedAside(s: State, c: Coroutine, now: real)
    requires Enabled(s, Granted(c, now))
    ensures Aside(s, OnGranted(s, c, now), c)
  {
    EnterAside(Take(s, c, PcOf(s, c).lock), c, PcOf(s, c).domain, PcOf(s, c).lock, now);
  }

  lemma ReplyAside(s: State, c: Coroutine, answer: Option<Document>, now: real)
    requires PcOf(s, c).Fetching? && PcOf(s, c).lock < |s.locks|
    ensures Aside(s, OnReply(s, c, answer, now), c)
  {}

  lemma RefetchReplyAside(s: State, c: Coroutine, answer: Option<Document>, now: real)
    requires PcOf(s, c).Refetching?
    ensures Aside(s, OnRefetchReply(s, c, answer, now), c)
  {}

  lemma CancelAside(s: State, c: Coroutine)
    requires RefersToLock(s, c)
    ensures Aside(s, OnCancel(s, c), c)
  {}

  /** Only an unmatched key id spends budget, and no step moves another coroutine. */
  lemma StepAside(s: State, e: Event)
    requires Enabled(s, e)
    ensures !e.Unmatched? ==> Aside(s, Step(s, e), e.who)
    ensures Step(s, e).spareAwaited == s.spareAwaited
    ensures forall d :: d != e.who ==> PcOf(Step(s, e), d) == PcOf(s, d)
  {
    match e
    case Call(c, domain, now) => CallAside(s, c, domain, now);
    case Granted(c, now) => GrantedAside(s, c, now);
    case Reply(c, answer, now) => ReplyAside(s, c, answer, now);
    case Unmatched(_, _, _) =>
    case RefetchReply(c, answer, now) => RefetchReplyAside(s, c, answer, now);
    case Cancel(c, _) => CancelAside(s, c);
  }

  // ---- the discipline of the locks ----

  /** Whoever waits or fetches does so under a lock of its zone, as its holder or in its queue. */
  ghost predicate OwnLock(s: State, c: Coroutine)  {
    var pc := PcOf(s, c);
    pc.Waiting? || pc.Fetching? ==>
      && pc.lock < |s.locks|
      && s.locks[pc.lock].key == CacheKey(pc.domain)
      && (pc.Fetching? ==> s.locks[pc.lock].holder == Some(c))
      && (s.locks[pc.lock].holder == Some(c) || c in s.locks[pc.lock].queue)
  }

  /** Unless the zone's lock was lost, it is the one in the table. */
  ghost predicate Tabled(s: State, c: Coroutine) {
    var pc := PcOf(s, c);
    (pc.Waiting? || pc.Fetching?) && CacheKey(pc.domain) !in s.lost ==> Get(s.table, CacheKey(pc.domain)) == Some(pc.lock)
  }

  ghost predicate On(s: State, c: Coroutine, l: LockId) {
    var pc := PcOf(s, c);
    (pc.Waiting? || pc.Fetching?) && pc.lock == l
  }

  ghost predicate LockOk(s: State, l: LockId)
    requires l < |s.locks|
  {
    var k := s.locks[l];
    && (k.holder.Some? ==> On(s, k.holder.value, l) && k.holder.value !in k.queue)
    && (forall i :: 0 <= i < |k.queue| ==> PcOf(s, k.queue[i]).Waiting? && On(s, k.queue[i], l))
    && (forall i, j :: 0 <= i < j < |k.queue| ==> k.queue[i] != k.queue[j])
  }

  /** Table rows point at locks made for their zone, one row a zone. */
  ghost predicate RowsOk(t: seq<Item<string, LockId>>, locks: seq<Lock>) {
    Unique(t) && forall x :: x in t ==> x.val < |locks| && locks[x.val].key == x.key
  }

  ghost predicate TableOk(s: State) {
    RowsOk(s.table, s.locks)
  }

  ghost predicate LocksOk(s: State) {
    && TableOk(s)
    && (forall c :: OwnLock(s, c) && Tabled(s, c))
    && (forall l :: 0 <= l < |s.locks| ==> LockOk(s, l))
    && (s.spareAwaited ==> s.lost == {})
  }

  lemma {:induction false} EvictKeepsSpared(t: seq<Item<string, LockId>>, locks: seq<Lock>, n: nat, careful: bool, x: Item<string, LockId>)
    requires x in t && x !in EvictIdle(t, locks, n, careful)
    ensures !Spared(locks, x.val, careful)
  {
    if Spared(locks, t[0].val, careful) {
      EvictKeepsSpared(t[1..], locks, n, careful, x);
    } else if x != t[0] {
      EvictKeepsSpared(t[1..], locks, n - 1, careful, x);
    }
  }

  ghost predicate AllSpared(t: seq<Item<string, LockId>>, locks: seq<Lock>, careful: bool) {
    forall x :: x in t ==> Spared(locks, x.val, careful)
  }

  /** No more rows go than there is need of room for, and fewer only if no more can. */
  lemma {:induction false} EvictsEnough(t: seq<Item<string, LockId>>, locks: seq<Lock>, n: nat, careful: bool)
    ensures |EvictIdle(t, locks, n, careful)| + n >= |t|
    ensures |EvictIdle(t, locks, n, careful)| + n > |t| ==> AllSpared(EvictIdle(t, locks, n, careful), locks, careful)
  {
    if t != [] && n > 0 {
      EvictsEnough(t[1..], locks, n, careful);
      EvictsEnough(t[1..], locks, n - 1, careful);
    }
  }

  /** While the table has room nothing is evicted; a full one is left with 511 rows, unless all that are left
      are in use. */
  lemma RoomMade(t: seq<Item<string, LockId>>, locks: seq<Lock>, careful: bool)
    ensures |t| < 512 ==> Remaining(t, locks, careful) == t
    ensures |t| >= 512 ==>
      var rest := Remaining(t, locks, careful);
      |rest| >= 511 && (|rest| > 511 ==> AllSpared(rest, locks, careful))
  {
    if |t| >= CACHE_MAX {
      EvictsEnough(t, locks, |t| - CACHE_MAX + 1, careful);
    }
  }

  lemma {:induction false} EvictIsSub(t: seq<Item<string, LockId>>, locks: seq<Lock>, n: nat, careful: bool)
    requires Unique(t)
    ensures forall x :: x in EvictIdle(t, locks, n, careful) ==> x in t
    ensures Unique(EvictIdle(t, locks, n, careful))
  {
    if t != [] && n > 0 {
      EvictIsSub(t[1..], locks, n, careful);
      EvictIsSub(t[1..], locks, n - 1, careful);
      forall x | x in t[1..] ensures x in t && x.key != t[0].key {
        var i :| 0 <= i < |t[1..]| && t[1..][i] == x;
        assert t[i + 1] == x;
      }
      if Spared(locks, t[0].val, careful) {
        var rest := EvictIdle(t[1..], locks, n, careful);
        assert forall j :: 0 <= j < |rest| ==> rest[j] in rest;
        assert Unique([t[0]] + rest);
      }
    }
  }

  /** What making room leaves: some of the rows, all the spared ones, the others still unique. */
  lemma RemainingRows(t: seq<Item<string, LockId>>, locks: seq<Lock>, careful: bool)
    requires Unique(t)
    ensures Unique(Remaining(t, locks, careful))
    ensures forall x :: x in Remaining(t, locks, careful) ==> x in t
    ensures forall x :: x in t && x !in Remaining(t, locks, careful) ==> !Spared(locks, x.val, careful)
  {
    if |t| >= CACHE_MAX {
      var n := |t| - CACHE_MAX + 1;
      EvictIsSub(t, locks, n, careful);
      forall x | x in t && x !in Remaining(t, locks, careful) ensures !Spared(locks, x.val, careful) {
        EvictKeepsSpared(t, locks, n, careful, x);
      }
    }
  }

  lemma GetIn(t: seq<Item<string, LockId>>, key: string, l: LockId)
    requires Unique(t)
    ensures Get(t, key) == Some(l) <==> Item(key, l) in t
  {
    var i := Index(t, key);
    if Item(key, l) in t {
      var j :| 0 <= j < |t| && t[j] == Item(key, l);
      assert i == j;
    }
  }

  lemma GetAppend(t: seq<Item<string, LockId>>, key: string, l: LockId, k: string)
    requires Get(t, key).None?
    ensures Get(t + [Item(key, l)], k) == if k == key then Some(l) else Get(t, k)
  {
    var t' := t + [Item(key, l)];
    assert t'[|t|] == Item(key, l);
    assert forall i :: 0 <= i < |t| ==> t'[i] == t[i];
  }

  lemma NoRow(t: seq<Item<string, LockId>>, key: string)
    ensures Get(t, key).None? <==> forall x :: x in t ==> x.key != key
  {
    var i := Index(t, key);
    if i < |t| {
      assert t[i] in t;
    }
  }

  lemma RowsOneMore(t: seq<Item<string, LockId>>, locks: seq<Lock>, key: string)
    requires RowsOk(t, locks) && Get(t, key).None?
    ensures RowsOk(t + [Item(key, |locks|)], locks + [Lock(key, None, [])])
    ensures Get(t + [Item(key, |locks|)], key) == Some(|locks|)
  {
    NoRow(t, key);
    GetAppend(t, key, |locks|, key);
    assert forall i :: 0 <= i < |t| ==> t[i] in t;
  }

  lemma OpenLockTable(s: State, key: string)
    requires TableOk(s) && Get(s.table, key).None?
    ensures TableOk(OpenLock(s, key)) && Get(OpenLock(s, key).table, key) == Some(|s.locks|)
  {
    var t := Remaining(s.table, s.locks, s.spareAwaited);
    RemainingRows(s.table, s.locks, s.spareAwaited);
    NoRow(s.table, key);
    NoRow(t, key);
    RowsOneMore(t, s.locks, key);
  }

  lemma RowOf(s: State, key: string)
    requires TableOk(s) && Get(s.table, key).Some?
    ensures Get(s.table, key).value < |s.locks| && s.locks[Get(s.table, key).value].key == key
  {
    var i := Index(s.table, key);
    assert s.table[i] in s.table;
  }

  lemma OpenLockTabled(s: State, key: string, c: Coroutine)
    requires LocksOk(s) && Get(s.table, key).None?
    ensures Tabled(OpenLock(s, key), c)
  {
    assert OwnLock(s, c) && Tabled(s, c);
    var pc := PcOf(s, c);
    if (pc.Waiting? || pc.Fetching?) && CacheKey(pc.domain) !in OpenLock(s, key).lost {
      var k, t := CacheKey(pc.domain), Remaining(s.table, s.locks, s.spareAwaited);
      RemainingRows(s.table, s.locks, s.spareAwaited);
      GetIn(s.table, k, pc.lock);
      assert Item(k, pc.lock) in t;
      GetIn(t, k, pc.lock);
      NoRow(s.table, key);
      NoRow(t, key);
      GetAppend(t, key, |s.locks|, k);
    }
  }

  lemma NothingLost(s: State)
    requires TableOk(s) && s.spareAwaited
    ensures LostKeys(s.table, s.locks, true) == {}
  {
    RemainingRows(s.table, s.locks, true);
  }

  /** Opening a zone's lock loses none but those it says. */
  lemma OpenLockKeeps(s: State, key: string)
    requires LocksOk(s)
    ensures LocksOk(OpenLock(s, key))
    ensures LockFor(s, key) < |OpenLock(s, key).locks| && OpenLock(s, key).locks[LockFor(s, key)].key == key
    ensures Get(OpenLock(s, key).table, key) == Some(LockFor(s, key))
  {
    var s1 := OpenLock(s, key);
    if Get(s.table, key).Some? {
      RowOf(s, key);
    } else {
      OpenLockTable(s, key);
      if s.spareAwaited {
        NothingLost(s);
      }
      forall c ensures OwnLock(s1, c) && Tabled(s1, c) {
        assert OwnLock(s, c);
        OpenLockTabled(s, key, c);
      }
      forall l | 0 <= l < |s1.locks| ensures LockOk(s1, l) {
        if l < |s.locks| {
          assert LockOk(s, l);
        }
      }
    }
  }

  lemma AcquireKeeps(s: State, c: Coroutine, domain: string, l: LockId)
    requires LocksOk(s) && (PcOf(s, c).Idle? || PcOf(s, c).Done?)
    requires l < |s.locks| && s.locks[l].key == CacheKey(domain) && Get(s.table, CacheKey(domain)) == Some(l)
    ensures LocksOk(Goto(Acquire(s, c, l), c, Waiting(domain, l)))
  {
    var s1 := Goto(Acquire(s, c, l), c, Waiting(domain, l));
    forall d ensures OwnLock(s1, d) && Tabled(s1, d) {
      assert OwnLock(s, d) && Tabled(s, d);
    }
    forall m | 0 <= m < |s1.locks| ensures LockOk(s1, m) {
      assert LockOk(s, m);
      if m == l {
        AcquiredOk(s, c, domain, l);
      }
    }
  }

  lemma AcquiredOk(s: State, c: Coroutine, domain: string, l: LockId)
    requires l < |s.locks| && LockOk(s, l) && (PcOf(s, c).Idle? || PcOf(s, c).Done?)
    ensures LockOk(Goto(Acquire(s, c, l), c, Waiting(domain, l)), l)
  {
    var s1 := Goto(Acquire(s, c, l), c, Waiting(domain, l));
    forall i | 0 <= i < |s1.locks[l].queue| ensures PcOf(s1, s1.locks[l].queue[i]).Waiting? && On(s1, s1.locks[l].queue[i], l) {
      if i < |s.locks[l].queue| {
        assert On(s, s.locks[l].queue[i], l);
      }
    }
  }

  lemma TakeKeeps(s: State, c: Coroutine, now: real)
    requires LocksOk(s) && Enabled(s, Granted(c, now))
    ensures LocksOk(Take(s, c, PcOf(s, c).lock))
  {
    var l := PcOf(s, c).lock;
    var s1 := Take(s, c, l);
    assert LockOk(s, l);
    forall d ensures OwnLock(s1, d) && Tabled(s1, d) {
      assert OwnLock(s, d) && Tabled(s, d);
      if PcOf(s, d).Waiting? && PcOf(s, d).lock == l && d != c {
        var i :| 0 <= i < |s.locks[l].queue| && s.locks[l].queue[i] == d;
        assert s1.locks[l].queue[i - 1] == d;
      }
    }
    forall m | 0 <= m < |s1.locks| ensures LockOk(s1, m) {
      assert LockOk(s, m);
    }
  }

  /** The holder leaves; its lock is unlocked, whoever waits for it. */
  lemma LeaveKeeps(s: State, c: Coroutine, l: LockId, pc: Pc)
    requires LocksOk(s) && l < |s.locks| && s.locks[l].holder == Some(c)
    requires !pc.Waiting? && !pc.Fetching?
    ensures LocksOk(Goto(Release(s, l), c, pc))
  {
    var s1 := Goto(Release(s, l), c, pc);
    assert LockOk(s, l);
    forall d ensures OwnLock(s1, d) && Tabled(s1, d) {
      assert OwnLock(s, d) && Tabled(s, d);
    }
    forall m | 0 <= m < |s1.locks| ensures LockOk(s1, m) {
      assert LockOk(s, m);
    }
  }

  lemma EnterKeeps(s: State, c: Coroutine, domain: string, l: LockId, now: real)
    requires LocksOk(s) && PcOf(s, c) == Waiting(domain, l) && l < |s.locks| && s.locks[l].holder == Some(c)
    ensures LocksOk(Enter(s, c, domain, l, now))
  {
    var key := CacheKey(domain);
    if Fresh(s.cache, key, now) {
      LeaveKeeps(s, c, l, Done(domain, Some(Get(s.cache, key).value.doc)));
    } else if Suppressed(s.negative, key, now) {
      LeaveKeeps(s, c, l, Done(domain, None));
    } else {
      var s1 := Enter(s, c, domain, l, now);
      SameLocks(s, s1, c);
    }
  }

  /** A step of `c` that touches neither locks nor table. */
  lemma SameLocks(s: State, s1: State, c: Coroutine)
    requires LocksOk(s) && s1.locks == s.locks && s1.table == s.table
    requires s1.lost == s.lost && s1.spareAwaited == s.spareAwaited
    requires forall d :: d != c ==> PcOf(s1, d) == PcOf(s, d)
    requires
      var pc, pc1 := PcOf(s, c), PcOf(s1, c);
      || (!pc.Waiting? && !pc.Fetching? && !pc1.Waiting? && !pc1.Fetching?)
      || ((pc.Waiting? || pc.Fetching?) && pc1.Fetching? && pc1.lock == pc.lock && pc1.domain == pc.domain
          && pc.lock < |s.locks| && s.locks[pc.lock].holder == Some(c))
    ensures LocksOk(s1)
  {
    forall d ensures OwnLock(s1, d) && Tabled(s1, d) {
      assert OwnLock(s, d) && Tabled(s, d);
    }
    forall m | 0 <= m < |s1.locks| ensures LockOk(s1, m) {
      assert LockOk(s, m);
      forall i | 0 <= i < |s1.locks[m].queue| ensures PcOf(s1, s1.locks[m].queue[i]).Waiting? && On(s1, s1.locks[m].queue[i], m) {
        assert On(s, s.locks[m].queue[i], m);
      }
    }
  }

  lemma {:induction false} WithoutIs(q: seq<Coroutine>, c: Coroutine)
    requires forall i, j :: 0 <= i < j < |q| ==> q[i] != q[j]
    ensures var r := Without(q, c);
      && (forall x :: x in r <==> x in q && x != c)
      && (forall i, j :: 0 <= i < j < |r| ==> r[i] != r[j])
  {
    WithoutHolds(q, c);
    if q != [] {
      WithoutIs(q[1..], c);
      WithoutHolds(q[1..], c);
      var rest := Without(q[1..], c);
      forall j | 0 <= j < |rest| ensures rest[j] != q[0] {
        assert rest[j] in q[1..];
      }
    }
  }

  lemma {:induction false} WithoutHolds(q: seq<Coroutine>, c: Coroutine)
    ensures forall x :: x in Without(q, c) <==> x in q && x != c
  {
    if q != [] {
      WithoutHolds(q[1..], c);
      assert forall x :: x in q <==> x == q[0] || x in q[1..];
    }
  }

  lemma DropOutKeeps(s: State, c: Coroutine)
    requires LocksOk(s) && PcOf(s, c).Waiting? && RefersToLock(s, c) && s.locks[PcOf(s, c).lock].holder != Some(c)
    ensures LocksOk(OnCancel(s, c))
  {
    var l, s1 := PcOf(s, c).lock, OnCancel(s, c);
    assert LockOk(s, l);
    WithoutIs(s.locks[l].queue, c);
    forall d ensures OwnLock(s1, d) && Tabled(s1, d) {
      assert OwnLock(s, d) && Tabled(s, d);
    }
    forall m | 0 <= m < |s1.locks| ensures LockOk(s1, m) {
      assert LockOk(s, m);
      forall i | 0 <= i < |s1.locks[m].queue| ensures PcOf(s1, s1.locks[m].queue[i]).Waiting? && On(s1, s1.locks[m].queue[i], m) {
        assert s1.locks[m].queue[i] in s.locks[m].queue;
      }
    }
  }

  lemma CallKeeps(s: State, c: Coroutine, domain: string, now: real)
    requires LocksOk(s) && Enabled(s, Call(c, domain, now))
    ensures LocksOk(OnCall(s, c, domain, now))
  {
    var key, l := CacheKey(domain), LockFor(s, CacheKey(domain));
    if Fresh(s.cache, key, now) {
      SameLocks(s, OnCall(s, c, domain, now), c);
    } else {
      OpenedKeeps(s, key);
      AcquireKeeps(Opened(s, key), c, domain, l);
      if Free(Opened(s, key).locks[l]) {
        EnterKeeps(Queued(s, c, domain), c, domain, l, now);
      }
    }
  }

  lemma OpenedKeeps(s: State, key: string)
    requires LocksOk(s)
    ensures LocksOk(Opened(s, key)) && Opened(s, key).procs == s.procs
    ensures LockFor(s, key) < |Opened(s, key).locks| && Opened(s, key).locks[LockFor(s, key)].key == key
    ensures Get(Opened(s, key).table, key) == Some(LockFor(s, key))
  {
    var s0 := s.(cache := Pop(s.cache, key));
    CacheAside(s, s0.cache);
    OpenLockKeeps(s0, key);
  }

  lemma CacheAside(s: State, cache: seq<Item<string, Cached>>)
    requires LocksOk(s)
    ensures LocksOk(s.(cache := cache))
  {
    var s0 := s.(cache := cache);
    forall c ensures OwnLock(s0, c) && Tabled(s0, c) {
      assert OwnLock(s, c) && Tabled(s, c);
    }
    forall l | 0 <= l < |s0.locks| ensures LockOk(s0, l) {
      assert LockOk(s, l);
    }
  }

  lemma ReplyKeeps(s: State, c: Coroutine, answer: Option<Document>, now: real)
    requires LocksOk(s) && Enabled(s, Reply(c, answer, now))
    ensures LocksOk(OnReply(s, c, answer, now))
  {
    var s' := OnReply(s, c, answer, now);
    var Fetching(domain, l, index) := PcOf(s, c);
    assert OwnLock(s, c);
    if answer.None? && index + 1 < CANDIDATES {
      SameLocks(s, s', c);
    } else {
      LeaveKeeps(s, c, l, Done(domain, answer));
      SameLocks(Goto(Release(s, l), c, Done(domain, answer)), s', c);
    }
  }

  lemma CancelKeeps(s: State, c: Coroutine)
    requires LocksOk(s) && RefersToLock(s, c)
    ensures LocksOk(OnCancel(s, c))
  {
    assert OwnLock(s, c);
    var pc := PcOf(s, c);
    if !pc.Waiting? && !pc.Fetching? {
      SameLocks(s, OnCancel(s, c), c);
    } else if s.locks[pc.lock].holder == Some(c) {
      LeaveKeeps(s, c, pc.lock, Idle);
    } else {
      DropOutKeeps(s, c);
    }
  }

  lemma GrantedKeeps(s: State, c: Coroutine, now: real)
    requires LocksOk(s) && Enabled(s, Granted(c, now))
    ensures LocksOk(OnGranted(s, c, now))
  {
    TakeKeeps(s, c, now);
    EnterKeeps(Take(s, c, PcOf(s, c).lock), c, PcOf(s, c).domain, PcOf(s, c).lock, now);
  }

  lemma StepKeepsLocks(s: State, e: Event)
    requires LocksOk(s) && Enabled(s, e)
    ensures LocksOk(Step(s, e))
  {
    match e
    case Call(c, domain, now) => CallKeeps(s, c, domain, now);
    case Granted(c, now) => GrantedKeeps(s, c, now);
    case Reply(c, answer, now) => ReplyKeeps(s, c, answer, now);
    case Unmatched(c, tick, _) => SameLocks(s, Step(s, e), c);
    case RefetchReply(c, answer, now) => SameLocks(s, Step(s, e), c);
    case Cancel(c, _) => CancelKeeps(s, c);
  }
}
