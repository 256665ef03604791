/** How many fetches a zone costs: when one starts, and what becomes of it. */
module JwksBatches {
  import opened Wrappers
  import opened OrderedDict
  import opened JwksEngine
  import opened JwksLocks

  ghost predicate InFlight(s: State, key: string) {
    exists c :: PcOf(s, c).Fetching? && CacheKey(PcOf(s, c).domain) == key
  }

  predicate Known(s: State, key: string, now: real) {
    Fresh(s.cache, key, now) || Suppressed(s.negative, key, now)
  }

  predicate Starts(s: State, e: Event, key: string)
    requires Enabled(s, e)
  {
    !PcOf(s, e.who).Fetching? && PcOf(Step(s, e), e.who).Fetching? && CacheKey(PcOf(Step(s, e), e.who).domain) == key
  }

  // ---- what a step does to those at a zone ----

  predicate AtLock(s: State, c: Coroutine) {
    PcOf(s, c).Waiting? || PcOf(s, c).Fetching?
  }

  /** The table's lock for the zone is locked. */
  predicate Locked(s: State, key: string) {
    var row := Get(s.table, key);
    row.Some? && row.value < |s.locks| && s.locks[row.value].holder.Some?
  }

  /** The table has no lock for the zone, or a free one. */
  predicate Open(s: State, key: string) {
    var row := Get(s.table, key);
    row.Some? ==> row.value < |s.locks| && Free(s.locks[row.value])
  }

  /** Where the acting coroutine is afterwards: after a call, at the lock the table has for the zone;
      otherwise, if anywhere, where it was. */
  predicate Placed(s: State, s': State, e: Event) {
    AtLock(s', e.who) ==>
      if e.Call? then
        PcOf(s', e.who).domain == e.domain && Get(s'.table, CacheKey(e.domain)) == Some(PcOf(s', e.who).lock)
      else
        AtLock(s, e.who) && PcOf(s', e.who).domain == PcOf(s, e.who).domain && PcOf(s', e.who).lock == PcOf(s, e.who).lock
  }

  /** What a start presupposes. */
  predicate Justified(s: State, s': State, e: Event) {
    PcOf(s', e.who).Fetching? && !PcOf(s, e.who).Fetching? ==>
      && !Known(s, CacheKey(PcOf(s', e.who).domain), e.now)
      && (e.Call? || e.Granted?)
      && (e.Call? ==> Open(s, CacheKey(e.domain)))
      && (e.Granted? ==> AtLock(s, e.who) && PcOf(s, e.who).lock < |s.locks| && s.locks[PcOf(s, e.who).lock].holder.None?)
  }

  ghost predicate Moves(s: State, s': State, e: Event) {
    && (forall d :: d != e.who ==> PcOf(s', d) == PcOf(s, d))
    && (forall key :: Locked(s, key) ==> Get(s'.table, key) == Get(s.table, key))
    && Placed(s, s', e)
    && Justified(s, s', e)
    && (e.Call? ==> !AtLock(s, e.who))
    && (e.Call? && Open(s, CacheKey(e.domain)) ==> !PcOf(s', e.who).Waiting?)
  }

  lemma EnterLands(s: State, c: Coroutine, domain: string, l: LockId, now: real)
    requires l < |s.locks|
    ensures var s' := Enter(s, c, domain, l, now);
      && s'.table == s.table
      && (PcOf(s', c).Done? || (PcOf(s', c) == Fetching(domain, l, 0) && !Known(s, CacheKey(domain), now)))
  {}

  /** A locked lock stays in the table when another zone's is opened. */
  lemma OpenLockKeepsLocked(s: State, other: string, key: string)
    requires TableOk(s) && Locked(s, key)
    ensures Get(OpenLock(s, other).table, key) == Get(s.table, key)
  {
    if Get(s.table, other).None? {
      var l, t := Get(s.table, key).value, Remaining(s.table, s.locks, s.spareAwaited);
      RemainingRows(s.table, s.locks, s.spareAwaited);
      GetIn(s.table, key, l);
      GetIn(t, key, l);
      NoRow(s.table, other);
      NoRow(t, other);
      GetAppend(t, other, |s.locks|, key);
    }
  }

  lemma OpenedKeepsLocked(s: State, other: string, key: string)
    requires LocksOk(s) && Locked(s, key)
    ensures Get(Opened(s, other).table, key) == Get(s.table, key)
  {
    OpenLockKeepsLocked(s.(cache := Pop(s.cache, other)), other, key);
  }

  lemma QueuedIs(s: State, c: Coroutine, domain: string)
    requires LocksOk(s) && RowIsLock(s, CacheKey(domain))
    ensures var s', key := Queued(s, c, domain), CacheKey(domain);
      && s'.table == Opened(s, key).table && Get(s'.table, key) == Some(LockFor(s, key))
      && PcOf(s', c) == Waiting(domain, LockFor(s, key)) && LockFor(s, key) < |s'.locks|
      && s'.negative == s.negative
  {
    OpenedKeeps(s, CacheKey(domain));
  }

  lemma OpenMeansFree(s: State, key: string)
    requires LocksOk(s)
    ensures LockFor(s, key) < |Opened(s, key).locks|
    ensures Free(Opened(s, key).locks[LockFor(s, key)]) <==> Open(s, key)
  {
    OpenedKeeps(s, key);
    if Get(s.table, key).Some? {
      RowOf(s, key);
    }
  }

  /** The three ways a call can go. */
  lemma CallIs(s: State, c: Coroutine, domain: string, now: real)
    requires LocksOk(s) && RowIsLock(s, CacheKey(domain))
    ensures var s', key, l := OnCall(s, c, domain, now), CacheKey(domain), LockFor(s, CacheKey(domain));
      || (PcOf(s', c).Done? && s'.table == s.table)
      || (s'.table == Opened(s, key).table && Get(s'.table, key) == Some(l) && Open(s, key)
          && (PcOf(s', c).Done? || (PcOf(s', c) == Fetching(domain, l, 0) && !Known(s, key, now))))
      || (s'.table == Opened(s, key).table && Get(s'.table, key) == Some(l) && !Open(s, key) && PcOf(s', c) == Waiting(domain, l))
  {
    var key := CacheKey(domain);
    if !Fresh(s.cache, key, now) {
      QueuedIs(s, c, domain);
      OpenMeansFree(s, key);
      EnterLands(Queued(s, c, domain), c, domain, LockFor(s, key), now);
    }
  }

  lemma CallMoves(s: State, c: Coroutine, domain: string, now: real)
    requires LocksOk(s) && Enabled(s, Call(c, domain, now))
    ensures Moves(s, OnCall(s, c, domain, now), Call(c, domain, now))
  {
    CallAside(s, c, domain, now);
    CallIs(s, c, domain, now);
    forall key | Locked(s, key) ensures Get(OnCall(s, c, domain, now).table, key) == Get(s.table, key) {
      OpenedKeepsLocked(s, CacheKey(domain), key);
    }
  }

  lemma GrantedMoves(s: State, c: Coroutine, now: real)
    requires Enabled(s, Granted(c, now))
    ensures Moves(s, OnGranted(s, c, now), Granted(c, now))
  {
    GrantedAside(s, c, now);
    EnterLands(Take(s, c, PcOf(s, c).lock), c, PcOf(s, c).domain, PcOf(s, c).lock, now);
  }

  lemma ReplyMoves(s: State, c: Coroutine, answer: Option<Document>, now: real)
    requires Enabled(s, Reply(c, answer, now))
    ensures Moves(s, OnReply(s, c, answer, now), Reply(c, answer, now))
  {
    ReplyAside(s, c, answer, now);
  }

  lemma OtherMoves(s: State, e: Event)
    requires Enabled(s, e) && (e.Unmatched? || e.RefetchReply? || e.Cancel?)
    ensures Moves(s, Step(s, e), e)
  {
    StepAside(s, e);
  }

  lemma StepMoves(s: State, e: Event)
    requires LocksOk(s) && Enabled(s, e)
    ensures Moves(s, Step(s, e), e)
  {
    match e
    case Call(c, domain, now) => CallMoves(s, c, domain, now);
    case Granted(c, now) => GrantedMoves(s, c, now);
    case Reply(c, answer, now) => ReplyMoves(s, c, answer, now);
    case _ => OtherMoves(s, e);
  }

  // ---- when a fetch starts ----

  predicate Began(s: State, s': State, e: Event, key: string) {
    PcOf(s', e.who).Fetching? && !PcOf(s, e.who).Fetching? && CacheKey(PcOf(s', e.who).domain) == key
  }

  lemma BeganAlone(s: State, s': State, e: Event, key: string, d: Coroutine)
    requires LocksOk(s) && Moves(s, s', e) && Began(s, s', e, key) && PcOf(s, d).Fetching? && key !in s.lost
    ensures CacheKey(PcOf(s, d).domain) != key
  {
    assert OwnLock(s, d) && Tabled(s, d) && OwnLock(s, e.who) && Tabled(s, e.who);
  }

  /** A fetch starts only when nothing valid is cached for the zone and, unless the zone's lock was lost,
      nobody is fetching it. */
  lemma StartsOnlyWhenNeeded(s: State, e: Event, key: string)
    requires LocksOk(s) && Enabled(s, e) && Starts(s, e, key)
    ensures !Known(s, key, e.now) && (key !in s.lost ==> !InFlight(s, key))
  {
    StepMoves(s, e);
    if key !in s.lost {
      forall d | PcOf(s, d).Fetching? ensures CacheKey(PcOf(s, d).domain) != key {
        BeganAlone(s, Step(s, e), e, key, d);
      }
    }
  }

  predicate CancelsFetch(s: State, e: Event, key: string) {
    e.Cancel? && PcOf(s, e.who).Fetching? && CacheKey(PcOf(s, e.who).domain) == key
  }

  lemma ReplyLeavesRecord(s: State, c: Coroutine, answer: Option<Document>, now: real)
    requires PcOf(s, c).Fetching? && RefersToLock(s, c)
    ensures var s' := OnReply(s, c, answer, now);
      || (PcOf(s', c).Fetching? && PcOf(s', c).domain == PcOf(s, c).domain)
      || Known(s', CacheKey(PcOf(s, c).domain), now)
  {
    var key := CacheKey(PcOf(s, c).domain);
    if answer.Some? {
      PutGet(Room(s.cache, CACHE_MAX), key, Cached(answer.value, now + CACHE_TTL));
    } else {
      PutGet(Room(s.negative, CACHE_MAX), key, now + NEGATIVE_TTL);
    }
  }

  /** An ongoing fetch goes on, is cancelled, or ends with its outcome on record. */
  lemma FetchLeavesRecord(s: State, e: Event, key: string)
    requires Enabled(s, e) && InFlight(s, key) && !CancelsFetch(s, e, key)
    ensures InFlight(Step(s, e), key) || Known(Step(s, e), key, e.now)
  {
    var c :| PcOf(s, c).Fetching? && CacheKey(PcOf(s, c).domain) == key;
    if c != e.who {
      StepAside(s, e);
    } else {
      ReplyLeavesRecord(s, c, e.answer, e.now);
    }
    assert PcOf(Step(s, e), c).Fetching? && CacheKey(PcOf(Step(s, e), c).domain) == key ==> InFlight(Step(s, e), key);
  }

  // ---- one attempt per cold batch ----

  /** No fetch of the zone is cancelled, and what is on record for it is neither evicted nor lapses
      before the next event. */
  ghost predicate Undisturbed(s: State, es: seq<Event>, key: string)
    requires Legal(s, es)
    decreases |es|
  {
    es == [] ||
    (var e, s' := es[0], Step(s, es[0]);
     && !CancelsFetch(s, e, key)
     && (Known(s, key, e.now) ==> Known(s', key, e.now))
     && (|es| > 1 && Known(s', key, e.now) ==> Known(s', key, es[1].now))
     && Undisturbed(s', es[1..], key))
  }

  ghost function Attempts(s: State, es: seq<Event>, key: string): nat
    requires Legal(s, es)
    decreases |es|
  {
    if es == [] then 0
    else (if Starts(s, es[0], key) then 1 else 0) + Attempts(Step(s, es[0]), es[1..], key)
  }

  predicate AtZone(s: State, c: Coroutine, key: string) {
    AtLock(s, c) && CacheKey(PcOf(s, c).domain) == key
  }

  /** Nobody waits for the zone's lock or fetches. */
  ghost predicate Quiet(s: State, key: string) {
    forall c :: !AtZone(s, c, key)
  }

  /** Everybody at the zone is on the lock the table has for it. */
  ghost predicate Together(s: State, key: string) {
    forall c :: AtZone(s, c, key) ==> Get(s.table, key) == Some(PcOf(s, c).lock)
  }

  /** The zone is being fetched, and everybody at it is on the one lock the table has. */
  ghost predicate OneLock(s: State, key: string) {
    Together(s, key) && exists c :: PcOf(s, c).Fetching? && AtZone(s, c, key)
  }

  lemma OneLockIsLocked(s: State, key: string)
    requires LocksOk(s) && OneLock(s, key)
    ensures Locked(s, key)
  {
    var c :| PcOf(s, c).Fetching? && AtZone(s, c, key);
    assert OwnLock(s, c);
  }

  /** While the zone is fetched under its one lock, nobody else starts. */
  lemma OneLockBeginsNone(s: State, s': State, e: Event, key: string)
    requires Locked(s, key) && Together(s, key) && Placed(s, s', e) && Justified(s, s', e)
    ensures !Began(s, s', e, key)
  {
    if Began(s, s', e, key) {
      if e.Granted? {
        assert AtZone(s, e.who, key);
      }
    }
  }

  lemma OneLockStays(s: State, s': State, e: Event, key: string)
    requires LocksOk(s) && Moves(s, s', e) && OneLock(s, key)
    ensures Together(s', key)
  {
    OneLockIsLocked(s, key);
    forall d | AtZone(s', d, key) ensures Get(s'.table, key) == Some(PcOf(s', d).lock) {
      if d != e.who || !e.Call? {
        assert AtZone(s, d, key);
      }
    }
  }

  lemma OneLockOrKnown(s: State, e: Event, key: string)
    requires LocksOk(s) && Enabled(s, e) && OneLock(s, key) && !CancelsFetch(s, e, key)
    ensures OneLock(Step(s, e), key) || Known(Step(s, e), key, e.now)
  {
    var c :| PcOf(s, c).Fetching? && AtZone(s, c, key);
    StepMoves(s, e);
    OneLockStays(s, Step(s, e), e, key);
    if c == e.who {
      ReplyLeavesRecord(s, c, e.answer, e.now);
    }
    assert PcOf(Step(s, e), c).Fetching? && CacheKey(PcOf(Step(s, e), c).domain) == key ==> AtZone(Step(s, e), c, key);
  }

  lemma {:induction false} NoMoreAttempts(s: State, es: seq<Event>, key: string)
    requires LocksOk(s) && Legal(s, es) && Undisturbed(s, es, key)
    requires es != [] ==> OneLock(s, key) || Known(s, key, es[0].now)
    ensures Attempts(s, es, key) == 0
    decreases |es|
  {
    if es != [] {
      var e := es[0];
      StepKeepsLocks(s, e);
      StepMoves(s, e);
      if !Known(s, key, e.now) {
        OneLockIsLocked(s, key);
        OneLockBeginsNone(s, Step(s, e), e, key);
        OneLockOrKnown(s, e, key);
      }
      NoMoreAttempts(Step(s, e), es[1..], key);
    }
  }

  /** The first caller at a quiet zone finds its lock free. */
  lemma QuietIsOpen(s: State, key: string)
    requires LocksOk(s) && Quiet(s, key)
    ensures Open(s, key)
  {
    if Get(s.table, key).Some? {
      RowOf(s, key);
      var l := Get(s.table, key).value;
      var k := s.locks[l];
      assert LockOk(s, l);
      if k.holder.Some? {
        assert OwnLock(s, k.holder.value);
        assert AtZone(s, k.holder.value, key);
      } else if k.queue != [] {
        assert OwnLock(s, k.queue[0]);
        assert AtZone(s, k.queue[0], key);
      }
    }
  }

  /** A quiet zone stays quiet, or is fetched under the one lock it has. */
  lemma QuietStep(s: State, s': State, e: Event, key: string)
    requires LocksOk(s) && Moves(s, s', e) && Quiet(s, key)
    ensures if Began(s, s', e, key) then OneLock(s', key) else Quiet(s', key)
  {
    QuietIsOpen(s, key);
    forall d ensures AtZone(s', d, key) ==> d == e.who && e.Call? {
      assert !AtZone(s, d, key);
    }
    if Began(s, s', e, key) {
      assert AtZone(s', e.who, key);
    }
  }

  /** A cold batch of any number of callers costs one fetch attempt, success or failure: nobody is at the
      zone when it begins, and whether locks are evicted meanwhile makes no difference. */
  lemma {:induction false} OneAttemptPerBatch(s: State, es: seq<Event>, key: string)
    requires LocksOk(s) && Legal(s, es) && Undisturbed(s, es, key) && Quiet(s, key)
    ensures Attempts(s, es, key) <= 1
    decreases |es|
  {
    if es != [] {
      StepKeepsLocks(s, es[0]);
      StepMoves(s, es[0]);
      QuietStep(s, Step(s, es[0]), es[0], key);
      if Starts(s, es[0], key) {
        NoMoreAttempts(Step(s, es[0]), es[1..], key);
      } else {
        OneAttemptPerBatch(Step(s, es[0]), es[1..], key);
      }
    }
  }
}
