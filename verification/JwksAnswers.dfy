/** What a caller of the key-set fetcher gets, read off the events of a run. */
module JwksAnswers {
  import opened Wrappers
  import opened Text
  import opened OrderedDict
  import opened JwksEngine
  import opened JwksLocks
  import opened JwksSafety
  import opened JwksBatches
  import Budget = RefetchBudget

  // ---- a run, coroutine by coroutine ----

  /** The domain of the coroutine's last call. */
  ghost function Asked(es: seq<Event>, c: Coroutine): string {
    if es == [] then []
    else
      var e := es[|es| - 1];
      if e.Call? && e.who == c then e.domain else Asked(es[..|es| - 1], c)
  }

  /** How many locations in a row have just told the coroutine that they have nothing. */
  ghost function Misses(es: seq<Event>, c: Coroutine): nat {
    if es == [] then 0
    else
      var e, before := es[|es| - 1], Misses(es[..|es| - 1], c);
      if e.who != c then before
      else if (e.Reply? || e.RefetchReply?) && e.answer.None? then before + 1
      else 0
  }

  lemma OneMore(es: seq<Event>, e: Event, c: Coroutine)
    ensures Asked(es + [e], c) == if e.Call? && e.who == c then e.domain else Asked(es, c)
    ensures Misses(es + [e], c)
         == if e.who != c then Misses(es, c)
            else if (e.Reply? || e.RefetchReply?) && e.answer.None? then Misses(es, c) + 1
            else 0
  {
    assert (es + [e])[..|es|] == es;
  }

  /** Where a coroutine is agrees with what has happened to it. */
  predicate Follows(pc: Pc, domain: string, misses: nat) {
    match pc
    case Idle => true
    case Waiting(d, _) => d == domain
    case Fetching(d, _, index) => d == domain && index == misses < CANDIDATES
    case Refetching(d, index) => d == domain && index == misses < CANDIDATES
    case Done(d, _) => d == domain
  }

  /** Both caches are dictionaries of at most 512 zones. */
  ghost predicate Dicts(s: State) {
    Unique(s.cache) && Unique(s.negative) && |s.cache| <= 512 && |s.negative| <= 512
  }

  ghost predicate History(s: State, es: seq<Event>) {
    && Dicts(s)
    && forall c :: Follows(PcOf(s, c), Asked(es, c), Misses(es, c))
  }

  lemma UniquePut<V>(d: seq<Item<string, V>>, key: string, v: V)
    requires Unique(d)
    ensures Unique(Put(d, key, v))
  {}

  lemma UniqueRoom<V>(d: seq<Item<string, V>>, cap: nat)
    requires Unique(d) && cap > 0
    ensures Unique(Room(d, cap))
  {}

  lemma UniquePop<V>(d: seq<Item<string, V>>, key: string)
    requires Unique(d)
    ensures Unique(Pop(d, key)) && Get(Pop(d, key), key) == None
  {
    var d' := Pop(d, key);
    assert forall i :: 0 <= i < |d'| ==> d'[i].key != key;
  }

  lemma Stored<V>(d: seq<Item<string, V>>, key: string, v: V, cap: nat)
    requires Unique(d) && cap > 0
    ensures Unique(Put(Room(d, cap), key, v)) && |Put(Room(d, cap), key, v)| <= cap
    ensures Get(Put(Room(d, cap), key, v), key) == Some(v)
  {
    UniqueRoom(d, cap);
    UniquePut(Room(d, cap), key, v);
    PutGet(Room(d, cap), key, v);
  }

  /** Storing takes room from nobody but the oldest entry of a full cache. */
  predicate OthersKept<V(==)>(d: seq<Item<string, V>>, d': seq<Item<string, V>>, key: string, k: string) {
    k != key && (|d| < 512 || d[0].key != k) ==> Get(d', k) == Get(d, k)
  }

  lemma StoredBeside<V>(d: seq<Item<string, V>>, key: string, v: V, k: string)
    requires Unique(d) && |d| <= CACHE_MAX
    ensures OthersKept(d, Put(Room(d, CACHE_MAX), key, v), key, k)
  {
    if k != key && (|d| < 512 || d[0].key != k) {
      PutOther(Room(d, CACHE_MAX), key, v, k);
      RoomGet(d, k);
    }
  }

  lemma RoomGet<V>(d: seq<Item<string, V>>, k: string)
    requires |d| <= CACHE_MAX && (|d| == CACHE_MAX ==> d[0].key != k)
    ensures Get(Room(d, CACHE_MAX), k) == Get(d, k)
  {
    if |d| == CACHE_MAX {
      assert Room(d, CACHE_MAX) == d[1..];
      assert Index(d, k) == 1 + Index(d[1..], k);
    }
  }

  // ---- what each step gives its coroutine ----

  /** The answer on entering the critical section. */
  function Entered(cached: Option<Cached>, failed: Option<real>, domain: string, l: LockId, now: real): Pc {
    if cached.Some? && now < cached.value.expiry then Done(domain, Some(cached.value.doc))
    else if failed.Some? && now < failed.value then Done(domain, None)
    else Fetching(domain, l, 0)
  }

  lemma EnterAnswers(s: State, c: Coroutine, domain: string, l: LockId, now: real)
    requires l < |s.locks| && Dicts(s)
    ensures var s', key := Enter(s, c, domain, l, now), CacheKey(domain);
      && PcOf(s', c) == Entered(Get(s.cache, key), Get(s.negative, key), domain, l, now) && Dicts(s')
      && s'.cache == s.cache && (PcOf(s', c).Fetching? ==> Get(s'.negative, key) == None)
  {
    var key := CacheKey(domain);
    UniquePop(s.negative, key);
    if Fresh(s.cache, key, now) {
      assert PcOf(Enter(s, c, domain, l, now), c) == Done(domain, Some(Get(s.cache, key).value.doc));
    } else if Suppressed(s.negative, key, now) {
      assert PcOf(Enter(s, c, domain, l, now), c) == Done(domain, None);
    }
  }

  lemma QueuedAnswers(s: State, c: Coroutine, domain: string)
    requires RowIsLock(s, CacheKey(domain)) && Dicts(s)
    ensures var s', key := Queued(s, c, domain), CacheKey(domain);
      && PcOf(s', c) == Waiting(domain, LockFor(s, key)) && Dicts(s')
      && Get(s'.cache, key) == None && s'.negative == s.negative
  {
    UniquePop(s.cache, CacheKey(domain));
  }

  /** After a call: a document, a wait, None or a fetch. */
  function Called(cached: Option<Cached>, failed: Option<real>, isOpen: bool, domain: string, l: LockId, now: real): Pc {
    if cached.Some? && now < cached.value.expiry then Done(domain, Some(cached.value.doc))
    else if isOpen then Entered(None, failed, domain, l, now)
    else Waiting(domain, l)
  }

  lemma CallGives(s: State, c: Coroutine, domain: string, now: real)
    requires LocksOk(s) && Enabled(s, Call(c, domain, now)) && Dicts(s)
    ensures var s', key := OnCall(s, c, domain, now), CacheKey(domain);
      && PcOf(s', c) == Called(Get(s.cache, key), Get(s.negative, key), Open(s, key), domain, LockFor(s, key), now)
      && Dicts(s')
      && (PcOf(s', c).Fetching? || PcOf(s', c).Waiting? ==> Get(s'.cache, key) == None)
      && (PcOf(s', c).Fetching? ==> Get(s'.negative, key) == None)
  {
    var key := CacheKey(domain);
    if !Fresh(s.cache, key, now) {
      QueuedAnswers(s, c, domain);
      OpenMeansFree(s, key);
      EnterAnswers(Queued(s, c, domain), c, domain, LockFor(s, key), now);
    }
  }

  lemma GrantedGives(s: State, c: Coroutine, now: real)
    requires Enabled(s, Granted(c, now)) && Dicts(s)
    ensures var s', d := OnGranted(s, c, now), PcOf(s, c).domain;
      var key := CacheKey(d);
      && PcOf(s', c) == Entered(Get(s.cache, key), Get(s.negative, key), d, PcOf(s, c).lock, now)
      && Dicts(s') && (PcOf(s', c).Fetching? ==> Get(s'.negative, key) == None)
  {
    EnterAnswers(Take(s, c, PcOf(s, c).lock), c, PcOf(s, c).domain, PcOf(s, c).lock, now);
  }

  lemma ReplyGives(s: State, c: Coroutine, answer: Option<Document>, now: real)
    requires Enabled(s, Reply(c, answer, now)) && Dicts(s)
    ensures var s', Fetching(d, l, index) := OnReply(s, c, answer, now), PcOf(s, c);
      && PcOf(s', c) == (if answer.Some? || index + 1 >= CANDIDATES then Done(d, answer) else Fetching(d, l, index + 1))
      && (answer.Some? ==> Get(s'.cache, CacheKey(d)) == Some(Cached(answer.value, now + CACHE_TTL)))
      && (answer.None? && index + 1 >= CANDIDATES ==> Get(s'.negative, CacheKey(d)) == Some(now + NEGATIVE_TTL))
      && Dicts(s')
  {
    var key := CacheKey(PcOf(s, c).domain);
    if answer.Some? {
      Stored(s.cache, key, Cached(answer.value, now + CACHE_TTL), CACHE_MAX);
    } else {
      Stored(s.negative, key, now + NEGATIVE_TTL, CACHE_MAX);
    }
  }

  lemma RefetchReplyGives(s: State, c: Coroutine, answer: Option<Document>, now: real)
    requires Enabled(s, RefetchReply(c, answer, now)) && Dicts(s)
    ensures var s', Refetching(d, index) := OnRefetchReply(s, c, answer, now), PcOf(s, c);
      && PcOf(s', c) == (if answer.Some? || index + 1 >= CANDIDATES then Done(d, answer) else Refetching(d, index + 1))
      && (if answer.Some? && answer.value.hasKeys
          then Get(s'.cache, CacheKey(d)) == Some(Cached(answer.value, now + CACHE_TTL)) else s'.cache == s.cache)
      && Dicts(s')
  {
    var key := CacheKey(PcOf(s, c).domain);
    if answer.Some? {
      Stored(s.cache, key, Cached(answer.value, now + CACHE_TTL), CACHE_MAX);
    }
  }

  lemma EntersAtStart(cached: Option<Cached>, failed: Option<real>, domain: string, l: LockId, now: real)
    ensures Follows(Entered(cached, failed, domain, l, now), domain, 0)
    ensures forall isOpen :: Follows(Called(cached, failed, isOpen, domain, l, now), domain, 0)
  {}

  lemma CallFollows(s: State, es: seq<Event>, c: Coroutine, domain: string, now: real)
    requires LocksOk(s) && Enabled(s, Call(c, domain, now)) && Dicts(s)
    ensures var s', es' := OnCall(s, c, domain, now), es + [Call(c, domain, now)];
      Dicts(s') && Follows(PcOf(s', c), Asked(es', c), Misses(es', c))
  {
    var key := CacheKey(domain);
    OneMore(es, Call(c, domain, now), c);
    CallGives(s, c, domain, now);
    EntersAtStart(Get(s.cache, key), Get(s.negative, key), domain, LockFor(s, key), now);
  }

  lemma GrantedFollows(s: State, es: seq<Event>, c: Coroutine, now: real)
    requires Enabled(s, Granted(c, now)) && Dicts(s) && PcOf(s, c).domain == Asked(es, c)
    ensures var s', es' := OnGranted(s, c, now), es + [Granted(c, now)];
      Dicts(s') && Follows(PcOf(s', c), Asked(es', c), Misses(es', c))
  {
    var d := PcOf(s, c).domain;
    OneMore(es, Granted(c, now), c);
    GrantedGives(s, c, now);
    EntersAtStart(Get(s.cache, CacheKey(d)), Get(s.negative, CacheKey(d)), d, PcOf(s, c).lock, now);
  }

  lemma AnswerFollows(s: State, es: seq<Event>, e: Event)
    requires Enabled(s, e) && History(s, es) && !e.Call? && !e.Granted?
    ensures Dicts(Step(s, e)) && Follows(PcOf(Step(s, e), e.who), Asked(es + [e], e.who), Misses(es + [e], e.who))
  {
    assert Follows(PcOf(s, e.who), Asked(es, e.who), Misses(es, e.who));
    OneMore(es, e, e.who);
    match e
    case Reply(c, answer, now) => ReplyGives(s, c, answer, now);
    case Unmatched(_, _, _) =>
    case RefetchReply(c, answer, now) => RefetchReplyGives(s, c, answer, now);
    case Cancel(_, _) =>
  }

  lemma StepKeepsHistory(s: State, es: seq<Event>, e: Event)
    requires LocksOk(s) && Enabled(s, e) && History(s, es)
    ensures History(Step(s, e), es + [e])
  {
    assert Follows(PcOf(s, e.who), Asked(es, e.who), Misses(es, e.who));
    match e {
      case Call(c, domain, now) => CallFollows(s, es, c, domain, now);
      case Granted(c, now) => GrantedFollows(s, es, c, now);
      case _ => AnswerFollows(s, es, e);
    }
    StepAside(s, e);
    forall c ensures Follows(PcOf(Step(s, e), c), Asked(es + [e], c), Misses(es + [e], c)) {
      OneMore(es, e, c);
      assert Follows(PcOf(s, c), Asked(es, c), Misses(es, c));
    }
  }

  lemma StepKeeps(s: State, past: seq<Event>, e: Event)
    requires Good(s) && Enabled(s, e) && History(s, past)
    ensures Good(Step(s, e)) && History(Step(s, e), past + [e])
  {
    StepKeepsLocks(s, e);
    StepKeepsSources(s, e);
    StepKeepsBudget(s, e);
    StepKeepsHistory(s, past, e);
  }

  lemma {:induction false} RunKeepsHistory(s: State, past: seq<Event>, es: seq<Event>)
    requires Good(s) && Legal(s, es) && History(s, past)
    ensures History(Run(s, es), past + es)
    decreases |es|
  {
    if es == [] {
      assert past + es == past;
    } else {
      StepKeeps(s, past, es[0]);
      RunKeepsHistory(Step(s, es[0]), past + [es[0]], es[1..]);
      assert (past + [es[0]]) + es[1..] == past + es;
    }
  }

  /** A run from the start and one more event. */
  ghost predicate Happens(careful: bool, es: seq<Event>, e: Event) {
    Legal(Init(careful), es) && Enabled(Run(Init(careful), es), e)
  }

  lemma Reached(careful: bool, es: seq<Event>)
    requires Legal(Init(careful), es)
    ensures Good(Run(Init(careful), es)) && History(Run(Init(careful), es), es)
  {
    InitGood(careful);
    RunKeeps(Init(careful), es);
    RunKeepsHistory(Init(careful), [], es);
    assert [] + es == es;
  }

  // ---- what callers get ----

  /** A call is answered from the cache while the entry has not expired; otherwise it waits unless the
      zone's lock is free, and then it is told None while a failure on record has not expired, or fetches. An
      expired entry it meets is dropped. */
  lemma CallAnswers(careful: bool, es: seq<Event>, c: Coroutine, domain: string, now: real)
    requires Happens(careful, es, Call(c, domain, now))
    ensures var s, key := Run(Init(careful), es), Lower(RStripDot(domain));
      var s' := Step(s, Call(c, domain, now));
      var pc, cached, failed := PcOf(s', c), Get(s.cache, key), Get(s.negative, key);
      if cached.Some? && now < cached.value.expiry then pc == Done(domain, Some(cached.value.doc))
      else if !Open(s, key) then pc.Waiting? && pc.domain == domain && Get(s'.cache, key) == None
      else if failed.Some? && now < failed.value then pc == Done(domain, None)
      else pc.Fetching? && pc.domain == domain && pc.index == 0 && Get(s'.cache, key) == None && Get(s'.negative, key) == None
  {
    Reached(careful, es);
    CallGives(Run(Init(careful), es), c, domain, now);
  }

  /** Waiters are served in the order in which they came: a call that has to wait is last in its lock's queue. */
  lemma CallWaitsLast(s: State, c: Coroutine, domain: string, now: real)
    requires LocksOk(s) && Enabled(s, Call(c, domain, now)) && PcOf(OnCall(s, c, domain, now), c).Waiting?
    ensures var s' := OnCall(s, c, domain, now);
      var l := PcOf(s', c).lock;
      l < |s.locks| && l < |s'.locks| && s'.locks[l].queue == s.locks[l].queue + [c]
  {
    var key := CacheKey(domain);
    CallIs(s, c, domain, now);
    QueuedIs(s, c, domain);
    QueueOf(s, c, domain);
  }

  lemma QueueOf(s: State, c: Coroutine, domain: string)
    requires LocksOk(s) && RowIsLock(s, CacheKey(domain)) && !Open(s, CacheKey(domain))
    ensures var l := LockFor(s, CacheKey(domain));
      l < |s.locks| && l < |Queued(s, c, domain).locks| && Queued(s, c, domain).locks[l].queue == s.locks[l].queue + [c]
  {}

  /** And whoever is given the lock was the first. */
  lemma GrantedWasFirst(s: State, c: Coroutine, now: real)
    requires Enabled(s, Granted(c, now))
    ensures var l, s' := PcOf(s, c).lock, OnGranted(s, c, now);
      l < |s.locks| && l < |s'.locks| && s.locks[l].queue == [c] + s'.locks[l].queue
  {
    var l := PcOf(s, c).lock;
    var q := s.locks[l].queue;
    assert q == [q[0]] + q[1..];
  }

  /** The same for a waiter that is given the lock. */
  lemma GrantedAnswers(careful: bool, es: seq<Event>, c: Coroutine, now: real)
    requires Happens(careful, es, Granted(c, now))
    ensures var s := Run(Init(careful), es);
      var pc, domain := PcOf(Step(s, Granted(c, now)), c), Asked(es, c);
      var key := Lower(RStripDot(domain));
      var cached, failed := Get(s.cache, key), Get(s.negative, key);
      if cached.Some? && now < cached.value.expiry then pc == Done(domain, Some(cached.value.doc))
      else if failed.Some? && now < failed.value then pc == Done(domain, None)
      else pc.Fetching? && pc.domain == domain && pc.index == 0
  {
    var s := Run(Init(careful), es);
    Reached(careful, es);
    assert Follows(PcOf(s, c), Asked(es, c), Misses(es, c));
    GrantedGives(s, c, now);
  }

  /** The location a coroutine is asking. */
  function Asking(s: State, c: Coroutine): Option<string> {
    var pc := PcOf(s, c);
    if pc.Fetching? || pc.Refetching? then Some(Url(pc.domain, pc.index)) else None
  }

  /** The derived host is asked first and, once it has nothing, the apex. */
  lemma AskedInOrder(careful: bool, es: seq<Event>, c: Coroutine)
    requires Legal(Init(careful), es) && Asking(Run(Init(careful), es), c).Some?
    ensures var host := RStripDot(Asked(es, c)) + "/.well-known/dns-aid-jwks.json";
      match Misses(es, c)
      case 0 => Asking(Run(Init(careful), es), c) == Some("https://dns-aid." + host)
      case 1 => Asking(Run(Init(careful), es), c) == Some("https://" + host)
      case _ => false
  {
    var s := Run(Init(careful), es);
    Reached(careful, es);
    assert Follows(PcOf(s, c), Asked(es, c), Misses(es, c));
    var host := RStripDot(Asked(es, c));
    Regroup("https://dns-aid.", host, PATH);
    Regroup("https://", host, PATH);
  }

  /** A document that is served ends the call with it and is in the cache for an hour; the first location
      without one leads to the second, and the second to None, on record for half a minute. */
  lemma ReplyAnswers(careful: bool, es: seq<Event>, c: Coroutine, answer: Option<Document>, now: real)
    requires Happens(careful, es, Reply(c, answer, now))
    ensures var s := Run(Init(careful), es);
      var s', domain := Step(s, Reply(c, answer, now)), Asked(es, c);
      var key := Lower(RStripDot(domain));
      match answer
      case Some(doc) =>
        && PcOf(s', c) == Done(domain, Some(doc)) && Get(s'.cache, key) == Some(Cached(doc, now + 3600.0))
        && Served(Asking(s, c).value, doc) in s'.served
      case None =>
        if Misses(es, c) == 0 then PcOf(s', c).Fetching?
        else Misses(es, c) == 1 && PcOf(s', c) == Done(domain, None) && Get(s'.negative, key) == Some(now + 30.0)
  {
    var s := Run(Init(careful), es);
    Reached(careful, es);
    assert Follows(PcOf(s, c), Asked(es, c), Misses(es, c));
    ReplyGives(s, c, answer, now);
  }

  /** A forced refetch goes the same way, but only a document with keys replaces the one in the cache, and a
      failure is not put on record. */
  lemma RefetchAnswers(careful: bool, es: seq<Event>, c: Coroutine, answer: Option<Document>, now: real)
    requires Happens(careful, es, RefetchReply(c, answer, now))
    ensures var s := Run(Init(careful), es);
      var s', domain := Step(s, RefetchReply(c, answer, now)), Asked(es, c);
      && s'.negative == s.negative
      && (if answer.Some? && answer.value.hasKeys
          then Get(s'.cache, Lower(RStripDot(domain))) == Some(Cached(answer.value, now + 3600.0)) else s'.cache == s.cache)
      && (if answer.Some? || Misses(es, c) == 1 then PcOf(s', c) == Done(domain, answer)
          else Misses(es, c) == 0 && PcOf(s', c).Refetching?)
  {
    var s := Run(Init(careful), es);
    Reached(careful, es);
    assert Follows(PcOf(s, c), Asked(es, c), Misses(es, c));
    RefetchReplyGives(s, c, answer, now);
  }

  /** A key id that nothing matched leads to a refetch, put on record, unless the zone has spent its budget:
      it was refetched less than an hour ago and fewer than 512 other zones since. */
  lemma UnmatchedAnswers(careful: bool, es: seq<Event>, c: Coroutine, tick: real, now: real)
    requires Happens(careful, es, Unmatched(c, tick, now))
    ensures var s, zone := Run(Init(careful), es), Lower(RStripDot(Asked(es, c)));
      var s', spent := Step(s, Unmatched(c, tick, now)), Budget.Spent(s.reserved, zone, tick);
      && PcOf(s', c) == (if spent then PcOf(s, c) else Refetching(Asked(es, c), 0))
      && s'.reserved == (if spent then s.reserved else s.reserved + [Budget.Reservation(zone, tick)])
  {
    var s := Run(Init(careful), es);
    Reached(careful, es);
    assert Follows(PcOf(s, c), Asked(es, c), Misses(es, c));
    var at: seq<nat> :| Budget.BudgetOk(s.forced, s.reserved, at, s.ticks);
    Budget.TimePasses(s.forced, s.reserved, at, s.ticks, tick);
    Budget.GrantedExactly(s.forced, s.reserved, at, CacheKey(Asked(es, c)), tick);
  }

  lemma ReplyKeepsOthers(s: State, c: Coroutine, answer: Option<Document>, now: real, k: string)
    requires Enabled(s, Reply(c, answer, now)) && Dicts(s)
    ensures var s', key := OnReply(s, c, answer, now), CacheKey(PcOf(s, c).domain);
      OthersKept(s.cache, s'.cache, key, k) && OthersKept(s.negative, s'.negative, key, k)
  {
    var key := CacheKey(PcOf(s, c).domain);
    if answer.Some? {
      StoredBeside(s.cache, key, Cached(answer.value, now + CACHE_TTL), k);
    } else {
      StoredBeside(s.negative, key, now + NEGATIVE_TTL, k);
    }
  }

  lemma RefetchKeepsOthers(s: State, c: Coroutine, answer: Option<Document>, now: real, k: string)
    requires Enabled(s, RefetchReply(c, answer, now)) && Dicts(s)
    ensures var s', key := OnRefetchReply(s, c, answer, now), CacheKey(PcOf(s, c).domain);
      OthersKept(s.cache, s'.cache, key, k) && s'.negative == s.negative
  {
    if answer.Some? {
      StoredBeside(s.cache, CacheKey(PcOf(s, c).domain), Cached(answer.value, now + CACHE_TTL), k);
    }
  }

  lemma ReachedDicts(careful: bool, es: seq<Event>, c: Coroutine)
    requires Legal(Init(careful), es)
    ensures Dicts(Run(Init(careful), es)) && Follows(PcOf(Run(Init(careful), es), c), Asked(es, c), Misses(es, c))
  {
    Reached(careful, es);
  }

  /** Whatever is stored, failures included, no other zone's entry goes but the oldest of a full cache. */
  lemma StoringKeepsOthers(careful: bool, es: seq<Event>, e: Event, k: string)
    requires Happens(careful, es, e) && (e.Reply? || e.RefetchReply?)
    ensures var s, key := Run(Init(careful), es), Lower(RStripDot(Asked(es, e.who)));
      && Dicts(s)
      && OthersKept(s.cache, Step(s, e).cache, key, k) && OthersKept(s.negative, Step(s, e).negative, key, k)
  {
    var s := Run(Init(careful), es);
    ReachedDicts(careful, es, e.who);
    match e
    case Reply(c, answer, now) => ReplyKeepsOthers(s, c, answer, now, k);
    case RefetchReply(c, answer, now) => RefetchKeepsOthers(s, c, answer, now, k);
  }

  /** A call that ends with None does so because a failure on record had not expired, or because both
      locations, asked one after the other, have just told it that they have nothing. */
  lemma NoneMeans(careful: bool, es: seq<Event>, e: Event)
    requires Happens(careful, es, e) && (e.Call? || e.Granted? || e.Reply?)
    requires var pc := PcOf(Step(Run(Init(careful), es), e), e.who); pc.Done? && pc.result.None?
    ensures var failed := Get(Run(Init(careful), es).negative, Lower(RStripDot(Asked(es + [e], e.who))));
      || (!e.Reply? && failed.Some? && e.now < failed.value)
      || (e.Reply? && Misses(es + [e], e.who) == 2)
  {
    OneMore(es, e, e.who);
    match e
    case Call(c, domain, now) => CallAnswers(careful, es, c, domain, now);
    case Granted(c, now) => GrantedAnswers(careful, es, c, now);
    case Reply(c, answer, now) => ReplyAnswers(careful, es, c, answer, now);
  }
}
