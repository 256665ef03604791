/** What holds of every run of the key-set fetcher: where documents come from, the budget of refetches,
    and one fetch at a time. */
module JwksSafety {
  import opened Wrappers
  import opened Text
  import opened OrderedDict
  import opened JwksEngine
  import opened JwksLocks
  import Budget = RefetchBudget

  // ---- where documents come from ----

  /** The two locations of a zone, as URLs. */
  function Candidates(zone: string): seq<string> {
    [Url(zone, 0), Url(zone, 1)]
  }

  /** The document was served by one of the zone's locations, whatever case the host was written in. */
  ghost predicate FromZone(s: State, key: string, doc: Document) {
    exists v :: v in s.served && v.doc == doc && Lower(v.url) in Candidates(key)
  }

  /** Spellings of a zone have the same locations, case aside. */
  lemma SameLocations(domain: string, index: nat)
    requires index < CANDIDATES
    ensures Lower(Url(domain, index)) in Candidates(CacheKey(domain))
  {
    var d, key := RStripDot(domain), CacheKey(domain);
    LowerIsLower(d);
    KeyHasNoDot(domain);
    LowerUrl("https://dns-aid.", d);
    LowerUrl("https://", d);
    assert Lower(Url(domain, index)) == Url(key, index);
  }

  lemma KeyHasNoDot(domain: string)
    ensures RStripDot(CacheKey(domain)) == CacheKey(domain)
  {}

  lemma LowerUrl(prefix: string, d: string)
    requires IsLower(prefix)
    ensures Lower(prefix + d + PATH) == prefix + Lower(d) + PATH
  {
    PathIsLower();
    LowerJoin(prefix + d, PATH);
    LowerJoin(prefix, d);
    LowerFixed(prefix);
    LowerFixed(PATH);
  }

  lemma LowerJoin(a: string, b: string)
    ensures Lower(a + b) == Lower(a) + Lower(b)
  {}

  lemma PathIsLower()
    ensures IsLower(PATH)
  {}

  ghost predicate CacheFromZone(s: State) {
    forall i :: 0 <= i < |s.cache| ==> FromZone(s, s.cache[i].key, s.cache[i].val.doc)
  }

  ghost predicate Sourced(s: State, c: Coroutine) {
    match PcOf(s, c)
    case Fetching(_, _, index) => index < CANDIDATES
    case Refetching(_, index) => index < CANDIDATES
    case Done(domain, Some(doc)) => FromZone(s, CacheKey(domain), doc)
    case _ => true
  }

  ghost predicate SourcesOk(s: State) {
    CacheFromZone(s) && forall c :: Sourced(s, c)
  }

  lemma GetFromZone(s: State, key: string)
    requires CacheFromZone(s) && Get(s.cache, key).Some?
    ensures FromZone(s, key, Get(s.cache, key).value.doc)
  {}

  /** A step of `c` after which nothing else needs a new source. */
  lemma StillSourced(s: State, s': State, c: Coroutine)
    requires SourcesOk(s) && s.served <= s'.served
    requires forall d :: d != c ==> PcOf(s', d) == PcOf(s, d)
    requires CacheFromZone(s') && Sourced(s', c)
    ensures SourcesOk(s')
  {
    forall d ensures Sourced(s', d) {
      assert Sourced(s, d);
    }
  }

  /** A received document is filed under the zone it was asked of. */
  lemma ReceiveKeeps(s: State, s': State, domain: string, index: nat, doc: Document, now: real)
    requires SourcesOk(s) && index < CANDIDATES
    requires s'.cache == CacheJwks(s.cache, domain, doc, now) || s'.cache == s.cache
    requires s'.served == s.served + {Served(Url(domain, index), doc)}
    ensures CacheFromZone(s') && FromZone(s', CacheKey(domain), doc)
  {
    assert Served(Url(domain, index), doc) in s'.served;
    SameLocations(domain, index);
    var room := Room(s.cache, CACHE_MAX);
    forall i | 0 <= i < |s'.cache| ensures FromZone(s', s'.cache[i].key, s'.cache[i].val.doc) {
      if s'.cache == s.cache {
        assert FromZone(s, s.cache[i].key, s.cache[i].val.doc);
      } else if s'.cache[i] != Item(CacheKey(domain), Cached(doc, now + CACHE_TTL)) {
        assert s'.cache[i] == room[i];
        assert FromZone(s, room[i].key, room[i].val.doc);
      }
    }
  }

  lemma EnterSources(s: State, c: Coroutine, domain: string, l: LockId, now: real)
    requires SourcesOk(s) && l < |s.locks|
    ensures SourcesOk(Enter(s, c, domain, l, now))
  {
    var key := CacheKey(domain);
    if Fresh(s.cache, key, now) {
      GetFromZone(s, key);
    }
    StillSourced(s, Enter(s, c, domain, l, now), c);
  }

  lemma GrantedSources(s: State, c: Coroutine, now: real)
    requires SourcesOk(s) && Enabled(s, Granted(c, now))
    ensures SourcesOk(OnGranted(s, c, now))
  {
    var s1 := Take(s, c, PcOf(s, c).lock);
    forall i | 0 <= i < |s1.cache| ensures FromZone(s1, s1.cache[i].key, s1.cache[i].val.doc) {
      assert FromZone(s, s.cache[i].key, s.cache[i].val.doc);
    }
    StillSourced(s, s1, c);
    EnterSources(s1, c, PcOf(s, c).domain, PcOf(s, c).lock, now);
  }

  lemma CallSources(s: State, c: Coroutine, domain: string, now: real)
    requires SourcesOk(s) && RowIsLock(s, CacheKey(domain))
    ensures SourcesOk(OnCall(s, c, domain, now))
  {
    var key := CacheKey(domain);
    if Fresh(s.cache, key, now) {
      GetFromZone(s, key);
      StillSourced(s, OnCall(s, c, domain, now), c);
    } else {
      QueuedSources(s, c, domain);
      EnterSources(Queued(s, c, domain), c, domain, LockFor(s, key), now);
    }
  }

  lemma QueuedSources(s: State, c: Coroutine, domain: string)
    requires SourcesOk(s) && RowIsLock(s, CacheKey(domain))
    ensures SourcesOk(Queued(s, c, domain))
  {
    var s2 := Queued(s, c, domain);
    QueuedAside(s, c, domain);
    assert s2.cache == Pop(s.cache, CacheKey(domain)) && s2.served == s.served;
    forall i | 0 <= i < |s2.cache| ensures FromZone(s2, s2.cache[i].key, s2.cache[i].val.doc) {
      PopIsPart(s.cache, CacheKey(domain), i);
    }
    StillSourced(s, s2, c);
  }

  lemma PopIsPart<V>(d: seq<Item<string, V>>, key: string, i: nat)
    requires i < |Pop(d, key)|
    ensures exists j :: 0 <= j < |d| && d[j] == Pop(d, key)[i]
  {
    var at := Index(d, key);
    assert Pop(d, key)[i] == d[if at < |d| && i >= at then i + 1 else i];
  }

  lemma ReplySources(s: State, c: Coroutine, answer: Option<Document>, now: real)
    requires SourcesOk(s) && PcOf(s, c).Fetching? && PcOf(s, c).lock < |s.locks|
    ensures SourcesOk(OnReply(s, c, answer, now))
  {
    var s' := OnReply(s, c, answer, now);
    assert Sourced(s, c);
    if answer.Some? {
      ReceiveKeeps(s, s', PcOf(s, c).domain, PcOf(s, c).index, answer.value, now);
    }
    StillSourced(s, s', c);
  }

  lemma RefetchReplySources(s: State, c: Coroutine, answer: Option<Document>, now: real)
    requires SourcesOk(s) && PcOf(s, c).Refetching?
    ensures SourcesOk(OnRefetchReply(s, c, answer, now))
  {
    var s' := OnRefetchReply(s, c, answer, now);
    assert Sourced(s, c);
    if answer.Some? {
      ReceiveKeeps(s, s', PcOf(s, c).domain, PcOf(s, c).index, answer.value, now);
    }
    StillSourced(s, s', c);
  }

  lemma StepKeepsSources(s: State, e: Event)
    requires SourcesOk(s) && Enabled(s, e)
    ensures SourcesOk(Step(s, e))
  {
    assert Sourced(s, e.who);
    match e
    case Call(c, domain, now) => CallSources(s, c, domain, now);
    case Granted(c, now) => GrantedSources(s, c, now);
    case Reply(c, answer, now) => ReplySources(s, c, answer, now);
    case Unmatched(c, tick, _) => StillSourced(s, Step(s, e), c);
    case RefetchReply(c, answer, now) => RefetchReplySources(s, c, answer, now);
    case Cancel(c, _) => StillSourced(s, Step(s, e), c);
  }

  // ---- every reachable state ----

  ghost predicate Good(s: State) {
    && LocksOk(s)
    && SourcesOk(s)
    && exists at: seq<nat> :: Budget.BudgetOk(s.forced, s.reserved, at, s.ticks)
  }

  lemma StepKeepsBudget(s: State, e: Event)
    requires Enabled(s, e)
    requires exists at: seq<nat> :: Budget.BudgetOk(s.forced, s.reserved, at, s.ticks)
    ensures exists at: seq<nat> :: Budget.BudgetOk(Step(s, e).forced, Step(s, e).reserved, at, Step(s, e).ticks)
  {
    var at: seq<nat> :| Budget.BudgetOk(s.forced, s.reserved, at, s.ticks);
    if e.Unmatched? {
      Budget.TimePasses(s.forced, s.reserved, at, s.ticks, e.tick);
      var at' := Budget.ReserveKeeps(s.forced, s.reserved, at, CacheKey(PcOf(s, e.who).domain), e.tick);
      assert Budget.BudgetOk(Step(s, e).forced, Step(s, e).reserved, at', Step(s, e).ticks);
    } else {
      StepAside(s, e);
      assert Budget.BudgetOk(Step(s, e).forced, Step(s, e).reserved, at, Step(s, e).ticks);
    }
  }

  lemma {:induction false} RunKeeps(s: State, es: seq<Event>)
    requires Good(s) && Legal(s, es)
    ensures Good(Run(s, es))
    decreases |es|
  {
    if es != [] {
      StepKeepsLocks(s, es[0]);
      StepKeepsSources(s, es[0]);
      StepKeepsBudget(s, es[0]);
      RunKeeps(Step(s, es[0]), es[1..]);
    }
  }

  lemma InitGood(careful: bool)
    ensures Good(Init(careful))
  {
    var s := Init(careful);
    assert Budget.BudgetOk(s.forced, s.reserved, [], s.ticks);
  }

  lemma {:induction false} RunSpares(s: State, es: seq<Event>)
    requires Legal(s, es)
    ensures Run(s, es).spareAwaited == s.spareAwaited
    decreases |es|
  {
    if es != [] {
      StepAside(s, es[0]);
      RunSpares(Step(s, es[0]), es[1..]);
    }
  }

  /** At most one coroutine per normalised zone is fetching, however calls, waits, replies, refetches,
      cancellations and lock evictions interleave, unless the zone's lock has been evicted between its
      release and the run of a waiter; which cannot happen if awaited locks are spared. */
  lemma SingleFlight(careful: bool, es: seq<Event>, c: Coroutine, d: Coroutine)
    requires Legal(Init(careful), es)
    requires var s := Run(Init(careful), es);
      && PcOf(s, c).Fetching? && PcOf(s, d).Fetching?
      && CacheKey(PcOf(s, c).domain) == CacheKey(PcOf(s, d).domain)
      && (careful || CacheKey(PcOf(s, c).domain) !in s.lost)
    ensures c == d
  {
    var s := Run(Init(careful), es);
    InitGood(careful);
    RunKeeps(Init(careful), es);
    RunSpares(Init(careful), es);
    assert OwnLock(s, c) && OwnLock(s, d) && Tabled(s, c) && Tabled(s, d);
  }

  /** Two forced refetches of one zone less than a window apart have 512 other zones in between,
      and the budget table stays within its bound. */
  lemma RefetchesAreSpaced(careful: bool, es: seq<Event>)
    requires Legal(Init(careful), es)
    ensures Budget.Spaced(Run(Init(careful), es).reserved)
    ensures |Run(Init(careful), es).forced| <= Budget.TABLE_MAX
  {
    InitGood(careful);
    RunKeeps(Init(careful), es);
  }

  /** A returned document was served by one of the zone's own locations. */
  lemma ReturnedFromOwnZone(careful: bool, es: seq<Event>, c: Coroutine)
    requires Legal(Init(careful), es)
    requires PcOf(Run(Init(careful), es), c).Done? && PcOf(Run(Init(careful), es), c).result.Some?
    ensures var s := Run(Init(careful), es);
      var pc := PcOf(s, c);
      exists v :: v in s.served && v.doc == pc.result.value && Lower(v.url) in Candidates(CacheKey(pc.domain))
  {
    InitGood(careful);
    RunKeeps(Init(careful), es);
    assert Sourced(Run(Init(careful), es), c);
  }

  /** The cache holds `doc` for `key`, unexpired. */
  ghost predicate Holds(cache: seq<Item<string, Cached>>, key: string, doc: Document, now: real) {
    exists i :: 0 <= i < |cache| && cache[i].key == key && cache[i].val.doc == doc && now < cache[i].val.expiry
  }

  lemma FreshHolds(cache: seq<Item<string, Cached>>, key: string, now: real)
    ensures Fresh(cache, key, now) ==> Holds(cache, key, Get(cache, key).value.doc, now)
  {
    var i := Index(cache, key);
    if i < |cache| {
      assert cache[i].key == key;
    }
  }

  lemma EnterReturns(s: State, c: Coroutine, domain: string, l: LockId, now: real)
    requires l < |s.locks|
    ensures var pc := PcOf(Enter(s, c, domain, l, now), c);
      pc.Done? && pc.result.Some? ==> pc.domain == domain && Holds(s.cache, CacheKey(domain), pc.result.value, now)
  {
    FreshHolds(s.cache, CacheKey(domain), now);
  }

  lemma HeldBefore(cache: seq<Item<string, Cached>>, key: string, doc: Document, now: real)
    ensures Holds(Pop(cache, key), key, doc, now) ==> Holds(cache, key, doc, now)
  {
    if i :| 0 <= i < |Pop(cache, key)| && Pop(cache, key)[i].key == key && Pop(cache, key)[i].val.doc == doc
            && now < Pop(cache, key)[i].val.expiry {
      PopIsPart(cache, key, i);
    }
  }

  /** A document is handed out in the step that received it, or while a cache entry holds it unexpired. */
  lemma ReturnedUnexpired(s: State, e: Event)
    requires Enabled(s, e) && !e.Unmatched?
    requires PcOf(Step(s, e), e.who).Done? && PcOf(Step(s, e), e.who).result.Some?
    ensures var pc := PcOf(Step(s, e), e.who);
      || ((e.Reply? || e.RefetchReply?) && e.answer == pc.result)
      || Holds(s.cache, CacheKey(pc.domain), pc.result.value, e.now)
  {
    match e
    case Call(c, domain, now) =>
      var key := CacheKey(domain);
      FreshHolds(s.cache, key, now);
      if !Fresh(s.cache, key, now) {
        EnterReturns(Queued(s, c, domain), c, domain, LockFor(s, key), now);
        var pc := PcOf(Step(s, e), c);
        HeldBefore(s.cache, key, pc.result.value, now);
      }
    case Granted(c, now) => EnterReturns(Take(s, c, PcOf(s, c).lock), c, PcOf(s, c).domain, PcOf(s, c).lock, now);
    case Reply(_, _, _) =>
    case RefetchReply(_, _, _) =>
    case Cancel(_, _) =>
  }
}
