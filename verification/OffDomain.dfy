/** Following a catalog pointer off the queried domain: where a catalog is fetched from, what it is
    trusted on, and which of its records survive. */
module OffDomain {
  import opened Wrappers
  import opened Text
  import opened HostNames

  // ---- fetching ----

  /** What a URL answers; a redirect gives the URL it leads to. */
  datatype Hop<A> = Page(agents: seq<A>) | Redirect(to: string) | NoAnswer

  /** The web as one discovery finds it. */
  type Web<A> = string -> Hop<A>

  /** The agents of a page, and the URL that answered with it. */
  datatype Answer<A> = Answer(agents: seq<A>, origin: string)

  const MAX_REDIRECTS: nat := 3

  function Get<A>(web: Web<A>, url: string, redirects: nat): Option<Answer<A>>
    decreases redirects
  {
    match web(url)
    case Page(agents) => Some(Answer(agents, url))
    case Redirect(to) => if redirects == 0 then None else Get(web, to, redirects - 1)
    case NoAnswer => None
  }

  /** A place to look for a catalog, and whether redirects are followed from it. */
  datatype Source = Source(url: string, follow: bool)

  function Fetch<A>(web: Web<A>, s: Source): Option<Answer<A>> {
    Get(web, s.url, if s.follow then MAX_REDIRECTS else 0)
  }

  lemma AnsweredItself<A>(web: Web<A>, s: Source)
    requires Fetch(web, s).Some? && (!s.follow || !web(s.url).Redirect?)
    ensures Fetch(web, s).value.origin == s.url
  {}

  /** Following `n` redirects from one URL leads to the other. */
  ghost predicate Leads<A>(web: Web<A>, url: string, n: nat, to: string)
    decreases n
  {
    if n == 0 then url == to else web(url).Redirect? && Leads(web, web(url).to, n - 1, to)
  }

  lemma {:induction false} GetLeads<A>(web: Web<A>, url: string, redirects: nat) returns (n: nat)
    requires Get(web, url, redirects).Some?
    ensures var a := Get(web, url, redirects).value;
      n <= redirects && Leads(web, url, n, a.origin) && web(a.origin) == Page(a.agents)
    decreases redirects
  {
    n := 0;
    if web(url).Redirect? {
      var m := GetLeads(web, web(url).to, redirects - 1);
      n := m + 1;
    }
  }

  lemma {:induction false} LeadsGet<A>(web: Web<A>, url: string, redirects: nat, n: nat, origin: string)
    requires n <= redirects && Leads(web, url, n, origin) && web(origin).Page?
    ensures Get(web, url, redirects) == Some(Answer(web(origin).agents, origin))
    decreases n
  {
    if n > 0 {
      LeadsGet(web, web(url).to, redirects - 1, n - 1, origin);
    }
  }

  ghost predicate Within<A>(web: Web<A>, url: string, redirects: nat, to: string) {
    exists n: nat :: n <= redirects && Leads(web, url, n, to)
  }

  /** A source is answered by the page that at most three redirects lead to, or none where they are refused. */
  lemma FetchedExactly<A>(web: Web<A>, s: Source, agents: seq<A>, origin: string)
    ensures Fetch(web, s) == Some(Answer(agents, origin))
       <==> web(origin) == Page(agents) && Within(web, s.url, if s.follow then 3 else 0, origin)
  {
    var redirects := if s.follow then MAX_REDIRECTS else 0;
    if Fetch(web, s) == Some(Answer(agents, origin)) {
      var n := GetLeads(web, s.url, redirects);
      assert Leads(web, s.url, n, origin);
    }
    if Within(web, s.url, redirects, origin) && web(origin) == Page(agents) {
      var n: nat :| n <= redirects && Leads(web, s.url, n, origin);
      LeadsGet(web, s.url, redirects, n, origin);
    }
  }

  // ---- the cascade ----

  function Location(prefix: string, d: string, path: string): string {
    SCHEME + (prefix + d) + path
  }

  const PREFIXES: seq<string> := ["index.aiagents.", "_index._aiagents.", "", "", ""]
  const PATHS: seq<string> := ["/index-wellknown", "/index-wellknown", "/.well-known/agents-index.json",
                               "/.well-known/agents.json", "/.well-known/ai-catalog.json"]

  /** Well-known locations, in the order they are tried. */
  function WellKnown(d: string): seq<Source> {
    seq(|PREFIXES|, i requires 0 <= i < |PREFIXES| => Source(Location(PREFIXES[i], d, PATHS[i]), true))
  }

  function Sources(domain: string, catalogUrl: Option<string>): seq<Source> {
    (if catalogUrl.Some? && catalogUrl.value != [] then [Source(catalogUrl.value, false)] else []) + WellKnown(Norm(domain))
  }

  /** The catalog a cascade settles on: its agents, the source it was asked of, and who answered. */
  datatype Result<A> = Result(agents: seq<A>, source: Source, origin: string)

  ghost predicate ServesNothing<A>(s: Source, web: Web<A>) {
    Fetch(web, s).None? || Fetch(web, s).value.agents == []
  }

  /** Nothing answered before source `k`, which answered with `r`. */
  ghost predicate FirstAnswer<A>(sources: seq<Source>, web: Web<A>, k: nat, r: Result<A>)
    requires k < |sources|
  {
    && sources[k] == r.source && Fetch(web, sources[k]) == Some(Answer(r.agents, r.origin))
    && forall i :: 0 <= i < k ==> Fetch(web, sources[i]).None?
  }

  /** What the cascade owes: the first source with agents; failing that, an empty answer if there was
      any; an error when no source answered. */
  ghost predicate FirstServed<A>(sources: seq<Source>, web: Web<A>, result: Option<Result<A>>) {
    match result
    case None => forall i :: 0 <= i < |sources| ==> Fetch(web, sources[i]).None?
    case Some(r) =>
      if r.agents != [] then
        exists k :: 0 <= k < |sources| && sources[k] == r.source && Fetch(web, sources[k]) == Some(Answer(r.agents, r.origin))
          && forall i :: 0 <= i < k ==> ServesNothing(sources[i], web)
      else
        && (forall i :: 0 <= i < |sources| ==> ServesNothing(sources[i], web))
        && exists k :: 0 <= k < |sources| && FirstAnswer(sources, web, k, r)
  }

  lemma FirstServedUnique<A>(sources: seq<Source>, web: Web<A>, r: Option<Result<A>>, q: Option<Result<A>>)
    requires FirstServed(sources, web, r) && FirstServed(sources, web, q)
    ensures r == q
  {}

  /** Try the sources in order; an empty answer is remembered but does not end the search. */
  method FetchCascade<A>(sources: seq<Source>, web: Web<A>) returns (result: Option<Result<A>>)
    ensures FirstServed(sources, web, result)
  {
    var empty: Option<Result<A>> := None;
    var n := 0;
    while n < |sources|
      invariant 0 <= n <= |sources|
      invariant forall i :: 0 <= i < n ==> ServesNothing(sources[i], web)
      invariant empty.None? <==> forall i :: 0 <= i < n ==> Fetch(web, sources[i]).None?
      invariant empty.Some? ==> empty.value.agents == [] && exists k :: 0 <= k < n && FirstAnswer(sources, web, k, empty.value)
    {
      var s := sources[n];
      var answer := Fetch(web, s);
      if answer.Some? {
        if answer.value.agents != [] {
          return Some(Result(answer.value.agents, s, answer.value.origin));
        }
        if empty.None? {
          empty := Some(Result([], s, answer.value.origin));
          assert FirstAnswer(sources, web, n, empty.value);
        }
      }
      n := n + 1;
    }
    result := empty;
  }

  // ---- the pointer ----

  /** A resolved pointer: the name its record gives, as text, the catalog's file name, and whether the
      record validated. */
  datatype Pointer = Pointer(target: string, filename: string, validated: bool)

  function PointerUrl(target: string, filename: string): string {
    SCHEME + target + ("/.well-known/" + filename)
  }

  function TargetHost(target: string): string {
    Lower(ServerName(Authority(target)))
  }

  /** The file name has no part in the host. */
  lemma PointerHost(target: string, filename: string)
    ensures HostOf(PointerUrl(target, filename)) == TargetHost(target)
  {
    HostOfServer(target, "/.well-known/" + filename);
  }

  /** Whether a URL on the name passes the check made before it is used: it parses, names a host, and
      carries no user information. */
  predicate Resolves(target: string, literal: string -> bool) {
    var a := Authority(target);
    target != [] && '@' !in a && Bracketing(a, literal) && ServerName(a) != []
  }

  /** A domain that can be queried. */
  predicate Queried(domain: string) {
    PlainHost(domain) && Norm(domain) != []
  }

  lemma UndelimitedTarget(target: string)
    requires !Has(target, DELIMITERS)
    ensures TargetHost(target) == Lower(target)
  {
    UndelimitedAuthority(target);
    UndelimitedServer(target);
  }

  /** The test made on the target's name holds of the URL's host if the name has no delimiter in it. */
  lemma PointerNamesItsTarget(target: string, filename: string, domain: string)
    requires !Has(target, DELIMITERS)
    ensures IsOnDomain(HostOf(PointerUrl(target, filename)), domain) == IsOnDomain(target, domain)
  {
    PointerHost(target, filename);
    UndelimitedTarget(target);
    LowerKeepsOnDomain(target, domain);
  }

  function Under(prefix: string, domain: string): string {
    prefix + ("." + domain)
  }

  lemma UnderIsOnDomain(prefix: string, domain: string)
    requires Queried(domain)
    ensures IsOnDomain(Under(prefix, domain), domain)
  {
    NormUnder(prefix, domain);
    EndsWithDotted(Lower(prefix), Norm(domain));
  }

  lemma NormUnder(prefix: string, domain: string)
    requires Norm(domain) != []
    ensures Norm(Under(prefix, domain)) == Lower(prefix) + "." + Norm(domain)
  {
    LowerConcat(prefix, "." + domain);
    LowerConcat(".", domain);
    assert Lower(".") == ".";
    Regroup(Lower(prefix), ".", Lower(domain));
    StripTail(Lower(prefix) + ".", Lower(domain));
  }

  lemma LowerConcat(a: string, b: string)
    ensures Lower(a + b) == Lower(a) + Lower(b)
  {}

  lemma {:induction false} StripTail(a: string, b: string)
    requires RStripDot(b) != []
    ensures RStripDot(a + b) == a + RStripDot(b)
  {
    if b[|b| - 1] == '.' {
      assert (a + b)[..|a + b| - 1] == a + b[..|b| - 1];
      StripTail(a, b[..|b| - 1]);
    }
  }

  // ---- when the pointer's name is the URL's host ----

  /** The server of a name with a delimiter is settled before anything that follows the name. */
  lemma DelimitedServer(p: string, rest: string, literal: string -> bool)
    requires Has(p, DELIMITERS) && Resolves(p + rest, literal) && rest != [] && rest[0] == '.' && !Has(rest, DELIMITERS)
    ensures |ServerName(Authority(p + rest))| <= |p|
  {
    if Has(p, PATH_STOPS) {
      UpToCut(p, rest, PATH_STOPS);
    } else {
      NoPath(p, rest);
      ServerBeforePort(p, rest, literal);
    }
  }

  lemma NoPath(p: string, rest: string)
    requires !Has(p, PATH_STOPS) && !Has(rest, DELIMITERS)
    ensures Authority(p + rest) == p + rest
  {
    UpToAll(p + rest, PATH_STOPS);
  }

  lemma ServerBeforePort(p: string, rest: string, literal: string -> bool)
    requires Has(p, DELIMITERS) && !Has(p, PATH_STOPS) && rest != [] && rest[0] == '.' && !Has(rest, DELIMITERS)
    requires '@' !in p + rest && Bracketing(p + rest, literal)
    ensures |ServerName(p + rest)| <= |p|
  {
    var a := p + rest;
    if a[0] == '[' {
      assert p[0] == '[' && a[1..] == p[1..] + rest;
      BracketInside(p[1..], rest);
    } else {
      assert '[' !in a && ']' !in a;
      PortIn(p);
      UpToCut(p, rest, {':'});
    }
  }

  lemma BracketInside(p: string, rest: string)
    requires ']' in p + rest && !Has(rest, DELIMITERS)
    ensures |UpTo(p + rest, {']'})| <= |p|
  {
    var i :| 0 <= i < |p + rest| && (p + rest)[i] == ']';
    assert i < |p|;
    UpToCut(p, rest, {']'});
  }

  lemma PortIn(p: string)
    requires Has(p, DELIMITERS) && !Has(p, PATH_STOPS) && '@' !in p && '[' !in p && ']' !in p
    ensures Has(p, {':'})
  {
    var i :| 0 <= i < |p| && p[i] in DELIMITERS;
    assert p[i] == ':';
  }

  /** What follows a name that holds a delimiter: one more label at least, and no delimiter. */
  predicate Tail(rest: string) {
    rest != [] && rest[0] == '.' && !Has(rest, DELIMITERS)
  }

  lemma AfterInside(q: string, rest: string)
    requires Has(q, {']'})
    ensures UpTo(q + rest, {']'}) == UpTo(q, {']'})
    ensures (q + rest)[|UpTo(q, {']'})|..] == q[|UpTo(q, {']'})|..] + rest && q[|UpTo(q, {']'})|..] != []
  {
    UpToCut(q, rest, {']'});
  }

  /** What follows the bracket that closes a literal. */
  predicate PortOrEnd(after: string) {
    after == "]" || (|after| > 1 && after[1] == ':')
  }

  lemma PortBefore(after: string, rest: string, other: string)
    requires after != [] && Tail(rest) && Tail(other) && PortOrEnd(after + rest)
    ensures PortOrEnd(after + other)
  {
    assert (after + rest)[|after|] == '.';
    assert |after + rest| > 1;
    assert (after + other)[1] == (after + rest)[1];
  }

  lemma EnclosedMeans(q: string, literal: string -> bool)
    ensures Enclosed(q, literal)
      <==> ']' in q && literal(UpTo(q, {']'})) && PortOrEnd(q[|UpTo(q, {']'})|..])
  {}

  lemma EnclosedBefore(q: string, rest: string, other: string, literal: string -> bool)
    requires Tail(rest) && Tail(other) && Enclosed(q + rest, literal)
    ensures Enclosed(q + other, literal) && UpTo(q + other, {']'}) == UpTo(q + rest, {']'})
  {
    EnclosedMeans(q + rest, literal);
    EnclosedMeans(q + other, literal);
    ClosedIn(q, rest);
    AfterInside(q, rest);
    AfterInside(q, other);
    PortBefore(q[|UpTo(q, {']'})|..], rest, other);
  }

  lemma ClosedIn(q: string, rest: string)
    requires Tail(rest) && ']' in q + rest
    ensures Has(q, {']'}) && forall other :: ']' in q + other
  {
    var i :| 0 <= i < |q + rest| && (q + rest)[i] == ']';
    assert q[i] == ']';
    forall other ensures ']' in q + other {
      assert (q + other)[i] == ']';
    }
  }

  lemma BracketPort(p: string, rest: string, other: string, literal: string -> bool)
    requires Tail(rest) && Tail(other) && p != [] && p[0] == '['
    requires '@' !in p + rest && Bracketing(p + rest, literal)
    ensures Bracketing(p + other, literal) && ServerName(p + other) == ServerName(p + rest)
  {
    assert (p + rest)[1..] == p[1..] + rest && (p + other)[1..] == p[1..] + other;
    assert (p + rest)[0] == '[' && '@' !in p + other;
    EnclosedBefore(p[1..], rest, other, literal);
  }

  lemma ColonServer(p: string, rest: string, other: string, literal: string -> bool)
    requires Tail(rest) && Tail(other) && Has(p, DELIMITERS) && !Has(p, PATH_STOPS) && p[0] != '['
    requires '@' !in p + rest && Bracketing(p + rest, literal)
    ensures Bracketing(p + other, literal) && ServerName(p + other) == ServerName(p + rest)
  {
    assert (p + rest)[0] == p[0] && (p + other)[0] == p[0];
    assert '[' !in p + rest && ']' !in p + rest;
    assert '@' !in p + other && '[' !in p + other && ']' !in p + other;
    PortIn(p);
    UpToCut(p, rest, {':'});
    UpToCut(p, other, {':'});
  }

  /** Nor does anything that follows change whether the URL passes. */
  lemma DelimitedResolves(p: string, rest: string, other: string, literal: string -> bool)
    requires Has(p, DELIMITERS) && Tail(rest) && Tail(other) && Resolves(p + rest, literal)
    ensures Resolves(p + other, literal)
  {
    if Has(p, PATH_STOPS) {
      UpToCut(p, rest, PATH_STOPS);
      UpToCut(p, other, PATH_STOPS);
    } else {
      NoPath(p, rest);
      NoPath(p, other);
      if p[0] == '[' {
        BracketPort(p, rest, other, literal);
      } else {
        ColonServer(p, rest, other, literal);
      }
      assert '@' !in p + other;
    }
  }

  /** A domain longer than `n`. */
  function LongDomain(n: nat): (d: string)
    ensures |d| == n + 1 && forall i :: 0 <= i < |d| ==> d[i] == 'a'
  {
    seq(n + 1, i => 'a')
  }

  lemma LongIsQueried(n: nat)
    ensures Queried(LongDomain(n)) && |Norm(LongDomain(n))| == n + 1
  {
    var d := LongDomain(n);
    assert d[|d| - 1] == 'a';
    NormFixed(d);
  }

  lemma DomainTail(domain: string)
    requires PlainHost(domain)
    ensures Tail("." + domain)
  {
    PlainIsUndelimited("." + domain);
  }

  /** Whatever domain is queried, a followed pointer to a name under it leads to a host on it. */
  ghost predicate AlwaysOnDomain(prefix: string, literal: string -> bool) {
    forall domain :: Queried(domain) && Resolves(Under(prefix, domain), literal)
      ==> IsOnDomain(TargetHost(Under(prefix, domain)), domain)
  }

  ghost predicate NeverFollowed(prefix: string, literal: string -> bool) {
    forall domain :: Queried(domain) ==> !Resolves(Under(prefix, domain), literal)
  }

  lemma UndelimitedConcat(a: string, b: string)
    requires !Has(a, DELIMITERS) && !Has(b, DELIMITERS)
    ensures !Has(a + b, DELIMITERS)
  {}

  lemma DelimitedLeadsElsewhere(prefix: string, domain: string, literal: string -> bool)
    requires Has(prefix, DELIMITERS) && Queried(domain) && Resolves(Under(prefix, domain), literal)
    ensures !AlwaysOnDomain(prefix, literal)
  {
    var long := LongDomain(|prefix|);
    LongIsQueried(|prefix|);
    DomainTail(domain);
    DomainTail(long);
    DelimitedResolves(prefix, "." + domain, "." + long, literal);
    DelimitedServer(prefix, "." + long, literal);
    TooShort(TargetHost(Under(prefix, long)), long);
  }

  /** The test on the target's name always says what it should about the host that is asked exactly when
      the part in front of the domain holds no delimiter, or is such that its URL is refused anyway. */
  lemma TargetTestIsRightExactly(prefix: string, literal: string -> bool)
    ensures AlwaysOnDomain(prefix, literal) <==> !Has(prefix, DELIMITERS) || NeverFollowed(prefix, literal)
  {
    if !Has(prefix, DELIMITERS) {
      forall domain | Queried(domain) ensures IsOnDomain(TargetHost(Under(prefix, domain)), domain) {
        DomainTail(domain);
        UndelimitedConcat(prefix, "." + domain);
        UndelimitedTarget(Under(prefix, domain));
        UnderIsOnDomain(prefix, domain);
        LowerKeepsOnDomain(Under(prefix, domain), domain);
      }
    } else if !NeverFollowed(prefix, literal) {
      var domain :| Queried(domain) && Resolves(Under(prefix, domain), literal);
      DelimitedLeadsElsewhere(prefix, domain, literal);
    }
  }

  /** A host, a path, and the domain after it: on the domain by name, on the host by URL. */
  lemma SlashedTarget(host: string, inner: string, domain: string, literal: string -> bool)
    requires PlainHost(host) && host != [] && Queried(domain)
    ensures var t := Under(host + ("/" + inner), domain);
      IsOnDomain(t, domain) && Resolves(t, literal) && TargetHost(t) == Lower(host)
  {
    var rest := ("/" + inner) + ("." + domain);
    Regroup(host, "/" + inner, "." + domain);
    assert Under(host + ("/" + inner), domain) == host + rest;
    UnderIsOnDomain(host + ("/" + inner), domain);
    PlainIsUndelimited(host);
    UpToNext(host, rest, PATH_STOPS);
    UndelimitedServer(host);
    assert '@' !in host && '[' !in host && ']' !in host;
  }

  lemma OtherHost(a: string, b: string)
    requires a != [] && b != [] && IsLower(a) && IsLower(b)
    requires a[|a| - 1] != b[|b| - 1] && a[|a| - 1] != '.' && b[|b| - 1] != '.'
    ensures !IsOnDomain(a, b)
  {
    NormFixed(a);
    NormFixed(b);
    assert ("." + b)[|b|] == b[|b| - 1];
  }

  // ---- the trust decision ----

  datatype Trust = TlsDomain | Dnssec | Signature

  datatype Decision = Decision(catalogUrl: Option<string>, offDomain: Option<Trust>)

  function Decide(pointer: Option<Pointer>, domain: string, verifySignatures: bool, trustDnssec: bool): Decision {
    match pointer
    case None => Decision(None, None)
    case Some(p) =>
      var url := PointerUrl(p.target, p.filename);
      if IsOnDomain(p.target, domain) then Decision(Some(url), None)
      else if trustDnssec && p.validated then Decision(Some(url), Some(Dnssec))
      else if verifySignatures then Decision(Some(url), Some(Signature))
      else Decision(None, None)
  }

  /** The label put on a catalog's records, by the host it was asked of. */
  function CatalogTrust(offDomain: Option<Trust>, servedHost: string, domain: string): Trust {
    if offDomain.Some? && (servedHost == [] || !IsOnDomain(servedHost, domain)) then offDomain.value else TlsDomain
  }

  /** A discovered record, the source its catalog was asked of, and the URL that answered. */
  datatype Listed<R> = Listed(record: R, source: Source, origin: string, trust: Trust, verified: Option<bool>)

  predicate DroppedUnverified<R>(x: Listed<R>) {
    x.trust.Signature? && x.verified != Some(true)
  }

  /** The records of a served catalog that survive. */
  function Survivors<A, R>(agents: seq<A>, source: Source, origin: string, trust: Trust, verifySignatures: bool,
                           convert: A -> Option<R>, verify: R -> Option<bool>, keep: R -> bool): seq<Listed<R>> {
    if agents == [] then []
    else
      var n := |agents| - 1;
      var before := Survivors(agents[..n], source, origin, trust, verifySignatures, convert, verify, keep);
      match convert(agents[n])
      case None => before
      case Some(r) =>
        var x := Listed(r, source, origin, trust, if verifySignatures then verify(r) else None);
        if DroppedUnverified(x) || !keep(r) then before else before + [x]
  }

  method ListSurvivors<A, R>(agents: seq<A>, source: Source, origin: string, trust: Trust, verifySignatures: bool,
                             convert: A -> Option<R>, verify: R -> Option<bool>, keep: R -> bool)
    returns (found: seq<Listed<R>>)
    ensures found == Survivors(agents, source, origin, trust, verifySignatures, convert, verify, keep)
  {
    found := [];
    var i := 0;
    while i < |agents|
      invariant 0 <= i <= |agents|
      invariant found == Survivors(agents[..i], source, origin, trust, verifySignatures, convert, verify, keep)
    {
      assert agents[..i + 1][..i] == agents[..i];
      var record := convert(agents[i]);
      if record.Some? {
        var x := Listed(record.value, source, origin, trust, if verifySignatures then verify(record.value) else None);
        if !DroppedUnverified(x) && keep(record.value) {
          found := found + [x];
        }
      }
      i := i + 1;
    }
    assert agents[..|agents|] == agents;
  }

  // ---- which records are returned ----

  /** A record that is shown: the agent converts, the filters keep it, and where its label is a signature
      the signature has been verified. */
  predicate Shown<A, R>(agent: A, trust: Trust, convert: A -> Option<R>, verify: R -> Option<bool>, keep: R -> bool) {
    && convert(agent).Some? && keep(convert(agent).value)
    && (trust == Signature ==> verify(convert(agent).value) == Some(true))
  }

  /** `found` lists the records of the agents shown, `at` saying where in the catalog each is from. */
  ghost predicate ListsShown<A, R>(found: seq<Listed<R>>, at: seq<nat>, agents: seq<A>, trust: Trust,
                                   convert: A -> Option<R>, verify: R -> Option<bool>, keep: R -> bool) {
    && |at| == |found|
    && (forall k :: 0 <= k < |at| ==> at[k] < |agents|)
    && (forall k, l :: 0 <= k < l < |at| ==> at[k] < at[l])
    && (forall i :: 0 <= i < |agents| ==> (i in at <==> Shown(agents[i], trust, convert, verify, keep)))
    && (forall k :: 0 <= k < |at| ==> convert(agents[at[k]]) == Some(found[k].record))
  }

  lemma ListsSame<A, R>(found: seq<Listed<R>>, at: seq<nat>, agents: seq<A>, agent: A, trust: Trust,
                        convert: A -> Option<R>, verify: R -> Option<bool>, keep: R -> bool)
    requires ListsShown(found, at, agents, trust, convert, verify, keep) && !Shown(agent, trust, convert, verify, keep)
    ensures ListsShown(found, at, agents + [agent], trust, convert, verify, keep)
  {
    var more := agents + [agent];
    assert more[|agents|] == agent && forall i :: 0 <= i < |agents| ==> more[i] == agents[i];
  }

  lemma ListsOneMore<A, R>(found: seq<Listed<R>>, at: seq<nat>, agents: seq<A>, agent: A, x: Listed<R>, trust: Trust,
                           convert: A -> Option<R>, verify: R -> Option<bool>, keep: R -> bool)
    requires ListsShown(found, at, agents, trust, convert, verify, keep)
    requires Shown(agent, trust, convert, verify, keep) && convert(agent) == Some(x.record)
    ensures ListsShown(found + [x], at + [|agents|], agents + [agent], trust, convert, verify, keep)
  {
    var more := agents + [agent];
    assert more[|agents|] == agent && forall i :: 0 <= i < |agents| ==> more[i] == agents[i];
    assert forall i :: i in at + [|agents|] <==> i in at || i == |agents|;
  }

  /** The record as it is listed. */
  function AsListed<R>(record: R, source: Source, origin: string, trust: Trust, verifySignatures: bool,
                       verify: R -> Option<bool>): Listed<R> {
    Listed(record, source, origin, trust, if verifySignatures then verify(record) else None)
  }

  lemma SurvivorsStep<A, R>(front: seq<A>, last: A, source: Source, origin: string, trust: Trust, verifySignatures: bool,
                            convert: A -> Option<R>, verify: R -> Option<bool>, keep: R -> bool)
    requires trust == Signature ==> verifySignatures
    ensures var before := Survivors(front, source, origin, trust, verifySignatures, convert, verify, keep);
      Survivors(front + [last], source, origin, trust, verifySignatures, convert, verify, keep)
        == if Shown(last, trust, convert, verify, keep)
           then before + [AsListed(convert(last).value, source, origin, trust, verifySignatures, verify)] else before
  {
    assert (front + [last])[..|front|] == front;
  }

  lemma {:induction false} SurvivorsShown<A, R>(agents: seq<A>, source: Source, origin: string, trust: Trust, verifySignatures: bool,
                                                convert: A -> Option<R>, verify: R -> Option<bool>, keep: R -> bool)
    returns (at: seq<nat>)
    requires trust == Signature ==> verifySignatures
    ensures ListsShown(Survivors(agents, source, origin, trust, verifySignatures, convert, verify, keep), at, agents, trust,
                       convert, verify, keep)
  {
    if agents == [] {
      at := [];
    } else {
      var front, last := agents[..|agents| - 1], agents[|agents| - 1];
      at := SurvivorsShown(front, source, origin, trust, verifySignatures, convert, verify, keep);
      var before := Survivors(front, source, origin, trust, verifySignatures, convert, verify, keep);
      assert agents == front + [last];
      SurvivorsStep(front, last, source, origin, trust, verifySignatures, convert, verify, keep);
      if Shown(last, trust, convert, verify, keep) {
        var x := AsListed(convert(last).value, source, origin, trust, verifySignatures, verify);
        ListsOneMore(before, at, front, last, x, trust, convert, verify, keep);
        at := at + [|front|];
      } else {
        ListsSame(before, at, front, last, trust, convert, verify, keep);
      }
    }
  }

  // ---- which catalogs are asked, and what for ----

  /** A pointer is followed if its name is on the domain, or it validated and that is to be trusted, or
      signatures are to be verified. */
  predicate Followed(p: Pointer, domain: string, verifySignatures: bool, trustDnssec: bool) {
    IsOnDomain(p.target, domain) || (trustDnssec && p.validated) || verifySignatures
  }

  /** The locations asked, one after the other: a followed pointer's, from which no redirect is followed,
      and the domain's own five. */
  lemma AskedInOrder(domain: string, pointer: Option<Pointer>, verifySignatures: bool, trustDnssec: bool)
    ensures var d := Norm(domain);
      Sources(domain, Decide(pointer, domain, verifySignatures, trustDnssec).catalogUrl)
      == (match pointer
          case None => []
          case Some(p) =>
            if Followed(p, domain, verifySignatures, trustDnssec)
            then [Source("https://" + p.target + "/.well-known/" + p.filename, false)] else [])
         + [Source("https://index.aiagents." + d + "/index-wellknown", true),
            Source("https://_index._aiagents." + d + "/index-wellknown", true),
            Source("https://" + d + "/.well-known/agents-index.json", true),
            Source("https://" + d + "/.well-known/agents.json", true),
            Source("https://" + d + "/.well-known/ai-catalog.json", true)]
  {
    OwnLocations(Norm(domain));
    if pointer.Some? {
      var p := pointer.value;
      Regroup("https://" + p.target, "/.well-known/", p.filename);
      assert PointerUrl(p.target, p.filename) != [];
    }
  }

  lemma LocationIs(prefix: string, d: string, path: string)
    ensures Location(prefix, d, path) == SCHEME + prefix + d + path
  {
    Regroup(SCHEME, prefix, d);
  }

  lemma OwnLocations(d: string)
    ensures WellKnown(d)
         == [Source("https://index.aiagents." + d + "/index-wellknown", true),
             Source("https://_index._aiagents." + d + "/index-wellknown", true),
             Source("https://" + d + "/.well-known/agents-index.json", true),
             Source("https://" + d + "/.well-known/agents.json", true),
             Source("https://" + d + "/.well-known/ai-catalog.json", true)]
  {
    forall i | 0 <= i < 5 ensures WellKnown(d)[i] == Source(SCHEME + PREFIXES[i] + d + PATHS[i], true) {
      LocationIs(PREFIXES[i], d, PATHS[i]);
    }
    assert SCHEME + "index.aiagents." == "https://index.aiagents.";
    assert SCHEME + "_index._aiagents." == "https://_index._aiagents.";
    assert SCHEME + "" == "https://";
  }

  /** The label of a source's records: the domain's own, unless it is the followed pointer's and neither its
      name nor the host of its URL is on the domain; then DNSSEC, if that is what it was followed for, or a
      signature. */
  lemma LabelIs(domain: string, pointer: Option<Pointer>, verifySignatures: bool, trustDnssec: bool, source: Source)
    requires Queried(domain)
    requires source in Sources(domain, Decide(pointer, domain, verifySignatures, trustDnssec).catalogUrl)
    ensures CatalogTrust(Decide(pointer, domain, verifySignatures, trustDnssec).offDomain, HostOf(source.url), domain)
         == if source.follow || IsOnDomain(pointer.value.target, domain) || IsOnDomain(TargetHost(pointer.value.target), domain)
            then TlsDomain
            else if trustDnssec && pointer.value.validated then Dnssec else Signature
  {
    var catalogUrl := Decide(pointer, domain, verifySignatures, trustDnssec).catalogUrl;
    if source.follow {
      WellKnownOnDomain(domain, catalogUrl, source);
      NoHostNoDomain(domain);
    } else {
      PointerSource(domain, pointer, verifySignatures, trustDnssec, source);
      PointerHost(pointer.value.target, pointer.value.filename);
      NoHostNoDomain(domain);
    }
  }

  lemma SignatureIsVerified(domain: string, pointer: Option<Pointer>, verifySignatures: bool, trustDnssec: bool, source: Source)
    requires Queried(domain)
    requires source in Sources(domain, Decide(pointer, domain, verifySignatures, trustDnssec).catalogUrl)
    requires CatalogTrust(Decide(pointer, domain, verifySignatures, trustDnssec).offDomain, HostOf(source.url), domain) == Signature
    ensures verifySignatures
  {}

  lemma NoHostNoDomain(domain: string)
    requires Queried(domain)
    ensures !IsOnDomain([], domain)
  {}

  // ---- what a label is worth ----

  predicate FromPointer(pointer: Option<Pointer>, source: Source, origin: string) {
    pointer.Some? && source == Source(PointerUrl(pointer.value.target, pointer.value.filename), false) && origin == source.url
  }

  /** A URL that TLS binds to the domain. */
  predicate OnTls(url: string, domain: string) {
    StartsWith(url, SCHEME) && IsOnDomain(HostOf(url), domain)
  }

  /** The label says the truth about the URL that answered. */
  predicate Justified(trust: Trust, source: Source, origin: string, domain: string, pointer: Option<Pointer>,
                      verifySignatures: bool, trustDnssec: bool) {
    match trust
    case TlsDomain => OnTls(origin, domain)
    case Dnssec => trustDnssec && FromPointer(pointer, source, origin) && pointer.value.validated
    case Signature => verifySignatures && FromPointer(pointer, source, origin)
  }

  /** Why a returned record may be shown, and that its label says so. */
  predicate Trusted<R>(x: Listed<R>, domain: string, pointer: Option<Pointer>, verifySignatures: bool, trustDnssec: bool) {
    && Justified(x.trust, x.source, x.origin, domain, pointer, verifySignatures, trustDnssec)
    && (x.trust.Signature? ==> x.verified == Some(true))
  }

  /** A well-known location that sends its caller somewhere else. */
  predicate Redirected<A>(source: Source, web: Web<A>) {
    source.follow && web(source.url).Redirect?
  }

  /** A pointer whose name is taken for a host it does not lead to. */
  predicate Misread(source: Source, pointer: Option<Pointer>) {
    && pointer.Some? && source == Source(PointerUrl(pointer.value.target, pointer.value.filename), false)
    && Has(pointer.value.target, DELIMITERS)
  }

  /** The two ways in which a label can go wrong; only the one for TLS can. */
  predicate Exposed<A>(trust: Trust, source: Source, pointer: Option<Pointer>, web: Web<A>) {
    trust.TlsDomain? && (Redirected(source, web) || Misread(source, pointer))
  }

  lemma LocationParts(i: nat)
    requires i < |PREFIXES|
    ensures PlainHost(PREFIXES[i]) && IsLower(PREFIXES[i])
    ensures PREFIXES[i] == [] || PREFIXES[i][|PREFIXES[i]| - 1] == '.'
    ensures PATHS[i] != [] && PATHS[i][0] == '/'
  {}

  lemma PlainConcat(a: string, b: string)
    requires PlainHost(a) && PlainHost(b)
    ensures PlainHost(a + b)
  {}

  lemma LocationOnDomain(prefix: string, path: string, domain: string)
    requires Queried(domain)
    requires PlainHost(prefix) && IsLower(prefix) && (prefix == [] || prefix[|prefix| - 1] == '.')
    requires path != [] && path[0] == '/'
    ensures IsOnDomain(HostOf(Location(prefix, Norm(domain), path)), domain)
  {
    NormIdempotent(domain);
    PlainConcat(prefix, Norm(domain));
    PlainIsUndelimited(prefix + Norm(domain));
    HostOfUndelimited(prefix + Norm(domain), path);
    UnderDomain(prefix, domain);
  }

  lemma LocationOnTls(prefix: string, d: string, path: string)
    ensures StartsWith(Location(prefix, d, path), SCHEME)
  {}

  lemma FollowedSource(domain: string, catalogUrl: Option<string>, s: Source) returns (i: nat)
    requires s in Sources(domain, catalogUrl) && s.follow
    ensures i < |PREFIXES| && s.url == Location(PREFIXES[i], Norm(domain), PATHS[i])
  {
    i :| i < |PREFIXES| && s.url == Location(PREFIXES[i], Norm(domain), PATHS[i]);
  }

  /** Every well-known location, the only kind from which redirects are followed, is on the domain. */
  lemma WellKnownOnDomain(domain: string, catalogUrl: Option<string>, s: Source)
    requires Queried(domain) && s in Sources(domain, catalogUrl) && s.follow
    ensures OnTls(s.url, domain)
  {
    var i := FollowedSource(domain, catalogUrl, s);
    LocationParts(i);
    LocationOnTls(PREFIXES[i], Norm(domain), PATHS[i]);
    LocationOnDomain(PREFIXES[i], PATHS[i], domain);
  }

  /** Whatever source served, the label put on its records is right, unless it is the one for TLS and a
      well-known location redirected or the pointer's name holds a delimiter. */
  lemma ServedTrust<A>(domain: string, pointer: Option<Pointer>, verifySignatures: bool, trustDnssec: bool,
                       web: Web<A>, source: Source)
    requires Queried(domain)
    requires source in Sources(domain, Decide(pointer, domain, verifySignatures, trustDnssec).catalogUrl)
    requires Fetch(web, source).Some?
    ensures var decision := Decide(pointer, domain, verifySignatures, trustDnssec);
      var trust, origin := CatalogTrust(decision.offDomain, HostOf(source.url), domain), Fetch(web, source).value.origin;
      Exposed(trust, source, pointer, web) || Justified(trust, source, origin, domain, pointer, verifySignatures, trustDnssec)
  {
    var catalogUrl := Decide(pointer, domain, verifySignatures, trustDnssec).catalogUrl;
    if Redirected(source, web) {
      WellKnownOnDomain(domain, catalogUrl, source);
    } else {
      AnsweredItself(web, source);
      if source.follow {
        WellKnownOnDomain(domain, catalogUrl, source);
      } else {
        PointerSource(domain, pointer, verifySignatures, trustDnssec, source);
        if !Has(pointer.value.target, DELIMITERS) {
          PointerTrust(domain, pointer.value, verifySignatures, trustDnssec);
        } else {
          DelimitedTrust(domain, pointer.value, verifySignatures, trustDnssec);
        }
      }
    }
  }

  lemma PointerSource(domain: string, pointer: Option<Pointer>, verifySignatures: bool, trustDnssec: bool, s: Source)
    requires s in Sources(domain, Decide(pointer, domain, verifySignatures, trustDnssec).catalogUrl) && !s.follow
    ensures pointer.Some? && Decide(pointer, domain, verifySignatures, trustDnssec).catalogUrl.Some?
    ensures s == Source(PointerUrl(pointer.value.target, pointer.value.filename), false)
  {}

  /** A label that is not the one for TLS is right whatever the name. */
  lemma DelimitedTrust(domain: string, p: Pointer, verifySignatures: bool, trustDnssec: bool)
    requires Decide(Some(p), domain, verifySignatures, trustDnssec).catalogUrl.Some?
    ensures var url := PointerUrl(p.target, p.filename);
      var trust := CatalogTrust(Decide(Some(p), domain, verifySignatures, trustDnssec).offDomain, HostOf(url), domain);
      trust.TlsDomain? || Justified(trust, Source(url, false), url, domain, Some(p), verifySignatures, trustDnssec)
  {}

  lemma PointerTrust(domain: string, p: Pointer, verifySignatures: bool, trustDnssec: bool)
    requires Decide(Some(p), domain, verifySignatures, trustDnssec).catalogUrl.Some? && !Has(p.target, DELIMITERS)
    ensures var url := PointerUrl(p.target, p.filename);
      var trust := CatalogTrust(Decide(Some(p), domain, verifySignatures, trustDnssec).offDomain, HostOf(url), domain);
      Justified(trust, Source(url, false), url, domain, Some(p), verifySignatures, trustDnssec)
  {
    PointerNamesItsTarget(p.target, p.filename, domain);
    LocationOnTls(p.target, [], "/.well-known/" + p.filename);
    assert p.target + [] == p.target;
  }

  lemma {:induction false} SurvivorsLabelled<A, R>(agents: seq<A>, source: Source, origin: string, trust: Trust,
                             verifySignatures: bool, convert: A -> Option<R>, verify: R -> Option<bool>, keep: R -> bool)
    ensures forall x :: x in Survivors(agents, source, origin, trust, verifySignatures, convert, verify, keep) ==>
              x.trust == trust && x.source == source && x.origin == origin && (trust.Signature? ==> x.verified == Some(true))
  {
    if agents != [] {
      SurvivorsLabelled(agents[..|agents| - 1], source, origin, trust, verifySignatures, convert, verify, keep);
    }
  }

  /** No well-known location redirects, and the pointer's name has no delimiter. */
  ghost predicate Steady<A>(domain: string, pointer: Option<Pointer>, web: Web<A>) {
    && (forall s :: s in Sources(domain, None) ==> !web(s.url).Redirect?)
    && (pointer.Some? ==> !Has(pointer.value.target, DELIMITERS))
  }

  lemma NothingExposed<A>(domain: string, pointer: Option<Pointer>, web: Web<A>, trust: Trust, source: Source)
    requires Steady(domain, pointer, web) && (source.follow ==> source in Sources(domain, None))
    ensures !Exposed(trust, source, pointer, web)
  {}

  /** Discovery over the HTTP index: resolve, decide, fetch, convert, verify, drop, filter. Every record
      returned is trusted for the reason its label gives, unless it is exposed. */
  method Discover<A, R>(domain: string, pointer: Option<Pointer>, verifySignatures: bool, trustDnssec: bool,
                        web: Web<A>, convert: A -> Option<R>, verify: R -> Option<bool>, keep: R -> bool)
    returns (found: seq<Listed<R>>, ghost served: Option<Result<A>>)
    requires Queried(domain)
    ensures var decision := Decide(pointer, domain, verifySignatures, trustDnssec);
      && FirstServed(Sources(domain, decision.catalogUrl), web, served)
      && found == if served.None? then []
                  else Survivors(served.value.agents, served.value.source, served.value.origin,
                                 CatalogTrust(decision.offDomain, HostOf(served.value.source.url), domain),
                                 verifySignatures, convert, verify, keep)
    ensures served.Some? ==>
              var trust := CatalogTrust(Decide(pointer, domain, verifySignatures, trustDnssec).offDomain,
                                        HostOf(served.value.source.url), domain);
              && (forall x :: x in found ==> x.source == served.value.source && x.origin == served.value.origin && x.trust == trust)
              && exists at :: ListsShown(found, at, served.value.agents, trust, convert, verify, keep)
    ensures forall x :: x in found ==>
              Exposed(x.trust, x.source, pointer, web) || Trusted(x, domain, pointer, verifySignatures, trustDnssec)
    ensures Steady(domain, pointer, web) ==>
              forall x :: x in found ==> Trusted(x, domain, pointer, verifySignatures, trustDnssec)
  {
    var decision := Decide(pointer, domain, verifySignatures, trustDnssec);
    var sources := Sources(domain, decision.catalogUrl);
    var result := FetchCascade(sources, web);
    served := result;
    if result.None? {
      return [], served;
    }
    var Result(agents, source, origin) := result.value;
    var trust := CatalogTrust(decision.offDomain, HostOf(source.url), domain);
    ghost var at := AllTrusted(domain, pointer, verifySignatures, trustDnssec, web, result.value, convert, verify, keep);
    found := ListSurvivors(agents, source, origin, trust, verifySignatures, convert, verify, keep);
  }

  /** The records shown of what was served: which they are, and what their label is worth. */
  lemma AllTrusted<A, R>(domain: string, pointer: Option<Pointer>, verifySignatures: bool, trustDnssec: bool, web: Web<A>,
                         r: Result<A>, convert: A -> Option<R>, verify: R -> Option<bool>, keep: R -> bool)
    returns (at: seq<nat>)
    requires Queried(domain)
    requires r.source in Sources(domain, Decide(pointer, domain, verifySignatures, trustDnssec).catalogUrl)
    requires Fetch(web, r.source) == Some(Answer(r.agents, r.origin))
    ensures var trust := CatalogTrust(Decide(pointer, domain, verifySignatures, trustDnssec).offDomain, HostOf(r.source.url), domain);
      var found := Survivors(r.agents, r.source, r.origin, trust, verifySignatures, convert, verify, keep);
      && (forall x :: x in found ==>
            && x.source == r.source && x.origin == r.origin && x.trust == trust
            && (Exposed(x.trust, x.source, pointer, web) || Trusted(x, domain, pointer, verifySignatures, trustDnssec)))
      && ListsShown(found, at, r.agents, trust, convert, verify, keep)
      && (Steady(domain, pointer, web) ==> !Exposed(trust, r.source, pointer, web))
  {
    var trust := CatalogTrust(Decide(pointer, domain, verifySignatures, trustDnssec).offDomain, HostOf(r.source.url), domain);
    ServedTrust(domain, pointer, verifySignatures, trustDnssec, web, r.source);
    SurvivorsLabelled(r.agents, r.source, r.origin, trust, verifySignatures, convert, verify, keep);
    if trust == Signature {
      SignatureIsVerified(domain, pointer, verifySignatures, trustDnssec, r.source);
    }
    at := SurvivorsShown(r.agents, r.source, r.origin, trust, verifySignatures, convert, verify, keep);
    if Steady(domain, pointer, web) {
      NothingExposed(domain, pointer, web, trust, r.source);
    }
  }

  // ---- which first answers of a well-known location can mislead ----

  /** Whatever else the web answers, a catalog asked of `s`, which answers with `r`, comes from the domain. */
  ghost predicate ComesFromDomain<A(!new)>(s: Source, r: Hop<A>, domain: string) {
    forall web: Web<A> :: web(s.url) == r && Fetch(web, s).Some? ==> OnTls(Fetch(web, s).value.origin, domain)
  }

  /** The cascade settles on source `k`, whose first answer is `r`, for its agents. */
  ghost predicate ServesAgents<A>(sources: seq<Source>, k: nat, r: Hop<A>, web: Web<A>, result: Result<A>)
    requires k < |sources|
  {
    && web(sources[k].url) == r
    && FirstServed(sources, web, Some(result)) && result.source == sources[k] && result.agents != []
  }

  /** And so if the whole cascade settles on it for its agents. */
  ghost predicate ServedFromDomain<A(!new)>(sources: seq<Source>, k: nat, r: Hop<A>, domain: string)
    requires k < |sources|
  {
    forall web: Web<A>, result: Result<A> :: ServesAgents(sources, k, r, web, result) ==> OnTls(result.origin, domain)
  }

  function Pad(n: nat): (s: string)
    ensures |s| == n
  {
    seq(n, i => 'x')
  }

  /** A URL off the domain, longer than `n`. */
  function FarUrl(domain: string, n: nat): (url: string)
    ensures |url| > n
  {
    SCHEME + ("x" + Norm(domain)) + ("/" + Pad(n))
  }

  lemma FarIsElsewhere(domain: string, n: nat)
    requires Queried(domain)
    ensures !OnTls(FarUrl(domain, n), domain)
  {
    var host := "x" + Norm(domain);
    NotOnDomain(domain);
    PlainIsUndelimited(host);
    HostOfUndelimited(host, "/" + Pad(n));
    LowerKeepsOnDomain(host, domain);
  }

  lemma NotOnDomain(domain: string)
    requires Queried(domain)
    ensures !IsOnDomain("x" + Norm(domain), domain) && PlainHost("x" + Norm(domain))
  {
    var d := Norm(domain);
    NormIdempotent(domain);
    JoinedLower("x", d);
    NormFixed("x" + d);
    assert ("x" + d)[0] == 'x' && ("." + d)[0] == '.';
  }

  /** From one location by way of another to a third, and nothing else. */
  function Detour<A>(location: string, to: string, far: string, agent: A): Web<A> {
    url =>
      if url == location then Redirect(to)
      else if url == to then Redirect(far)
      else if url == far then Page([agent])
      else NoAnswer
  }

  lemma DetourLeads<A>(s: Source, to: string, far: string, agent: A)
    requires s.follow && to != s.url && far != s.url && far != to
    ensures Fetch(Detour(s.url, to, far, agent), s) == Some(Answer([agent], far))
  {
    var web: Web<A> := Detour(s.url, to, far, agent);
    assert Get(web, far, 1) == Some(Answer([agent], far));
    assert Get(web, to, 2) == Get(web, far, 1);
  }

  lemma NoDetour<A>(s: Source, to: string, far: string, agent: A, other: Source)
    requires other.url != far && (other.url == s.url || other.url == to ==> !other.follow)
    ensures Fetch(Detour(s.url, to, far, agent), other).None?
  {}

  /** A location that answers itself, or redirects to itself, leads nowhere else. */
  lemma {:induction false} StaysPut<A>(web: Web<A>, url: string, redirects: nat)
    requires web(url).Redirect? ==> web(url).to == url
    ensures Get(web, url, redirects).Some? ==> Get(web, url, redirects).value.origin == url
    decreases redirects
  {
    if web(url).Redirect? && redirects > 0 {
      StaysPut(web, url, redirects - 1);
    }
  }

  lemma Misled<A(!new)>(s: Source, r: Hop<A>, domain: string, web: Web<A>, answer: Answer<A>)
    requires web(s.url) == r && Fetch(web, s) == Some(answer) && !OnTls(answer.origin, domain)
    ensures !ComesFromDomain(s, r, domain)
  {}

  lemma DetourStarts<A>(location: string, to: string, far: string, agent: A)
    ensures Detour(location, to, far, agent)(location) == Redirect(to)
  {}

  lemma DetourMisleads<A(!new)>(domain: string, s: Source, to: string, far: string, agent: A)
    requires s.follow && to != s.url && far != s.url && far != to && !OnTls(far, domain)
    ensures !ComesFromDomain<A>(s, Redirect(to), domain)
  {
    DetourStarts(s.url, to, far, agent);
    DetourLeads(s, to, far, agent);
    Misled(s, Redirect(to), domain, Detour(s.url, to, far, agent), Answer([agent], far));
  }

  lemma WellKnownFollowed(domain: string, s: Source)
    requires s in Sources(domain, None)
    ensures s.follow
  {}

  /** A catalog asked of a well-known location is sure to come from the domain exactly when the location
      does not answer with a redirect to another URL. */
  lemma FirstAnswerDecides<A(!new)>(domain: string, s: Source, r: Hop<A>, agent: A)
    requires Queried(domain) && s in Sources(domain, None)
    ensures ComesFromDomain(s, r, domain) <==> !(r.Redirect? && r.to != s.url)
  {
    WellKnownFollowed(domain, s);
    if r.Redirect? && r.to != s.url {
      var n := |s.url| + |r.to|;
      FarIsElsewhere(domain, n);
      DetourMisleads(domain, s, r.to, FarUrl(domain, n), agent);
    } else {
      WellKnownOnDomain(domain, None, s);
      forall web: Web<A> | web(s.url) == r && Fetch(web, s).Some? ensures OnTls(Fetch(web, s).value.origin, domain) {
        StaysPut(web, s.url, MAX_REDIRECTS);
      }
    }
  }

  lemma {:induction false} MoreRedirects<A>(web: Web<A>, url: string, redirects: nat)
    requires Get(web, url, redirects).Some?
    ensures Get(web, url, redirects + 1) == Get(web, url, redirects)
    decreases redirects
  {
    if web(url).Redirect? {
      MoreRedirects(web, web(url).to, redirects - 1);
    }
  }

  lemma EarlierServes<A>(web: Web<A>, e: Source, s: Source)
    requires e.follow && s.follow && web(s.url) == Redirect(e.url) && Fetch(web, s).Some?
    ensures Fetch(web, e) == Fetch(web, s)
  {
    MoreRedirects(web, e.url, MAX_REDIRECTS - 1);
  }

  /** Locations from which redirects are followed differ: no two are of one length. */
  lemma LocationsDiffer(domain: string, catalogUrl: Option<string>, i: nat, j: nat)
    requires var sources := Sources(domain, catalogUrl);
      i < j < |sources| && sources[i].follow && sources[j].follow
    ensures Sources(domain, catalogUrl)[i].url != Sources(domain, catalogUrl)[j].url
  {
    var sources := Sources(domain, catalogUrl);
    var n := |sources| - |PREFIXES|;
    LocationLength(Norm(domain), i - n);
    LocationLength(Norm(domain), j - n);
  }

  const LENGTHS: seq<nat> := [31, 33, 30, 24, 28]

  lemma LocationLength(d: string, i: nat)
    requires i < |PREFIXES|
    ensures |Location(PREFIXES[i], d, PATHS[i])| == 8 + LENGTHS[i] + |d|
  {
    assert |PREFIXES[i]| + |PATHS[i]| == LENGTHS[i];
  }

  /** The location redirects to another URL, and not to one from which the cascade has followed redirects
      before without finding agents. */
  predicate Diverts<A>(sources: seq<Source>, k: nat, r: Hop<A>)
    requires k < |sources|
  {
    r.Redirect? && r.to != sources[k].url && forall i :: 0 <= i < k && sources[i].follow ==> r.to != sources[i].url
  }

  function TotalLength(sources: seq<Source>): (n: nat)
    ensures forall s :: s in sources ==> |s.url| <= n
  {
    if sources == [] then 0 else |sources[0].url| + TotalLength(sources[1..])
  }

  lemma DetourServes<A(!new)>(domain: string, catalogUrl: Option<string>, k: nat, r: Hop<A>, agent: A)
    requires Queried(domain) && k < |Sources(domain, catalogUrl)| && Sources(domain, catalogUrl)[k].follow
    requires Diverts(Sources(domain, catalogUrl), k, r)
    ensures !ServedFromDomain(Sources(domain, catalogUrl), k, r, domain)
  {
    var sources := Sources(domain, catalogUrl);
    var s, n := sources[k], TotalLength(sources) + |r.to|;
    var far := FarUrl(domain, n);
    var web: Web<A> := Detour(s.url, r.to, far, agent);
    FarIsElsewhere(domain, n);
    assert s in sources;
    DetourLeads(s, r.to, far, agent);
    forall i | 0 <= i < k ensures ServesNothing(sources[i], web) {
      assert sources[i] in sources;
      if sources[i].follow {
        LocationsDiffer(domain, catalogUrl, i, k);
      }
      NoDetour(s, r.to, far, agent, sources[i]);
    }
    assert FirstServed(sources, web, Some(Result([agent], s, far)));
    assert ServesAgents(sources, k, r, web, Result([agent], s, far));
  }

  lemma ServedAtOnce<A(!new)>(domain: string, catalogUrl: Option<string>, k: nat, web: Web<A>, result: Result<A>)
    requires Queried(domain) && k < |Sources(domain, catalogUrl)| && Sources(domain, catalogUrl)[k].follow
    requires ServesAgents(Sources(domain, catalogUrl), k, web(Sources(domain, catalogUrl)[k].url), web, result)
    requires !Diverts(Sources(domain, catalogUrl), k, web(Sources(domain, catalogUrl)[k].url))
    ensures OnTls(result.origin, domain)
  {
    var sources := Sources(domain, catalogUrl);
    var s := sources[k];
    var j :| 0 <= j < |sources| && sources[j] == s && Fetch(web, s) == Some(Answer(result.agents, result.origin))
      && forall i :: 0 <= i < j ==> ServesNothing(sources[i], web);
    if j < k {
      LocationsDiffer(domain, catalogUrl, j, k);
    } else if k < j {
      LocationsDiffer(domain, catalogUrl, k, j);
    }
    WellKnownOnDomain(domain, catalogUrl, s);
    var r := web(s.url);
    if r.Redirect? && r.to != s.url {
      var i :| 0 <= i < k && sources[i].follow && r.to == sources[i].url;
      EarlierServes(web, sources[i], s);
    } else {
      StaysPut(web, s.url, MAX_REDIRECTS);
    }
  }

  /** Whatever pointer the cascade starts with, the agents served by a well-known location are sure to come
      from the domain, as their label says, exactly when the location does not divert. */
  lemma LabelRightExactly<A(!new)>(domain: string, catalogUrl: Option<string>, k: nat, r: Hop<A>, agent: A)
    requires Queried(domain) && k < |Sources(domain, catalogUrl)| && Sources(domain, catalogUrl)[k].follow
    ensures ServedFromDomain(Sources(domain, catalogUrl), k, r, domain) <==> !Diverts(Sources(domain, catalogUrl), k, r)
    ensures forall offDomain :: CatalogTrust(offDomain, HostOf(Sources(domain, catalogUrl)[k].url), domain) == TlsDomain
  {
    var sources := Sources(domain, catalogUrl);
    WellKnownOnDomain(domain, catalogUrl, sources[k]);
    if Diverts(sources, k, r) {
      DetourServes(domain, catalogUrl, k, r, agent);
    } else {
      forall web: Web<A>, result: Result<A> | ServesAgents(sources, k, r, web, result) ensures OnTls(result.origin, domain)
      {
        ServedAtOnce(domain, catalogUrl, k, web, result);
      }
    }
  }

  // ---- two labels that are wrong ----

  const DOMAIN := "example.com"
  const HOST := "elsewhere.test"

  lemma DomainIsQueried()
    ensures Queried(DOMAIN) && IsLower(DOMAIN)
  {
    assert DOMAIN[|DOMAIN| - 1] == 'm';
    NormFixed(DOMAIN);
  }

  lemma HostIsElsewhere()
    ensures Queried(DOMAIN) && PlainHost(HOST) && IsLower(HOST) && !IsOnDomain(HOST, DOMAIN)
  {
    DomainIsQueried();
    assert DOMAIN[|DOMAIN| - 1] == 'm' && HOST[|HOST| - 1] == 't';
    OtherHost(HOST, DOMAIN);
  }

  function OnlyAt<A>(location: string, agents: seq<A>): Web<A> {
    url => if url == location then Page(agents) else NoAnswer
  }

  lemma FirstSourceServes<A>(sources: seq<Source>, web: Web<A>, agents: seq<A>, origin: string)
    requires sources != [] && agents != [] && Fetch(web, sources[0]) == Some(Answer(agents, origin))
    ensures FirstServed(sources, web, Some(Result(agents, sources[0], origin)))
  {}

  /** A pointer that passes by name and leads elsewhere by URL: without a signature or DNSSEC, the catalog
      there is followed, served and labelled as the domain's own. */
  ghost predicate TakenForOwn<A(!new)>(target: string, filename: string, domain: string, agent: A) {
    var url := PointerUrl(target, filename);
    var pointer, source, web := Some(Pointer(target, filename, false)), Source(url, false), OnlyAt(url, [agent]);
    && Decide(pointer, domain, false, false) == Decision(Some(url), None)
    && FirstServed(Sources(domain, Some(url)), web, Some(Result([agent], source, url)))
    && CatalogTrust(None, HostOf(url), domain) == TlsDomain && !OnTls(url, domain)
  }

  lemma LeadsElsewhere<A(!new)>(target: string, filename: string, domain: string, agent: A)
    requires IsOnDomain(target, domain) && Has(target, DELIMITERS) && !IsOnDomain(TargetHost(target), domain)
    ensures TakenForOwn(target, filename, domain, agent)
  {
    var url := PointerUrl(target, filename);
    PointerHost(target, filename);
    assert Sources(domain, Some(url))[0] == Source(url, false);
    FirstSourceServes(Sources(domain, Some(url)), OnlyAt(url, [agent]), [agent], url);
  }

  /** Such a name: `elsewhere.test/x.example.com`, for example.com. */
  lemma DelimitedExample<A(!new)>(agent: A, filename: string, literal: string -> bool)
    ensures var target := Under(HOST + ("/" + "x"), DOMAIN);
      Resolves(target, literal) && TakenForOwn(target, filename, DOMAIN, agent)
  {
    HostIsElsewhere();
    SlashedTarget(HOST, "x", DOMAIN, literal);
    LowerFixed(HOST);
    Regroup(HOST, "/" + "x", "." + DOMAIN);
    Regroup("/", "x", "." + DOMAIN);
    SlashIn(HOST, "x" + ("." + DOMAIN));
    LeadsElsewhere(Under(HOST + ("/" + "x"), DOMAIN), filename, DOMAIN, agent);
  }

  lemma SlashIn(a: string, b: string)
    ensures Has(a + ("/" + b), DELIMITERS)
  {
    assert (a + ("/" + b))[|a|] == '/';
  }

  /** A well-known location that redirects: what it leads to is labelled as the domain's own. */
  lemma RedirectLeadsElsewhere<A(!new)>(domain: string, url: string, agent: A)
    requires Queried(domain) && !IsOnDomain(HostOf(url), domain)
    ensures var source := Sources(domain, None)[0];
      var web := u => if u == url then Page([agent]) else if u == source.url then Redirect(url) else NoAnswer;
      && FirstServed(Sources(domain, None), web, Some(Result([agent], source, url)))
      && CatalogTrust(None, HostOf(source.url), domain) == TlsDomain && !OnTls(url, domain)
  {
    var source := Sources(domain, None)[0];
    WellKnownOnDomain(domain, None, source);
    var web: Web<A> := u => if u == url then Page([agent]) else if u == source.url then Redirect(url) else NoAnswer;
    assert Get(web, source.url, MAX_REDIRECTS) == Get(web, url, MAX_REDIRECTS - 1) == Some(Answer([agent], url));
    FirstSourceServes(Sources(domain, None), web, [agent], url);
  }

  /** For instance from example.com to elsewhere.test. */
  lemma RedirectedExample()
    ensures Queried(DOMAIN) && !IsOnDomain(HostOf(SCHEME + HOST + "/"), DOMAIN)
  {
    HostIsElsewhere();
    PlainIsUndelimited(HOST);
    HostOfUndelimited(HOST, "/");
    LowerFixed(HOST);
  }
}
