/** Reading an untrusted ARD catalog: a walk over nested entries that shares two budgets. */
module ArdCatalog {
  import opened Wrappers
  import opened Text

  const MAX_AGENTS: nat := 500
  const MAX_ENTRIES: nat := 5000
  const MAX_DEPTH: nat := 3
  const MAX_NAME: nat := 63

  /** A JSON member that should be a string. */
  datatype Field = Absent | Text(s: string) | Other

  /** The `type` member: a string, some other value a set can be asked about, or an array or object. */
  datatype TypeField = TypeText(s: string) | Scalar | Unhashable

  /** The `description` member: a string, a list or an object by its size, or a number or `true`, which
      has none. Whatever counts as false is no description. */
  datatype Description = NoDescription | Words(s: string) | List(size: nat) | Members(size: nat) | Unsized

  const MAX_TEXT: nat := 1024

  /** The `data` member; a catalog is an object with specVersion 1.0 and an entry list. */
  datatype Data = NoData | Catalog(entries: seq<Entry>) | Object | NotAnObject

  datatype Entry =
    | NotADict
    | Entry(identifier: Field, displayName: Field, typ: TypeField, url: Field, data: Data, description: Description)

  datatype Agent = Agent(name: string, fqdn: string, protocol: string, identifier: string, cardUrl: Option<string>,
                         description: Description)

  datatype Reason =
    | MissingRequired | InvalidUrn | NonAgentArtifact | LocatorViolation
    | DepthExceeded | NestedUrlNotFollowed | RegistryEntry
    | AgentCapReached | EntryCapReached

  /** What a visited entry comes to. `Fails` is an exception that ends the whole parse. */
  datatype Outcome = Keep(agent: Agent) | Skip(reason: Reason) | Recurse(entries: seq<Entry>) | Fails

  /** Host of a URL; None when its authority does not parse. */
  type HostOf = string -> Option<string>

  // ---- one entry ----

  predicate Alnum(c: char) {
    'a' <= c <= 'z' || 'A' <= c <= 'Z' || '0' <= c <= '9'
  }

  predicate PublisherChars(s: string) {
    s != [] && forall i :: 0 <= i < |s| ==> Alnum(s[i]) || s[i] == '.' || s[i] == '-'
  }

  predicate SegmentChars(s: string) {
    s != [] && forall i :: 0 <= i < |s| ==> Alnum(s[i]) || s[i] == '.' || s[i] == '_' || s[i] == '-'
  }

  predicate IsUrn(s: string) {
    UrnSegments(Split(s, ':'))
  }

  predicate UrnSegments(segs: seq<string>) {
    && |segs| >= 4 && segs[0] == "urn" && segs[1] == "air" && PublisherChars(segs[2])
    && forall i :: 3 <= i < |segs| ==> SegmentChars(segs[i])
  }

  predicate IsHyphen(c: char) {
    c == '-'
  }

  predicate LabelChar(c: char) {
    'a' <= c <= 'z' || '0' <= c <= '9' || c == '-'
  }

  /** Characters that a DNS label cannot hold become hyphens. */
  function Dashed(s: string): (r: string)
    ensures |r| == |s| && forall i :: 0 <= i < |r| ==> LabelChar(r[i])
  {
    seq(|s|, i requires 0 <= i < |s| => if LabelChar(s[i]) then s[i] else '-')
  }

  function Cut(s: string): (r: string)
    ensures |r| <= |s| && |r| <= MAX_NAME && r == s[..|r|]
  {
    if |s| <= MAX_NAME then s else s[..MAX_NAME]
  }

  function TrimToLabel(s: string): string {
    StripChars(Cut(StripChars(s, IsHyphen)), IsHyphen)
  }

  function NormalizeName(s: string): string {
    TrimToLabel(Dashed(Lower(s)))
  }

  /** Agent name and publisher of an identifier; the pattern tolerates one final newline. */
  function NameFromUrn(id: string): Option<(string, string)> {
    if IsUrn(id) || (id != [] && id[|id| - 1] == '\n' && IsUrn(id[..|id| - 1])) then
      NameOfSegments(Split(id, ':'))
    else None
  }

  function NameOfSegments(segs: seq<string>): Option<(string, string)> {
    if |segs| < 3 then None
    else
      var name := NormalizeName(segs[|segs| - 1]);
      if name == [] then None else Some((name, Lower(segs[2])))
  }

  function Protocol(mediaType: string): Option<string> {
    if mediaType == "application/mcp-server-card+json" then Some("mcp")
    else if mediaType == "application/a2a-agent-card+json" then Some("a2a")
    else None
  }

  const CATALOG_TYPE: string := "application/ai-catalog+json"

  predicate IsRegistryType(t: string) {
    t == "application/ai-registry+json" || t == "application/ai-registry"
  }

  /** Bound a retained description. Taking the length of a scalar raises, and so does cutting an object. */
  function Truncate(d: Description): Option<Description> {
    match d
    case NoDescription => Some(d)
    case Words(s) => Some(if |s| <= MAX_TEXT then d else Words(s[..MAX_TEXT]))
    case List(n) => Some(if n <= MAX_TEXT then d else List(MAX_TEXT))
    case Members(n) => if n <= MAX_TEXT then Some(d) else None
    case Unsized => None
  }

  /** The display name stands in for a description that is absent or empty. */
  function Described(e: Entry): Description
    requires e.Entry? && e.displayName.Text?
  {
    match e.description
    case NoDescription => Words(e.displayName.s)
    case Words(s) => if s == [] then Words(e.displayName.s) else e.description
    case List(n) => if n == 0 then Words(e.displayName.s) else e.description
    case Members(n) => if n == 0 then Words(e.displayName.s) else e.description
    case Unsized => e.description
  }

  /** The host of the one locator an entry may have, empty if it names none; None is a violation. */
  function Locate(url: Field, data: Data, hostOf: HostOf): Option<string> {
    if url.Absent? == data.NoData? || url.Other? then None
    else if !url.Text? || url.s == [] then Some([])
    else
      match hostOf(url.s)
      case None => None
      case Some(host) => Some(StripChars(host, IsDot))
  }

  function EntryToAgent(e: Entry, hostOf: HostOf): Outcome
    requires e.Entry? && e.typ.TypeText?
  {
    if !e.identifier.Text? || !e.displayName.Text? || e.displayName.s == [] then Skip(MissingRequired)
    else
      var urn, protocol := NameFromUrn(e.identifier.s), Protocol(e.typ.s);
      if urn.None? then Skip(InvalidUrn)
      else if protocol.None? then Skip(NonAgentArtifact)
      else
        var host := Locate(e.url, e.data, hostOf);
        if host.None? then Skip(LocatorViolation)
        else
          var description := Truncate(Described(e));
          if description.None? then Fails
          else
            Keep(Agent(urn.value.0, if host.value != [] then host.value else urn.value.1, protocol.value, e.identifier.s,
                       if e.url.Text? then Some(e.url.s) else None, description.value))
  }

  /** One entry, in the order the tests are made; a nested catalog is reported with its entries. */
  function ReadEntry(e: Entry, hostOf: HostOf): Outcome {
    if e.NotADict? then Skip(MissingRequired)
    else if e.typ == TypeText(CATALOG_TYPE) then
      if e.data.Catalog? then Recurse(e.data.entries) else Skip(NestedUrlNotFollowed)
    else if e.typ.Unhashable? then Fails
    else if !e.typ.TypeText? then Skip(NonAgentArtifact)
    else if IsRegistryType(e.typ.s) then Skip(RegistryEntry)
    else if Protocol(e.typ.s).None? then Skip(NonAgentArtifact)
    else EntryToAgent(e, hostOf)
  }

  /** How entries are read; the traversal does not depend on it. */
  type Reader = Entry -> Outcome

  function CatalogReader(hostOf: HostOf): Reader {
    e => ReadEntry(e, hostOf)
  }

  /** The two cap counters are the traversal's own. */
  ghost predicate NeverCaps(read: Reader) {
    forall e :: read(e).Skip? ==> read(e).reason != AgentCapReached && read(e).reason != EntryCapReached
  }

  lemma CatalogReaderNeverCaps(hostOf: HostOf)
    ensures NeverCaps(CatalogReader(hostOf))
  {}

  // ---- the plain meaning: all entries in depth-limited preorder ----

  datatype Visit = Visit(entry: Entry, depth: nat)

  function OutcomeOf(v: Visit, read: Reader): Outcome {
    var o := read(v.entry);
    if o.Recurse? && v.depth >= MAX_DEPTH then Skip(DepthExceeded) else o
  }

  function Flatten(es: seq<Entry>, depth: nat, read: Reader): seq<Visit>
    decreases MAX_DEPTH - depth, |es|
  {
    if es == [] then []
    else
      var o := OutcomeOf(Visit(es[0], depth), read);
      [Visit(es[0], depth)]
      + (if o.Recurse? then Flatten(o.entries, depth + 1, read) else [])
      + Flatten(es[1..], depth, read)
  }

  /** The agents among the visits, in order. */
  function Agents(vs: seq<Visit>, read: Reader): seq<Agent> {
    if vs == [] then []
    else
      var o := OutcomeOf(vs[0], read);
      (if o.Keep? then [o.agent] else []) + Agents(vs[1..], read)
  }

  // ---- the budgeted walk ----

  /** The shared accounting, with the visits made so far as history. */
  datatype Tally = Tally(agents: seq<Agent>, seen: nat, skips: map<Reason, nat>, failed: bool, visited: seq<Visit>)

  const EMPTY: Tally := Tally([], 0, map[], false, [])

  function Count(skips: map<Reason, nat>, r: Reason): nat {
    if r in skips then skips[r] else 0
  }

  function Noted(skips: map<Reason, nat>, r: Reason): map<Reason, nat> {
    skips[r := Count(skips, r) + 1]
  }

  /** The effect of visiting one entry, apart from descending into it. */
  function Visited(t: Tally, v: Visit, read: Reader): Tally {
    var t1 := t.(seen := t.seen + 1, visited := t.visited + [v]);
    match OutcomeOf(v, read)
    case Keep(a) => t1.(agents := t.agents + [a])
    case Skip(r) => t1.(skips := Noted(t.skips, r))
    case Recurse(_) => t1
    case Fails => t1.(failed := true)
  }

  function Walk(es: seq<Entry>, depth: nat, t: Tally, read: Reader): Tally
    decreases MAX_DEPTH - depth, |es|
  {
    if es == [] || t.failed then t
    else if |t.agents| >= MAX_AGENTS then t.(skips := Noted(t.skips, AgentCapReached))
    else if t.seen >= MAX_ENTRIES then t.(skips := Noted(t.skips, EntryCapReached))
    else
      var t1 := Visited(t, Visit(es[0], depth), read);
      var o := OutcomeOf(Visit(es[0], depth), read);
      Walk(es[1..], depth, if o.Recurse? then Walk(o.entries, depth + 1, t1, read) else t1, read)
  }

  class ParseState {
    var agents: seq<Agent>
    var entriesSeen: nat
    var skips: map<Reason, nat>
    var failed: bool
    ghost var visited: seq<Visit>

    constructor ()
      ensures State() == EMPTY
    {
      agents, entriesSeen, skips, failed, visited := [], 0, map[], false, [];
    }

    ghost function State(): Tally
      reads this
    {
      Tally(agents, entriesSeen, skips, failed, visited)
    }

    method Note(reason: Reason)
      modifies this`skips
      ensures skips == Noted(old(skips), reason)
    {
      skips := skips[reason := (if reason in skips then skips[reason] else 0) + 1];
    }

    /** Accumulate one level; an exception is `failed`, and nothing runs after it. */
    method ParseInto(entries: seq<Entry>, depth: nat, read: Reader)
      requires !failed
      modifies this
      ensures State() == Walk(entries, depth, old(State()), read)
      decreases MAX_DEPTH - depth, |entries|
    {
      var i := 0;
      while i < |entries|
        invariant 0 <= i <= |entries| && !failed
        invariant Walk(entries, depth, old(State()), read) == Walk(entries[i..], depth, State(), read)
      {
        if |agents| >= MAX_AGENTS {
          Note(AgentCapReached);
          return;
        }
        if entriesSeen >= MAX_ENTRIES {
          Note(EntryCapReached);
          return;
        }
        var entry := entries[i];
        assert entries[i..][0] == entry && entries[i..][1..] == entries[i + 1..];
        entriesSeen, visited := entriesSeen + 1, visited + [Visit(entry, depth)];
        i := i + 1;
        match read(entry) {
          case Keep(agent) =>
            agents := agents + [agent];
          case Skip(reason) =>
            Note(reason);
          case Recurse(inner) =>
            if depth >= MAX_DEPTH {
              Note(DepthExceeded);
            } else {
              ParseInto(inner, depth + 1, read);
            }
          case Fails =>
            failed := true;
        }
        if failed {
          return;
        }
      }
    }
  }

  /** Parse a catalog; None when an entry made the parse raise. */
  method ParseCatalog(entries: seq<Entry>, hostOf: HostOf) returns (agents: Option<seq<Agent>>)
    ensures var t := Walk(entries, 0, EMPTY, CatalogReader(hostOf));
      agents == if t.failed then None else Some(t.agents)
    ensures agents.None? <==> BrokenInReach(entries, hostOf)
    ensures agents.Some? ==> FromAPrefix(entries, hostOf, agents.value)
  {
    CatalogIsATruncation(entries, hostOf);
    CatalogLostExactly(entries, hostOf);
    var state := new ParseState();
    state.ParseInto(entries, 0, CatalogReader(hostOf));
    agents := if state.failed then None else Some(state.agents);
  }

  // ---- the walk is the plain meaning, cut off ----

  predicate Stopped(t: Tally) {
    t.failed || |t.agents| >= MAX_AGENTS || t.seen >= MAX_ENTRIES
  }

  /** Visiting a flat list until a budget is used up. */
  function Play(vs: seq<Visit>, t: Tally, read: Reader): Tally {
    if vs == [] || Stopped(t) then t else Play(vs[1..], Visited(t, vs[0], read), read)
  }

  /** Without the two counters that merely record that a budget was used up. */
  function Core(t: Tally): Tally {
    t.(skips := t.skips - {AgentCapReached, EntryCapReached})
  }

  lemma {:induction false} PlayAppend(a: seq<Visit>, b: seq<Visit>, t: Tally, read: Reader)
    ensures Play(a + b, t, read) == Play(b, Play(a, t, read), read)
  {
    if a == [] {
      assert a + b == b;
    } else if !Stopped(t) {
      assert (a + b)[0] == a[0] && (a + b)[1..] == a[1..] + b;
      PlayAppend(a[1..], b, Visited(t, a[0], read), read);
    }
  }

  lemma CoreVisited(t: Tally, v: Visit, read: Reader)
    requires NeverCaps(read)
    ensures Core(Visited(t, v, read)) == Visited(Core(t), v, read)
  {}

  /** The walk and the flat list below one entry. */
  function Below(o: Outcome, depth: nat, t: Tally, read: Reader): Tally
    requires depth < MAX_DEPTH || !o.Recurse?
  {
    if o.Recurse? then Walk(o.entries, depth + 1, t, read) else t
  }

  function FlatBelow(o: Outcome, depth: nat, read: Reader): seq<Visit>
    requires depth < MAX_DEPTH || !o.Recurse?
  {
    if o.Recurse? then Flatten(o.entries, depth + 1, read) else []
  }

  lemma WalkStep(es: seq<Entry>, depth: nat, t: Tally, read: Reader)
    requires es != [] && !Stopped(t)
    ensures var v := Visit(es[0], depth);
      Walk(es, depth, t, read) == Walk(es[1..], depth, Below(OutcomeOf(v, read), depth, Visited(t, v, read), read), read)
  {}

  lemma FlattenStep(es: seq<Entry>, depth: nat, read: Reader)
    requires es != []
    ensures var v := Visit(es[0], depth);
      Flatten(es, depth, read) == [v] + (FlatBelow(OutcomeOf(v, read), depth, read) + Flatten(es[1..], depth, read))
  {}

  lemma PlayStep(v: Visit, inner: seq<Visit>, rest: seq<Visit>, t: Tally, read: Reader)
    requires !Stopped(t)
    ensures Play([v] + (inner + rest), t, read) == Play(rest, Play(inner, Visited(t, v, read), read), read)
  {
    assert ([v] + (inner + rest))[1..] == inner + rest;
    PlayAppend(inner, rest, Visited(t, v, read), read);
  }

  lemma WalkStopped(es: seq<Entry>, depth: nat, t: Tally, read: Reader)
    requires es == [] || Stopped(t)
    ensures Core(Walk(es, depth, t, read)) == Core(t)
  {}

  lemma {:induction false} WalkIsPlay(es: seq<Entry>, depth: nat, t: Tally, read: Reader)
    requires NeverCaps(read)
    ensures Core(Walk(es, depth, t, read)) == Play(Flatten(es, depth, read), Core(t), read)
    decreases MAX_DEPTH - depth, |es|
  {
    if es == [] || Stopped(t) {
      WalkStopped(es, depth, t, read);
    } else {
      var v := Visit(es[0], depth);
      var o, t1 := OutcomeOf(v, read), Visited(t, v, read);
      var t2, inner := Below(o, depth, t1, read), FlatBelow(o, depth, read);
      if o.Recurse? {
        WalkIsPlay(o.entries, depth + 1, t1, read);
      }
      assert Core(t2) == Play(inner, Core(t1), read);
      WalkStep(es, depth, t, read);
      WalkIsPlay(es[1..], depth, t2, read);
      CoreVisited(t, v, read);
      FlattenStep(es, depth, read);
      PlayStep(v, inner, Flatten(es[1..], depth, read), Core(t), read);
    }
  }

  /** How far a flat list is visited: to its end, the entry budget, the last agent, or the first failure. */
  ghost predicate Reaches(p: seq<Visit>, n: nat, read: Reader) {
    && n <= |p| && n <= MAX_ENTRIES
    && (forall m :: 0 <= m < n ==> |Agents(p[..m], read)| < MAX_AGENTS)
    && (forall m :: 0 <= m < n - 1 ==> !OutcomeOf(p[m], read).Fails?)
    && (n == |p| || n == MAX_ENTRIES || |Agents(p[..n], read)| == MAX_AGENTS || (n > 0 && OutcomeOf(p[n - 1], read).Fails?))
  }

  lemma {:induction false} AgentsAppend(a: seq<Visit>, v: Visit, read: Reader)
    ensures Agents(a + [v], read)
         == Agents(a, read) + (if OutcomeOf(v, read).Keep? then [OutcomeOf(v, read).agent] else [])
  {
    if a == [] {
      assert a + [v] == [v];
    } else {
      AgentsAppend(a[1..], v, read);
      assert (a + [v])[0] == a[0] && (a + [v])[1..] == a[1..] + [v];
    }
  }

  /** Tally `t` is what visiting the first `n` of `p` amounts to. */
  ghost predicate At(p: seq<Visit>, n: nat, t: Tally, read: Reader) {
    && n <= |p| && t.seen == n <= MAX_ENTRIES
    && t.visited == p[..n] && t.agents == Agents(p[..n], read)
    && t.failed == (n > 0 && OutcomeOf(p[n - 1], read).Fails?)
    && (forall m :: 0 <= m < n ==> |Agents(p[..m], read)| < MAX_AGENTS)
    && (forall m :: 0 <= m < n - 1 ==> !OutcomeOf(p[m], read).Fails?)
  }

  lemma OneMore(p: seq<Visit>, n: nat, t: Tally, read: Reader)
    requires At(p, n, t, read) && n < |p| && !Stopped(t)
    ensures At(p, n + 1, Visited(t, p[n], read), read)
  {
    assert p[..n + 1] == p[..n] + [p[n]];
    AgentsAppend(p[..n], p[n], read);
  }

  lemma {:induction false} PlayReaches(p: seq<Visit>, n: nat, t: Tally, read: Reader)
    requires At(p, n, t, read) && |t.agents| <= MAX_AGENTS
    ensures var r := Play(p[n..], t, read);
      At(p, r.seen, r, read) && Reaches(p, r.seen, read) && |r.agents| <= MAX_AGENTS
    decreases |p| - n
  {
    if n < |p| && !Stopped(t) {
      OneMore(p, n, t, read);
      assert p[n..][0] == p[n] && p[n..][1..] == p[n + 1..];
      PlayReaches(p, n + 1, Visited(t, p[n], read), read);
    }
  }

  lemma ReachesUnique(p: seq<Visit>, n: nat, m: nat, read: Reader)
    requires Reaches(p, n, read) && Reaches(p, m, read)
    ensures n == m
  {}

  /** The walk visits exactly a prefix of the preorder, as far as the budgets reach, and keeps that
      prefix's agents in order; both budgets hold. */
  lemma TraversalIsATruncation(es: seq<Entry>, read: Reader)
    requires NeverCaps(read)
    ensures var p, t := Flatten(es, 0, read), Walk(es, 0, EMPTY, read);
      && Reaches(p, t.seen, read)
      && t.visited == p[..t.seen]
      && t.agents == Agents(p[..t.seen], read)
      && |t.agents| <= MAX_AGENTS && t.seen <= MAX_ENTRIES
  {
    var p := Flatten(es, 0, read);
    WalkIsPlay(es, 0, EMPTY, read);
    assert Core(EMPTY) == EMPTY;
    assert p[0..] == p;
    assert p[..0] == [];
    PlayReaches(p, 0, EMPTY, read);
  }

  ghost predicate FailureInReach(p: seq<Visit>, read: Reader) {
    exists m :: 0 <= m < |p| && m < MAX_ENTRIES && OutcomeOf(p[m], read).Fails? && |Agents(p[..m], read)| < MAX_AGENTS
  }

  lemma ReachedFailure(p: seq<Visit>, n: nat, t: Tally, read: Reader)
    requires At(p, n, t, read) && Reaches(p, n, read)
    ensures t.failed <==> FailureInReach(p, read)
  {
    if t.failed {
      assert OutcomeOf(p[n - 1], read).Fails? && |Agents(p[..n - 1], read)| < MAX_AGENTS;
    } else if m :| 0 <= m < |p| && m < MAX_ENTRIES && OutcomeOf(p[m], read).Fails? && |Agents(p[..m], read)| < MAX_AGENTS {
      assert m >= n;
      AgentsMonotone(p, n, m, read);
    }
  }

  /** The parse ends in an exception exactly when a failing entry lies within the budgets' reach, so
      one such entry costs the whole catalog. */
  lemma FailsExactly(es: seq<Entry>, read: Reader)
    requires NeverCaps(read)
    ensures Walk(es, 0, EMPTY, read).failed <==> FailureInReach(Flatten(es, 0, read), read)
  {
    var p, t := Flatten(es, 0, read), Walk(es, 0, EMPTY, read);
    WalkIsPlay(es, 0, EMPTY, read);
    assert Core(EMPTY) == EMPTY && p[0..] == p && p[..0] == [];
    PlayReaches(p, 0, EMPTY, read);
    ReachedFailure(p, t.seen, Core(t), read);
  }

  lemma {:induction false} AgentsMonotone(p: seq<Visit>, n: nat, m: nat, read: Reader)
    requires n <= m <= |p|
    ensures |Agents(p[..n], read)| <= |Agents(p[..m], read)|
    decreases m
  {
    if n < m {
      AgentsMonotone(p, n, m - 1, read);
      assert p[..m] == p[..m - 1] + [p[m - 1]];
      AgentsAppend(p[..m - 1], p[m - 1], read);
    }
  }

  // ---- accounting ----

  function SkipTotal(s: map<Reason, nat>): nat {
    Count(s, MissingRequired) + Count(s, InvalidUrn) + Count(s, NonAgentArtifact) + Count(s, LocatorViolation)
    + Count(s, DepthExceeded) + Count(s, NestedUrlNotFollowed) + Count(s, RegistryEntry)
  }

  /** Catalogs descended into, and failures, among the visits. */
  function Descents(vs: seq<Visit>, read: Reader): nat {
    if vs == [] then 0
    else (if OutcomeOf(vs[0], read).Recurse? then 1 else 0) + Descents(vs[1..], read)
  }

  lemma {:induction false} DescentsAppend(a: seq<Visit>, v: Visit, read: Reader)
    ensures Descents(a + [v], read) == Descents(a, read) + (if OutcomeOf(v, read).Recurse? then 1 else 0)
  {
    if a == [] {
      assert a + [v] == [v];
    } else {
      DescentsAppend(a[1..], v, read);
      assert (a + [v])[0] == a[0] && (a + [v])[1..] == a[1..] + [v];
    }
  }

  ghost predicate Balanced(t: Tally, read: Reader) {
    t.seen == |t.agents| + SkipTotal(t.skips) + Descents(t.visited, read) + (if t.failed then 1 else 0)
  }

  lemma NotedTotal(s: map<Reason, nat>, r: Reason)
    ensures SkipTotal(Noted(s, r)) == SkipTotal(s) + (if r == AgentCapReached || r == EntryCapReached then 0 else 1)
  {
    assert forall q :: Count(Noted(s, r), q) == Count(s, q) + (if q == r then 1 else 0);
  }

  lemma VisitBalances(t: Tally, v: Visit, read: Reader)
    requires NeverCaps(read) && Balanced(t, read) && !t.failed
    ensures Balanced(Visited(t, v, read), read)
  {
    DescentsAppend(t.visited, v, read);
    if OutcomeOf(v, read).Skip? {
      NotedTotal(t.skips, OutcomeOf(v, read).reason);
    }
  }

  lemma CapBalances(t: Tally, r: Reason, read: Reader)
    requires Balanced(t, read) && (r == AgentCapReached || r == EntryCapReached)
    ensures Balanced(t.(skips := Noted(t.skips, r)), read)
  {
    NotedTotal(t.skips, r);
  }

  lemma {:induction false} WalkBalances(es: seq<Entry>, depth: nat, t: Tally, read: Reader)
    requires NeverCaps(read) && Balanced(t, read)
    ensures Balanced(Walk(es, depth, t, read), read)
    decreases MAX_DEPTH - depth, |es|
  {
    if es == [] || t.failed {
    } else if |t.agents| >= MAX_AGENTS {
      CapBalances(t, AgentCapReached, read);
    } else if t.seen >= MAX_ENTRIES {
      CapBalances(t, EntryCapReached, read);
    } else {
      var o, t1 := OutcomeOf(Visit(es[0], depth), read), Visited(t, Visit(es[0], depth), read);
      VisitBalances(t, Visit(es[0], depth), read);
      if o.Recurse? {
        WalkBalances(o.entries, depth + 1, t1, read);
      }
      WalkBalances(es[1..], depth, if o.Recurse? then Walk(o.entries, depth + 1, t1, read) else t1, read);
    }
  }

  /** Every visited entry is an agent, a counted skip, a catalog descended into, or the one failure. */
  lemma NothingUnaccounted(es: seq<Entry>, read: Reader)
    requires NeverCaps(read)
    ensures Balanced(Walk(es, 0, EMPTY, read), read)
  {
    WalkBalances(es, 0, EMPTY, read);
  }

  // ---- what single entries come to ----

  /** A DNS label: at most 63 characters of [a-z0-9-], no hyphen at either end. */
  predicate IsLabel(s: string) {
    1 <= |s| <= MAX_NAME && s[0] != '-' && s[|s| - 1] != '-' && LabelChars(s)
  }

  lemma CutKeepsChars(s: string)
    requires LabelChars(s)
    ensures LabelChars(Cut(s))
  {}

  lemma NormalizedNameIsLabel(s: string)
    ensures NormalizeName(s) == [] || IsLabel(NormalizeName(s))
  {
    var d := Dashed(Lower(s));
    StripKeepsChars(d);
    CutKeepsChars(StripChars(d, IsHyphen));
    StripKeepsChars(Cut(StripChars(d, IsHyphen)));
  }

  lemma StripKeepsChars(s: string)
    requires LabelChars(s)
    ensures var r := StripChars(s, IsHyphen);
      && |r| <= |s| && LabelChars(r)
      && (r != [] ==> r[0] != '-' && r[|r| - 1] != '-')
  {
    var l := StripLeft(s, IsHyphen);
    var r := StripRight(l, IsHyphen);
    LabelSlice(s, |s| - |l|, |s|);
    LabelSlice(l, 0, |r|);
  }

  predicate LabelChars(s: string) {
    forall i :: 0 <= i < |s| ==> LabelChar(s[i])
  }

  lemma LabelSlice(s: string, i: nat, j: nat)
    requires i <= j <= |s| && LabelChars(s)
    ensures LabelChars(s[i..j])
  {}

  lemma UrnNameIsLabel(id: string)
    ensures NameFromUrn(id).Some? ==> IsLabel(NameFromUrn(id).value.0)
  {
    SegmentsNameIsLabel(Split(id, ':'));
  }

  lemma SegmentsNameIsLabel(segs: seq<string>)
    ensures NameOfSegments(segs).Some? ==> IsLabel(NameOfSegments(segs).value.0)
  {
    if |segs| >= 3 {
      NormalizedNameIsLabel(segs[|segs| - 1]);
    }
  }

  lemma ProtocolsAreTwo(mediaType: string)
    ensures Protocol(mediaType).Some? ==> Protocol(mediaType).value == "mcp" || Protocol(mediaType).value == "a2a"
  {}

  lemma LocateMeans(url: Field, data: Data, hostOf: HostOf)
    ensures Locate(url, data, hostOf).Some? ==> !url.Other? && (url.Text? <==> data.NoData?)
  {}

  lemma TruncatedIsBounded(d: Description)
    ensures Truncate(d).Some? ==> Bounded(Truncate(d).value)
  {}

  /** At most as long as is kept. */
  predicate Bounded(d: Description) {
    match d
    case Words(s) => |s| <= MAX_TEXT
    case List(n) => n <= MAX_TEXT
    case Members(n) => n <= MAX_TEXT
    case _ => true
  }

  /** Everything about an agent entry is in order, its description aside. */
  predicate AgentLike(e: Entry, hostOf: HostOf) {
    && e.Entry? && e.typ.TypeText? && Protocol(e.typ.s).Some?
    && e.identifier.Text? && NameFromUrn(e.identifier.s).Some?
    && e.displayName.Text? && e.displayName.s != []
    && Locate(e.url, e.data, hostOf).Some?
  }

  /** A description whose length cannot be taken, or that cannot be cut. */
  predicate Uncuttable(d: Description) {
    d.Unsized? || (d.Members? && d.size > MAX_TEXT)
  }

  /** Entries that make reading raise: a `type` that no set can be asked about, or a proper agent entry
      with a number, `true`, or an object of more than 1024 members for a description. */
  predicate Breaks(e: Entry, hostOf: HostOf) {
    e.Entry? && (e.typ.Unhashable? || (AgentLike(e, hostOf) && Uncuttable(e.description)))
  }

  lemma TruncateFails(e: Entry)
    requires e.Entry? && e.displayName.Text?
    ensures Truncate(Described(e)).None? <==> Uncuttable(e.description)
  {}

  lemma AgentTypes(mediaType: string)
    requires Protocol(mediaType).Some?
    ensures mediaType != CATALOG_TYPE && !IsRegistryType(mediaType)
  {
    assert mediaType[12] == 'm' || mediaType[12] == 'a';
    assert |mediaType| != |CATALOG_TYPE|;
  }

  lemma AgentEntryFails(e: Entry, hostOf: HostOf)
    requires e.Entry? && e.typ.TypeText? && Protocol(e.typ.s).Some?
    ensures EntryToAgent(e, hostOf).Fails? <==> AgentLike(e, hostOf) && Uncuttable(e.description)
  {
    if e.displayName.Text? {
      TruncateFails(e);
    }
  }

  lemma AgentEntryReads(e: Entry, hostOf: HostOf)
    requires e.Entry? && e.typ.TypeText? && Protocol(e.typ.s).Some?
    ensures ReadEntry(e, hostOf) == EntryToAgent(e, hostOf)
  {
    AgentTypes(e.typ.s);
  }

  lemma OtherEntriesSkip(e: Entry, hostOf: HostOf)
    requires e.NotADict? || (e.typ.TypeText? && Protocol(e.typ.s).None?) || e.typ.Scalar?
    ensures !ReadEntry(e, hostOf).Keep? && !ReadEntry(e, hostOf).Fails?
  {}

  /** Exactly the entries that break a parse. */
  lemma ReadFailsExactly(e: Entry, hostOf: HostOf)
    ensures ReadEntry(e, hostOf).Fails? <==> Breaks(e, hostOf)
  {
    if e.NotADict? || e.typ.Scalar? || (e.typ.TypeText? && Protocol(e.typ.s).None?) {
      OtherEntriesSkip(e, hostOf);
    } else if e.typ.TypeText? {
      AgentEntryReads(e, hostOf);
      AgentEntryFails(e, hostOf);
    }
  }

  /** A breaking entry within the budgets' reach. */
  ghost predicate BrokenInReach(es: seq<Entry>, hostOf: HostOf) {
    var p := Flatten(es, 0, CatalogReader(hostOf));
    exists m :: 0 <= m < |p| && m < MAX_ENTRIES && Breaks(p[m].entry, hostOf)
      && |Agents(p[..m], CatalogReader(hostOf))| < MAX_AGENTS
  }

  /** The agents are those of the visited prefix of all entries, as far as the budgets reach. */
  ghost predicate FromAPrefix(es: seq<Entry>, hostOf: HostOf, agents: seq<Agent>) {
    var read := CatalogReader(hostOf);
    var p := Flatten(es, 0, read);
    |agents| <= MAX_AGENTS && exists n :: 0 <= n <= |p| && Reaches(p, n, read) && agents == Agents(p[..n], read)
  }

  lemma CatalogIsATruncation(es: seq<Entry>, hostOf: HostOf)
    ensures FromAPrefix(es, hostOf, Walk(es, 0, EMPTY, CatalogReader(hostOf)).agents)
  {
    CatalogReaderNeverCaps(hostOf);
    TraversalIsATruncation(es, CatalogReader(hostOf));
  }

  /** A catalog is lost exactly when it holds a breaking entry among the first 5000, not counting what
      lies too deep, and before the 500th agent. */
  lemma CatalogLostExactly(es: seq<Entry>, hostOf: HostOf)
    ensures Walk(es, 0, EMPTY, CatalogReader(hostOf)).failed <==> BrokenInReach(es, hostOf)
  {
    var read := CatalogReader(hostOf);
    var p := Flatten(es, 0, read);
    CatalogReaderNeverCaps(hostOf);
    FailsExactly(es, read);
    forall m | 0 <= m < |p| ensures OutcomeOf(p[m], read).Fails? <==> Breaks(p[m].entry, hostOf) {
      ReadFailsExactly(p[m].entry, hostOf);
    }
  }

  lemma KeptByEntryToAgent(e: Entry, hostOf: HostOf)
    requires e.Entry? && e.typ.TypeText? && EntryToAgent(e, hostOf).Keep?
    ensures AgentLike(e, hostOf)
    ensures var a := EntryToAgent(e, hostOf).agent;
      && a.identifier == e.identifier.s
      && a.name == NameFromUrn(e.identifier.s).value.0
      && Some(a.protocol) == Protocol(e.typ.s)
      && Some(a.description) == Truncate(Described(e))
      && a.cardUrl == if e.url.Text? then Some(e.url.s) else None
  {}

  lemma KeptThroughEntryToAgent(e: Entry, hostOf: HostOf)
    requires ReadEntry(e, hostOf).Keep?
    ensures e.Entry? && e.typ.TypeText? && ReadEntry(e, hostOf) == EntryToAgent(e, hostOf)
  {
    if e.NotADict? || e.typ.Scalar? || (e.typ.TypeText? && Protocol(e.typ.s).None?) {
      OtherEntriesSkip(e, hostOf);
    } else if e.typ.TypeText? {
      AgentEntryReads(e, hostOf);
    }
  }

  /** A kept agent has a usable label for a name, a known protocol, exactly one artifact locator, and a
      description of bounded length. */
  lemma KeptAgentIsUsable(e: Entry, hostOf: HostOf)
    requires ReadEntry(e, hostOf).Keep?
    ensures var a := ReadEntry(e, hostOf).agent;
      && IsLabel(a.name) && (a.protocol == "mcp" || a.protocol == "a2a")
      && e.identifier == Text(a.identifier) && NameFromUrn(a.identifier).Some? && NameFromUrn(a.identifier).value.0 == a.name
      && (a.cardUrl.Some? <==> e.url.Text?) && (e.url.Text? <==> e.data.NoData?)
      && Bounded(a.description)
  {
    KeptThroughEntryToAgent(e, hostOf);
    KeptByEntryToAgent(e, hostOf);
    LocateMeans(e.url, e.data, hostOf);
    TruncatedIsBounded(Described(e));
    UrnNameIsLabel(e.identifier.s);
    ProtocolsAreTwo(e.typ.s);
  }

  // ---- one entry that loses a catalog ----

  lemma BadFails(bad: Entry, t: Tally, hostOf: HostOf)
    requires !Stopped(t) && ReadEntry(bad, hostOf).Fails?
    ensures Walk([bad], 0, t, CatalogReader(hostOf)).failed
  {
    assert [bad][1..] == [];
  }

  /** After any number of good agents below the cap, one breaking entry is enough. */
  lemma OneBadEntryLosesTheCatalog(agents: seq<Entry>, bad: Entry, hostOf: HostOf)
    requires |agents| < MAX_AGENTS && Breaks(bad, hostOf)
    requires forall i :: 0 <= i < |agents| ==> ReadEntry(agents[i], hostOf).Keep?
    ensures !Walk(agents, 0, EMPTY, CatalogReader(hostOf)).failed
    ensures Walk(agents + [bad], 0, EMPTY, CatalogReader(hostOf)).failed
  {
    ReadFailsExactly(bad, hostOf);
    assert agents + [] == agents;
    var t := KeepsAll(agents, [], EMPTY, hostOf);
    var u := KeepsAll(agents, [bad], EMPTY, hostOf);
    BadFails(bad, u, hostOf);
  }

  lemma UrnParses(publisher: string, name: string)
    requires PublisherChars(publisher) && SegmentChars(name) && IsLabel(name) && IsLower(name)
    ensures NameFromUrn(Join(["urn", "air", publisher, name], ":")) == Some((name, Lower(publisher)))
  {
    var segs := ["urn", "air", publisher, name];
    assert ':' !in segs[0] && ':' !in segs[1];
    SplitJoin(segs, ':');
    UrnOfSegments(Join(segs, ":"), segs);
    PlainName(name);
  }

  lemma UrnOfSegments(id: string, segs: seq<string>)
    requires Split(id, ':') == segs && |segs| == 4 && segs[0] == "urn" && segs[1] == "air"
    requires PublisherChars(segs[2]) && SegmentChars(segs[3])
    ensures NameFromUrn(id) == NameOfSegments(segs)
  {
    assert UrnSegments(segs);
    MatchedUrn(id);
  }

  lemma MatchedUrn(id: string)
    requires UrnSegments(Split(id, ':'))
    ensures NameFromUrn(id) == NameOfSegments(Split(id, ':'))
  {}

  /** An otherwise proper agent entry described by an object. */
  function DescribedByObject(urn: string, members: nat): Entry {
    Entry(Text(urn), Text("Chat"), TypeText("application/mcp-server-card+json"), Absent, Object, Members(members))
  }

  lemma LargeObjectBreaks(urn: string, members: nat, hostOf: HostOf)
    requires NameFromUrn(urn).Some?
    ensures Breaks(DescribedByObject(urn, members), hostOf) <==> members > MAX_TEXT
  {
    ObjectIsAgentLike(urn, members, hostOf);
    assert Uncuttable(Members(members)) <==> members > MAX_TEXT;
  }

  lemma ObjectIsAgentLike(urn: string, members: nat, hostOf: HostOf)
    requires NameFromUrn(urn).Some?
    ensures AgentLike(DescribedByObject(urn, members), hostOf)
  {
    assert Protocol("application/mcp-server-card+json").Some?;
    assert Locate(Absent, Object, hostOf) == Some([]);
  }

  /** An entry whose `type` is an array, and an otherwise proper one described by an object of 1025 members. */
  lemma BreakingExamples(hostOf: HostOf) returns (urn: string)
    ensures Breaks(Entry(Absent, Absent, Unhashable, Absent, NoData, NoDescription), hostOf)
    ensures Breaks(DescribedByObject(urn, 1025), hostOf)
  {
    urn := Join(["urn", "air", "example.com", "chat"], ":");
    UrnParses("example.com", "chat");
    LargeObjectBreaks(urn, 1025, hostOf);
  }

  lemma PlainName(s: string)
    requires IsLabel(s) && IsLower(s)
    ensures NormalizeName(s) == s
  {
    LowerFixed(s);
    assert Dashed(s) == s;
  }

  lemma {:induction false} KeepsAll(agents: seq<Entry>, rest: seq<Entry>, t: Tally, hostOf: HostOf) returns (t': Tally)
    requires !t.failed && |t.agents| + |agents| < MAX_AGENTS && t.seen == |t.agents|
    requires forall i :: 0 <= i < |agents| ==> ReadEntry(agents[i], hostOf).Keep?
    ensures !t'.failed && |t'.agents| < MAX_AGENTS && t'.seen == |t'.agents|
    ensures Walk(agents + rest, 0, t, CatalogReader(hostOf)) == Walk(rest, 0, t', CatalogReader(hostOf))
  {
    if agents == [] {
      t' := t;
      assert agents + rest == rest;
    } else {
      var es := agents + rest;
      assert es[0] == agents[0] && es[1..] == agents[1..] + rest;
      t' := KeepsAll(agents[1..], rest, Visited(t, Visit(agents[0], 0), CatalogReader(hostOf)), hostOf);
    }
  }
}
