/** Exactly what single entries of an ARD catalog come to: agents, nested catalogs and skips. */
module ArdEntries {
  import opened Wrappers
  import opened Text
  import opened ArdCatalog

  // ---- the name of an agent ----

  /** `urn:air:`, a publisher and at least one more segment; one final line break is allowed. */
  ghost predicate UrnPattern(id: string) {
    var segs := Split(Chomp(id), ':');
    && |segs| >= 4 && segs[0] == "urn" && segs[1] == "air" && PublisherChars(segs[2])
    && forall i :: 3 <= i < |segs| ==> SegmentChars(segs[i])
  }

  /** An identifier with its publisher and the label made of its last segment. */
  ghost predicate Urn(id: string, name: string, publisher: string) {
    UrnPattern(id) && Names(Split(id, ':'), name, publisher)
  }

  ghost predicate Names(segs: seq<string>, name: string, publisher: string) {
    |segs| >= 3 && publisher == Lower(segs[2]) && name != [] && LabelFrom(segs[|segs| - 1], name)
  }

  /** `name` is `s` in lower case, with a hyphen for whatever a label cannot hold, without the hyphens in
      front, cut to 63 characters and without the hyphens left at the end. */
  ghost predicate LabelFrom(s: string, name: string) {
    exists i :: 0 <= i <= |s| && LabelAt(s, name, i)
  }

  function Hyphened(c: char): char {
    var l := LowerChar(c);
    if 'a' <= l <= 'z' || '0' <= l <= '9' then l else '-'
  }

  ghost predicate LabelAt(s: string, name: string, i: nat) {
    && i + |name| <= |s| && |name| <= 63
    && (forall k :: 0 <= k < i ==> Hyphened(s[k]) == '-')
    && (forall k :: 0 <= k < |name| ==> name[k] == Hyphened(s[i + k]))
    && (forall k :: i + |name| <= k < |s| && k < i + 63 ==> Hyphened(s[k]) == '-')
    && Bare(name) && (name == [] ==> i == |s|)
  }

  lemma {:induction false} StrippedLeft(s: string)
    ensures forall k :: 0 <= k < |s| - |StripLeft(s, IsHyphen)| ==> s[k] == '-'
  {
    if s != [] && IsHyphen(s[0]) {
      StrippedLeft(s[1..]);
      assert forall k :: 1 <= k < |s| ==> s[k] == s[1..][k - 1];
    }
  }

  lemma {:induction false} StrippedRight(s: string)
    ensures forall k :: |StripRight(s, IsHyphen)| <= k < |s| ==> s[k] == '-'
  {
    if s != [] && IsHyphen(s[|s| - 1]) {
      StrippedRight(s[..|s| - 1]);
      assert forall k :: 0 <= k < |s| - 1 ==> s[k] == s[..|s| - 1][k];
    }
  }

  lemma NotHyphenFirst(s: string)
    requires s != [] && s[0] != '-'
    ensures StripLeft(s, IsHyphen) == s
  {}

  ghost predicate Hyphens(d: string, from: int, to: int)
    requires from >= 0
  {
    forall k :: from <= k < to && k < |d| ==> d[k] == '-'
  }

  /** Nothing at either end but what is not a hyphen. */
  predicate Bare(s: string) {
    s != [] ==> s[0] != '-' && s[|s| - 1] != '-'
  }

  lemma LeftBare(d: string)
    ensures var a := StripLeft(d, IsHyphen);
      (a != [] ==> a[0] != '-') && Hyphens(d, 0, |d| - |a|) && a == d[|d| - |a|..]
  {
    StrippedLeft(d);
  }

  lemma RightBare(a: string)
    requires a != [] ==> a[0] != '-'
    ensures var b := StripRight(a, IsHyphen);
      Bare(b) && Hyphens(a, |b|, |a|) && b == a[..|b|] && (b == [] ==> a == [])
  {
    StrippedRight(a);
    assert StripRight(a, IsHyphen) != [] ==> StripRight(a, IsHyphen)[0] == a[0];
  }

  lemma Stripped(d: string) returns (i: nat)
    ensures var r := StripChars(d, IsHyphen);
      && i + |r| <= |d| && r == d[i..i + |r|] && Bare(r)
      && Hyphens(d, 0, i) && Hyphens(d, i + |r|, |d|) && (r == [] ==> i == |d|)
  {
    var a := StripLeft(d, IsHyphen);
    i := |d| - |a|;
    LeftBare(d);
    RightBare(a);
    ShiftHyphens(d, a, i, |StripRight(a, IsHyphen)|);
  }

  lemma ShiftHyphens(d: string, a: string, i: nat, n: nat)
    requires i <= |d| && a == d[i..] && n <= |a| && Hyphens(a, n, |a|)
    ensures Hyphens(d, i + n, |d|)
  {
    forall k | i + n <= k < |d| ensures d[k] == '-' {
      assert a[k - i] == d[k];
    }
  }

  lemma CutAndStripped(b: string)
    requires Bare(b)
    ensures var r := StripChars(Cut(b), IsHyphen);
      r <= b && |r| <= 63 && Bare(r) && Hyphens(b, |r|, 63) && (r == [] ==> b == [])
  {
    var c := Cut(b);
    if b != [] {
      NotHyphenFirst(c);
      StrippedRight(c);
      assert forall k :: 0 <= k < |c| ==> c[k] == b[k];
    }
  }

  lemma Composed(d: string, b: string, r: string, i: nat)
    requires i + |b| <= |d| && b == d[i..i + |b|] && Hyphens(d, i + |b|, |d|)
    requires r <= b && Hyphens(b, |r|, 63)
    ensures r == d[i..i + |r|] && Hyphens(d, i + |r|, i + 63)
  {
    assert forall k :: 0 <= k < |b| ==> b[k] == d[i + k];
    forall k | i + |r| <= k < i + 63 && k < |d| ensures d[k] == '-' {
      if k < i + |b| {
        assert b[k - i] == '-';
      }
    }
  }

  ghost predicate Trims(d: string, r: string, i: nat) {
    && i + |r| <= |d| && |r| <= 63 && r == d[i..i + |r|] && Bare(r)
    && Hyphens(d, 0, i) && Hyphens(d, i + |r|, i + 63) && (r == [] ==> i == |d|)
  }

  lemma TrimsTo(d: string, b: string, i: nat)
    requires i + |b| <= |d| && b == d[i..i + |b|] && Bare(b)
    requires Hyphens(d, 0, i) && Hyphens(d, i + |b|, |d|) && (b == [] ==> i == |d|)
    ensures Trims(d, StripChars(Cut(b), IsHyphen), i)
  {
    CutAndStripped(b);
    Composed(d, b, StripChars(Cut(b), IsHyphen), i);
  }

  lemma TrimmedName(d: string) returns (i: nat)
    ensures Trims(d, TrimToLabel(d), i)
  {
    i := Stripped(d);
    TrimsTo(d, StripChars(d, IsHyphen), i);
  }

  lemma DashedIs(s: string)
    ensures var d := Dashed(Lower(s)); |d| == |s| && forall k :: 0 <= k < |s| ==> d[k] == Hyphened(s[k])
  {
    var l := Lower(s);
    assert forall k :: 0 <= k < |s| ==> l[k] == LowerChar(s[k]);
  }

  lemma NameIsLabelFrom(s: string)
    ensures LabelFrom(s, NormalizeName(s))
  {
    var d := Dashed(Lower(s));
    DashedIs(s);
    var i := TrimmedName(d);
    LabelOfDashed(s, d, TrimToLabel(d), i);
  }

  lemma LabelOfDashed(s: string, d: string, r: string, i: nat)
    requires |d| == |s| && forall k :: 0 <= k < |s| ==> d[k] == Hyphened(s[k])
    requires Trims(d, r, i)
    ensures LabelAt(s, r, i)
  {}

  /** There is only one such label. */
  lemma LabelUnique(s: string, a: string, b: string)
    requires LabelFrom(s, a) && LabelFrom(s, b)
    ensures a == b
  {
    var i :| 0 <= i <= |s| && LabelAt(s, a, i);
    var j :| 0 <= j <= |s| && LabelAt(s, b, j);
    if a != [] {
      SameStart(s, a, b, i, j);
    }
    if b != [] {
      SameStart(s, b, a, j, i);
    }
    if a != [] && b != [] {
      NotLonger(s, a, b, i);
      NotLonger(s, b, a, i);
      assert forall k :: 0 <= k < |a| ==> a[k] == b[k];
    }
  }

  lemma SameStart(s: string, a: string, b: string, i: nat, j: nat)
    requires LabelAt(s, a, i) && LabelAt(s, b, j) && a != []
    ensures b != [] && j <= i
  {
    assert Hyphened(s[i]) == a[0];
  }

  lemma NotLonger(s: string, a: string, b: string, i: nat)
    requires LabelAt(s, a, i) && LabelAt(s, b, i) && b != []
    ensures |b| <= |a|
  {
    assert b[|b| - 1] == Hyphened(s[i + |b| - 1]);
  }

  lemma NoBreakInUrn(id: string)
    requires IsUrn(id)
    ensures Chomp(id) == id
  {
    var segs := Split(id, ':');
    JoinSplit(id, ':');
    JoinedLast(segs, ":");
    assert SegmentChars(segs[|segs| - 1]);
  }

  lemma PatternIs(id: string)
    ensures UrnPattern(id) <==> IsUrn(id) || (id != [] && id[|id| - 1] == '\n' && IsUrn(id[..|id| - 1]))
  {
    if IsUrn(id) {
      NoBreakInUrn(id);
    }
  }

  lemma {:induction false} JoinedLast(parts: seq<string>, sep: string)
    requires parts != [] && parts[|parts| - 1] != []
    ensures var j, last := Join(parts, sep), parts[|parts| - 1];
      j != [] && j[|j| - 1] == last[|last| - 1]
  {
    if |parts| > 1 {
      JoinedLast(parts[1..], sep);
    }
  }

  lemma NameOfIs(segs: seq<string>, name: string, publisher: string)
    ensures NameOfSegments(segs) == Some((name, publisher)) <==> Names(segs, name, publisher)
  {
    if |segs| >= 3 {
      var last := segs[|segs| - 1];
      NameIsLabelFrom(last);
      if LabelFrom(last, name) {
        LabelUnique(last, name, NormalizeName(last));
      }
    }
  }

  lemma NameFromUrnIs(id: string)
    ensures NameFromUrn(id) == if UrnPattern(id) then NameOfSegments(Split(id, ':')) else None
  {
    PatternIs(id);
  }

  lemma UrnIs(id: string, name: string, publisher: string)
    ensures Urn(id, name, publisher) <==> NameFromUrn(id) == Some((name, publisher))
  {
    NameFromUrnIs(id);
    NameOfIs(Split(id, ':'), name, publisher);
  }

  // ---- what an entry comes to ----

  /** Exactly one locator; a URL that names a host gives the domain name, else the publisher is it. */
  predicate LocatedAt(e: Entry, a: Agent, publisher: string, hostOf: HostOf)
    requires e.Entry?
  {
    match e.url
    case Other => false
    case Absent => !e.data.NoData? && a.cardUrl == None && a.fqdn == publisher
    case Text(url) =>
      && e.data.NoData? && a.cardUrl == Some(url)
      && (if url == [] then a.fqdn == publisher
          else
            && hostOf(url).Some?
            && var host := StripChars(hostOf(url).value, IsDot);
               a.fqdn == if host == [] then publisher else host)
  }

  /** The description, or the display name where there is none, cut to 1024 characters or items. */
  predicate DescribedAs(e: Entry, d: Description)
    requires e.Entry? && e.displayName.Text?
  {
    var n := e.displayName.s;
    var instead := Words(if |n| <= 1024 then n else n[..1024]);
    match e.description
    case NoDescription => d == instead
    case Words(s) => d == if s == [] then instead else Words(if |s| <= 1024 then s else s[..1024])
    case List(k) => d == if k == 0 then instead else List(if k <= 1024 then k else 1024)
    case Members(k) => k <= 1024 && d == if k == 0 then instead else e.description
    case Unsized => false
  }

  lemma DescriptionIs(e: Entry, d: Description)
    requires e.Entry? && e.displayName.Text? && e.displayName.s != []
    ensures Truncate(Described(e)) == Some(d) <==> DescribedAs(e, d)
  {}

  /** An entry for an agent, with everything that is kept of it. */
  ghost predicate IsAgentEntry(e: Entry, a: Agent, hostOf: HostOf) {
    && e.Entry?
    && (|| (e.typ == TypeText("application/mcp-server-card+json") && a.protocol == "mcp")
        || (e.typ == TypeText("application/a2a-agent-card+json") && a.protocol == "a2a"))
    && e.identifier == Text(a.identifier)
    && e.displayName.Text? && e.displayName.s != []
    && (exists publisher :: Urn(a.identifier, a.name, publisher) && LocatedAt(e, a, publisher, hostOf))
    && DescribedAs(e, a.description)
  }

  lemma ProtocolIs(t: string, protocol: string)
    ensures Protocol(t) == Some(protocol)
       <==> || (t == "application/mcp-server-card+json" && protocol == "mcp")
            || (t == "application/a2a-agent-card+json" && protocol == "a2a")
  {
    assert "application/mcp-server-card+json"[12] == 'm' && "application/a2a-agent-card+json"[12] == 'a';
  }

  lemma LocatedIs(e: Entry, a: Agent, publisher: string, hostOf: HostOf)
    requires e.Entry?
    ensures LocatedAt(e, a, publisher, hostOf)
       <==> && Locate(e.url, e.data, hostOf).Some?
            && (var host := Locate(e.url, e.data, hostOf).value; a.fqdn == if host != [] then host else publisher)
            && a.cardUrl == if e.url.Text? then Some(e.url.s) else None
  {}

  lemma KeptIsAgent(e: Entry, a: Agent, hostOf: HostOf)
    requires ReadEntry(e, hostOf) == Keep(a)
    ensures IsAgentEntry(e, a, hostOf)
  {
    KeptThroughEntryToAgent(e, hostOf);
    KeptByEntryToAgent(e, hostOf);
    ProtocolIs(e.typ.s, a.protocol);
    var publisher := NameFromUrn(a.identifier).value.1;
    UrnIs(a.identifier, a.name, publisher);
    LocatedIs(e, a, publisher, hostOf);
    DescriptionIs(e, a.description);
  }

  lemma AgentIsKept(e: Entry, a: Agent, hostOf: HostOf)
    requires IsAgentEntry(e, a, hostOf)
    ensures ReadEntry(e, hostOf) == Keep(a)
  {
    var publisher :| Urn(a.identifier, a.name, publisher) && LocatedAt(e, a, publisher, hostOf);
    UrnIs(a.identifier, a.name, publisher);
    LocatedIs(e, a, publisher, hostOf);
    ProtocolIs(e.typ.s, a.protocol);
    DescriptionIs(e, a.description);
    AgentEntryReads(e, hostOf);
  }

  /** An entry is kept as an agent exactly if it is an entry for that agent. */
  lemma KeptExactly(e: Entry, a: Agent, hostOf: HostOf)
    ensures ReadEntry(e, hostOf) == Keep(a) <==> IsAgentEntry(e, a, hostOf)
  {
    if ReadEntry(e, hostOf) == Keep(a) {
      KeptIsAgent(e, a, hostOf);
    }
    if IsAgentEntry(e, a, hostOf) {
      AgentIsKept(e, a, hostOf);
    }
  }

  /** A nested catalog is descended into exactly if it is inline. */
  lemma DescendedExactly(e: Entry, es: seq<Entry>, hostOf: HostOf)
    ensures ReadEntry(e, hostOf) == Recurse(es)
       <==> e.Entry? && e.typ == TypeText("application/ai-catalog+json") && e.data == Catalog(es)
  {
    if e.Entry? && e.typ.TypeText? && Protocol(e.typ.s).Some? {
      AgentEntryReads(e, hostOf);
      AgentTypes(e.typ.s);
    }
  }

  /** Why an entry that is neither kept nor descended into nor breaks the parse is skipped. */
  ghost predicate SkippedFor(e: Entry, reason: Reason, hostOf: HostOf) {
    match e
    case NotADict => reason == MissingRequired
    case Entry(identifier, displayName, typ, _, _, _) =>
      match typ
      case Unhashable => false
      case Scalar => reason == NonAgentArtifact
      case TypeText(t) =>
        if t == "application/ai-catalog+json" then reason == NestedUrlNotFollowed
        else if t == "application/ai-registry+json" || t == "application/ai-registry" then reason == RegistryEntry
        else if t != "application/mcp-server-card+json" && t != "application/a2a-agent-card+json" then reason == NonAgentArtifact
        else if !identifier.Text? || !displayName.Text? || displayName.s == [] then reason == MissingRequired
        else if forall name, publisher :: !Urn(identifier.s, name, publisher) then reason == InvalidUrn
        else reason == LocatorViolation
  }

  lemma SkippedMeans(e: Entry, hostOf: HostOf)
    requires ReadEntry(e, hostOf).Skip?
    ensures SkippedFor(e, ReadEntry(e, hostOf).reason, hostOf)
  {
    if e.Entry? && e.typ.TypeText? {
      ProtocolIs(e.typ.s, "mcp");
      ProtocolIs(e.typ.s, "a2a");
      if Protocol(e.typ.s).Some? {
        AgentEntryReads(e, hostOf);
        AgentTypes(e.typ.s);
        if e.identifier.Text? {
          forall name, publisher ensures Urn(e.identifier.s, name, publisher) <==> NameFromUrn(e.identifier.s) == Some((name, publisher)) {
            UrnIs(e.identifier.s, name, publisher);
          }
        }
      }
    }
  }

  // ---- how far a catalog is read ----

  /** Entries that are no catalogs. */
  ghost predicate NoneNested(es: seq<Entry>, read: Reader) {
    forall i :: 0 <= i < |es| ==> !read(es[i]).Recurse?
  }

  lemma {:induction false} FlatList(es: seq<Entry>, depth: nat, read: Reader)
    requires NoneNested(es, read)
    ensures |Flatten(es, depth, read)| == |es|
    ensures forall i :: 0 <= i < |es| ==> Flatten(es, depth, read)[i] == Visit(es[i], depth)
  {
    if es != [] {
      FlatList(es[1..], depth, read);
      assert Flatten(es, depth, read) == [Visit(es[0], depth)] + [] + Flatten(es[1..], depth, read);
    }
  }

  lemma {:induction false} AllAgents(p: seq<Visit>, read: Reader)
    requires forall i :: 0 <= i < |p| ==> read(p[i].entry).Keep?
    ensures |Agents(p, read)| == |p| && forall i :: 0 <= i < |p| ==> Agents(p, read)[i] == read(p[i].entry).agent
  {
    if p != [] {
      AllAgents(p[1..], read);
    }
  }

  lemma {:induction false} NoAgents(p: seq<Visit>, read: Reader)
    requires forall i :: 0 <= i < |p| ==> read(p[i].entry).Skip?
    ensures Agents(p, read) == []
  {
    if p != [] {
      NoAgents(p[1..], read);
    }
  }

  lemma PrefixAgents(p: seq<Visit>, read: Reader, m: nat)
    requires m <= |p| && forall i :: 0 <= i < |p| ==> read(p[i].entry).Keep?
    ensures |Agents(p[..m], read)| == m && forall i :: 0 <= i < m ==> Agents(p[..m], read)[i] == read(p[i].entry).agent
  {
    AllAgents(p[..m], read);
  }

  /** Of a list of agents the first 500 are kept. */
  lemma FirstAgentsKept(es: seq<Entry>, read: Reader)
    requires NeverCaps(read) && forall i :: 0 <= i < |es| ==> read(es[i]).Keep?
    ensures var kept := Walk(es, 0, EMPTY, read).agents;
      |kept| == (if |es| < 500 then |es| else 500) && forall i :: 0 <= i < |kept| ==> kept[i] == read(es[i]).agent
  {
    var p, seen := WalkedTo(es, read);
    PrefixAgents(p, read, seen);
    if seen > 500 {
      PrefixAgents(p, read, 500);
    } else if 0 < seen < |p| {
      assert !OutcomeOf(p[seen - 1], read).Fails?;
    }
  }

  lemma OneBehind(p: seq<Visit>, read: Reader, n: nat)
    requires |p| == n + 1 && (forall i :: 0 <= i < n ==> read(p[i].entry).Skip?) && read(p[n].entry).Keep?
    ensures forall m :: 0 <= m <= n ==> Agents(p[..m], read) == []
    ensures Agents(p, read) == [read(p[n].entry).agent]
  {
    forall m | 0 <= m <= n ensures Agents(p[..m], read) == [] {
      NoAgents(p[..m], read);
    }
    AgentsAppend(p[..n], p[n], read);
    assert p == p[..n] + [p[n]];
  }

  lemma ReachedOf(p: seq<Visit>, read: Reader, n: nat)
    requires |p| == n + 1 && (forall i :: 0 <= i < n ==> read(p[i].entry).Skip?) && read(p[n].entry).Keep?
    ensures Reaches(p, if n < 5000 then n + 1 else 5000, read)
  {
    OneBehind(p, read, n);
    assert p[..|p|] == p;
  }

  lemma AgentsReached(p: seq<Visit>, read: Reader, n: nat, seen: nat)
    requires |p| == n + 1 && (forall i :: 0 <= i < n ==> read(p[i].entry).Skip?) && read(p[n].entry).Keep?
    requires Reaches(p, seen, read)
    ensures Agents(p[..seen], read) == if n < 5000 then [read(p[n].entry).agent] else []
  {
    ReachedOf(p, read, n);
    ReachesUnique(p, seen, if n < 5000 then n + 1 else 5000, read);
    OneBehind(p, read, n);
    assert p[..|p|] == p;
  }

  lemma LastIsAgent(all: seq<Entry>, read: Reader, n: nat)
    requires NeverCaps(read) && |all| == n + 1 && (forall i :: 0 <= i < n ==> read(all[i]).Skip?) && read(all[n]).Keep?
    ensures Walk(all, 0, EMPTY, read).agents == if n < 5000 then [read(all[n]).agent] else []
  {
    var p, seen := WalkedTo(all, read);
    AgentsReached(p, read, n, seen);
  }

  /** A list without catalogs is walked entry by entry. */
  lemma WalkedTo(all: seq<Entry>, read: Reader) returns (p: seq<Visit>, seen: nat)
    requires NeverCaps(read) && NoneNested(all, read)
    ensures |p| == |all| && forall i :: 0 <= i < |all| ==> p[i].entry == all[i]
    ensures Reaches(p, seen, read) && Walk(all, 0, EMPTY, read).agents == Agents(p[..seen], read)
  {
    p, seen := Flatten(all, 0, read), Walk(all, 0, EMPTY, read).seen;
    TraversalIsATruncation(all, read);
    FlatList(all, 0, read);
  }

  /** An agent behind entries that are skipped is kept if they are fewer than 5000. */
  lemma LaterAgentKept(es: seq<Entry>, e: Entry, read: Reader)
    requires NeverCaps(read) && (forall i :: 0 <= i < |es| ==> read(es[i]).Skip?) && read(e).Keep?
    ensures Walk(es + [e], 0, EMPTY, read).agents == if |es| < 5000 then [read(e).agent] else []
  {
    var all := es + [e];
    assert all[|es|] == e && forall i :: 0 <= i < |es| ==> all[i] == es[i];
    LastIsAgent(all, read, |es|);
  }

  /** An entry inside so many catalogs. */
  function Nested(e: Entry, levels: nat): Entry {
    if levels == 0 then e
    else
      Entry(Absent, Absent, TypeText("application/ai-catalog+json"), Absent, Catalog([Nested(e, levels - 1)]), NoDescription)
  }

  lemma NestedReads(e: Entry, levels: nat, hostOf: HostOf)
    requires levels > 0
    ensures ReadEntry(Nested(e, levels), hostOf) == Recurse([Nested(e, levels - 1)])
  {}

  lemma OneVisit(e: Entry, depth: nat, read: Reader)
    ensures var o := OutcomeOf(Visit(e, depth), read);
      Flatten([e], depth, read) == [Visit(e, depth)] + (if o.Recurse? then Flatten(o.entries, depth + 1, read) else [])
  {
    assert [e][1..] == [];
  }

  lemma AgentsOfOne(e: Entry, depth: nat, read: Reader)
    ensures var o := OutcomeOf(Visit(e, depth), read);
      Agents(Flatten([e], depth, read), read)
        == if o.Keep? then [o.agent] else if o.Recurse? then Agents(Flatten(o.entries, depth + 1, read), read) else []
  {
    var o, v := OutcomeOf(Visit(e, depth), read), Visit(e, depth);
    OneVisit(e, depth, read);
    AgentsBehind(v, if o.Recurse? then Flatten(o.entries, depth + 1, read) else [], read);
  }

  lemma AgentsBehind(v: Visit, inner: seq<Visit>, read: Reader)
    ensures Agents([v] + inner, read) == (if OutcomeOf(v, read).Keep? then [OutcomeOf(v, read).agent] else []) + Agents(inner, read)
  {
    assert ([v] + inner)[1..] == inner;
  }

  lemma AgentsInside(n: Entry, inner: Entry, depth: nat, read: Reader)
    requires depth <= 3 && read(n) == Recurse([inner])
    ensures Agents(Flatten([n], depth, read), read) == if depth < 3 then Agents(Flatten([inner], depth + 1, read), read) else []
  {
    AgentsOfOne(n, depth, read);
  }

  /** Reading the outer catalogs gives the inner ones. */
  ghost predicate Unwraps(e: Entry, levels: nat, read: Reader) {
    forall k: nat :: 0 < k <= levels ==> read(Nested(e, k)) == Recurse([Nested(e, k - 1)])
  }

  lemma {:induction false} NestedAgents(e: Entry, levels: nat, depth: nat, read: Reader)
    requires Unwraps(e, levels, read) && depth <= 3 && read(e).Keep?
    ensures Agents(Flatten([Nested(e, levels)], depth, read), read) == if depth + levels <= 3 then [read(e).agent] else []
    decreases levels
  {
    if levels == 0 {
      AgentsOfOne(e, depth, read);
    } else {
      AgentsInside(Nested(e, levels), Nested(e, levels - 1), depth, read);
      if depth < 3 {
        NestedAgents(e, levels - 1, depth + 1, read);
      }
    }
  }

  /** Catalogs are descended into three levels deep. */
  lemma DeepAgentKept(e: Entry, levels: nat, hostOf: HostOf)
    requires ReadEntry(e, hostOf).Keep?
    ensures var read := CatalogReader(hostOf);
      Agents(Flatten([Nested(e, levels)], 0, read), read) == if levels <= 3 then [ReadEntry(e, hostOf).agent] else []
  {
    forall k: nat | 0 < k <= levels ensures ReadEntry(Nested(e, k), hostOf) == Recurse([Nested(e, k - 1)]) {
      NestedReads(e, k, hostOf);
    }
    NestedAgents(e, levels, 0, CatalogReader(hostOf));
  }
}
