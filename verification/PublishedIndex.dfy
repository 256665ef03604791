/** What publishing means for the index. */
module PublishedIndex {
  import opened Wrappers
  import opened Text
  import opened OrderedDict
  import opened ZoneStore
  import opened IndexText
  import opened AgentIndex
  import opened IndexSync
  import opened AgentParams
  import Publishing

  /** A name that is a single label of the zone. */
  predicate IsLeaf(name: string) {
    name != [] && '.' !in name && !Contains(name, AGENTS)
  }

  lemma IndexIsNoLeaf()
    ensures !IsLeaf(INDEX)
  {
    assert INDEX[6] == '.';
  }

  // ---- under which protocols an agent is discovered ----

  /** An owner in the older shape: it names an agent and a protocol by itself. */
  predicate Older(z: Zone, owner: string, e: Entry) {
    PrimaryAt(z, owner).Some? && Contains(owner, AGENTS) && Walkable(owner).None? && Legacy(owner) == Some(e)
  }

  ghost predicate OlderEntry(z: Zone, e: Entry) {
    exists owner :: Older(z, owner, e)
  }

  ghost predicate OlderOwner(z: Zone, name: string) {
    exists protocol :: OlderEntry(z, (name, protocol))
  }

  predicate Alias(z: Zone, owner: string, name: string) {
    PrimaryAt(z, owner).Some? && Contains(owner, AGENTS) && Walkable(owner) == Some(name)
  }

  ghost predicate AliasOwner(z: Zone, name: string) {
    exists owner :: Alias(z, owner, name)
  }

  lemma AtOwner(z: Zone, i: nat)
    requires Unique(z) && i < |z|
    ensures OwnerIn(z, z[i].key) == z[i].val
  {}

  lemma NamingIs(z: Zone, owner: string, e: Entry)
    requires Older(z, owner, e) || (Alias(z, owner, e.0) && e.1 == ProtocolOf(PrimaryAt(z, e.0)))
    ensures Found(z, Naming(z), e)
  {
    assert Naming(z)(z[Index(z, owner)]) == Some(e);
  }

  lemma NamingMeans(z: Zone, i: nat, e: Entry)
    requires Unique(z) && i < |z| && NamedEntry(z, z[i]) == Some(e)
    ensures Older(z, z[i].key, e) || (Alias(z, z[i].key, e.0) && e.1 == ProtocolOf(PrimaryAt(z, e.0)))
  {
    AtOwner(z, i);
  }

  lemma NamingFound(z: Zone, e: Entry)
    requires Unique(z)
    ensures Found(z, Naming(z), e) == (OlderEntry(z, e) || (AliasOwner(z, e.0) && e.1 == ProtocolOf(PrimaryAt(z, e.0))))
  {
    if Found(z, Naming(z), e) {
      var i :| 0 <= i < |z| && Naming(z)(z[i]) == Some(e);
      NamingMeans(z, i, e);
    }
    if owner :| Older(z, owner, e) {
      NamingIs(z, owner, e);
    }
    if AliasOwner(z, e.0) && e.1 == ProtocolOf(PrimaryAt(z, e.0)) {
      var owner :| Alias(z, owner, e.0);
      NamingIs(z, owner, e);
    }
  }

  lemma FlatFound(z: Zone, e: Entry)
    requires Unique(z) && OwnerIn(z, e.0).svcb.Some? && OwnerIn(z, e.0).txt.Some? && IsLeaf(e.0)
    ensures Found(z, FlatEntry, e) <==> e.1 == ProtocolOf(OwnerIn(z, e.0).svcb)
  {
    IndexIsNoLeaf();
    if Found(z, FlatEntry, e) {
      var i :| 0 <= i < |z| && FlatEntry(z[i]) == Some(e);
      FlatEntryIsNamed(z[i]);
      AtOwner(z, i);
    }
    var i := Index(z, e.0);
    assert FlatEntry(z[i]) == Some((e.0, ProtocolOf(z[i].val.svcb)));
  }

  lemma TakenBy(z: Zone, name: string)
    requires Unique(z)
    ensures NameTaken(z, name) <==> OlderOwner(z, name) || AliasOwner(z, name)
  {
    if NameTaken(z, name) {
      var e: Entry :| e.0 == name && Found(z, Naming(z), e);
      NamingFound(z, e);
      assert e == (name, e.1);
    }
    if OlderOwner(z, name) {
      var protocol :| OlderEntry(z, (name, protocol));
      NamingFound(z, (name, protocol));
    }
    if AliasOwner(z, name) {
      NamingFound(z, (name, ProtocolOf(PrimaryAt(z, name))));
    }
  }

  /** A leaf of the zone with an SVCB and a TXT record. */
  predicate FlatOwner(z: Zone, name: string) {
    name != INDEX && IsLeaf(name) && OwnerIn(z, name).svcb.Some? && OwnerIn(z, name).txt.Some?
  }

  lemma FlatIsOwner(z: Zone, e: Entry)
    requires Unique(z)
    ensures Found(z, FlatEntry, e) <==> FlatOwner(z, e.0) && e.1 == ProtocolOf(OwnerIn(z, e.0).svcb)
  {
    if Found(z, FlatEntry, e) {
      var i :| 0 <= i < |z| && FlatEntry(z[i]) == Some(e);
      FlatEntryIsNamed(z[i]);
      AtOwner(z, i);
    }
    if FlatOwner(z, e.0) && e.1 == ProtocolOf(OwnerIn(z, e.0).svcb) {
      FlatFound(z, e);
    }
  }

  /** Exactly what is discovered in a zone: what its older owners say; what its aliases name, under the protocol
      of the name's own record; and its leaves with both records that neither of those names. */
  lemma DiscoveredInWords(z: Zone, e: Entry)
    requires Unique(z)
    ensures (e in Discovered(z))
         == (|| OlderEntry(z, e)
             || (AliasOwner(z, e.0) && e.1 == ProtocolOf(PrimaryAt(z, e.0)))
             || (FlatOwner(z, e.0) && e.1 == ProtocolOf(OwnerIn(z, e.0).svcb) && !OlderOwner(z, e.0) && !AliasOwner(z, e.0)))
  {
    DiscoveredExactly(z, e);
    NamingFound(z, e);
    FlatIsOwner(z, e);
    TakenBy(z, e.0);
  }

  /** An agent with both records is discovered under the protocols its owners in the older shape name, and
      under that of its own record if there is no such owner or there is an alias. */
  lemma AgentEntries(z: Zone, e: Entry)
    requires Unique(z) && OwnerIn(z, e.0).svcb.Some? && OwnerIn(z, e.0).txt.Some? && IsLeaf(e.0)
    ensures e in Discovered(z)
      <==> OlderEntry(z, e) || (e.1 == ProtocolOf(OwnerIn(z, e.0).svcb) && (AliasOwner(z, e.0) || !OlderOwner(z, e.0)))
  {
    IndexIsNoLeaf();
    DiscoveredExactly(z, e);
    NamingFound(z, e);
    FlatFound(z, e);
    TakenBy(z, e.0);
    assert OlderEntry(z, e) ==> OlderEntry(z, (e.0, e.1));
  }

  // ---- a published agent ----

  lemma UniqueWrite(records: Records, zone: string, name: string, o: Owner, z: string)
    requires Unique(ZoneOf(records, z))
    ensures Unique(ZoneOf(Write(records, zone, name, o), z))
  {
    if z == zone {
      UniquePut(ZoneOf(records, zone), name, o);
    }
  }

  lemma CreateKeepsUnique(s: Store, answer: Responses, zone: string, name: string, r: Svcb, values: seq<string>, z: string)
    requires Unique(ZoneOf(s.records, z))
    ensures Unique(ZoneOf(CreateSvcb(s, answer, zone, name, r).0.records, z))
    ensures Unique(ZoneOf(CreateTxt(s, answer, zone, name, values).0.records, z))
  {
    UniqueWrite(s.records, zone, name, Look(s.records, zone, name).(svcb := Some(r)), z);
    UniqueWrite(s.records, zone, name, Look(s.records, zone, name).(txt := Some(values)), z);
  }

  lemma PrimaryKeepsUnique(s: Store, answer: Responses, a: Publishing.Agent, support: Publishing.Support)
    requires Unique(ZoneOf(s.records, a.domain))
    ensures Unique(ZoneOf(Publishing.WritePrimary(s, answer, a, support).0.records, a.domain))
  {
    var whole, part := Svcb(1, a.target, a.params), Svcb(1, a.target, Publishing.Standard(a.params));
    CreateKeepsUnique(s, answer, a.domain, a.name, whole, [], a.domain);
    CreateKeepsUnique(s, answer, a.domain, a.name, part, [], a.domain);
    CreateKeepsUnique(CreateSvcb(s, answer, a.domain, a.name, whole).0, answer, a.domain, a.name, part, [], a.domain);
  }

  lemma PublishKeepsUnique(s: Store, answer: Responses, a: Publishing.Agent, support: Publishing.Support)
    requires Unique(ZoneOf(s.records, a.domain))
    ensures Unique(ZoneOf(Publishing.Publish(s, answer, a, support).0.records, a.domain))
  {
    PrimaryKeepsUnique(s, answer, a, support);
    var (s1, primary) := Publishing.WritePrimary(s, answer, a, support);
    if primary.Some? {
      var values := Publishing.Metadata(a) + Publishing.Demoted(primary.value.1);
      CreateKeepsUnique(s1, answer, a.domain, a.name, Publishing.AliasOf(a), values, a.domain);
      var s2 := CreateTxt(s1, answer, a.domain, a.name, values).0;
      CreateKeepsUnique(s2, answer, a.domain, Publishing.WalkableName(a.name), Publishing.AliasOf(a), [], a.domain);
    }
  }

  function Value(ps: Publishing.Params, key: string): string {
    Param(Svcb(1, "", ps), key)
  }

  lemma {:induction false} StandardValue(ps: Publishing.Params, key: string)
    requires Unique(ps)
    ensures Value(Publishing.Standard(ps), key) == if key in Publishing.STANDARD then Value(ps, key) else []
  {
    if ps != [] {
      var front, last := ps[..|ps| - 1], ps[|ps| - 1];
      StandardValue(front, key);
      ValueAppend(front, last, key);
      assert ps == front + [last];
      if last.key in Publishing.STANDARD {
        StandardKeys(front);
        ValueAppend(Publishing.Standard(front), last, key);
      }
    }
  }

  lemma StandardKeys(ps: Publishing.Params)
    ensures forall p :: p in Publishing.Standard(ps) ==> p in ps
  {
    Publishing.SplitByStandard(ps);
  }

  lemma ValueAppend(ps: Publishing.Params, last: Item<string, string>, key: string)
    requires forall p :: p in ps ==> p.key != last.key
    ensures Value(ps + [last], key) == if key == last.key then last.val else Value(ps, key)
  {
    var i, j := Index(ps, key), Index(ps + [last], key);
    assert (ps + [last])[|ps|] == last;
    if i < |ps| {
      assert (ps + [last])[i] == ps[i] && ps[i] in ps;
      assert j == i;
    } else {
      assert forall k :: 0 <= k < |ps| ==> (ps + [last])[k] == ps[k];
    }
  }

  lemma AlpnIsStandard()
    ensures "alpn" in Publishing.STANDARD && "bap" !in Publishing.STANDARD
  {
    assert |"bap"| == 3 && forall k :: k in Publishing.STANDARD ==> |k| != 3 || k == "ech";
    assert "bap"[0] != "ech"[0];
  }

  // ---- the protocol of an agent record ----

  /** The one its `bap` is for, and without one its own. */
  function Intended(r: Record): string {
    match r.bap
    case Some(bap) => BapProtocol(bap)
    case None => ProtocolValue(r.protocol)
  }

  lemma PlainStrip(s: string, drop: char -> bool)
    requires s != [] && !drop(s[0]) && !drop(s[|s| - 1])
    ensures StripChars(s, drop) == s
  {}

  lemma SpaceIsNoAlnum(c: char)
    requires IsAlnum(c) || c == '.' || c == '_' || c == '-' || c == '='
    ensures !IsSpace(c) && c != ',' && c != '"' && c != '\n'
  {}

  lemma BapChars(s: string)
    requires IsBap(s)
    ensures var b := Chomp(s); b != [] && forall i :: 0 <= i < |b| ==> !IsSpace(b[i]) && b[i] != ',' && b[i] != '"'
  {
    var b := Chomp(s);
    var at := Find(b, "=");
    forall i | 0 <= i < |b| ensures !IsSpace(b[i]) && b[i] != ',' && b[i] != '"' {
      if i < at {
        assert b[..at][i] == b[i];
      } else if i == at {
        assert Text.At(b, "=", at);
        assert b[at] == b[at..at + 1][0];
      } else {
        assert b[at + 1..][i - at - 1] == b[i];
      }
      SpaceIsNoAlnum(b[i]);
    }
  }

  lemma StripChomps(s: string)
    requires Chomp(s) != [] && Trimmed(Chomp(s))
    ensures Strip(s) == Chomp(s)
  {
    var b := Chomp(s);
    if s != b {
      assert s == b + "\n";
      assert StripLeft(s, IsSpace) == s;
      assert s[..|s| - 1] == b;
      assert StripRight(s, IsSpace) == StripRight(b, IsSpace);
    }
  }

  lemma TokenCut(b: string, at: nat, name: string)
    requires Strip(b) == b && at == Find(b, "=") && name == b[..at] && Strip(name) == name
    ensures Token(b) == name
  {
    if at == |b| {
      assert name == b;
    }
  }

  /** No quotation mark, comma or white space to get rid of, but for a line break at the end. */
  lemma BapTrimmed(s: string)
    requires IsBap(s)
    ensures var b, name := Chomp(s), BapProtocol(s);
      && Trimmed(b) && Trimmed(name) && name != [] && ',' !in b
      && !IsDouble(s[0]) && !IsDouble(s[|s| - 1])
  {
    var b, name := Chomp(s), BapProtocol(s);
    BapChars(s);
    assert name[0] == b[0] && name[|name| - 1] == b[|name| - 1];
    assert s[0] == b[0];
  }

  lemma SpokenBare(s: string, b: string, token: string)
    requires StripChars(s, IsDouble) == s && Normalised(s) == b && Token(b) == token != []
    ensures Spoken(s) == token
  {}

  lemma NormalisedChomped(s: string, b: string)
    requires Strip(s) == b && ',' !in b
    ensures Normalised(s) == b
  {}

  /** The indexer reads the protocol out of a `bap` value. */
  lemma SpokenBap(s: string)
    requires IsBap(s)
    ensures Spoken(s) == BapProtocol(s)
  {
    var b, name := Chomp(s), BapProtocol(s);
    BapTrimmed(s);
    PlainStrip(s, IsDouble);
    StripChomps(s);
    NormalisedChomped(s, b);
    StripTrimmed(b);
    StripTrimmed(name);
    TokenCut(b, Find(b, "="), name);
    SpokenBare(s, b, name);
  }

  lemma SpokenProtocol(p: Protocol)
    ensures Spoken(ProtocolValue(p)) == ProtocolValue(p) && ProtocolValue(p) != []
  {
    BareBap(ProtocolValue(p));
    SpokenBap(ProtocolValue(p));
  }

  lemma KeyOfBap()
    ensures Key(true, 2) == "bap" && "bap" !in PUBLIC
    ensures forall n :: 0 <= n < 10 ==> Key(false, n) != "bap"
  {
    assert forall n :: 0 <= n < 10 ==> |Key(false, n)| == 8;
    assert "bap"[0] == 'b';
  }

  lemma AlpnValue(r: Record, stringKeys: bool)
    ensures Value(ToParams(r, stringKeys), "alpn") == ProtocolValue(r.protocol)
  {
    AlpnIsWritten(r, stringKeys);
  }

  /** Only under its own name can the indexer see `bap`. */
  lemma BapValue(r: Record, stringKeys: bool)
    ensures Value(ToParams(r, stringKeys), "bap") == if stringKeys && r.bap.Some? then r.bap.value else []
  {
    var ps := ToParams(r, stringKeys);
    KeyOfBap();
    if stringKeys {
      FieldsAreWritten(r, stringKeys, 2);
      if r.bap.Some? {
        BapChars(r.bap.value);
      }
      assert Get(ps, "bap") == r.bap;
    } else {
      ParamsWellFormed(r, stringKeys);
      Absent(ps, "bap");
    }
  }

  /** The protocol the indexer reads off the published record. */
  function Seen(r: Record, stringKeys: bool, demoted: bool): string {
    match r.bap
    case Some(bap) => if stringKeys && !demoted then BapProtocol(bap) else ProtocolValue(r.protocol)
    case None => ProtocolValue(r.protocol)
  }

  lemma StoredProtocol(r: Record, stringKeys: bool, demoted: bool)
    ensures var ps := ToParams(r, stringKeys);
      ProtocolOf(Some(Svcb(1, r.targetHost + ".", if demoted then Publishing.Standard(ps) else ps))) == Seen(r, stringKeys, demoted)
  {
    var ps := ToParams(r, stringKeys);
    ParamsWellFormed(r, stringKeys);
    AlpnValue(r, stringKeys);
    BapValue(r, stringKeys);
    StandardValue(ps, "bap");
    StandardValue(ps, "alpn");
    AlpnIsStandard();
    SpokenProtocol(r.protocol);
    if r.bap.Some? {
      SpokenBap(r.bap.value);
      BapChars(r.bap.value);
    }
  }

  lemma NoAgentsAt(name: Label, i: nat)
    ensures !Text.At(name, AGENTS, i)
  {
    if i + 7 <= |name| {
      assert name[i..i + 7][0] == name[i];
    }
  }

  lemma LabelIsLeaf(name: Label)
    ensures IsLeaf(name) && IsName(name)
  {
    NoAgentsAt(name, Find(name, AGENTS));
    forall i | 0 <= i < |name| ensures IsNameChar(name[i]) && name[i] != '.' {}
  }

  lemma AliasIsNotOlder(name: Label)
    ensures Walkable(Publishing.WalkableName(name)) == Some(name)
  {
    var owner := Publishing.WalkableName(name);
    LabelIsLeaf(name);
    assert owner[|owner| - 1] == 's';
    assert owner[|owner| - 8..] == "._agents" && owner[..|owner| - 8] == name;
    LowerFixed("._agents");
  }

  /** The owners that unpublishing removes besides the primary one are those the indexer recognises. */
  lemma NamesAreRecognised(name: Label, protocol: string)
    requires OwnerChars(protocol, false)
    ensures Walkable(Publishing.WalkableName(name)) == Some(name)
    ensures Legacy(Publishing.LegacyName(name, protocol)) == Some((name, protocol))
  {
    var owner := Publishing.LegacyName(name, protocol);
    AliasIsNotOlder(name);
    assert owner == "_" + name + "._" + protocol + "._agents";
    assert owner[|owner| - 1] == 's';
    LowerFixed("._agents");
    forall i | 0 <= i < |name| ensures OwnerChars([name[i]], true) {}
    LegacyExactly(owner, name, protocol);
  }

  /** Publishing leaves the owners in the older shape alone. */
  lemma OlderKept(s: Store, answer: Responses, r: Record, stringKeys: bool, support: Publishing.Support, owner: string, e: Entry)
    ensures var after := Publishing.Publish(s, answer, ToAgent(r, stringKeys), support).0.records;
      Older(ZoneOf(after, r.domain), owner, e) == Older(ZoneOf(s.records, r.domain), owner, e)
  {
    ParamsWellFormed(r, stringKeys);
    Publishing.PublishLands(s, answer, ToAgent(r, stringKeys), support, r.domain, owner);
    LabelIsLeaf(r.name);
    AliasIsNotOlder(r.name);
  }

  /** What the next sync discovers of a published agent: what the owners in the older shape say, which are
      those of before, and the protocol seen in its own record. */
  lemma PublishedIsDiscovered(s: Store, answer: Responses, r: Record, stringKeys: bool, support: Publishing.Support, e: Entry)
    requires Unique(ZoneOf(s.records, r.domain)) && e.0 == r.name
    requires Publishing.Publish(s, answer, ToAgent(r, stringKeys), support).1
    ensures var before := ZoneOf(s.records, r.domain);
      var z := ZoneOf(Publishing.Publish(s, answer, ToAgent(r, stringKeys), support).0.records, r.domain);
      var demoted := Publishing.Demotes(answer, s.calls, ToAgent(r, stringKeys), support);
      (e in Discovered(z))
      == (OlderEntry(before, e)
          || (e.1 == Seen(r, stringKeys, demoted) && (AliasOwner(z, r.name) || !OlderOwner(before, r.name))))
  {
    var a := ToAgent(r, stringKeys);
    var before, z := ZoneOf(s.records, r.domain), ZoneOf(Publishing.Publish(s, answer, a, support).0.records, r.domain);
    ParamsWellFormed(r, stringKeys);
    Publishing.PublishLands(s, answer, a, support, a.domain, a.name);
    PublishKeepsUnique(s, answer, a, support);
    Publishing.PublishedOwner(s, answer, a, support);
    StoredProtocol(r, stringKeys, Publishing.Demotes(answer, s.calls, a, support));
    LabelIsLeaf(r.name);
    AgentEntries(z, e);
    forall owner, f ensures Older(z, owner, f) == Older(before, owner, f) {
      OlderKept(s, answer, r, stringKeys, support, owner, f);
    }
    SameOlder(before, z);
  }

  /** It is discovered under some protocol whatever owners there are. */
  lemma PublishedIsListed(s: Store, answer: Responses, r: Record, stringKeys: bool, support: Publishing.Support)
    requires Unique(ZoneOf(s.records, r.domain)) && Publishing.Publish(s, answer, ToAgent(r, stringKeys), support).1
    ensures var z := ZoneOf(Publishing.Publish(s, answer, ToAgent(r, stringKeys), support).0.records, r.domain);
      exists e :: e in Discovered(z) && e.0 == r.name
  {
    var before := ZoneOf(s.records, r.domain);
    if OlderOwner(before, r.name) {
      var protocol :| OlderEntry(before, (r.name, protocol));
      PublishedIsDiscovered(s, answer, r, stringKeys, support, (r.name, protocol));
    } else {
      var demoted := Publishing.Demotes(answer, s.calls, ToAgent(r, stringKeys), support);
      PublishedIsDiscovered(s, answer, r, stringKeys, support, (r.name, Seen(r, stringKeys, demoted)));
    }
  }

  lemma SameOlder(z: Zone, z': Zone)
    requires forall owner, e :: Older(z, owner, e) == Older(z', owner, e)
    ensures forall e :: OlderEntry(z, e) == OlderEntry(z', e)
    ensures forall name :: OlderOwner(z, name) == OlderOwner(z', name)
  {
    forall e ensures OlderEntry(z, e) == OlderEntry(z', e) {
      if owner :| Older(z, owner, e) {
        assert Older(z', owner, e);
      }
      if owner :| Older(z', owner, e) {
        assert Older(z, owner, e);
      }
    }
  }

  /** The record shows the intended protocol exactly if `bap` names no other than `protocol`, or private
      parameters are written under their names and were not demoted. */
  lemma SeenExactly(r: Record, stringKeys: bool, demoted: bool)
    ensures Seen(r, stringKeys, demoted) == Intended(r)
      <==> r.bap.None? || BapProtocol(r.bap.value) == ProtocolValue(r.protocol) || (stringKeys && !demoted)
  {}

  /** Where no older owner names the agent before it is published, that decides whether it is discovered
      under the intended protocol. */
  lemma ProtocolKeptExactly(s: Store, answer: Responses, r: Record, stringKeys: bool, support: Publishing.Support)
    requires Unique(ZoneOf(s.records, r.domain)) && !OlderOwner(ZoneOf(s.records, r.domain), r.name)
    requires Publishing.Publish(s, answer, ToAgent(r, stringKeys), support).1
    ensures var z := ZoneOf(Publishing.Publish(s, answer, ToAgent(r, stringKeys), support).0.records, r.domain);
      var demoted := Publishing.Demotes(answer, s.calls, ToAgent(r, stringKeys), support);
      ((r.name, Intended(r)) in Discovered(z))
      == (r.bap.None? || BapProtocol(r.bap.value) == ProtocolValue(r.protocol) || (stringKeys && !demoted))
  {
    var e := (r.name, Intended(r));
    PublishedIsDiscovered(s, answer, r, stringKeys, support, e);
    SeenExactly(r, stringKeys, Publishing.Demotes(answer, s.calls, ToAgent(r, stringKeys), support));
    assert e == (r.name, e.1);
  }

  /** Under numbered keys a `bap` for another protocol is overlooked, whatever the backend supports. */
  lemma Overlooked(s: Store, answer: Responses, r: Record, support: Publishing.Support)
    requires Unique(ZoneOf(s.records, r.domain)) && !OlderOwner(ZoneOf(s.records, r.domain), r.name)
    requires Publishing.Publish(s, answer, ToAgent(r, false), support).1
    requires r.bap.Some? && BapProtocol(r.bap.value) != ProtocolValue(r.protocol)
    ensures var z := ZoneOf(Publishing.Publish(s, answer, ToAgent(r, false), support).0.records, r.domain);
      (r.name, ProtocolValue(r.protocol)) in Discovered(z) && (r.name, Intended(r)) !in Discovered(z)
  {
    PublishedIsDiscovered(s, answer, r, false, support, (r.name, ProtocolValue(r.protocol)));
    ProtocolKeptExactly(s, answer, r, false, support);
  }

  lemma PublishedAtOnce(s: Store, answer: Responses, a: Publishing.Agent)
    requires answer(s.calls).Obeys? && answer(s.calls + 1).Obeys?
    ensures Publishing.Publish(s, answer, a, Publishing.Yes).1
  {}

  /** An agent for MCP whose `bap` says A2A. */
  const ODD := Record("x", "z.test", MCP, "host.test", 443, None, None, None, None, Some(A2aBap()), None, None, None, None,
                      None, None, None, [], "1.0.0", "", [], "", false)

  function A2aBap(): (s: Bap)
    ensures s == "a2a"
  {
    BareBap("a2a");
    "a2a"
  }

  lemma OddIs()
    ensures ODD.name == "x" && ODD.domain == "z.test" && ProtocolValue(ODD.protocol) == "mcp"
    ensures ODD.bap == Some("a2a") && Intended(ODD) == BapProtocol("a2a") == "a2a"
  {
    BareBap("a2a");
  }

  lemma NothingOlder(name: string)
    ensures Unique(ZoneOf(map[], ODD.domain)) && !OlderOwner(ZoneOf(map[], ODD.domain), name)
  {
    assert ZoneOf(map[], ODD.domain) == [];
  }

  /** Published under the default key style by a backend that supports every parameter and does as asked, it
      is listed for MCP. */
  lemma OverlookedExample(answer: Responses)
    requires forall i: nat :: answer(i).Obeys?
    ensures var published := Publishing.Publish(Store(map[], 0), answer, ToAgent(ODD, false), Publishing.Yes);
      && published.1
      && Intended(ODD) == "a2a"
      && ("x", "mcp") in Discovered(ZoneOf(published.0.records, "z.test"))
      && ("x", "a2a") !in Discovered(ZoneOf(published.0.records, "z.test"))
  {
    var s := Store(map[], 0);
    OddIs();
    PublishedAtOnce(s, answer, ToAgent(ODD, false));
    NothingOlder(ODD.name);
    Overlooked(s, answer, ODD, Publishing.Yes);
  }
}
