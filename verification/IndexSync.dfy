/** Rebuilding the index of a zone from the agents published in it. */
module IndexSync {
  import opened Wrappers
  import opened Text
  import opened Ordering
  import opened OrderedDict
  import opened ZoneStore
  import opened IndexText
  import opened AgentIndex

  const UNKNOWN := "unknown"
  const AGENTS := "_agents"

  // ---- recognising owners ----

  predicate IsNameChar(c: char) {
    var l := LowerChar(c);
    'a' <= l <= 'z' || '0' <= l <= '9' || l == '-'
  }

  predicate IsName(s: string) {
    s != [] && forall i :: 0 <= i < |s| ==> IsNameChar(s[i])
  }

  predicate IsProtocol(s: string) {
    IsName(s) && '-' !in s
  }

  /** What stands before `._agents`, in any case. */
  function Stem(owner: string): Option<string> {
    var s := Chomp(owner);
    if |s| >= 8 && Lower(s[|s| - 8..]) == "._agents" then Some(s[..|s| - 8]) else None
  }

  /** `name._agents`. */
  function Walkable(owner: string): Option<string> {
    match Stem(owner)
    case Some(name) => if IsName(name) then Some(name) else None
    case None => None
  }

  /** `_name._protocol._agents`. */
  function Legacy(owner: string): Option<Entry> {
    match Stem(owner)
    case None => None
    case Some(s) => OlderParts(s)
  }

  function OlderParts(s: string): Option<Entry> {
    var at := Find(s, ".");
    if at + 1 >= |s| || s[0] != '_' || s[at + 1] != '_' then None
    else if !IsName(s[1..at]) || !IsProtocol(s[at + 2..]) then None
    else Some((s[1..at], s[at + 2..]))
  }

  /** Letters of either case, digits, and hyphens if they are allowed. */
  predicate OwnerChars(s: string, hyphens: bool) {
    s != [] && forall i :: 0 <= i < |s| ==>
      'a' <= s[i] <= 'z' || 'A' <= s[i] <= 'Z' || '0' <= s[i] <= '9' || (hyphens && s[i] == '-')
  }

  lemma NameChars(s: string)
    ensures IsName(s) <==> OwnerChars(s, true)
    ensures IsProtocol(s) <==> OwnerChars(s, false)
  {}

  lemma StemIs(owner: string, stem: string)
    ensures Stem(owner) == Some(stem) <==> exists end :: Chomp(owner) == stem + end && Lower(end) == "._agents"
  {
    var s := Chomp(owner);
    if Stem(owner) == Some(stem) {
      assert s == stem + s[|s| - 8..];
    }
    if end :| s == stem + end && Lower(end) == "._agents" {
      assert |end| == 8 && s[|s| - 8..] == end && s[..|s| - 8] == stem;
    }
  }

  /** The aliases: a name in front of `._agents` in any case. */
  lemma WalkableExactly(owner: string, name: string)
    ensures Walkable(owner) == Some(name)
       <==> OwnerChars(name, true) && exists end :: Chomp(owner) == name + end && Lower(end) == "._agents"
  {
    NameChars(name);
    StemIs(owner, name);
  }

  lemma FirstDot(a: string, b: string)
    requires '.' !in a
    ensures Find(a + ("." + b), ".") == |a|
  {
    var s := a + ("." + b);
    assert s[|a|..|a| + 1] == ".";
    assert Text.At(s, ".", |a|);
    forall j: nat | j < |a| ensures !Text.At(s, ".", j) {
      assert s[j] == a[j];
      assert s[j..j + 1][0] == s[j];
    }
  }

  function OlderStem(name: string, protocol: string): string {
    "_" + name + "._" + protocol
  }

  lemma NoDotInName(name: string)
    requires OwnerChars(name, true)
    ensures '.' !in "_" + name
  {}

  lemma DotInStem(name: string, protocol: string)
    requires OwnerChars(name, true)
    ensures var s := OlderStem(name, protocol);
      var at := Find(s, ".");
      at == |name| + 1 && at + 1 < |s| && s[0] == '_' && s[at + 1] == '_' && s[1..at] == name && s[at + 2..] == protocol
  {
    NoDotInName(name);
    FirstDot("_" + name, "_" + protocol);
    assert OlderStem(name, protocol) == ("_" + name) + ("." + ("_" + protocol));
  }

  lemma StemOfParts(s: string)
    requires OlderParts(s).Some?
    ensures s == OlderStem(OlderParts(s).value.0, OlderParts(s).value.1)
  {
    var at := Find(s, ".");
    assert Text.At(s, ".", at);
    assert s[at..at + 1] == ".";
    assert s == s[..1] + s[1..at] + s[at..at + 1] + s[at + 1..at + 2] + s[at + 2..];
  }

  lemma OlderPartsExactly(s: string, name: string, protocol: string)
    ensures OlderParts(s) == Some((name, protocol))
       <==> OwnerChars(name, true) && OwnerChars(protocol, false) && s == OlderStem(name, protocol)
  {
    NameChars(name);
    NameChars(protocol);
    if OlderParts(s) == Some((name, protocol)) {
      StemOfParts(s);
    }
    if OwnerChars(name, true) && s == OlderStem(name, protocol) {
      DotInStem(name, protocol);
    }
  }

  /** The older owners: a name and a protocol, each after an underscore, in front of `._agents`. */
  lemma LegacyExactly(owner: string, name: string, protocol: string)
    ensures Legacy(owner) == Some((name, protocol))
       <==> && OwnerChars(name, true) && OwnerChars(protocol, false)
            && exists end :: Chomp(owner) == "_" + name + "._" + protocol + end && Lower(end) == "._agents"
  {
    StemIs(owner, OlderStem(name, protocol));
    if Stem(owner).Some? {
      OlderPartsExactly(Stem(owner).value, name, protocol);
    }
  }

  // ---- the protocol of a primary record ----

  function FirstToken(tokens: seq<string>): string {
    if tokens == [] then [] else if Strip(tokens[0]) != [] then Strip(tokens[0]) else FirstToken(tokens[1..])
  }

  /** Empty when there is no usable value. */
  function Normalised(value: string): string {
    var s := Strip(value);
    if ',' in s then FirstToken(Split(s, ',')) else s
  }

  /** The part before a version. */
  function Token(value: string): string {
    var s := Strip(value);
    var at := Find(s, "=");
    if at == |s| then s else Strip(s[..at])
  }

  function Param(r: Svcb, key: string): string {
    match Get(r.params, key)
    case Some(v) => v
    case None => []
  }

  function ProtocolOf(r: Option<Svcb>): string {
    if r.None? then UNKNOWN
    else
      var bap := Param(r.value, "bap");
      Spoken(if bap != [] then bap else Param(r.value, "alpn"))
  }

  /** The protocol a parameter value names. */
  function Spoken(raw: string): string {
    var token := Token(Normalised(StripChars(raw, IsDouble)));
    if token != [] then token else UNKNOWN
  }

  /** Of a list the first token that is not empty counts. */
  lemma {:induction false} FirstTokenCounts(tokens: seq<string>, i: nat)
    requires i < |tokens| && Strip(tokens[i]) != [] && forall j :: 0 <= j < i ==> Strip(tokens[j]) == []
    ensures FirstToken(tokens) == Strip(tokens[i])
  {
    if i > 0 {
      assert tokens[1..][i - 1] == tokens[i] && forall j :: 0 <= j < i - 1 ==> tokens[1..][j] == tokens[j + 1];
      FirstTokenCounts(tokens[1..], i - 1);
    }
  }

  // ---- discovery ----

  /** An SVCB owner other than the index itself. */
  predicate Primary(item: Item<string, Owner>) {
    item.key != [] && item.key != INDEX && item.val.svcb.Some?
  }

  function PrimaryAt(z: Zone, name: string): Option<Svcb> {
    if name != [] && name != INDEX then OwnerIn(z, name).svcb else None
  }

  /** The entry an owner under `_agents` stands for. */
  function NamedEntry(z: Zone, item: Item<string, Owner>): Option<Entry> {
    if !Primary(item) || !Contains(item.key, AGENTS) then None
    else
      match Walkable(item.key)
      case Some(name) => Some((name, ProtocolOf(PrimaryAt(z, name))))
      case None => Legacy(item.key)
  }

  /** What an owner contributes to the index, if anything. */
  type Reading = Item<string, Owner> -> Option<Entry>

  /** The contributions of the first `n` owners. */
  function Collect(z: Zone, n: nat, read: Reading): seq<Entry>
    requires n <= |z|
  {
    if n == 0 then [] else Collect(z, n - 1, read) + OptionSeq(read(z[n - 1]))
  }

  function NamesOf(es: seq<Entry>): set<string> {
    set e | e in es :: e.0
  }

  /** A leaf with a companion TXT record. */
  function FlatEntry(item: Item<string, Owner>): Option<Entry> {
    if Primary(item) && !Contains(item.key, AGENTS) && '.' !in item.key && item.val.txt.Some? then
      Some((item.key, ProtocolOf(item.val.svcb)))
    else None
  }

  function Naming(z: Zone): Reading {
    item => NamedEntry(z, item)
  }

  /** Flat owners count unless their name is indexed already. */
  function Unless(indexed: set<string>, read: Reading): Reading {
    (item: Item<string, Owner>) => if item.key in indexed then None else read(item)
  }

  function Discovered(z: Zone): seq<Entry> {
    var named := Collect(z, |z|, Naming(z));
    named + Collect(z, |z|, Unless(NamesOf(named), FlatEntry))
  }

  /** One pass over the owners, noting the names indexed. */
  method Pass(z: Zone, read: Reading) returns (entries: seq<Entry>, indexed: set<string>)
    ensures entries == Collect(z, |z|, read) && indexed == NamesOf(entries)
  {
    entries, indexed := [], {};
    var i := 0;
    while i < |z|
      invariant 0 <= i <= |z| && entries == Collect(z, i, read) && indexed == NamesOf(entries)
    {
      var entry := read(z[i]);
      if entry.Some? {
        entries, indexed := entries + [entry.value], indexed + {entry.value.0};
      }
      i := i + 1;
    }
  }

  /** A second pass that leaves out names already indexed, its own included. */
  method PassOver(z: Zone, read: Reading, names: set<string>) returns (entries: seq<Entry>)
    requires Unique(z)
    ensures entries == Collect(z, |z|, Unless(names, read))
  {
    entries := [];
    var indexed, i := names, 0;
    while i < |z|
      invariant 0 <= i <= |z| && entries == Collect(z, i, Unless(names, read))
      invariant forall j :: i <= j < |z| ==> (z[j].key in indexed <==> z[j].key in names)
    {
      if z[i].key !in indexed {
        var entry := read(z[i]);
        if entry.Some? {
          entries, indexed := entries + [entry.value], indexed + {z[i].key};
        }
      }
      i := i + 1;
    }
  }

  method Discover(z: Zone) returns (discovered: seq<Entry>)
    requires Unique(z)
    ensures discovered == Discovered(z)
  {
    var named, indexed := Pass(z, Naming(z));
    var flat := PassOver(z, FlatEntry, indexed);
    discovered := named + flat;
  }

  // ---- what is discovered ----

  ghost predicate Found(z: Zone, read: Reading, e: Entry) {
    exists i :: 0 <= i < |z| && read(z[i]) == Some(e)
  }

  lemma {:induction false} CollectMembers(z: Zone, n: nat, read: Reading, e: Entry)
    requires n <= |z|
    ensures e in Collect(z, n, read) <==> exists i :: 0 <= i < n && read(z[i]) == Some(e)
  {
    if n > 0 {
      CollectMembers(z, n - 1, read, e);
    }
  }

  ghost predicate NameTaken(z: Zone, name: string) {
    exists e: Entry :: e.0 == name && Found(z, Naming(z), e)
  }

  lemma UnlessFound(z: Zone, indexed: set<string>, read: Reading, e: Entry)
    requires forall item, f :: read(item) == Some(f) ==> f.0 == item.key
    ensures Found(z, Unless(indexed, read), e) <==> Found(z, read, e) && e.0 !in indexed
  {
    forall i | 0 <= i < |z|
      ensures Unless(indexed, read)(z[i]) == Some(e) <==> read(z[i]) == Some(e) && e.0 !in indexed
    {}
  }

  lemma FlatEntryIsNamed(item: Item<string, Owner>)
    ensures FlatEntry(item).Some? ==> FlatEntry(item).value.0 == item.key
  {}

  /** Exactly what is discovered: what the alias and older owners name, and each flat owner with both
      records whose name none of those has. */
  lemma DiscoveredExactly(z: Zone, e: Entry)
    ensures e in Discovered(z) <==> Found(z, Naming(z), e) || (Found(z, FlatEntry, e) && !NameTaken(z, e.0))
  {
    var naming := Naming(z);
    var named := Collect(z, |z|, naming);
    forall f: Entry ensures f in named <==> Found(z, naming, f) {
      CollectMembers(z, |z|, naming, f);
    }
    assert e.0 in NamesOf(named) <==> NameTaken(z, e.0);
    CollectMembers(z, |z|, Unless(NamesOf(named), FlatEntry), e);
    forall item: Item<string, Owner>, f: Entry | FlatEntry(item) == Some(f) ensures f.0 == item.key {
      FlatEntryIsNamed(item);
    }
    UnlessFound(z, NamesOf(named), FlatEntry, e);
  }

  // ---- syncing ----

  /** What a sync returns: the entries it leaves, the differences its message counts, and whether an index
      was made; or the entries known when it failed. */
  datatype Sync =
    | Synced(entries: seq<Entry>, added: set<Entry>, removed: set<Entry>, created: bool)
    | NotSynced(entries: seq<Entry>)

  function Difference(discovered: seq<Entry>, current: seq<Entry>): Sync {
    Synced(discovered, EntrySet(discovered) - EntrySet(current), EntrySet(current) - EntrySet(discovered),
           current == [] && discovered != [])
  }

  const NOTHING_TO_SYNC := Synced([], {}, {}, false)

  /** Nothing was added or removed. */
  predicate Still(r: Sync) {
    r.Synced? && r.added == {} && r.removed == {}
  }

  /** The two listings, one for each record type. */
  function Scan(s: Store, answer: Responses, domain: string): (Store, Option<Zone>) {
    var (s1, svcb) := List(s, answer, domain);
    if !svcb.complete then (s1, None)
    else
      var (s2, txt) := List(s1, answer, domain);
      (s2, if txt.complete then Some(txt.owners) else None)
  }

  /** Write what was discovered, unless there is nothing to write or clear. */
  function WriteDiscovered(s: Store, answer: Responses, domain: string, discovered: seq<Entry>, current: seq<Entry>): (Store, Sync) {
    if discovered == [] && current == [] then (s, NOTHING_TO_SYNC)
    else
      var (s', ok) := CreateTxt(s, answer, domain, INDEX, [Format(discovered)]);
      (s', if ok then Difference(discovered, current) else NotSynced(current))
  }

  function Syncing(s: Store, answer: Responses, domain: string, served: bool): (Store, Sync) {
    if !served then (s, NotSynced([]))
    else
      var (s1, owners) := Scan(s, answer, domain);
      if owners.None? then (s1, NotSynced([]))
      else
        var (s2, current) := Read(s1, answer, domain);
        WriteDiscovered(s2, answer, domain, Discovered(owners.value), current)
  }

  method SyncIndex(b: Backend, domain: string) returns (r: Sync)
    requires Unique(ZoneOf(b.records, domain))
    modifies b
    ensures (b.Now(), r) == Syncing(old(b.Now()), b.answer, domain, b.ZoneExists(domain))
  {
    if !b.ZoneExists(domain) {
      return NotSynced([]);
    }
    var svcb := b.ListRecords(domain);
    if !svcb.complete {
      return NotSynced([]);
    }
    var txt := b.ListRecords(domain);
    if !txt.complete {
      return NotSynced([]);
    }
    var discovered := Discover(txt.owners);
    var current := ReadIndex(b, domain);
    if discovered == [] && current == [] {
      return NOTHING_TO_SYNC;
    }
    var ok := b.CreateTxtRecord(domain, INDEX, [Format(discovered)]);
    r := if ok then Difference(discovered, current) else NotSynced(current);
  }

  // ---- syncing twice ----

  lemma {:induction false} CollectAgrees(z: Zone, z': Zone, n: nat, read: Reading, read': Reading)
    requires n <= |z| && n <= |z'|
    requires forall i :: 0 <= i < n ==> read(z[i]) == read'(z'[i])
    ensures Collect(z, n, read) == Collect(z', n, read')
  {
    if n > 0 {
      CollectAgrees(z, z', n - 1, read, read');
    }
  }

  lemma CollectPut(z: Zone, o: Owner, read: Reading, read': Reading)
    requires forall item: Item<string, Owner> :: read(item) == read'(item)
    requires forall item: Item<string, Owner> :: item.key == INDEX ==> read(item) == None
    ensures var z' := Put(z, INDEX, o); Collect(z', |z'|, read') == Collect(z, |z|, read)
  {
    var z' := Put(z, INDEX, o);
    var i := Index(z, INDEX);
    forall j | 0 <= j < |z| ensures read(z[j]) == read'(z'[j]) {
      if j == i {
        assert z[j].key == INDEX && z'[j].key == INDEX;
      }
    }
    CollectAgrees(z, z', |z|, read, read');
    if i == |z| {
      assert z'[|z|].key == INDEX;
      assert Collect(z', |z|, read') + [] == Collect(z', |z|, read');
    }
  }

  lemma NamingAgrees(z: Zone, z': Zone, item: Item<string, Owner>)
    requires forall name :: PrimaryAt(z, name) == PrimaryAt(z', name)
    ensures Naming(z)(item) == Naming(z')(item)
  {}

  lemma PrimaryAfter(z: Zone, values: seq<string>, name: string)
    ensures PrimaryAt(TxtOwner(z, values), name) == PrimaryAt(z, name)
  {
    var o := OwnerIn(z, INDEX).(txt := Some(values));
    if name != INDEX {
      PutOther(z, INDEX, o, name);
    }
  }

  lemma NotTheIndex(z: Zone, item: Item<string, Owner>)
    requires item.key == INDEX
    ensures Naming(z)(item) == None && FlatEntry(item) == None
  {}

  /** Writing the index does not change what is discovered. */
  lemma DiscoveredIgnoresIndex(z: Zone, values: seq<string>)
    ensures Discovered(TxtOwner(z, values)) == Discovered(z)
  {
    var z' := TxtOwner(z, values);
    var o := OwnerIn(z, INDEX).(txt := Some(values));
    var flat: Reading := FlatEntry;
    forall name ensures PrimaryAt(z, name) == PrimaryAt(z', name) {
      PrimaryAfter(z, values, name);
    }
    forall item: Item<string, Owner>
      ensures Naming(z)(item) == Naming(z')(item)
      ensures item.key == INDEX ==> Naming(z)(item) == None && flat(item) == None
    {
      NamingAgrees(z, z', item);
      if item.key == INDEX {
        NotTheIndex(z, item);
      }
    }
    CollectPut(z, o, Naming(z), Naming(z'));
    var names := NamesOf(Collect(z, |z|, Naming(z)));
    CollectPut(z, o, Unless(names, flat), Unless(names, flat));
  }

  predicate Quiet(answer: Responses, first: nat) {
    answer(first).Obeys? && answer(first + 1).Obeys? && answer(first + 2).Obeys?
  }

  ghost predicate NoQuotes(es: seq<Entry>) {
    forall e :: e in es ==> !EndsInQuote(e.1)
  }

  lemma QuietSync(s: Store, answer: Responses, domain: string)
    requires Quiet(answer, s.calls)
    ensures var z := ZoneOf(s.records, domain);
      Syncing(s, answer, domain, true) == WriteDiscovered(s.(calls := s.calls + 3), answer, domain, Discovered(z), ReadZone(z))
  {
    var s2 := s.(calls := s.calls + 2);
    assert Scan(s, answer, domain) == (s2, Some(ZoneOf(s.records, domain)));
    assert Read(s2, answer, domain) == (s.(calls := s.calls + 3), ReadZone(ZoneOf(s.records, domain)));
  }

  /** The zone after writing what was discovered, and what is reported. */
  ghost predicate Reached(z: Zone, z': Zone, discovered: seq<Entry>, current: seq<Entry>, r: Sync) {
    && Good(z') && (z' == z || z' == TxtOwner(z, [Format(discovered)]))
    && ReadZone(z') == ReadText(Format(discovered))
    && r == Difference(discovered, current)
  }

  lemma ReachedNothing(z: Zone)
    requires Good(z) && ReadZone(z) == []
    ensures Reached(z, z, [], [], NOTHING_TO_SYNC)
  {
    EmptyReadsBack();
    StillMeansEqual([], []);
  }

  lemma ReachedText(s: Store, answer: Responses, domain: string, discovered: seq<Entry>, current: seq<Entry>)
    requires Good(ZoneOf(s.records, domain)) && CreateTxt(s, answer, domain, INDEX, [Format(discovered)]).1
    ensures var z' := ZoneOf(CreateTxt(s, answer, domain, INDEX, [Format(discovered)]).0.records, domain);
      Reached(ZoneOf(s.records, domain), z', discovered, current, Difference(discovered, current))
  {
    TextReads(s, answer, domain, Format(discovered));
  }

  lemma WriteReads(s: Store, answer: Responses, domain: string, discovered: seq<Entry>, current: seq<Entry>)
    requires Good(ZoneOf(s.records, domain)) && ReadZone(ZoneOf(s.records, domain)) == current
    requires WriteDiscovered(s, answer, domain, discovered, current).1.Synced?
    ensures var (s', r) := WriteDiscovered(s, answer, domain, discovered, current);
      Reached(ZoneOf(s.records, domain), ZoneOf(s'.records, domain), discovered, current, r)
  {
    if discovered == [] && current == [] {
      ReachedNothing(ZoneOf(s.records, domain));
    } else {
      ReachedText(s, answer, domain, discovered, current);
    }
  }

  lemma EmptyReadsBack()
    ensures ReadText(Format([])) == []
  {
    EmptyFormat();
    EmptyTextReads();
  }

  lemma TextReads(s: Store, answer: Responses, domain: string, txt: string)
    requires Good(ZoneOf(s.records, domain))
    ensures var (s', ok) := CreateTxt(s, answer, domain, INDEX, [txt]);
      var z' := ZoneOf(s'.records, domain);
      ok ==> Good(z') && z' == TxtOwner(ZoneOf(s.records, domain), [txt]) && ReadZone(z') == ReadText(txt)
  {
    WriteTextReads(s, answer, domain, txt);
    TxtZone(s, answer, domain, [txt]);
  }

  /** A zone that is not served or cannot be listed to the end, for either record type, is left alone, and the
      sync fails without entries; where the text cannot be written it fails with those that were read. */
  lemma SyncFails(s: Store, answer: Responses, domain: string, served: bool)
    ensures !served || Fails(answer(s.calls)) || Fails(answer(s.calls + 1)) ==>
      Syncing(s, answer, domain, served).1 == NotSynced([]) && Syncing(s, answer, domain, served).0.records == s.records
    ensures served && !Fails(answer(s.calls)) && !Fails(answer(s.calls + 1)) ==>
      var (s', r) := Syncing(s, answer, domain, served);
      var current := ReadZone(Yielded(ZoneOf(s.records, domain), answer(s.calls + 2)));
      var discovered := Discovered(ZoneOf(s.records, domain));
      r.Synced? == ((discovered == [] && current == []) || !Fails(answer(s.calls + 3))) && (!r.Synced? ==> r.entries == current)
  {
    var s1 := s.(calls := s.calls + 1);
    var s2 := s.(calls := s.calls + 2);
    assert List(s, answer, domain).0 == s1 && List(s1, answer, domain).0 == s2;
    if served && !Fails(answer(s.calls)) && !Fails(answer(s.calls + 1)) {
      assert Scan(s, answer, domain) == (s2, Some(ZoneOf(s.records, domain)));
    }
  }

  /** Where nothing is discovered and nothing is read, nothing is written. */
  lemma NothingToSync(s: Store, answer: Responses, domain: string)
    requires Quiet(answer, s.calls)
    requires Discovered(ZoneOf(s.records, domain)) == [] && ReadZone(ZoneOf(s.records, domain)) == []
    ensures Syncing(s, answer, domain, true) == (s.(calls := s.calls + 3), Synced([], {}, {}, false))
  {
    QuietSync(s, answer, domain);
  }

  /** The index after a sync in which nothing failed reads as the text of what was discovered. */
  lemma SyncReads(s: Store, answer: Responses, domain: string)
    requires Good(ZoneOf(s.records, domain)) && Quiet(answer, s.calls)
    requires Syncing(s, answer, domain, true).1.Synced?
    ensures var z, (s', r) := ZoneOf(s.records, domain), Syncing(s, answer, domain, true);
      var z' := ZoneOf(s'.records, domain);
      && Good(z')
      && Discovered(z') == Discovered(z)
      && ReadZone(z') == ReadText(Format(Discovered(z)))
      && r.entries == Discovered(z)
      && r.added == EntrySet(Discovered(z)) - EntrySet(ReadZone(z))
      && r.removed == EntrySet(ReadZone(z)) - EntrySet(Discovered(z))
      && (r.created <==> ReadZone(z) == [] && Discovered(z) != [])
  {
    var z := ZoneOf(s.records, domain);
    QuietSync(s, answer, domain);
    WriteReads(s.(calls := s.calls + 3), answer, domain, Discovered(z), ReadZone(z));
    DiscoveredIgnoresIndex(z, [Format(Discovered(z))]);
  }

  /** A second sync of an unchanged zone adds and removes nothing exactly when everything discovered is
      storable (lower-case protocols, no comma or colon in a name) and the end of its text is kept: no final
      quotation mark on the last entry, or an entry that is there twice and clips to nothing new. */
  lemma SecondSyncIsStill(s: Store, answer: Responses, domain: string)
    requires Good(ZoneOf(s.records, domain))
    requires Quiet(answer, s.calls) && Syncing(s, answer, domain, true).1.Synced?
    requires var s1 := Syncing(s, answer, domain, true).0;
      Quiet(answer, s1.calls) && Syncing(s1, answer, domain, true).1.Synced?
    ensures var s1 := Syncing(s, answer, domain, true).0;
      var discovered := Discovered(ZoneOf(s.records, domain));
      Still(Syncing(s1, answer, domain, true).1) <==> AllStorable(discovered) && EndKept(Sort(discovered, PairLe))
  {
    var s1 := Syncing(s, answer, domain, true).0;
    var discovered := Discovered(ZoneOf(s.records, domain));
    SyncReads(s, answer, domain);
    SyncReads(s1, answer, domain);
    ListReadsBackExactly(discovered);
    StillMeans(Syncing(s1, answer, domain, true).1, discovered, ReadZone(ZoneOf(s1.records, domain)));
  }

  lemma StillMeansEqual(a: seq<Entry>, b: seq<Entry>)
    ensures Still(Difference(a, b)) <==> EntrySet(a) == EntrySet(b)
  {}

  lemma StillMeans(r: Sync, a: seq<Entry>, b: seq<Entry>)
    requires r.Synced? && r.added == EntrySet(a) - EntrySet(b) && r.removed == EntrySet(b) - EntrySet(a)
    ensures Still(r) <==> EntrySet(a) == EntrySet(b)
  {}

  // ---- which zones are still ----

  predicate PlainProtocol(p: string) {
    p != [] && Trimmed(p) && ',' !in p && IsLower(p) && !EndsInQuote(p)
  }

  /** An owner in lower case, whose protocol is plain too. */
  ghost predicate Ordinary(item: Item<string, Owner>) {
    && IsLower(item.key)
    && Trimmed(item.key) && ',' !in item.key && ':' !in item.key
    && (item.val.svcb.Some? ==> PlainProtocol(ProtocolOf(item.val.svcb)))
  }

  lemma NamesAreStorable(name: string)
    requires IsName(name)
    ensures Trimmed(name) && ',' !in name && ':' !in name && !EndsInQuote(name)
  {}

  lemma StemIsPrefix(owner: string)
    ensures Stem(owner).Some? ==> Stem(owner).value <= owner
  {}

  lemma LegacyIsPlain(owner: string)
    requires IsLower(owner) && Legacy(owner).Some?
    ensures Storable(Legacy(owner).value) && PlainProtocol(Legacy(owner).value.1)
  {
    var s := Stem(owner).value;
    var at := Find(s, ".");
    StemIsPrefix(owner);
    NamesAreStorable(s[1..at]);
    NamesAreStorable(s[at + 2..]);
    assert s[at + 2..] == owner[at + 2..|s|];
    LowerSlice(owner, at + 2, |s|);
  }

  lemma LowerSlice(s: string, i: nat, j: nat)
    requires i <= j <= |s| && IsLower(s)
    ensures IsLower(s[i..j])
  {}

  lemma UnknownIsPlain()
    ensures ProtocolOf(None) == UNKNOWN == "unknown" && PlainProtocol(UNKNOWN)
  {}

  lemma PrimaryIsPlain(z: Zone, name: string)
    requires forall i :: 0 <= i < |z| ==> Ordinary(z[i])
    ensures PlainProtocol(ProtocolOf(PrimaryAt(z, name)))
  {
    UnknownIsPlain();
    if PrimaryAt(z, name).Some? {
      var item := z[Index(z, name)];
      assert Ordinary(item) && item.val.svcb == PrimaryAt(z, name);
    }
  }

  lemma WalkableIsName(owner: string)
    ensures Walkable(owner).Some? ==> IsName(Walkable(owner).value)
  {}

  lemma NamedIsPlain(z: Zone, item: Item<string, Owner>)
    requires (forall i :: 0 <= i < |z| ==> Ordinary(z[i])) && Ordinary(item)
    ensures NamedEntry(z, item).Some? ==> Storable(NamedEntry(z, item).value) && PlainProtocol(NamedEntry(z, item).value.1)
  {
    if Walkable(item.key).Some? {
      var name := Walkable(item.key).value;
      WalkableIsName(item.key);
      NamesAreStorable(name);
      PrimaryIsPlain(z, name);
    } else if Legacy(item.key).Some? {
      LegacyIsPlain(item.key);
    }
  }

  lemma FlatIsPlain(item: Item<string, Owner>)
    requires Ordinary(item)
    ensures FlatEntry(item).Some? ==> Storable(FlatEntry(item).value) && PlainProtocol(FlatEntry(item).value.1)
  {}

  lemma PlainEndIsKept(es: seq<Entry>)
    requires AllStorable(es) && NoQuotes(es)
    ensures EndKept(Sort(es, PairLe))
  {
    if es != [] {
      var front, last := SortEnds(es);
      LastKept(last);
      EndKeptIs(front, last);
    }
  }

  /** In a zone of lower-case owners without comma, colon or outer white space, whose protocols are lower
      case without comma or final quotation mark, a second sync is still. */
  lemma OrdinaryZoneIsStill(z: Zone)
    requires forall i :: 0 <= i < |z| ==> Ordinary(z[i])
    ensures AllStorable(Discovered(z)) && EndKept(Sort(Discovered(z), PairLe))
  {
    OrdinaryZoneIsStorable(z);
    PlainEndIsKept(Discovered(z));
  }

  lemma OrdinaryZoneIsStorable(z: Zone)
    requires forall i :: 0 <= i < |z| ==> Ordinary(z[i])
    ensures AllStorable(Discovered(z)) && NoQuotes(Discovered(z))
  {
    forall e | e in Discovered(z) ensures Storable(e) && !EndsInQuote(e.1) {
      DiscoveredExactly(z, e);
      if Found(z, Naming(z), e) {
        var i :| 0 <= i < |z| && Naming(z)(z[i]) == Some(e);
        NamedIsPlain(z, z[i]);
      } else {
        var i :| 0 <= i < |z| && FlatEntry(z[i]) == Some(e);
        FlatIsPlain(z[i]);
      }
    }
  }

  // ---- a case where it is not ----

  const LOUD := Owner(Some(Svcb(1, "chat.example.com.", [Item("alpn", "H2")])), Some(["version=1"]))

  lemma LoudToken()
    ensures ProtocolOf(LOUD.svcb) == "H2"
  {
    var r := LOUD.svcb.value;
    LoudParams(r);
    BareToken("H2");
    ProtocolFrom(r, "H2");
  }

  lemma LoudParams(r: Svcb)
    requires r.params == [Item("alpn", "H2")]
    ensures Param(r, "bap") == [] && Param(r, "alpn") == "H2"
  {
    assert "bap" != "alpn";
  }

  lemma ProtocolFrom(r: Svcb, token: string)
    requires Param(r, "bap") == [] && Param(r, "alpn") == token && token != []
    requires Token(Normalised(StripChars(token, IsDouble))) == token
    ensures ProtocolOf(Some(r)) == token
  {}

  /** A value without space, comma, quote or version is its own token. */
  lemma BareToken(t: string)
    requires t != [] && Trimmed(t) && ',' !in t && '=' !in t && t[0] != '"' && t[|t| - 1] != '"'
    ensures Token(Normalised(StripChars(t, IsDouble))) == t
  {
    StripTrimmed(t);
    BareValue(t);
    NoVersion(t);
  }

  lemma BareValue(t: string)
    requires t != [] && t[0] != '"' && t[|t| - 1] != '"'
    ensures StripChars(t, IsDouble) == t
  {}

  lemma AtIsIn(t: string, i: nat)
    requires i < |t| && Text.At(t, "=", i)
    ensures '=' in t
  {
    assert t[i..i + 1][0] == t[i];
  }

  lemma NoVersion(t: string)
    requires '=' !in t
    ensures Find(t, "=") == |t|
  {
    var at := Find(t, "=");
    if at < |t| {
      AtIsIn(t, at);
    }
  }

  lemma NotUnderAgents()
    ensures !Contains("chat", AGENTS)
  {
    assert forall i: nat :: i < 4 ==> !Text.At("chat", AGENTS, i);
  }

  lemma FlatIs(item: Item<string, Owner>, token: string)
    requires Primary(item) && !Contains(item.key, AGENTS) && '.' !in item.key && item.val.txt.Some?
    requires ProtocolOf(item.val.svcb) == token
    ensures FlatEntry(item) == Some((item.key, token))
  {}

  lemma LoudIsPrimary(item: Item<string, Owner>)
    requires item == Item("chat", LOUD)
    ensures Primary(item) && '.' !in item.key && item.val.txt.Some? && IsLower(item.key)
  {
    assert |item.key| != |INDEX|;
  }

  lemma LoudIsNotNamed(z: Zone, item: Item<string, Owner>)
    requires item.key == "chat"
    ensures Naming(z)(item) == None
  {
    NotUnderAgents();
  }

  lemma LoudIsNotStorable(name: string)
    ensures !Storable((name, "H2"))
  {
    assert 'A' <= "H2"[0] <= 'Z';
  }

  lemma FlatDiscovered(z: Zone, e: Entry)
    requires |z| == 1 && Naming(z)(z[0]) == None && FlatEntry(z[0]) == Some(e)
    ensures e in Discovered(z)
  {
    DiscoveredExactly(z, e);
    assert Found(z, FlatEntry, e);
    NothingNamed(z, Naming(z));
  }

  lemma NothingNamed(z: Zone, read: Reading)
    requires |z| == 1 && read(z[0]) == None
    ensures forall f :: !Found(z, read, f)
  {}

  /** Lower-case owner names are not enough: a flat owner whose `alpn` is `H2` is indexed in upper case and
      read back in lower case, so each sync would add and remove it again. */
  lemma UpperCaseTokenExample(item: Item<string, Owner>)
    requires item == Item("chat", LOUD)
    ensures IsLower(item.key) && Unique([item]) && (item.key, "H2") in Discovered([item]) && !AllStorable(Discovered([item]))
  {
    LoudToken();
    LoudIsPrimary(item);
    NotUnderAgents();
    FlatIs(item, "H2");
    LoudIsNotNamed([item], item);
    FlatDiscovered([item], (item.key, "H2"));
    LoudIsNotStorable(item.key);
  }
}
